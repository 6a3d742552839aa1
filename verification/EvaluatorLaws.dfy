/** Facts about whole runs of the evaluator: results do not depend on the fuel, and a scope runs the initialisers of
    its definitions, in their order, in front of its body (src/Language.ml:456-590). */
module EvaluatorLaws {
  import opened Wrappers
  import opened LamaValues
  import opened LamaSource

  // ---- fuel ----

  /** With more fuel a run ends in the same way. */
  lemma {:induction false} MoreFuel(e: Expr, c: Conf, fuel: nat, more: nat)
    requires Eval(e, c, fuel).Some? && more >= fuel
    ensures Eval(e, c, more) == Eval(e, c, fuel)
    decreases fuel, 1
  {
    hide Eval;
    match e
    case Const(_) => LeafMore(e, c, fuel, more);
    case Str(_) => LeafMore(e, c, fuel, more);
    case VarOf(_) => LeafMore(e, c, fuel, more);
    case RefOf(_) => LeafMore(e, c, fuel, more);
    case Skip => LeafMore(e, c, fuel, more);
    case Unit => LeafMore(e, c, fuel, more);
    case Arr(_) => ListedMore(e, c, fuel, more);
    case Sexp(_, _) => ListedMore(e, c, fuel, more);
    case Binop(_, _, _) => ListedMore(e, c, fuel, more);
    case ElemOf(_, _) => ListedMore(e, c, fuel, more);
    case ElemRef(_, _) => ListedMore(e, c, fuel, more);
    case Call(_, _) => ListedMore(e, c, fuel, more);
    case Assign(_, _) => ListedMore(e, c, fuel, more);
    case Seq(_, _) => SeqMore(e, c, fuel, more);
    case Ignore(_) => SeqMore(e, c, fuel, more);
    case If(_, _, _) => IfMore(e, c, fuel, more);
    case While(_, _) => WhileMore(e, c, fuel, more);
    case DoWhile(_, _) => SeqMore(e, c, fuel, more);
    case Case(_, _) => CaseMore(e, c, fuel, more);
    case Scope(_, _) => ScopeMore(e, c, fuel, more);
  }

  predicate Leaf(e: Expr) { e.Const? || e.Str? || e.VarOf? || e.RefOf? || e.Skip? || e.Unit? }

  lemma LeafMore(e: Expr, c: Conf, fuel: nat, more: nat)
    requires Leaf(e) && Eval(e, c, fuel).Some? && more >= fuel
    ensures Eval(e, c, more) == Eval(e, c, fuel)
  {
    hide LookUp, Allocate;
  }

  /** The expressions that work on the values of a list of operands. */
  function Operands(e: Expr): seq<Expr> {
    match e
    case Arr(items) => items
    case Sexp(_, items) => items
    case Binop(_, x, y) => [x, y]
    case ElemOf(b, i) => [b, i]
    case ElemRef(b, i) => [b, i]
    case Call(f, args) => [f] + args
    case Assign(x, s) => [x, s]
    case _ => []
  }

  predicate Listed(e: Expr) { e.Arr? || e.Sexp? || e.Binop? || e.ElemOf? || e.ElemRef? || e.Call? || e.Assign? }

  lemma {:induction false} ListedMore(e: Expr, c: Conf, fuel: nat, more: nat)
    requires Listed(e) && Eval(e, c, fuel).Some? && more >= fuel
    ensures Eval(e, c, more) == Eval(e, c, fuel)
    decreases fuel, 0
  {
    hide Eval, EvalList;
    ListedUses(e, c, fuel, more);
    ListMore(Operands(e), c, fuel - 1, more - 1);
  }

  lemma ListedUses(e: Expr, c: Conf, fuel: nat, more: nat)
    requires Listed(e) && Eval(e, c, fuel).Some? && more >= fuel
    ensures fuel > 0 && EvalList(Operands(e), c, fuel - 1).Some?
    ensures EvalList(Operands(e), c, more - 1) == EvalList(Operands(e), c, fuel - 1) ==>
      Eval(e, c, more) == Eval(e, c, fuel)
  {
    hide EvalList, Operate, CallBuiltin, StoreThrough, Take, BottomUp, Allocate;
  }

  lemma {:induction false} ListMore(es: seq<Expr>, c: Conf, fuel: nat, more: nat)
    requires EvalList(es, c, fuel).Some? && more >= fuel
    ensures EvalList(es, c, more) == EvalList(es, c, fuel)
    decreases fuel, 2
  {
    hide Eval;
    if es != [] {
      MoreFuel(es[0], c, fuel - 1, more - 1);
      ListMore(es[1..], Eval(es[0], c, fuel - 1).value, fuel - 1, more - 1);
    }
  }

  lemma {:induction false} SeqMore(e: Expr, c: Conf, fuel: nat, more: nat)
    requires (e.Seq? || e.Ignore? || e.DoWhile?) && Eval(e, c, fuel).Some? && more >= fuel
    ensures Eval(e, c, more) == Eval(e, c, fuel)
    decreases fuel, 0
  {
    SeqUses(e, c, fuel);
    SeqUses(e, c, more);
    hide Eval;
    var first := FirstOf(e);
    MoreFuel(first, c, fuel - 1, more - 1);
    if !e.Ignore? {
      MoreFuel(SecondOf(e), Eval(first, c, fuel - 1).value, fuel - 1, more - 1);
    }
  }

  function FirstOf(e: Expr): Expr
    requires e.Seq? || e.Ignore? || e.DoWhile?
  {
    match e
    case Seq(a, _) => a
    case Ignore(s) => s
    case DoWhile(s, _) => s
  }

  function SecondOf(e: Expr): Expr
    requires e.Seq? || e.DoWhile?
  {
    match e
    case Seq(_, b) => b
    case DoWhile(s, cond) => While(cond, s)
  }

  lemma SeqUses(e: Expr, c: Conf, fuel: nat)
    requires (e.Seq? || e.Ignore? || e.DoWhile?) && fuel > 0
    ensures
      var r := Eval(FirstOf(e), c, fuel - 1);
      Eval(e, c, fuel) ==
      if r.None? then None
      else if e.Ignore? then (if r.value.stack.Cons? then Some(r.value.(stack := r.value.stack.tail)) else None)
      else Eval(SecondOf(e), r.value, fuel - 1)
  {
  }

  lemma {:induction false} IfMore(e: Expr, c: Conf, fuel: nat, more: nat)
    requires e.If? && Eval(e, c, fuel).Some? && more >= fuel
    ensures Eval(e, c, more) == Eval(e, c, fuel)
    decreases fuel, 0
  {
    IfUses(e, c, fuel);
    IfUses(e, c, more);
    hide Eval;
    MoreFuel(e.cond, c, fuel - 1, more - 1);
    var c1 := Eval(e.cond, c, fuel - 1).value;
    MoreFuel(if c1.stack.head.n != 0 then e.thn else e.els, c1.(stack := c1.stack.tail), fuel - 1, more - 1);
  }

  lemma IfUses(e: Expr, c: Conf, fuel: nat)
    requires e.If? && fuel > 0
    ensures
      var r := Eval(e.cond, c, fuel - 1);
      Eval(e, c, fuel) ==
      if r.None? || !Numbered(r.value) then None
      else Eval(if r.value.stack.head.n != 0 then e.thn else e.els, r.value.(stack := r.value.stack.tail), fuel - 1)
  {
  }

  predicate Numbered(c: Conf) { c.stack.Cons? && c.stack.head.Int? }

  lemma {:induction false} WhileMore(e: Expr, c: Conf, fuel: nat, more: nat)
    requires e.While? && Eval(e, c, fuel).Some? && more >= fuel
    ensures Eval(e, c, more) == Eval(e, c, fuel)
    decreases fuel, 0
  {
    WhileUses(e, c, fuel);
    WhileUses(e, c, more);
    hide Eval;
    MoreFuel(e.cond, c, fuel - 1, more - 1);
    var c1 := Eval(e.cond, c, fuel - 1).value;
    if c1.stack.head.n != 0 {
      MoreFuel(e.body, c1.(stack := c1.stack.tail), fuel - 1, more - 1);
      MoreFuel(e, Eval(e.body, c1.(stack := c1.stack.tail), fuel - 1).value, fuel - 1, more - 1);
    }
  }

  lemma WhileUses(e: Expr, c: Conf, fuel: nat)
    requires e.While? && fuel > 0
    ensures
      var r := Eval(e.cond, c, fuel - 1);
      if r.None? || !Numbered(r.value) then Eval(e, c, fuel) == None
      else
        var c1 := r.value.(stack := r.value.stack.tail);
        if r.value.stack.head.n == 0 then Eval(e, c, fuel) == Some(c1)
        else
          var s := Eval(e.body, c1, fuel - 1);
          Eval(e, c, fuel) == if s.None? then None else Eval(e, s.value, fuel - 1)
  {
  }

  lemma {:induction false} CaseMore(e: Expr, c: Conf, fuel: nat, more: nat)
    requires e.Case? && Eval(e, c, fuel).Some? && more >= fuel
    ensures Eval(e, c, more) == Eval(e, c, fuel)
    decreases fuel, 0
  {
    CaseUses(e, c, fuel);
    CaseUses(e, c, more);
    hide Eval, EvalBranches;
    MoreFuel(e.scrutinee, c, fuel - 1, more - 1);
    var c1 := Eval(e.scrutinee, c, fuel - 1).value;
    BranchesMore(e.branches, c1.stack.head, c1.(stack := c1.stack.tail), fuel - 1, more - 1);
  }

  lemma CaseUses(e: Expr, c: Conf, fuel: nat)
    requires e.Case? && fuel > 0
    ensures
      var r := Eval(e.scrutinee, c, fuel - 1);
      Eval(e, c, fuel) ==
      if r.None? || r.value.stack.Nil? then None
      else EvalBranches(e.branches, r.value.stack.head, r.value.(stack := r.value.stack.tail), fuel - 1)
  {
    hide EvalBranches;
  }

  lemma {:induction false} BranchesMore(bs: seq<Branch>, v: Value, c: Conf, fuel: nat, more: nat)
    requires EvalBranches(bs, v, c, fuel).Some? && more >= fuel
    ensures EvalBranches(bs, v, c, more) == EvalBranches(bs, v, c, fuel)
    decreases fuel, 2
  {
    hide Eval, MatchPatt, PushScope, DropScope, Tagged, Vars;
    var b := MatchPatt(bs[0].pattern, v, c.world.store, Some(map[]));
    if b.None? {
      BranchesMore(bs[1..], v, c, fuel - 1, more - 1);
    } else {
      MoreFuel(bs[0].body, c.(st := PushScope(c.st, b.value, Tagged(Vars(bs[0].pattern), Unmut))), fuel - 1, more - 1);
    }
  }

  lemma {:induction false} ScopeMore(e: Expr, c: Conf, fuel: nat, more: nat)
    requires e.Scope? && Eval(e, c, fuel).Some? && more >= fuel
    ensures Eval(e, c, more) == Eval(e, c, fuel)
    decreases fuel, 0
  {
    ScopeUses(e.defs, e.scoped, c, fuel);
    ScopeUses(e.defs, e.scoped, c, more);
    hide Eval, PushScope, DropScope, Tagged, NamesOf, Initialised;
    MoreFuel(Initialised(e.defs, e.scoped), Entered(c, e.defs), fuel - 1, more - 1);
  }

  function Entered(c: Conf, defs: seq<Def>): Conf {
    c.(st := PushScope(c.st, map[], Tagged(NamesOf(defs), Mut)))
  }

  function Left(r: Option<Conf>): Option<Conf> {
    var c :- r;
    var st :- DropScope(c.st);
    Some(c.(st := st))
  }

  lemma ScopeUses(defs: seq<Def>, body: Expr, c: Conf, fuel: nat)
    requires fuel > 0
    ensures Eval(Scope(defs, body), c, fuel) == Left(Eval(Initialised(defs, body), Entered(c, defs), fuel - 1))
  {
    hide PushScope, DropScope, Tagged, NamesOf, Initialised;
  }

  /** There is one result at most. */
  lemma ResultUnique(e: Expr, c: Conf, fuel: nat, fuel': nat)
    requires Eval(e, c, fuel).Some? && Eval(e, c, fuel').Some?
    ensures Eval(e, c, fuel) == Eval(e, c, fuel')
  {
    hide Eval;
    if fuel <= fuel' {
      MoreFuel(e, c, fuel, fuel');
    } else {
      MoreFuel(e, c, fuel', fuel);
    }
  }

  // ---- runs ----

  ghost predicate Ends(e: Expr, c: Conf, r: Conf) { exists fuel: nat :: EndsIn(e, c, r, fuel) }

  ghost predicate EndsIn(e: Expr, c: Conf, r: Conf, fuel: nat) { Eval(e, c, fuel) == Some(r) }

  lemma EndsOnce(e: Expr, c: Conf, r: Conf, r': Conf)
    requires Ends(e, c, r) && Ends(e, c, r')
    ensures r == r'
  {
    hide Eval;
    var n: nat :| EndsIn(e, c, r, n);
    var k: nat :| EndsIn(e, c, r', k);
    ResultUnique(e, c, n, k);
  }

  lemma EndsLater(e: Expr, c: Conf, r: Conf, fuel: nat, more: nat)
    requires EndsIn(e, c, r, fuel) && more >= fuel
    ensures EndsIn(e, c, r, more)
  {
    hide Eval;
    MoreFuel(e, c, fuel, more);
  }

  /** One expression after the other. */
  lemma SeqEnds(a: Expr, b: Expr, c: Conf, r: Conf)
    ensures Ends(Seq(a, b), c, r) <==> exists mid :: Ends(a, c, mid) && Ends(b, mid, r)
  {
    if Ends(Seq(a, b), c, r) {
      var n: nat :| EndsIn(Seq(a, b), c, r, n);
      SeqSplits(a, b, c, r, n);
    }
    if mid :| Ends(a, c, mid) && Ends(b, mid, r) {
      SeqJoins(a, b, c, mid, r);
    }
  }

  lemma SeqSplits(a: Expr, b: Expr, c: Conf, r: Conf, n: nat)
    requires EndsIn(Seq(a, b), c, r, n)
    ensures exists mid :: Ends(a, c, mid) && Ends(b, mid, r)
  {
    if n > 0 {
      SeqUses(Seq(a, b), c, n);
    }
    assert n > 0;
    hide Eval;
    var mid := Eval(a, c, n - 1).value;
    assert EndsIn(a, c, mid, n - 1) && EndsIn(b, mid, r, n - 1);
    assert Ends(a, c, mid) && Ends(b, mid, r);
  }

  lemma SeqJoins(a: Expr, b: Expr, c: Conf, mid: Conf, r: Conf)
    requires Ends(a, c, mid) && Ends(b, mid, r)
    ensures Ends(Seq(a, b), c, r)
  {
    hide Eval;
    var n: nat :| EndsIn(a, c, mid, n);
    var k: nat :| EndsIn(b, mid, r, k);
    EndsLater(a, c, mid, n, n + k);
    EndsLater(b, mid, r, k, n + k);
    SeqUses(Seq(a, b), c, n + k + 1);
    assert EndsIn(Seq(a, b), c, r, n + k + 1);
  }

  /** A loop is its condition and, as long as that holds, its body in front of the loop. */
  lemma WhileUnrolls(cond: Expr, s: Expr, c: Conf, r: Conf)
    ensures Ends(While(cond, s), c, r) <==> Ends(If(cond, Seq(s, While(cond, s)), Skip), c, r)
  {
    hide Eval;
    var loop, once := While(cond, s), If(cond, Seq(s, While(cond, s)), Skip);
    if Ends(loop, c, r) {
      var n: nat :| EndsIn(loop, c, r, n);
      LoopUnrolled(cond, s, c, r, n);
      assert EndsIn(once, c, r, n + 2);
    }
    if Ends(once, c, r) {
      var n: nat :| EndsIn(once, c, r, n);
      LoopRolled(cond, s, c, r, n);
      assert EndsIn(loop, c, r, n + 1);
    }
  }

  lemma NoFuel(e: Expr, c: Conf)
    ensures Eval(e, c, 0) == None
  {
  }

  lemma SkipStays(c: Conf, fuel: nat)
    requires fuel > 0
    ensures Eval(Skip, c, fuel) == Some(c)
  {
  }

  lemma LoopUnrolled(cond: Expr, s: Expr, c: Conf, r: Conf, n: nat)
    requires EndsIn(While(cond, s), c, r, n)
    ensures EndsIn(If(cond, Seq(s, While(cond, s)), Skip), c, r, n + 2)
  {
    hide Eval;
    NoFuel(While(cond, s), c);
    WhileUses(While(cond, s), c, n);
    IfUses(If(cond, Seq(s, While(cond, s)), Skip), c, n + 2);
    MoreFuel(cond, c, n - 1, n + 1);
    var c1 := Eval(cond, c, n - 1).value;
    var c2 := c1.(stack := c1.stack.tail);
    if c1.stack.head.n != 0 {
      SeqUses(Seq(s, While(cond, s)), c2, n + 1);
      MoreFuel(s, c2, n - 1, n);
      MoreFuel(While(cond, s), Eval(s, c2, n - 1).value, n - 1, n);
    } else {
      SkipStays(c2, n + 1);
    }
  }

  lemma LoopRolled(cond: Expr, s: Expr, c: Conf, r: Conf, n: nat)
    requires EndsIn(If(cond, Seq(s, While(cond, s)), Skip), c, r, n)
    ensures EndsIn(While(cond, s), c, r, n + 1)
  {
    hide Eval;
    NoFuel(If(cond, Seq(s, While(cond, s)), Skip), c);
    IfUses(If(cond, Seq(s, While(cond, s)), Skip), c, n);
    WhileUses(While(cond, s), c, n + 1);
    MoreFuel(cond, c, n - 1, n);
    var c1 := Eval(cond, c, n - 1).value;
    var c2 := c1.(stack := c1.stack.tail);
    if c1.stack.head.n != 0 {
      NoFuel(Seq(s, While(cond, s)), c2);
      SeqUses(Seq(s, While(cond, s)), c2, n - 1);
      MoreFuel(s, c2, n - 2, n);
      MoreFuel(While(cond, s), Eval(s, c2, n - 2).value, n - 2, n);
    } else {
      NoFuel(Skip, c2);
      SkipStays(c2, n - 1);
    }
  }

  /** The other loop runs its body once before. */
  lemma DoWhileEnds(s: Expr, cond: Expr, c: Conf, r: Conf)
    ensures Ends(DoWhile(s, cond), c, r) <==> Ends(Seq(s, While(cond, s)), c, r)
  {
    hide Eval;
    forall n: nat ensures EndsIn(DoWhile(s, cond), c, r, n) <==> EndsIn(Seq(s, While(cond, s)), c, r, n) {
      if n > 0 {
        SeqUses(DoWhile(s, cond), c, n);
        SeqUses(Seq(s, While(cond, s)), c, n);
      } else {
        NoFuel(DoWhile(s, cond), c);
        NoFuel(Seq(s, While(cond, s)), c);
      }
    }
  }

  // ---- scopes ----

  /** A definition without initialiser does nothing, one with it assigns its variable. */
  ghost predicate Initialises(d: Def, c: Conf, c': Conf) {
    match d.init
    case None => c' == c
    case Some(v) => Ends(Ignore(Assign(RefOf(d.name), v)), c, c')
  }

  /** From c to c' by the initialisers in the order of the definitions. */
  ghost predicate InitialisesAll(defs: seq<Def>, c: Conf, c': Conf, cs: seq<Conf>) {
    && |cs| == |defs| + 1 && cs[0] == c && cs[|defs|] == c'
    && forall i :: 0 <= i < |defs| ==> Initialises(defs[i], cs[i], cs[i + 1])
  }

  lemma {:induction false} InitialisersRun(defs: seq<Def>, body: Expr, c: Conf, r: Conf)
    requires Ends(Initialised(defs, body), c, r)
    ensures exists c', cs :: InitialisesAll(defs, c, c', cs) && Ends(body, c', r)
    decreases |defs|
  {
    hide Ends;
    if defs == [] {
      assert InitialisesAll(defs, c, c, [c]);
    } else {
      var rest := Initialised(defs[1..], body);
      var mid := c;
      if defs[0].init.Some? {
        SeqEnds(Ignore(Assign(RefOf(defs[0].name), defs[0].init.value)), rest, c, r);
        mid :| Ends(Ignore(Assign(RefOf(defs[0].name), defs[0].init.value)), c, mid) && Ends(rest, mid, r);
      }
      InitialisersRun(defs[1..], body, mid, r);
      var c', cs :| InitialisesAll(defs[1..], mid, c', cs) && Ends(body, c', r);
      FirstInitialises(defs, c, mid, c', cs);
    }
  }

  lemma FirstInitialises(defs: seq<Def>, c: Conf, mid: Conf, c': Conf, cs: seq<Conf>)
    requires defs != [] && Initialises(defs[0], c, mid) && InitialisesAll(defs[1..], mid, c', cs)
    ensures InitialisesAll(defs, c, c', [c] + cs)
  {
    hide Initialises;
    var all := [c] + cs;
    forall i | 0 <= i < |defs| ensures Initialises(defs[i], all[i], all[i + 1]) {
      if i > 0 {
        assert Initialises(defs[1..][i - 1], cs[i - 1], cs[i]);
      }
    }
  }

  lemma {:induction false} InitialisersJoin(defs: seq<Def>, body: Expr, c: Conf, c': Conf, cs: seq<Conf>, r: Conf)
    requires InitialisesAll(defs, c, c', cs) && Ends(body, c', r)
    ensures Ends(Initialised(defs, body), c, r)
    decreases |defs|
  {
    hide Ends;
    if defs != [] {
      assert Initialises(defs[0], cs[0], cs[1]);
      RestInitialises(defs, c, c', cs);
      InitialisersJoin(defs[1..], body, cs[1], c', cs[1..], r);
      if defs[0].init.Some? {
        SeqEnds(Ignore(Assign(RefOf(defs[0].name), defs[0].init.value)), Initialised(defs[1..], body), c, r);
      }
    }
  }

  lemma RestInitialises(defs: seq<Def>, c: Conf, c': Conf, cs: seq<Conf>)
    requires defs != [] && InitialisesAll(defs, c, c', cs)
    ensures InitialisesAll(defs[1..], cs[1], c', cs[1..])
  {
    hide Initialises;
    forall i | 0 <= i < |defs[1..]| ensures Initialises(defs[1..][i], cs[1..][i], cs[1..][i + 1]) {
      assert Initialises(defs[i + 1], cs[i + 1], cs[i + 2]);
    }
  }

  /** A new scope with the defined names as variables. */
  function WithScope(c: Conf, defs: seq<Def>): Conf {
    c.(st := PushScope(c.st, map[], seq(|defs|, i requires 0 <= i < |defs| => (defs[i].name, Mut))))
  }

  lemma {:induction false} NamesInOrder(defs: seq<Def>)
    ensures |NamesOf(defs)| == |defs| && forall i :: 0 <= i < |defs| ==> NamesOf(defs)[i] == defs[i].name
  {
    if defs != [] {
      NamesInOrder(defs[1..]);
    }
  }

  lemma EntersScope(c: Conf, defs: seq<Def>)
    ensures Entered(c, defs) == WithScope(c, defs)
  {
    hide PushScope;
    NamesInOrder(defs);
    assert Tagged(NamesOf(defs), Mut) == seq(|defs|, i requires 0 <= i < |defs| => (defs[i].name, Mut));
  }

  /** A scope ends exactly as its initialisers in order, its body and the way out of it. */
  lemma ScopeEnds(defs: seq<Def>, body: Expr, c: Conf, r: Conf)
    ensures Ends(Scope(defs, body), c, r) <==>
      exists c', cs, last ::
        InitialisesAll(defs, WithScope(c, defs), c', cs) && Ends(body, c', last) && Left(Some(last)) == Some(r)
  {
    hide Ends, InitialisesAll, Left, WithScope;
    if Ends(Scope(defs, body), c, r) {
      var last := ScopeSplits(defs, body, c, r);
      InitialisersRun(defs, body, WithScope(c, defs), last);
    }
    if c', cs, last :|
      InitialisesAll(defs, WithScope(c, defs), c', cs) && Ends(body, c', last) && Left(Some(last)) == Some(r) {
      InitialisersJoin(defs, body, WithScope(c, defs), c', cs, last);
      ScopeJoins(defs, body, c, last, r);
    }
  }

  lemma ScopeSplits(defs: seq<Def>, body: Expr, c: Conf, r: Conf) returns (last: Conf)
    requires Ends(Scope(defs, body), c, r)
    ensures Ends(Initialised(defs, body), WithScope(c, defs), last) && Left(Some(last)) == Some(r)
  {
    hide Left, WithScope, Initialised;
    var n: nat :| EndsIn(Scope(defs, body), c, r, n);
    if n > 0 {
      ScopeUses(defs, body, c, n);
    }
    assert n > 0;
    EntersScope(c, defs);
    LeftNothing();
    last := Eval(Initialised(defs, body), WithScope(c, defs), n - 1).value;
    assert EndsIn(Initialised(defs, body), WithScope(c, defs), last, n - 1);
  }

  lemma LeftNothing()
    ensures Left(None) == None
  {
  }

  lemma ScopeJoins(defs: seq<Def>, body: Expr, c: Conf, last: Conf, r: Conf)
    requires Ends(Initialised(defs, body), WithScope(c, defs), last) && Left(Some(last)) == Some(r)
    ensures Ends(Scope(defs, body), c, r)
  {
    hide Left, WithScope, Initialised, Eval;
    var n: nat :| EndsIn(Initialised(defs, body), WithScope(c, defs), last, n);
    EntersScope(c, defs);
    ScopeUses(defs, body, c, n + 1);
    assert EndsIn(Scope(defs, body), c, r, n + 1);
  }
}
