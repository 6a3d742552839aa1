/** The last pass of the compiler (fix_closures, src/SM.ml:1623-1643): references to functions become closures with
    the captured variables found by ClosurePropagation, and calls of functions that capture nothing become direct. */
module ClosureFixing {
  import opened Wrappers
  import opened LamaValues
  import opened StackMachine
  import opened ClosurePropagation
  import Interpretation

  /** Code before the pass: a function's value, the beginning of a call of a known function in front of its
      arguments, and the call behind them. */
  datatype Raw = Final(i: Insn) | PROTO(f: string, c: string) | PPROTO(f: string, c: string) | PCALLC(n: nat)

  type Contexts = map<(string, string), seq<Designation>>

  /** get_closure: nothing for calls that are not recorded. */
  function ClosureFor(functx: Contexts, f: string, c: string): seq<Designation> {
    if (f, c) in functx then functx[(f, c)] else []
  }

  function FixBegin(cl: Closures, i: Insn): Insn {
    match i
    case BEGIN(l, nargs, nlocals, _) => if l.Named? && l.name in cl then BEGIN(l, nargs, nlocals, cl[l.name]) else i
    case _ => i
  }

  /** inner: the stack says for each call that is open whether it is direct, and of which function; None is the
      failure on a call that was not begun. */
  function Fix(cl: Closures, functx: Contexts, open: List<Option<string>>, code: seq<Raw>): Option<Prog>
    decreases |code|
  {
    if code == [] then Some([])
    else
      match code[0]
      case Final(i) =>
        var rest :- Fix(cl, functx, open, code[1..]);
        Some([FixBegin(cl, i)] + rest)
      case PROTO(f, c) =>
        var rest :- Fix(cl, functx, open, code[1..]);
        Some([CLOSURE(Named(f), ClosureFor(functx, f, c))] + rest)
      case PPROTO(f, c) =>
        if ClosureFor(functx, f, c) == [] then Fix(cl, functx, Cons(Some(f), open), code[1..])
        else
          var rest :- Fix(cl, functx, Cons(None, open), code[1..]);
          Some([CLOSURE(Named(f), ClosureFor(functx, f, c))] + rest)
      case PCALLC(n) =>
        match open
        case Nil => None
        case Cons(direct, open') =>
          var rest :- Fix(cl, functx, open', code[1..]);
          Some([if direct.Some? then CALL(Named(direct.value), n) else CALLC(n)] + rest)
  }

  // ---- code as the compiler makes it: calls with their arguments inside ----

  datatype Piece = Single(i: Insn) | FunValue(f: string, c: string)
      | FunCall(f: string, c: string, args: seq<Piece>, n: nat)

  function Flat(ps: seq<Piece>): seq<Raw> {
    if ps == [] then [] else FlatPiece(ps[0]) + Flat(ps[1..])
  }

  function FlatPiece(p: Piece): seq<Raw> {
    match p
    case Single(i) => [Final(i)]
    case FunValue(f, c) => [PROTO(f, c)]
    case FunCall(f, c, args, n) => [PPROTO(f, c)] + Flat(args) + [PCALLC(n)]
  }

  /** What the pieces are to become: direct calls where nothing is captured. */
  function Fixed(cl: Closures, functx: Contexts, ps: seq<Piece>): Prog {
    if ps == [] then [] else FixedPiece(cl, functx, ps[0]) + Fixed(cl, functx, ps[1..])
  }

  function FixedPiece(cl: Closures, functx: Contexts, p: Piece): Prog {
    match p
    case Single(i) => [FixBegin(cl, i)]
    case FunValue(f, c) => [CLOSURE(Named(f), ClosureFor(functx, f, c))]
    case FunCall(f, c, args, n) =>
      var ds := ClosureFor(functx, f, c);
      if ds == [] then Fixed(cl, functx, args) + [CALL(Named(f), n)]
      else [CLOSURE(Named(f), ds)] + Fixed(cl, functx, args) + [CALLC(n)]
  }

  function Before(code: Prog, rest: Option<Prog>): Option<Prog> {
    if rest.Some? then Some(code + rest.value) else None
  }

  lemma BeforeTwice(a: Prog, b: Prog, rest: Option<Prog>)
    ensures Before(a, Before(b, rest)) == Before(a + b, rest)
  {
    if rest.Some? {
      assert a + (b + rest.value) == a + b + rest.value;
    }
  }

  /** The pass never fails on such code, pairs each call with its beginning however calls are nested, and leaves the
      open calls as they were. */
  lemma {:induction false} FixesPieces(cl: Closures, functx: Contexts, open: List<Option<string>>, ps: seq<Piece>,
      tail: seq<Raw>)
    ensures Fix(cl, functx, open, Flat(ps) + tail) == Before(Fixed(cl, functx, ps), Fix(cl, functx, open, tail))
    decreases ps, 1
  {
    hide Fix;
    if ps == [] {
      assert Flat(ps) + tail == tail;
      BeforeTwice([], [], Fix(cl, functx, open, tail));
      NothingBefore(Fix(cl, functx, open, tail));
    } else {
      assert Flat(ps) + tail == FlatPiece(ps[0]) + (Flat(ps[1..]) + tail);
      FixesPiece(cl, functx, open, ps[0], Flat(ps[1..]) + tail);
      FixesPieces(cl, functx, open, ps[1..], tail);
      BeforeTwice(FixedPiece(cl, functx, ps[0]), Fixed(cl, functx, ps[1..]), Fix(cl, functx, open, tail));
    }
  }

  lemma NothingBefore(rest: Option<Prog>)
    ensures Before([], rest) == rest
  {
    if rest.Some? {
      assert [] + rest.value == rest.value;
    }
  }

  lemma {:induction false} FixesPiece(cl: Closures, functx: Contexts, open: List<Option<string>>, p: Piece,
      tail: seq<Raw>)
    ensures Fix(cl, functx, open, FlatPiece(p) + tail) == Before(FixedPiece(cl, functx, p), Fix(cl, functx, open, tail))
    decreases p, 0
  {
    match p
    case Single(i) => FixOne(cl, functx, open, Final(i), tail);
    case FunValue(f, c) => FixOne(cl, functx, open, PROTO(f, c), tail);
    case FunCall(f, c, args, n) => FixesCall(cl, functx, open, f, c, args, n, tail);
  }

  lemma FixOne(cl: Closures, functx: Contexts, open: List<Option<string>>, r: Raw, tail: seq<Raw>)
    ensures ([r] + tail)[0] == r && ([r] + tail)[1..] == tail
  {
  }

  lemma {:induction false} FixesCall(cl: Closures, functx: Contexts, open: List<Option<string>>, f: string, c: string,
      args: seq<Piece>, n: nat, tail: seq<Raw>)
    ensures Fix(cl, functx, open, [PPROTO(f, c)] + Flat(args) + [PCALLC(n)] + tail) ==
      Before(FixedPiece(cl, functx, FunCall(f, c, args, n)), Fix(cl, functx, open, tail))
    decreases args, 2
  {
    hide Flat, Fixed;
    var ds := ClosureFor(functx, f, c);
    var direct := if ds == [] then Some(f) else None;
    var call := if ds == [] then CALL(Named(f), n) else CALLC(n);
    var behind, inside := [PCALLC(n)] + tail, Flat(args) + ([PCALLC(n)] + tail);
    assert [PPROTO(f, c)] + Flat(args) + [PCALLC(n)] + tail == [PPROTO(f, c)] + inside;
    FixOne(cl, functx, open, PPROTO(f, c), inside);
    FixOne(cl, functx, Cons(direct, open), PCALLC(n), tail);
    FixesPieces(cl, functx, Cons(direct, open), args, behind);
    BeforeTwice(Fixed(cl, functx, args), [call], Fix(cl, functx, open, tail));
    if ds != [] {
      BeforeTwice([CLOSURE(Named(f), ds)], Fixed(cl, functx, args) + [call], Fix(cl, functx, open, tail));
      assert [CLOSURE(Named(f), ds)] + (Fixed(cl, functx, args) + [call]) == [CLOSURE(Named(f), ds)] + Fixed(cl, functx,
        args) + [call];
    }
  }

  // ---- what the pass leaves as it was ----

  /** What is to stay of an instruction: labels, numbers of arguments and locals, everything that is no closure. */
  function Outline(i: Insn): Prog {
    match i
    case BEGIN(l, nargs, nlocals, _) => [BEGIN(l, nargs, nlocals, [])]
    case CALL(_, n) => [CALLC(n)]
    case CLOSURE(_, _) => []
    case _ => [i]
  }

  function RawOutline(r: Raw): Prog {
    match r
    case Final(i) => Outline(i)
    case PCALLC(n) => [CALLC(n)]
    case _ => []
  }

  /** Code before the pass without the functions it names, and likewise afterwards. */
  function RawSkeleton(code: seq<Raw>): Prog {
    if code == [] then [] else RawOutline(code[0]) + RawSkeleton(code[1..])
  }

  function Skeleton(p: Prog): Prog {
    if p == [] then [] else Outline(p[0]) + Skeleton(p[1..])
  }

  /** The functions it names: one for each function value and each call of a known function. */
  function NamesOf(i: Insn): multiset<Label> {
    match i
    case CLOSURE(l, _) => multiset{l}
    case CALL(l, _) => multiset{l}
    case _ => multiset{}
  }

  function RawNamesOf(r: Raw): multiset<Label> {
    match r
    case Final(i) => NamesOf(i)
    case PROTO(f, _) => multiset{Named(f)}
    case PPROTO(f, _) => multiset{Named(f)}
    case PCALLC(_) => multiset{}
  }

  function RawNames(code: seq<Raw>): multiset<Label> {
    if code == [] then multiset{} else RawNamesOf(code[0]) + RawNames(code[1..])
  }

  function Names(p: Prog): multiset<Label> {
    if p == [] then multiset{} else NamesOf(p[0]) + Names(p[1..])
  }

  lemma {:induction false} NamesJoin(p: Prog, q: Prog)
    ensures Names(p + q) == Names(p) + Names(q)
  {
    hide NamesOf;
    if p == [] {
      assert p + q == q;
    } else {
      assert (p + q)[0] == p[0] && (p + q)[1..] == p[1..] + q;
      NamesJoin(p[1..], q);
    }
  }

  lemma {:induction false} RawNamesJoin(p: seq<Raw>, q: seq<Raw>)
    ensures RawNames(p + q) == RawNames(p) + RawNames(q)
  {
    hide RawNamesOf;
    if p == [] {
      assert p + q == q;
    } else {
      assert (p + q)[0] == p[0] && (p + q)[1..] == p[1..] + q;
      RawNamesJoin(p[1..], q);
    }
  }

  lemma SkeletonStep(i: Insn, rest: Prog)
    ensures Skeleton([i] + rest) == Outline(i) + Skeleton(rest)
  {
    hide Outline;
    assert ([i] + rest)[1..] == rest;
  }

  /** Whatever code the pass accepts comes out with the same labels and numbers of arguments and locals, in the same
      order, calls included. */
  lemma {:induction false} PassKeepsSkeleton(cl: Closures, functx: Contexts, open: List<Option<string>>, code: seq<Raw>)
    requires Fix(cl, functx, open, code).Some?
    ensures Skeleton(Fix(cl, functx, open, code).value) == RawSkeleton(code)
    decreases |code|
  {
    hide Skeleton, ClosureFor;
    if code == [] {
      SkeletonNone();
    } else {
      PassKeepsFirst(cl, functx, open, code);
    }
  }

  lemma SkeletonNone()
    ensures Skeleton([]) == []
  {
  }

  lemma {:induction false} PassKeepsFirst(cl: Closures, functx: Contexts, open: List<Option<string>>, code: seq<Raw>)
    requires code != [] && Fix(cl, functx, open, code).Some?
    ensures Skeleton(Fix(cl, functx, open, code).value) == RawOutline(code[0]) + RawSkeleton(code[1..])
    decreases |code|, 0
  {
    hide Skeleton, RawSkeleton;
    var tail := code[1..];
    match code[0]
    case Final(i) =>
      PassKeepsSkeleton(cl, functx, open, tail);
      SkeletonStep(FixBegin(cl, i), Fix(cl, functx, open, tail).value);
    case PROTO(f, c) =>
      PassKeepsSkeleton(cl, functx, open, tail);
      SkeletonStep(CLOSURE(Named(f), ClosureFor(functx, f, c)), Fix(cl, functx, open, tail).value);
    case PPROTO(f, c) =>
      if ClosureFor(functx, f, c) == [] {
        PassKeepsSkeleton(cl, functx, Cons(Some(f), open), tail);
      } else {
        PassKeepsSkeleton(cl, functx, Cons(None, open), tail);
        SkeletonStep(CLOSURE(Named(f), ClosureFor(functx, f, c)), Fix(cl, functx, Cons(None, open), tail).value);
      }
    case PCALLC(n) =>
      PassKeepsSkeleton(cl, functx, open.tail, tail);
      var call := if open.head.Some? then CALL(Named(open.head.value), n) else CALLC(n);
      SkeletonStep(call, Fix(cl, functx, open.tail, tail).value);
  }

  /** Each function value and each call still names its function, and nothing else does. */
  lemma {:induction false} FixedNames(cl: Closures, functx: Contexts, ps: seq<Piece>)
    ensures Names(Fixed(cl, functx, ps)) == RawNames(Flat(ps))
    decreases ps, 1
  {
    hide Names, RawNames, FixedPiece, FlatPiece;
    if ps == [] {
      NoNames();
    } else {
      FixedPieceNames(cl, functx, ps[0]);
      FixedNames(cl, functx, ps[1..]);
      NamesJoin(FixedPiece(cl, functx, ps[0]), Fixed(cl, functx, ps[1..]));
      RawNamesJoin(FlatPiece(ps[0]), Flat(ps[1..]));
    }
  }

  lemma NoNames()
    ensures Names([]) == multiset{} && RawNames([]) == multiset{}
  {
  }

  lemma OneName(i: Insn, r: Raw)
    ensures Names([i]) == NamesOf(i) && RawNames([r]) == RawNamesOf(r)
  {
    hide NamesOf, RawNamesOf;
    assert [i][1..] == [] && [r][1..] == [];
  }

  lemma {:induction false} FixedPieceNames(cl: Closures, functx: Contexts, p: Piece)
    ensures Names(FixedPiece(cl, functx, p)) == RawNames(FlatPiece(p))
    decreases p, 0
  {
    hide Names, RawNames, Flat, Fixed, ClosureFor;
    match p
    case Single(i) => OneName(FixBegin(cl, i), Final(i));
    case FunValue(f, c) => OneName(CLOSURE(Named(f), ClosureFor(functx, f, c)), PROTO(f, c));
    case FunCall(f, c, args, n) =>
      FixedNames(cl, functx, args);
      CallNamesBefore(f, c, args, n);
      CallNames(f, ClosureFor(functx, f, c), Fixed(cl, functx, args), n);
  }

  lemma CallNamesBefore(f: string, c: string, args: seq<Piece>, n: nat)
    ensures RawNames([PPROTO(f, c)] + Flat(args) + [PCALLC(n)]) == multiset{Named(f)} + RawNames(Flat(args))
  {
    hide RawNames, Flat;
    RawNamesJoin([PPROTO(f, c)] + Flat(args), [PCALLC(n)]);
    RawNamesJoin([PPROTO(f, c)], Flat(args));
    OneName(CALLC(n), PCALLC(n));
    OneName(CALLC(n), PPROTO(f, c));
  }

  lemma CallNames(f: string, ds: seq<Designation>, args: Prog, n: nat)
    ensures Names(args + [CALL(Named(f), n)]) == multiset{Named(f)} + Names(args)
    ensures Names([CLOSURE(Named(f), ds)] + args + [CALLC(n)]) == multiset{Named(f)} + Names(args)
  {
    hide Names;
    NamesJoin(args, [CALL(Named(f), n)]);
    NamesJoin([CLOSURE(Named(f), ds)] + args, [CALLC(n)]);
    NamesJoin([CLOSURE(Named(f), ds)], args);
    OneName(CALL(Named(f), n), PCALLC(n));
    OneName(CLOSURE(Named(f), ds), PCALLC(n));
    OneName(CALLC(n), PCALLC(n));
  }

  // ---- closures and calls fit the functions they are for ----

  /** As many captured variables as the function expects; direct calls only of functions that expect none. */
  ghost predicate Fits(cl: Closures, i: Insn) {
    match i
    case CLOSURE(l, ds) => l.Named? && l.name in cl ==> |ds| == |cl[l.name]|
    case CALL(l, _) => l.Named? && l.name in cl ==> cl[l.name] == []
    case BEGIN(l, _, _, ds) => l.Named? && l.name in cl ==> ds == cl[l.name]
    case _ => true
  }

  /** References to f in c are where f is visible, and propagation has found their lists. */
  ghost predicate Recorded(t: FunTree, depth: map<string, nat>, cl: Closures, functx: Contexts, f: string, c: string)
    requires Nested(t, depth)
  {
    && Serves(t, depth, cl, functx, (f, c)) && (f in cl ==> f in t)
    && (f in t ==> FindPath(t, depth, t[f], c).Some?)
  }

  ghost predicate AllRecorded(t: FunTree, depth: map<string, nat>, cl: Closures, functx: Contexts, ps: seq<Piece>)
    requires Nested(t, depth)
  {
    forall j :: 0 <= j < |ps| ==> PieceRecorded(t, depth, cl, functx, ps[j])
  }

  ghost predicate PieceRecorded(t: FunTree, depth: map<string, nat>, cl: Closures, functx: Contexts, p: Piece)
    requires Nested(t, depth)
  {
    match p
    case Single(i) => !i.CLOSURE? && (i.CALL? ==> Fits(cl, i))
    case FunValue(f, c) => Recorded(t, depth, cl, functx, f, c)
    case FunCall(f, c, args, _) => Recorded(t, depth, cl, functx, f, c) && AllRecorded(t, depth, cl, functx, args)
  }

  ghost predicate AllFit(cl: Closures, p: Prog) { forall j :: 0 <= j < |p| ==> Fits(cl, p[j]) }

  lemma RecordedFits(t: FunTree, depth: map<string, nat>, cl: Closures, functx: Contexts, f: string, c: string)
    requires Nested(t, depth) && Recorded(t, depth, cl, functx, f, c)
    ensures f in cl ==> |ClosureFor(functx, f, c)| == |cl[f]|
  {
    hide FindPath, Denotes, Nested;
  }

  lemma {:induction false} FixedFits(t: FunTree, depth: map<string, nat>, cl: Closures, functx: Contexts,
      ps: seq<Piece>)
    requires Nested(t, depth) && AllRecorded(t, depth, cl, functx, ps)
    ensures AllFit(cl, Fixed(cl, functx, ps))
    decreases ps, 1
  {
    hide Nested, Recorded, Fits, FixedPiece;
    if ps != [] {
      FixedPieceFits(t, depth, cl, functx, ps[0]);
      FixedFits(t, depth, cl, functx, ps[1..]);
    }
  }

  lemma {:induction false} FixedPieceFits(t: FunTree, depth: map<string, nat>, cl: Closures, functx: Contexts, p: Piece)
    requires Nested(t, depth) && PieceRecorded(t, depth, cl, functx, p)
    ensures AllFit(cl, FixedPiece(cl, functx, p))
    decreases p, 0
  {
    hide Nested, Recorded, Fixed;
    match p
    case Single(i) =>
    case FunValue(f, c) => RecordedFits(t, depth, cl, functx, f, c);
    case FunCall(f, c, args, n) =>
      RecordedFits(t, depth, cl, functx, f, c);
      FixedFits(t, depth, cl, functx, args);
  }

  /** The code of a whole program before the pass comes out with every closure and call fitting its function, and as it
      was apart from that. */
  lemma PassFits(t: FunTree, depth: map<string, nat>, cl: Closures, functx: Contexts, ps: seq<Piece>)
    requires Nested(t, depth) && AllRecorded(t, depth, cl, functx, ps)
    ensures
      var r := Fix(cl, functx, Nil, Flat(ps));
      && r == Some(Fixed(cl, functx, ps)) && AllFit(cl, r.value)
      && Skeleton(r.value) == RawSkeleton(Flat(ps)) && Names(r.value) == RawNames(Flat(ps))
  {
    hide Fix, Flat, Fixed, AllRecorded, AllFit, Skeleton, RawSkeleton, Names, RawNames;
    FixesPieces(cl, functx, Nil, ps, []);
    assert Flat(ps) + [] == Flat(ps);
    FixNothing(cl, functx);
    FixedFits(t, depth, cl, functx, ps);
    FixedNames(cl, functx, ps);
    PassKeepsSkeleton(cl, functx, Nil, Flat(ps));
  }

  lemma FixNothing(cl: Closures, functx: Contexts)
    ensures Fix(cl, functx, Nil, []) == Some([])
    ensures forall code: Prog :: Before(code, Some([])) == Some(code)
  {
    forall code: Prog ensures Before(code, Some([])) == Some(code) {
      assert code + [] == code;
    }
  }

  /** Where labels of functions lead to their BEGIN, this is what the interpreter asks of closures. */
  lemma ClosuresExpected(k: Interpretation.Code, cl: Closures, f: string, ds: seq<Designation>)
    requires AllFit(cl, k.p) && f in cl && CLOSURE(Named(f), ds) in k.p
    requires FindLabel(k.p, Named(f)).Some? ==>
      FindLabel(k.p, Named(f)).value < |k.p| && Begins(k.p[FindLabel(k.p, Named(f)).value], f)
    ensures Interpretation.Expects(k, Named(f), |ds|)
  {
    hide FindLabel;
    var i :| 0 <= i < |k.p| && k.p[i] == CLOSURE(Named(f), ds);
    assert Fits(cl, k.p[i]);
    if FindLabel(k.p, Named(f)).Some? {
      assert Fits(cl, k.p[FindLabel(k.p, Named(f)).value]);
    }
  }

  predicate Begins(i: Insn, f: string) { i.BEGIN? && i.l == Named(f) }

  // ---- running it ----

  /** A fixed closure captures what its function's own list means. */
  lemma FixedCaptures(m: Machine, t: FunTree, depth: map<string, nat>, places: set<Designation>, cl: Closures,
      functx: Contexts, f: string, c: string, val: Valuation)
    requires Proper(t, depth, places, cl) && (forall d :: d in places ==> d.Local? || d.Arg?)
    requires f in t && Recorded(t, depth, cl, functx, f, c) && FrameOf(m, t, depth, cl, c, val)
    requires forall j :: 0 <= j < |cl[f]| ==>
      && Denotes(t, depth, cl, t[f], cl[f][j]).Some? && Denotes(t, depth, cl, t[f], cl[f][j]).value in val
    ensures
      var ds := ClosureFor(functx, f, c);
      Capture(m, ds).Some? && Values(t, depth, cl, f, val, Capture(m, ds).value) && (ds == [] <==> cl[f] == [])
  {
    hide Capture, Load, FindPath, Denotes, Nested, Resolved, Values, FrameOf;
    RecordedFits(t, depth, cl, functx, f, c);
    CallCaptures(m, t, depth, places, cl, functx, f, c, val);
  }

  lemma {:induction false} TakesArguments(vs: List<Value>, rest: List<Value>)
    ensures Take(Length(vs), Append(vs, rest)) == Some((vs, rest))
  {
    if vs.Cons? {
      TakesArguments(vs.tail, rest);
    }
  }

  lemma {:induction false} TakesCallee(vs: List<Value>, x: Value, rest: List<Value>)
    ensures Take(Length(vs) + 1, Append(vs, Cons(x, rest))) == Some((Append(vs, Cons(x, Nil)), rest))
    ensures BottomUp(Append(vs, Cons(x, Nil))) == [x] + BottomUp(vs)
  {
    if vs.Cons? {
      TakesCallee(vs.tail, x, rest);
    } else {
      assert Take(0, rest) == Some((Nil, rest));
    }
  }

  function Entered(m: Machine, at: nat, args: seq<Value>, closure: Option<nat>, rest: List<Value>): Machine {
    m.(pc := at, stack := rest, control := Cons(Control(m.pc + 1, m.frame), m.control),
      frame := Frame(args, [], closure))
  }

  lemma DirectStep(p: Prog, m: Machine, f: string, vs: List<Value>, rest: List<Value>)
    requires m.pc < |p| && p[m.pc] == CALL(Named(f), Length(vs)) && m.stack == Append(vs, rest)
    requires FindLabel(p, Named(f)).Some?
    ensures Step(p, m) == Next(Entered(m, FindLabel(p, Named(f)).value, BottomUp(vs), None, rest))
  {
    hide FindLabel, Take, BottomUp, CallBuiltin;
    TakesArguments(vs, rest);
  }

  lemma ClosureStep(q: Prog, m: Machine, f: string, vs: List<Value>, rest: List<Value>, a: nat)
    requires m.pc < |q| && q[m.pc] == CALLC(Length(vs)) && m.stack == Append(vs, Cons(Ref(a), rest))
    requires a < |m.world.store| && m.world.store[a].ClosureObject? && m.world.store[a].entry == Named(f)
    requires FindLabel(q, Named(f)).Some?
    ensures Step(q, m) == Next(Entered(m, FindLabel(q, Named(f)).value, BottomUp(vs), Some(a), rest))
  {
    hide FindLabel, Take, BottomUp, CallBuiltin;
    TakesCallee(vs, Ref(a), rest);
    assert ([Ref(a)] + BottomUp(vs))[1..] == BottomUp(vs);
  }

  /** A direct call does what the call of an empty closure does: the callee starts at the same place, with the same
      arguments, stack and caller, and finds the same values. */
  lemma DirectCallSame(p: Prog, q: Prog, m: Machine, m': Machine, f: string, vs: List<Value>, rest: List<Value>, a: nat)
    requires m.pc < |p| && p[m.pc] == CALL(Named(f), Length(vs)) && m.stack == Append(vs, rest)
    requires m.pc < |q| && q[m.pc] == CALLC(Length(vs)) && FindLabel(p, Named(f)).Some?
    requires FindLabel(q, Named(f)) == FindLabel(p, Named(f))
    requires a < |m'.world.store| && m'.world.store[a] == ClosureObject(Named(f), [])
    requires m' == m.(stack := Append(vs, Cons(Ref(a), rest)), world := m'.world)
    ensures
      var r, r' := Step(p, m), Step(q, m');
      && r.Next? && r'.Next? && r'.m == r.m.(frame := r.m.frame.(closure := Some(a)), world := m'.world)
      && r.m.stack == rest && r.m.frame.args == BottomUp(vs)
      && forall d :: Load(r'.m, d) == Load(r.m, d)
  {
    hide FindLabel, Step, BottomUp;
    DirectStep(p, m, f, vs, rest);
    ClosureStep(q, m', f, vs, rest, a);
  }
}
