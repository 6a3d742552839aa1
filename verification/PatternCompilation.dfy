/** Compiled patterns agree with the source matcher (src/SM.ml:1280-1332, src/Language.ml:540-575). */
module PatternCompilation {
  import opened Wrappers
  import opened LamaValues
  import opened LamaSource
  import opened StackMachine
  import opened Compiler
  import opened CodeShape
  import opened Correspondence
  import opened Execution

  lemma {:induction false} MatchNone(p: Pattern, v: Value, store: Store)
    ensures MatchPatt(p, v, store, None) == None
    decreases p
  {
    match p
    case NamedPattern(_, inner) => MatchNone(inner, v, store);
    case SexpPattern(tag, items) =>
      var o := Deref(store, v);
      if o.Some? && o.value.SexpObject? && |o.value.elems| == |items| {
        MatchListNone(items, o.value.elems, store);
      }
    case ArrayPattern(items) =>
      var o := Deref(store, v);
      if o.Some? && o.value.ArrayObject? && |o.value.elems| == |items| {
        MatchListNone(items, o.value.elems, store);
      }
    case _ =>
  }

  lemma {:induction false} MatchListNone(ps: seq<Pattern>, vs: seq<Value>, store: Store)
    requires |ps| == |vs|
    ensures MatchList(ps, vs, store, None) == None
    decreases ps
  {
    if ps != [] {
      MatchNone(ps[0], vs[0], store);
      MatchListNone(ps[1..], vs[1..], store);
    }
  }

  /** The run from m to m' changes no more than the position, the stack and fresh parts of the store. */
  ghost predicate Matched(P: Prog, m: Machine, m': Machine, pc: nat, stack: List<Value>) {
    && Reaches(P, m, m')
    && m.world.store <= m'.world.store
    && m' == Moved(m, pc, stack, m'.world.store)
  }

  lemma MatchedThen(P: Prog, a: Machine, b: Machine, c: Machine, pc: nat, stack: List<Value>, pc': nat,
      stack': List<Value>)
    requires Matched(P, a, b, pc, stack) && Matched(P, b, c, pc', stack')
    ensures Matched(P, a, c, pc', stack')
  {
    hide Reaches;
    ReachesThen(P, a, b, c);
  }

  lemma MatchedStep(P: Prog, a: Machine, b: Machine, c: Machine, pc: nat, stack: List<Value>)
    requires Matched(P, a, b, pc, stack) && Reaches(P, b, c)
    requires c == Moved(b, c.pc, c.stack, b.world.store)
    ensures Matched(P, a, c, c.pc, c.stack)
  {
    hide Reaches;
    ReachesThen(P, a, b, c);
  }

  /** A test answers, the jump to lfalse is taken unless it says yes. */
  lemma BranchOn(P: Prog, m: Machine, mid: Machine, b: bool, lfalse: Label, exit: nat, rest: List<Value>)
      returns (m': Machine)
    requires Matched(P, m, mid, mid.pc, Cons(Int(BoolToInt(b)), rest))
    requires Fetches(P, mid, CJMP(false, lfalse)) && FindLabel(P, lfalse) == Some(exit)
    ensures Matched(P, m, m', if b then mid.pc + 1 else exit, rest) && m'.world.store == mid.world.store
  {
    hide Reaches;
    RunBranch(P, mid, false, lfalse, BoolToInt(b), rest, exit);
    m' := mid.(pc := if b then mid.pc + 1 else exit, stack := rest);
    MatchedStep(P, m, mid, m', mid.pc, Cons(Int(BoolToInt(b)), rest));
  }

  lemma TestCorrect(P: Prog, k: nat, i: Insn, lfalse: Label, exit: nat, w: Value, rest: List<Value>, m: Machine)
      returns (m': Machine)
    requires CodeAt(P, k, [i, CJMP(false, lfalse)]) && m.pc == k && m.stack == Cons(w, rest)
    requires ((i.PATT? && i.p != StrCmp) || i.TAG? || i.ARRAY?) && Inspectable(m.world.store, w)
    requires FindLabel(P, lfalse) == Some(exit)
    ensures Matched(P, m, m', if Answers(m.world.store, w, i) then k + 2 else exit, rest)
  {
    hide Reaches, Answers, FindLabel;
    InsnAt(P, k, [i, CJMP(false, lfalse)], 0);
    InsnAt(P, k, [i, CJMP(false, lfalse)], 1);
    RunInspect(P, m, i, w, rest);
    var b := Answers(m.world.store, w, i);
    var mid := m.(pc := m.pc + 1, stack := Cons(Int(BoolToInt(b)), rest));
    m' := BranchOn(P, m, mid, b, lfalse, exit, rest);
  }

  lemma ConstCorrect(P: Prog, k: nat, n: int, lfalse: Label, exit: nat, w: Value, rest: List<Value>, m: Machine)
      returns (m': Machine)
    requires CodeAt(P, k, [CONST(n), BINOP(Eq), CJMP(false, lfalse)]) && m.pc == k && m.stack == Cons(w, rest)
    requires FindLabel(P, lfalse) == Some(exit)
    ensures Matched(P, m, m', if w == Int(n) then k + 3 else exit, rest)
  {
    hide Reaches, FindLabel;
    var code: Prog := [CONST(n), BINOP(Eq), CJMP(false, lfalse)];
    InsnAt(P, k, code, 0);
    InsnAt(P, k, code, 1);
    InsnAt(P, k, code, 2);
    RunConst(P, m, n);
    var m1 := m.(pc := m.pc + 1, stack := Cons(Int(n), m.stack));
    RunEqual(P, m1, w, n, rest);
    var mid := m1.(pc := m1.pc + 1, stack := Cons(Int(BoolToInt(w == Int(n))), rest));
    ReachesThen(P, m, m1, mid);
    m' := BranchOn(P, m, mid, w == Int(n), lfalse, exit, rest);
  }

  lemma StringCorrect(P: Prog, k: nat, s: string, lfalse: Label, exit: nat, w: Value, rest: List<Value>, m: Machine)
      returns (m': Machine)
    requires CodeAt(P, k, [STRING(s), PATT(StrCmp), CJMP(false, lfalse)]) && m.pc == k && m.stack == Cons(w, rest)
    requires FindLabel(P, lfalse) == Some(exit)
    requires w.Ref? ==> w.address < |m.world.store|
    ensures Matched(P, m, m', if Deref(m.world.store, w) == Some(StringObject(s)) then k + 3 else exit, rest)
  {
    hide Reaches, FindLabel;
    var code: Prog := [STRING(s), PATT(StrCmp), CJMP(false, lfalse)];
    InsnAt(P, k, code, 0);
    InsnAt(P, k, code, 1);
    InsnAt(P, k, code, 2);
    RunString(P, m, s);
    var own := Ref(|m.world.store|);
    var m1 := Moved(m, m.pc + 1, Cons(own, m.stack), m.world.store + [StringObject(s)]);
    RunCompare(P, m1, own, w, rest);
    var b := Deref(m1.world.store, w) == Deref(m1.world.store, own);
    var mid := m1.(pc := m1.pc + 1, stack := Cons(Int(BoolToInt(b)), rest));
    ReachesThen(P, m, m1, mid);
    m' := BranchOn(P, m, mid, b, lfalse, exit, rest);
  }

  /** The items of an array or s-expression. */
  function Items(o: Object): seq<Value> {
    match o
    case ArrayObject(elems) => elems
    case SexpObject(_, elems) => elems
    case _ => []
  }

  /** Whether the pattern matches, whatever has been bound before. */
  predicate Matches(p: Pattern, v: Value, store: Store, acc: Bindings) {
    MatchPatt(p, v, store, Some(acc)).Some?
  }

  /** The compiled pattern falls through if the source pattern matches and jumps to lfalse if it does not; both
      ways it has consumed exactly the value under test. */
  lemma {:induction false} PatternCorrect(P: Prog, k: nat, env: Env, lfalse: Label, exit: nat, p: Pattern, f: Injection,
      store: Store, acc: Bindings, v: Value, w: Value, rest: List<Value>, m: Machine)
        returns (m': Machine)
    requires Unique(P) && CodeAt(P, k, CompilePattern(env, lfalse, p).2) && m.pc == k && m.stack == Cons(w, rest)
    requires CompilePattern(env, lfalse, p).1 ==> FindLabel(P, lfalse) == Some(exit)
    requires Image(f, store, m.world.store) && Alike(f, v, w)
    ensures Matched(P, m, m', if Matches(p, v, store, acc) then k + |CompilePattern(env, lfalse, p).2| else exit, rest)
    ensures !CompilePattern(env, lfalse, p).1 ==> Matches(p, v, store, acc)
    decreases p
  {
    hide Unique, Reaches, Image, FindLabel, Matched, SameObject;
    match p
    case NamedPattern(x, inner) =>
      m' := PatternCorrect(P, k, env, lfalse, exit, inner, f, store, acc, v, w, rest, m);
    case SexpPattern(tag, items) =>
      m' := InspectCorrect(P, k, env, lfalse, exit, p, items, StackMachine.TAG(tag, |items|), f, store, acc, v, w, rest,
        m);
    case ArrayPattern(items) =>
      m' := InspectCorrect(P, k, env, lfalse, exit, p, items, ARRAY(|items|), f, store, acc, v, w, rest, m);
    case Wildcard =>
      InsnAt(P, k, [DROP], 0);
      RunDrop(P, m);
      m' := m.(pc := m.pc + 1, stack := rest);
      MatchedRun(P, m, m');
    case ConstPattern(n) =>
      m' := ConstCorrect(P, k, n, lfalse, exit, w, rest, m);
    case StringPattern(s) =>
      DerefAlike(f, store, m.world.store, v, w);
      StringAlike(f, store, m.world.store, v, w, s);
      m' := StringCorrect(P, k, s, lfalse, exit, w, rest, m);
    case _ =>
      m' := TagCorrect(P, k, env, lfalse, exit, p, f, store, acc, v, w, rest, m);
  }

  lemma MatchedRun(P: Prog, m: Machine, m': Machine)
    requires Reaches(P, m, m') && m' == Moved(m, m'.pc, m'.stack, m.world.store)
    ensures Matched(P, m, m', m'.pc, m'.stack)
  {
    hide Reaches;
  }

  lemma StringAlike(f: Injection, store: Store, t: Store, v: Value, w: Value, s: string)
    requires Image(f, store, t) && Alike(f, v, w)
    ensures Deref(store, v) == Some(StringObject(s)) <==> Deref(t, w) == Some(StringObject(s))
    ensures w.Ref? ==> w.address < |t|
  {
    DerefAlike(f, store, t, v, w);
    if v.Ref? {
      assert At(f, store, t, v.address);
    }
  }

  predicate Tag(p: Pattern) {
    p.StringTagPattern? || p.SexpTagPattern? || p.ArrayTagPattern? || p.ClosureTagPattern? || p.BoxedPattern?
      || p.UnBoxedPattern?
  }

  /** Proper values are boxed for the machine exactly when they are for the source. */
  lemma TagCorrect(P: Prog, k: nat, env: Env, lfalse: Label, exit: nat, p: Pattern, f: Injection, store: Store,
      acc: Bindings, v: Value, w: Value, rest: List<Value>, m: Machine)
        returns (m': Machine)
    requires Tag(p) && CodeAt(P, k, CompilePattern(env, lfalse, p).2) && m.pc == k && m.stack == Cons(w, rest)
    requires FindLabel(P, lfalse) == Some(exit)
    requires Image(f, store, m.world.store) && Alike(f, v, w)
    ensures Matched(P, m, m', if Matches(p, v, store, acc) then k + 2 else exit, rest)
    ensures |CompilePattern(env, lfalse, p).2| == 2 && CompilePattern(env, lfalse, p).1
  {
    hide Reaches, Matched, FindLabel, CodeAt, Alike;
    var i := CompilePattern(env, lfalse, p).2[0];
    InRange(f, store, m.world.store, v, w);
    m' := TestCorrect(P, k, i, lfalse, exit, w, rest, m);
    TagAlike(env, lfalse, p, f, store, m.world.store, acc, v, w);
  }

  lemma TagAlike(env: Env, lfalse: Label, p: Pattern, f: Injection, store: Store, t: Store, acc: Bindings, v: Value,
      w: Value)
    requires Tag(p) && Image(f, store, t) && Alike(f, v, w)
    ensures Answers(t, w, CompilePattern(env, lfalse, p).2[0]) == Matches(p, v, store, acc)
  {
    hide Image, AlikeAll;
    DerefAlike(f, store, t, v, w);
    InRange(f, store, t, v, w);
  }

  lemma InRange(f: Injection, store: Store, t: Store, v: Value, w: Value)
    requires Image(f, store, t) && Alike(f, v, w)
    ensures v.Ref? <==> w.Ref?
    ensures v.Ref? ==> Deref(store, v).Some? && !Deref(store, v).value.ClosureObject?
    ensures Inspectable(t, w)
  {
    if v.Ref? {
      assert At(f, store, t, v.address);
    }
  }

  /** Whether v has the shape the pattern asks for. */
  predicate Fits(test: Insn, v: Value, store: Store, n: nat) {
    var o := Deref(store, v);
    o.Some? && |Items(o.value)| == n &&
    match test
    case ARRAY(k) => o.value.ArrayObject? && k == n
    case TAG(tag, k) => o.value.SexpObject? && o.value.tag == tag && k == n
    case _ => false
  }

  lemma FitsAlike(f: Injection, store: Store, t: Store, v: Value, w: Value, test: Insn, n: nat)
    requires Image(f, store, t) && Alike(f, v, w) && (test == ARRAY(n) || (test.TAG? && test.n == n))
    ensures Answers(t, w, test) == Fits(test, v, store, n)
  {
    hide Image;
    DerefAlike(f, store, t, v, w);
  }

  /** Array and s-expression patterns inspect the value, then its items. */
  lemma {:induction false} InspectCorrect(P: Prog, k: nat, env: Env, lfalse: Label, exit: nat, p: Pattern,
      items: seq<Pattern>, test: Insn, f: Injection, store: Store, acc: Bindings, v: Value, w: Value, rest: List<Value>,
      m: Machine)
        returns (m': Machine)
    requires (p.ArrayPattern? && p.items == items && test == ARRAY(|items|)) ||
      (p.SexpPattern? && p.items == items && test == StackMachine.TAG(p.tag, |items|))
    requires Unique(P) && CodeAt(P, k, CompilePattern(env, lfalse, p).2) && m.pc == k && m.stack == Cons(w, rest)
    requires FindLabel(P, lfalse) == Some(exit)
    requires Image(f, store, m.world.store) && Alike(f, v, w)
    ensures Matched(P, m, m', if Matches(p, v, store, acc) then k + |CompilePattern(env, lfalse, p).2| else exit, rest)
    ensures CompilePattern(env, lfalse, p).1
    decreases items, 1
  {
    hide Unique, Reaches, Image, FindLabel, Matched, SameObject, CodeAt, Alike, Answers;
    var (lhead, env1) := env.NewLabel();
    var (ldrop, env2) := env1.NewLabel();
    var (env3, code) := CompilePatterns(env2, ldrop, items, 0);
    var head := Inspect(test, lhead, ldrop, lfalse);
    assert CompilePattern(env, lfalse, p) == (env3, true, head + code + [DROP]);
    CodeSplit(P, k, head + code, [DROP]);
    CodeSplit(P, k, head, code);
    FitsAlike(f, store, m.world.store, v, w, test, |items|);
    var fits := Fits(test, v, store, |items|);
    InRange(f, store, m.world.store, v, w);
    var m1 := HeadCorrect(P, k, test, lhead, ldrop, lfalse, w, rest, m);
    if fits {
      var elems := Items(Deref(store, v).value);
      assert Matches(p, v, store, acc) == MatchList(items, elems, store, Some(acc)).Some?;
      assert elems[0..] == elems;
      StoreSame(f, store, P, m, m1, k + 7, m.stack);
      InsnAt(P, k, head, 3);
      LabelAt(P, k + 3, ldrop);
      var m2 := ItemsCorrect(P, k + 7, env2, ldrop, k + 4, items, 0, f, store, acc, v, w, rest, m1);
      var ok := MatchList(items, elems, store, Some(acc)).Some?;
      MatchedThen(P, m, m1, m2, k + 7, m.stack, if ok then k + 7 + |code| else k + 4, m.stack);
      if ok {
        m' := DropCorrect(P, m, m2, k + 7 + |code|, w, rest);
      } else {
        m' := GiveUp(P, k, test, lhead, ldrop, lfalse, exit, w, rest, m, m2);
      }
    } else {
      assert !Matches(p, v, store, acc);
      m' := GiveUp(P, k, test, lhead, ldrop, lfalse, exit, w, rest, m, m1);
    }
  }

  lemma StoreSame(f: Injection, store: Store, P: Prog, m: Machine, m': Machine, pc: nat, stack: List<Value>)
    requires Matched(P, m, m', pc, stack) && Image(f, store, m.world.store)
    ensures Image(f, store, m'.world.store) && m'.pc == pc && m'.stack == stack
  {
    hide Image, Reaches;
    ImageExtra(f, store, m.world.store, m'.world.store);
  }

  /** Past the test: at the items if it says yes, in front of the exit (after its label) if not. */
  lemma HeadCorrect(P: Prog, k: nat, test: Insn, lhead: Label, ldrop: Label, lfalse: Label, w: Value, rest: List<Value>,
      m: Machine) returns (m': Machine)
    requires Unique(P) && CodeAt(P, k, Inspect(test, lhead, ldrop, lfalse)) && m.pc == k && m.stack == Cons(w, rest)
    requires (test.ARRAY? || test.TAG?) && Inspectable(m.world.store, w)
    ensures Matched(P, m, m', if Answers(m.world.store, w, test) then k + 7 else k + 4, m.stack)
  {
    hide Unique, Reaches, FindLabel, Answers;
    var head := Inspect(test, lhead, ldrop, lfalse);
    InsnAt(P, k, head, 0);
    InsnAt(P, k, head, 1);
    InsnAt(P, k, head, 2);
    InsnAt(P, k, head, 3);
    InsnAt(P, k, head, 6);
    LabelAt(P, k + 6, lhead);
    RunDup(P, m);
    var m1 := m.(pc := k + 1, stack := Cons(w, m.stack));
    RunInspect(P, m1, test, w, m.stack);
    var b := Answers(m.world.store, w, test);
    var m2 := m1.(pc := k + 2, stack := Cons(Int(BoolToInt(b)), m.stack));
    RunBranch(P, m2, true, lhead, BoolToInt(b), m.stack, k + 7);
    var m3 := m2.(pc := if b then k + 7 else k + 3, stack := m.stack);
    ReachesThen(P, m, m1, m2);
    ReachesThen(P, m, m2, m3);
    m' := m3;
    if !b {
      RunSkip(P, m3);
      m' := m3.(pc := k + 4);
      ReachesThen(P, m, m3, m');
    }
  }

  /** From the ldrop label: the inspected value goes, control leaves through lfalse. */
  lemma GiveUp(P: Prog, k: nat, test: Insn, lhead: Label, ldrop: Label, lfalse: Label, exit: nat, w: Value,
      rest: List<Value>, m: Machine, mid: Machine)
    returns (m': Machine)
    requires CodeAt(P, k, Inspect(test, lhead, ldrop, lfalse)) && FindLabel(P, lfalse) == Some(exit)
    requires Matched(P, m, mid, k + 4, Cons(w, rest))
    ensures Matched(P, m, m', exit, rest)
  {
    hide Reaches, FindLabel;
    var head := Inspect(test, lhead, ldrop, lfalse);
    InsnAt(P, k, head, 4);
    InsnAt(P, k, head, 5);
    RunDrop(P, mid);
    var m1 := mid.(pc := k + 5, stack := rest);
    RunJump(P, m1, lfalse, exit);
    m' := m1.(pc := exit);
    ReachesThen(P, m, mid, m1);
    ReachesThen(P, m, m1, m');
  }

  lemma DropCorrect(P: Prog, m: Machine, mid: Machine, k: nat, w: Value, rest: List<Value>) returns (m': Machine)
    requires CodeAt(P, k, [DROP]) && Matched(P, m, mid, k, Cons(w, rest))
    ensures Matched(P, m, m', k + 1, rest)
  {
    hide Reaches;
    InsnAt(P, k, [DROP], 0);
    RunDrop(P, mid);
    m' := mid.(pc := k + 1, stack := rest);
    MatchedStep(P, m, mid, m', k, Cons(w, rest));
  }

  /** The items from the i-th on; u is the inspected container. */
  lemma {:induction false} ItemsCorrect(P: Prog, k: nat, env: Env, ldrop: Label, exit: nat, ps: seq<Pattern>, i: nat,
      f: Injection, store: Store, acc: Bindings, u: Value, w: Value, rest: List<Value>, m: Machine)
        returns (m': Machine)
    requires Unique(P) && CodeAt(P, k, CompilePatterns(env, ldrop, ps, i).1) && m.pc == k && m.stack == Cons(w, rest)
    requires FindLabel(P, ldrop) == Some(exit)
    requires Image(f, store, m.world.store) && Alike(f, u, w)
    requires Deref(store, u).Some? && |Items(Deref(store, u).value)| == i + |ps|
    ensures
      var ok := MatchList(ps, Items(Deref(store, u).value)[i..], store, Some(acc)).Some?;
      Matched(P, m, m', if ok then k + |CompilePatterns(env, ldrop, ps, i).1| else exit, m.stack)
    decreases ps, 0
  {
    hide Unique, Reaches, Image, FindLabel, Matched, SameObject, CodeAt, Alike, CompilePattern, MatchPatt, Items,
      Element;
    var vs := Items(Deref(store, u).value);
    if ps == [] {
      m' := m;
      ReachesNow(P, m);
      MatchedRun(P, m, m);
    } else {
      var (env1, _, code) := CompilePattern(env, ldrop, ps[0]);
      var (env2, tail) := CompilePatterns(env1, ldrop, ps[1..], i + 1);
      var fetch: Prog := [DUP, CONST(i), ELEM];
      CodeSplit(P, k, fetch + code, tail);
      CodeSplit(P, k, fetch, code);
      ItemAlike(f, store, m.world.store, u, w, i);
      var w1 := Element(m.world.store, w, Int(i)).value;
      var m1 := FetchCorrect(P, k, i, w, rest, m);
      StoreSame(f, store, P, m, m1, k + 3, Cons(w1, m.stack));
      var m2 := PatternCorrect(P, k + 3, env, ldrop, exit, ps[0], f, store, acc, vs[i], w1, m.stack, m1);
      var ok := Matches(ps[0], vs[i], store, acc);
      var next := if ok then k + 3 + |code| else exit;
      MatchedThen(P, m, m1, m2, k + 3, Cons(w1, m.stack), next, m.stack);
      assert vs[i..][0] == vs[i] && vs[i..][1..] == vs[i + 1..];
      if ok {
        var acc' := MatchPatt(ps[0], vs[i], store, Some(acc)).value;
        StoreSame(f, store, P, m, m2, next, m.stack);
        m' := ItemsCorrect(P, next, env1, ldrop, exit, ps[1..], i + 1, f, store, acc', u, w, rest, m2);
        var ok' := MatchList(ps[1..], vs[i + 1..], store, Some(acc')).Some?;
        MatchedThen(P, m, m2, m', next, m.stack, if ok' then next + |tail| else exit, m.stack);
      } else {
        MatchListNone(ps[1..], vs[i + 1..], store);
        m' := m2;
      }
    }
  }

  lemma ItemAlike(f: Injection, store: Store, t: Store, u: Value, w: Value, i: nat)
    requires Image(f, store, t) && Alike(f, u, w) && Deref(store, u).Some? && i < |Items(Deref(store, u).value)|
    ensures Element(store, u, Int(i)) == Some(Items(Deref(store, u).value)[i])
    ensures Element(t, w, Int(i)).Some? && Alike(f, Items(Deref(store, u).value)[i], Element(t, w, Int(i)).value)
  {
    hide Image;
    ElementAlike(f, store, t, u, w, Int(i), Int(i));
  }

  lemma FetchCorrect(P: Prog, k: nat, i: nat, w: Value, rest: List<Value>, m: Machine) returns (m': Machine)
    requires CodeAt(P, k, [DUP, CONST(i), ELEM]) && m.pc == k && m.stack == Cons(w, rest)
    requires Element(m.world.store, w, Int(i)).Some?
    ensures Matched(P, m, m', k + 3, Cons(Element(m.world.store, w, Int(i)).value, m.stack))
  {
    hide Reaches, Element;
    var code: Prog := [DUP, CONST(i), ELEM];
    InsnAt(P, k, code, 0);
    InsnAt(P, k, code, 1);
    InsnAt(P, k, code, 2);
    RunDup(P, m);
    var m1 := m.(pc := k + 1, stack := Cons(w, m.stack));
    RunConst(P, m1, i);
    var m2 := m1.(pc := k + 2, stack := Cons(Int(i), m1.stack));
    RunElem(P, m2, w, Int(i), m.stack);
    m' := m2.(pc := k + 3, stack := Cons(Element(m.world.store, w, Int(i)).value, m.stack));
    ReachesThen(P, m, m1, m2);
    ReachesThen(P, m, m2, m');
  }

  // ---- where source and machine differ ----

  /** The machine takes everything but numbers for boxed, the source only strings, arrays and s-expressions: they
      agree on a value exactly if it is one of these or a number. */
  lemma BoxedAgreesIff(store: Store, v: Value, acc: Bindings)
    ensures (MatchPatt(BoxedPattern, v, store, Some(acc)).Some? <==> IsKind(store, v, Boxed))
      <==> v.Int? || IsString(store, v) || IsArray(store, v) || IsSexp(store, v)
  {
  }

  /** A closure is boxed for the machine only. */
  lemma BoxedClosure(store: Store, a: nat, acc: Bindings)
    requires a < |store| && store[a].ClosureObject?
    ensures MatchPatt(BoxedPattern, Ref(a), store, Some(acc)) == None && IsKind(store, Ref(a), Boxed)
  {
  }

  /** The compiler puts 0 for the unit value, and a pattern can tell: #unboxed matches 0 and not the unit value. */
  lemma UnitIsSeen(l: Label, env: Env, c: Conf, fuel: nat, store: Store, acc: Bindings)
    requires fuel > 0
    ensures Eval(LamaSource.Unit, c, fuel) == Some(c.(stack := Cons(Empty, c.stack)))
    ensures CompileExpr(l, env, LamaSource.Unit) == (env, false, [CONST(0)])
    ensures MatchPatt(UnBoxedPattern, Empty, store, Some(acc)) == None && IsKind(store, Int(0), UnBoxed)
  {
  }

  /** A pattern under its names. */
  function Core(p: Pattern): Pattern {
    match p
    case NamedPattern(_, inner) => Core(inner)
    case _ => p
  }

  lemma {:induction false} CoreMatches(p: Pattern, v: Value, store: Store, acc: Bindings)
    ensures Matches(p, v, store, acc) <==> Matches(Core(p), v, store, acc)
    decreases p
  {
    if p.NamedPattern? {
      CoreMatches(p.inner, v, store, acc);
    }
  }

  /** 0 and the unit value match the same patterns but 0 itself and #unboxed. */
  lemma UnitMatchesIff(p: Pattern, store: Store, acc: Bindings)
    ensures (Matches(p, Int(0), store, acc) <==> Matches(p, Empty, store, acc))
      <==> Core(p) != ConstPattern(0) && Core(p) != UnBoxedPattern
  {
    CoreMatches(p, Int(0), store, acc);
    CoreMatches(p, Empty, store, acc);
  }

  /** The code of a pattern, run on the 0 that stands for the unit value, goes where the source's matcher goes on the
      unit value exactly if the pattern under its names is neither 0 nor #unboxed. */
  lemma UnitAgreesIff(P: Prog, k: nat, env: Env, lfalse: Label, exit: nat, p: Pattern, f: Injection, store: Store,
      acc: Bindings, rest: List<Value>, m: Machine) returns (m': Machine)
    requires Unique(P) && CodeAt(P, k, CompilePattern(env, lfalse, p).2) && m.pc == k && m.stack == Cons(Int(0), rest)
    requires CompilePattern(env, lfalse, p).1 ==> FindLabel(P, lfalse) == Some(exit)
    requires Image(f, store, m.world.store) && exit != k + |CompilePattern(env, lfalse, p).2|
    ensures Matched(P, m, m', m'.pc, rest)
    ensures m'.pc == (if Matches(p, Empty, store, acc) then k + |CompilePattern(env, lfalse, p).2| else exit)
      <==> Core(p) != ConstPattern(0) && Core(p) != UnBoxedPattern
  {
    hide Unique, Reaches, Image, FindLabel, Matches, CompilePattern, Core;
    m' := PatternCorrect(P, k, env, lfalse, exit, p, f, store, acc, Int(0), Int(0), rest, m);
    UnitMatchesIff(p, store, acc);
  }
}
