/** Compiled code is balanced: the interpreter's static condition holds of what the compiler generates, so the two
    refinements compose. */
module BalancedCode {
  import opened Wrappers
  import opened LamaValues
  import opened LamaSource
  import opened StackMachine
  import opened Compiler
  import opened CodeShape
  import opened Execution
  import opened FlatMemory
  import opened Interpretation
  import opened WellFormedness
  import opened Simulation
  import opened DepthPlans
  import opened Correspondence
  import opened ScopeCompilation
  import opened CompilerCorrectness

  function If1(b: bool, mark: (nat, int)): Marks { if b then {mark} else {} }

  // ---- patterns ----

  /** A test and the jump if it says no. */
  lemma PlanTest(c: Code, k: nat, test: Prog, lfalse: Label, exit: nat, n: nat) returns (ds: Depths)
    requires CodeAt(c.p, k, test + [CJMP(false, lfalse)]) && FindLabel(c.p, lfalse) == Some(exit)
    requires forall i :: 0 <= i < |test| ==> Effects(test[i]).Some?
    requires Enough(test, n) && Behind(test, n) >= 1
    ensures |ds| == |test| + 1 && First(ds, Behind(test, n) - 1) == n
    ensures Plan(c, k, ds, Behind(test, n) - 1, {(exit, Behind(test, n) - 1)})
  {
    hide Plan, Enough, Effects;
    var n1 := Behind(test, n);
    CodeSplit(c.p, k, test, [CJMP(false, lfalse)]);
    InsnAt(c.p, k + |test|, [CJMP(false, lfalse)], 0);
    PlanRun(c, k, test, n);
    PlanBranch(c, k + |test|, false, lfalse, n1, exit);
    ds := DepthsAlong(test, n) + [n1];
    PlanAppend(c, k, DepthsAlong(test, n), [n1], n1 - 1, {}, {(exit, n1 - 1)}, {(exit, n1 - 1)});
  }

  predicate Simple(p: Pattern) {
    !p.Wildcard? && !p.NamedPattern? && !p.ArrayPattern? && !p.SexpPattern?
  }

  /** The test of a pattern without parts. */
  function TestOf(p: Pattern): Prog
    requires Simple(p)
  {
    match p
    case ConstPattern(n) => [CONST(n), BINOP(Eq)]
    case StringPattern(s) => [STRING(s), PATT(StrCmp)]
    case StringTagPattern => [PATT(StringTag)]
    case SexpTagPattern => [PATT(SexpTag)]
    case ArrayTagPattern => [PATT(ArrayTag)]
    case ClosureTagPattern => [PATT(ClosureTag)]
    case BoxedPattern => [PATT(Boxed)]
    case UnBoxedPattern => [PATT(UnBoxed)]
  }

  lemma TestCode(env: Env, lfalse: Label, p: Pattern, n: nat)
    requires Simple(p) && n >= 1
    ensures CompilePattern(env, lfalse, p) == (env, true, TestOf(p) + [CJMP(false, lfalse)])
    ensures forall i :: 0 <= i < |TestOf(p)| ==> Effects(TestOf(p)[i]).Some?
    ensures Enough(TestOf(p), n) && Behind(TestOf(p), n) == n
  {
    var t := TestOf(p);
    assert t + [CJMP(false, lfalse)] == CompilePattern(env, lfalse, p).2;
    assert Behind([], n) == n;
    if |t| == 2 {
      assert t == [t[0], t[1]] && t[1..] == [t[1]] && [t[1]][1..] == [];
      assert Behind([t[1]], n + 1) == n;
    } else {
      assert t[1..] == [];
    }
  }

  lemma {:induction false} PlanPattern(c: Code, k: nat, env: Env, lfalse: Label, exit: nat, p: Pattern, n: nat)
      returns (ds: Depths)
    requires Unique(c.p) && CodeAt(c.p, k, CompilePattern(env, lfalse, p).2) && n >= 1
    requires CompilePattern(env, lfalse, p).1 ==> FindLabel(c.p, lfalse) == Some(exit)
    ensures |ds| == |CompilePattern(env, lfalse, p).2| && First(ds, n - 1) == n
    ensures Plan(c, k, ds, n - 1, If1(CompilePattern(env, lfalse, p).1, (exit, n - 1)))
    decreases p
  {
    hide Plan, Unique, FindLabel, CodeAt, Enough, Behind;
    match p
    case NamedPattern(_, inner) => ds := PlanPattern(c, k, env, lfalse, exit, inner, n);
    case ArrayPattern(items) => ds := PlanInspect(c, k, env, lfalse, exit, p, items, ARRAY(|items|), n);
    case SexpPattern(tag, items) => ds := PlanInspect(c, k, env, lfalse, exit, p, items, StackMachine.TAG(tag, |items|),
      n);
    case Wildcard =>
      InsnAt(c.p, k, [DROP], 0);
      PlanOne(c, k, DROP, n);
      ds := [n];
    case BoxedPattern => ds := PlanSimple(c, k, env, lfalse, exit, p, n);
    case SexpTagPattern => ds := PlanSimple(c, k, env, lfalse, exit, p, n);
    case ConstPattern(_) => ds := PlanSimple(c, k, env, lfalse, exit, p, n);
    case StringPattern(_) => ds := PlanSimple(c, k, env, lfalse, exit, p, n);
    case UnBoxedPattern => ds := PlanSimple(c, k, env, lfalse, exit, p, n);
    case StringTagPattern => ds := PlanSimple(c, k, env, lfalse, exit, p, n);
    case ArrayTagPattern => ds := PlanSimple(c, k, env, lfalse, exit, p, n);
    case ClosureTagPattern => ds := PlanSimple(c, k, env, lfalse, exit, p, n);
  }

  lemma PlanSimple(c: Code, k: nat, env: Env, lfalse: Label, exit: nat, p: Pattern, n: nat) returns (ds: Depths)
    requires CodeAt(c.p, k, CompilePattern(env, lfalse, p).2) && n >= 1 && Simple(p)
    requires FindLabel(c.p, lfalse) == Some(exit)
    ensures |ds| == |CompilePattern(env, lfalse, p).2| && First(ds, n - 1) == n && CompilePattern(env, lfalse, p).1
    ensures Plan(c, k, ds, n - 1, {(exit, n - 1)})
  {
    hide Plan, FindLabel, CodeAt, Enough, Behind;
    TestCode(env, lfalse, p, n);
    ds := PlanTest(c, k, TestOf(p), lfalse, exit, n);
  }

  lemma {:induction false} PlanInspect(c: Code, k: nat, env: Env, lfalse: Label, exit: nat, p: Pattern,
      items: seq<Pattern>, test: Insn, n: nat)
    returns (ds: Depths)
    requires (p.ArrayPattern? && p.items == items && test == ARRAY(|items|)) ||
      (p.SexpPattern? && p.items == items && test == StackMachine.TAG(p.tag, |items|))
    requires Unique(c.p) && CodeAt(c.p, k, CompilePattern(env, lfalse, p).2) && n >= 1
    requires FindLabel(c.p, lfalse) == Some(exit)
    ensures |ds| == |CompilePattern(env, lfalse, p).2| && First(ds, n - 1) == n
    ensures Plan(c, k, ds, n - 1, {(exit, n - 1)}) && CompilePattern(env, lfalse, p).1
    decreases items, 1
  {
    hide Plan, Unique, FindLabel, CodeAt;
    var (lhead, env1) := env.NewLabel();
    var (ldrop, env2) := env1.NewLabel();
    var (env3, code) := CompilePatterns(env2, ldrop, items, 0);
    var head := Inspect(test, lhead, ldrop, lfalse);
    assert CompilePattern(env, lfalse, p) == (env3, true, head + code + [DROP]);
    CodeSplit(c.p, k, head + code, [DROP]);
    CodeSplit(c.p, k, head, code);
    InsnAt(c.p, k, head, 3);
    LabelAt(c.p, k + 3, ldrop);
    var a := PlanHead(c, k, test, lhead, ldrop, lfalse, exit, n);
    var b := PlanItems(c, k + 7, env2, ldrop, k + 4, items, 0, n);
    InsnAt(c.p, k + 7 + |code|, [DROP], 0);
    PlanOne(c, k + 7 + |code|, DROP, n);
    ds := InspectJoined(c, k, a, b, exit, n);
  }

  /** Head, items and the final drop; the head's way out serves the items. */
  lemma InspectJoined(c: Code, k: nat, a: Depths, b: Depths, exit: nat, n: nat) returns (ds: Depths)
    requires n >= 1 && |a| == 7 && a[0] == n && a[4] == n && First(b, n) == n && Plan(c, k, a, n, {(exit, n - 1)})
    requires Plan(c, k + 7, b, n, {(k + 4, n)}) && Plan(c, k + 7 + |b|, [n], n - 1, {})
    ensures |ds| == 8 + |b| && First(ds, n - 1) == n && Plan(c, k, ds, n - 1, {(exit, n - 1)})
  {
    hide Plan;
    var marks := {(exit, n - 1), (k + 4, n)};
    PlanAppend(c, k + 7, b, [n], n - 1, {(k + 4, n)}, {}, marks);
    PlanAppend(c, k, a, b + [n], n - 1, {(exit, n - 1)}, marks, marks);
    ds := a + (b + [n]);
    PlanReduce(c, k, ds, n - 1, marks, {(exit, n - 1)});
  }

  /** The test, the way out and the label of the items. */
  lemma PlanHead(c: Code, k: nat, test: Insn, lhead: Label, ldrop: Label, lfalse: Label, exit: nat, n: nat)
      returns (ds: Depths)
    requires Unique(c.p) && CodeAt(c.p, k, Inspect(test, lhead, ldrop, lfalse)) && n >= 1 && (test.ARRAY? || test.TAG?)
    requires FindLabel(c.p, lfalse) == Some(exit)
    ensures |ds| == 7 && ds[0] == n && ds[4] == n && Plan(c, k, ds, n, {(exit, n - 1)})
  {
    hide Plan, Unique, FindLabel, DepthsAlong, Behind, Enough;
    var a: Prog := [DUP, test, CJMP(true, lhead)];
    var b: Prog := [LABEL(ldrop), DROP, JMP(lfalse), LABEL(lhead)];
    assert Inspect(test, lhead, ldrop, lfalse) == a + b;
    CodeSplit(c.p, k, a, b);
    InsnAt(c.p, k + 3, b, 3);
    LabelAt(c.p, k + 6, lhead);
    var marks := {(exit, n - 1), (k + 7, n)};
    PlanEnter(c, k, test, lhead, n);
    PlanGiveUp(c, k + 3, ldrop, lfalse, lhead, exit, n);
    PlanAppend(c, k, [n, n + 1, n + 1], [n, n, n - 1, n], n, {(k + 7, n)}, {(exit, n - 1)}, marks);
    ds := [n, n + 1, n + 1] + [n, n, n - 1, n];
    PlanReduce(c, k, ds, n, marks, {(exit, n - 1)});
  }

  lemma PlanEnter(c: Code, k: nat, test: Insn, lhead: Label, n: nat)
    requires CodeAt(c.p, k, [DUP, test, CJMP(true, lhead)]) && n >= 1 && (test.ARRAY? || test.TAG?)
    requires FindLabel(c.p, lhead) == Some(k + 7)
    ensures Plan(c, k, [n, n + 1, n + 1], n, {(k + 7, n)})
  {
    hide Plan, FindLabel;
    var code: Prog := [DUP, test, CJMP(true, lhead)];
    InsnAt(c.p, k, code, 0);
    InsnAt(c.p, k, code, 1);
    InsnAt(c.p, k, code, 2);
    PlanOne(c, k, DUP, n);
    PlanOne(c, k + 1, test, n + 1);
    PlanBranch(c, k + 2, true, lhead, n + 1, k + 7);
    PlanAppend(c, k + 1, [n + 1], [n + 1], n, {}, {(k + 7, n)}, {(k + 7, n)});
    PlanAppend(c, k, [n], [n + 1] + [n + 1], n, {}, {(k + 7, n)}, {(k + 7, n)});
    assert [n] + ([n + 1] + [n + 1]) == [n, n + 1, n + 1];
  }

  lemma PlanGiveUp(c: Code, k: nat, ldrop: Label, lfalse: Label, lhead: Label, exit: nat, n: nat)
    requires CodeAt(c.p, k, [LABEL(ldrop), DROP, JMP(lfalse), LABEL(lhead)]) && n >= 1
    requires FindLabel(c.p, lfalse) == Some(exit)
    ensures Plan(c, k, [n, n, n - 1, n], n, {(exit, n - 1)})
  {
    hide Plan, FindLabel;
    var code: Prog := [LABEL(ldrop), DROP, JMP(lfalse), LABEL(lhead)];
    var marks := {(exit, n - 1)};
    InsnAt(c.p, k, code, 0);
    InsnAt(c.p, k, code, 1);
    InsnAt(c.p, k, code, 2);
    InsnAt(c.p, k, code, 3);
    PlanOne(c, k, LABEL(ldrop), n);
    PlanOne(c, k + 1, DROP, n);
    PlanJump(c, k + 2, lfalse, n - 1, exit, n);
    PlanOne(c, k + 3, LABEL(lhead), n);
    PlanAppend(c, k + 2, [n - 1], [n], n, marks, {}, marks);
    PlanAppend(c, k + 1, [n], [n - 1] + [n], n, {}, marks, marks);
    PlanAppend(c, k, [n], [n] + ([n - 1] + [n]), n, {}, marks, marks);
    assert [n] + ([n] + ([n - 1] + [n])) == [n, n, n - 1, n];
  }

  lemma {:induction false} PlanItems(c: Code, k: nat, env: Env, ldrop: Label, exit: nat, ps: seq<Pattern>, i: nat,
      n: nat) returns (ds: Depths)
    requires Unique(c.p) && CodeAt(c.p, k, CompilePatterns(env, ldrop, ps, i).1) && n >= 1
    requires FindLabel(c.p, ldrop) == Some(exit)
    ensures |ds| == |CompilePatterns(env, ldrop, ps, i).1| && First(ds, n) == n
    ensures Plan(c, k, ds, n, {(exit, n)})
    decreases ps, 0
  {
    hide Plan, Unique, FindLabel, CompilePattern, DepthsAlong, Behind, Enough;
    var marks := {(exit, n as int)};
    if ps == [] {
      ds := [];
      PlanNone(c, k, n);
      PlanReduce(c, k, ds, n, {}, marks);
    } else {
      var (env1, canFail, code) := CompilePattern(env, ldrop, ps[0]);
      var (env2, tail) := CompilePatterns(env1, ldrop, ps[1..], i + 1);
      var fetch: Prog := [DUP, CONST(i), ELEM];
      CodeSplit(c.p, k, fetch + code, tail);
      CodeSplit(c.p, k, fetch, code);
      InsnAt(c.p, k, fetch, 0);
      InsnAt(c.p, k, fetch, 1);
      InsnAt(c.p, k, fetch, 2);
      PlanOne(c, k, DUP, n);
      PlanOne(c, k + 1, CONST(i), n + 1);
      PlanOne(c, k + 2, ELEM, n + 2);
      var a := PlanPattern(c, k + 3, env, ldrop, exit, ps[0], n + 1);
      var b := PlanItems(c, k + 3 + |code|, env1, ldrop, exit, ps[1..], i + 1, n);
      PlanAppend(c, k + 3, a, b, n, If1(canFail, (exit, n)), marks, marks);
      PlanAppend(c, k + 2, [n + 2], a + b, n, {}, marks, marks);
      PlanAppend(c, k + 1, [n + 1], [n + 2] + (a + b), n, {}, marks, marks);
      PlanAppend(c, k, [n], [n + 1] + ([n + 2] + (a + b)), n, {}, marks, marks);
      ds := [n] + ([n + 1] + ([n + 2] + (a + b)));
    }
  }

  // ---- bindings ----

  lemma {:induction false} PlanFollow(c: Code, k: nat, path: seq<nat>, n: nat) returns (ds: Depths)
    requires CodeAt(c.p, k, FollowCode(path)) && n >= 1
    ensures |ds| == |FollowCode(path)| && First(ds, n) == n && Plan(c, k, ds, n, {})
    decreases |path|
  {
    hide Plan;
    if path == [] {
      ds := [];
      PlanNone(c, k, n);
    } else {
      var head: Prog := [CONST(path[0]), ELEM];
      CodeSplit(c.p, k, head, FollowCode(path[1..]));
      InsnAt(c.p, k, head, 0);
      InsnAt(c.p, k, head, 1);
      PlanOne(c, k, CONST(path[0]), n);
      PlanOne(c, k + 1, ELEM, n + 1);
      var b := PlanFollow(c, k + 2, path[1..], n);
      PlanAppend(c, k + 1, [n + 1], b, n, {}, {}, {});
      PlanAppend(c, k, [n], [n + 1] + b, n, {}, {}, {});
      ds := [n] + ([n + 1] + b);
    }
  }

  lemma {:induction false} PlanBindings(c: Code, k: nat, up: Env, env: Env, bs: seq<(string, seq<nat>)>, n: nat)
      returns (ds: Depths)
    requires CodeAt(c.p, k, CompileBindings(env, bs).1) && n >= 1 && Opened(up, env, 0)
    ensures |ds| == |CompileBindings(env, bs).1| && First(ds, n) == n && Plan(c, k, ds, n, {})
    decreases |bs|
  {
    hide Plan, Opened, AddName, Place, FollowCode, CodeAt;
    if bs == [] {
      ds := [];
      NoCode(c.p, k);
      PlanNone(c, k, n);
    } else {
      var (env1, tail) := CompileBindings(env, bs[1..]);
      BindingsShape(up, env, bs[1..], Gen(0));
      PlacedName(up, env1, |bs| - 1, bs[0].0);
      var d := Local(env1.localIndex);
      var follow := FollowCode(bs[0].1);
      var store: Prog := [ST(d), DROP];
      assert CompileBindings(env, bs).1 == [DUP] + follow + store + tail;
      CodeSplit(c.p, k, [DUP] + follow + store, tail);
      CodeSplit(c.p, k, [DUP] + follow, store);
      CodeSplit(c.p, k, [DUP], follow);
      var a := PlanBinding(c, k, bs[0].1, env1.localIndex, n);
      var b := PlanBindings(c, k + 3 + |follow|, up, env, bs[1..], n);
      PlanAppend(c, k, a, b, n, {}, {}, {});
      ds := a + b;
    }
  }

  lemma PlanBinding(c: Code, k: nat, path: seq<nat>, j: nat, n: nat) returns (ds: Depths)
    requires CodeAt(c.p, k, [DUP]) && CodeAt(c.p, k + 1, FollowCode(path))
    requires CodeAt(c.p, k + 1 + |FollowCode(path)|, [ST(Local(j)), DROP])
    requires n >= 1
    ensures |ds| == |FollowCode(path)| + 3 && First(ds, n) == n && Plan(c, k, ds, n, {})
  {
    hide Plan, FollowCode;
    var end := k + 1 + |FollowCode(path)|;
    InsnAt(c.p, k, [DUP], 0);
    InsnAt(c.p, end, [ST(Local(j)), DROP], 0);
    InsnAt(c.p, end, [ST(Local(j)), DROP], 1);
    PlanOne(c, k, DUP, n);
    var a := PlanFollow(c, k + 1, path, n + 1);
    PlanOne(c, end, ST(Local(j)), n + 1);
    PlanOne(c, end + 1, DROP, n + 1);
    PlanAppend(c, end, [n + 1], [n + 1], n, {}, {}, {});
    PlanAppend(c, k + 1, a, [n + 1] + [n + 1], n, {}, {}, {});
    PlanAppend(c, k, [n], a + ([n + 1] + [n + 1]), n, {}, {}, {});
    ds := [n] + (a + ([n + 1] + [n + 1]));
  }

  lemma NoCode(p: Prog, k: nat)
    requires CodeAt(p, k, [])
    ensures k <= |p|
  {
  }

  // ---- where names are placed ----

  /** Ordinary names are locals, or globals with a slot; builtins are functions. */
  ghost predicate Mapped(sc: Places, slots: map<string, nat>)
    decreases sc
  {
    match sc
    case I => true
    case G(names, places) =>
      (forall x :: PlacedGlobally(x, names, places)) && (forall x :: x in places && Ordinary(x) ==> x in slots)
    case L(names, places, up) =>
      (forall i :: 0 <= i < |names| ==> Ordinary(names[i].0)) && (forall x :: x in places ==> places[x].Local?)
        && Mapped(up, slots)
  }

  lemma {:induction false} MappedLookUp(sc: Places, slots: map<string, nat>, x: string)
    requires Mapped(sc, slots) && LookUp(sc, x).Some?
    ensures
      var d := LookUp(sc, x).value;
      if Ordinary(x) then d.Local? || (d.Global? && d.name in slots) else d == Fun(Named(x))
    decreases sc
  {
    match sc
    case I =>
    case G(names, places) => assert PlacedGlobally(x, names, places);
    case L(names, places, up) =>
      if InScope(x, names) {
        var i := InScopeAt(x, names);
        assert Ordinary(names[i].0);
      } else {
        MappedLookUp(up, slots, x);
      }
  }

  lemma {:induction false} AddNamesLocal(env: Env, xs: seq<string>)
    requires env.scope.L? && forall x :: x in env.scope.values ==> env.scope.values[x].Local?
    ensures AddNames(env, xs).scope.L?
    ensures forall x :: x in AddNames(env, xs).scope.values ==> AddNames(env, xs).scope.values[x].Local?
  {
    if xs != [] {
      AddNamesLocal(env, xs[1..]);
    }
  }

  lemma MappedOpens(env: Env, slots: map<string, nat>, xs: seq<string>)
    requires Mapped(env.scope, slots) && !env.scope.I? && OrdinaryNames(xs) && AddNames(OpenScope(env), xs).ok
    ensures Mapped(AddNames(OpenScope(env), xs).scope, slots)
  {
    hide AddNames;
    AddNamesPlaces(OpenScope(env), xs);
    AddNamesLocal(OpenScope(env), xs);
    var names := AddNames(OpenScope(env), xs).scope.names;
    forall i | 0 <= i < |names| ensures Ordinary(names[i].0) {
      assert names[i].0 == xs[i];
    }
  }

  // ---- expressions ----

  /** How many values an expression leaves. */
  function Grows1(y: WellFormedness.Effect): nat { if y == Nothing then 0 else 1 }

  /** The depths ds are those of the compiled code at k, entered with n operands. */
  ghost predicate Planned(c: Code, k: nat, exit: nat, code: Compiled, ds: Depths, n: nat, out: int, grow: nat) {
    |ds| == |code.2| && First(ds, out) == n && Plan(c, k, ds, out, If1(code.1, (exit, n + grow)))
  }

  /** The code is in place and its names are. */
  ghost predicate Set(c: Code, k: nat, l: Label, exit: nat, env: Env, code: Compiled, size: nat) {
    Ready(c.p, k, l, exit, code, size) && LeavesBuiltins(c.p) && !env.scope.I? && Mapped(env.scope, c.slots)
  }

  lemma LabelPlan(c: Code, k: nat, flag: bool, l: Label, n: nat) returns (ds: Depths)
    requires CodeAt(c.p, k, LabelIf(flag, l))
    ensures |ds| == |LabelIf(flag, l)| && First(ds, n) == n && Plan(c, k, ds, n, {})
  {
    hide Plan;
    if flag {
      InsnAt(c.p, k, LabelIf(flag, l), 0);
      PlanOne(c, k, LABEL(l), n);
      ds := [n];
    } else {
      ds := [];
      PlanNone(c, k, n);
    }
  }

  /** Code, its own exit label, one more instruction. */
  lemma PlanFinish(c: Code, k: nat, l: Label, exit: nat, code: Compiled, ls: Label, tail: Insn, size: nat, ds: Depths,
      n: nat, grow: nat, out: int, g: nat)
    returns (all: Depths)
    requires Ready(c.p, k, l, exit, Finish(code, ls, [tail]), size)
    requires Planned(c, k, k + |code.2| + 1, code, ds, n, n + grow, grow)
    requires Plan(c, After(k, k + |code.2| + 1, code), [n + grow], out, {})
    ensures Planned(c, k, exit, Finish(code, ls, [tail]), all, n, out, g)
  {
    hide Plan, Unique, CodeAt, FindLabel;
    var own := (k + |code.2| + 1, (n + grow) as int);
    ReadyFinish(c.p, k, l, exit, code, ls, tail, size);
    CodeSplit(c.p, k, code.2 + LabelIf(code.1, ls), [tail]);
    CodeSplit(c.p, k, code.2, LabelIf(code.1, ls));
    var lab := LabelPlan(c, k + |code.2|, code.1, ls, n + grow);
    PlanAppend(c, k + |code.2|, lab, [n + grow], out, {}, {}, {});
    PlanAppend(c, k, ds, lab + [n + grow], out, If1(code.1, own), {}, If1(code.1, own));
    all := ds + (lab + [n + grow]);
    PlanReduce(c, k, all, out, If1(code.1, own), {});
  }

  /** Code, its exit label, more code. */
  lemma PlanPair(c: Code, k: nat, l: Label, exit: nat, a: Compiled, ls: Label, b: Compiled, size: nat, da: Depths,
      db: Depths, n: nat, ga: nat, gb: nat, out: int)
    returns (all: Depths)
    requires Ready(c.p, k, l, exit, (b.0, b.1, a.2 + LabelIf(a.1, ls) + b.2), size) && Grows(a.0, b.0)
    requires Planned(c, k, k + |a.2| + 1, a, da, n, n + ga, ga)
    requires Planned(c, After(k, k + |a.2| + 1, a), exit, b, db, n + ga, out, gb)
    ensures Planned(c, k, exit, (b.0, b.1, a.2 + LabelIf(a.1, ls) + b.2), all, n, out, ga + gb)
  {
    hide Plan, Unique, CodeAt, FindLabel;
    var own := (k + |a.2| + 1, (n + ga) as int);
    var others := If1(b.1, (exit, n + ga + gb));
    ReadyPair(c.p, k, l, exit, a, ls, b, size);
    CodeSplit(c.p, k, a.2 + LabelIf(a.1, ls), b.2);
    CodeSplit(c.p, k, a.2, LabelIf(a.1, ls));
    var lab := LabelPlan(c, k + |a.2|, a.1, ls, n + ga);
    LabelBehind(c.p, k, a, ls, size);
    PlanAppend(c, k + |a.2|, lab, db, out, {}, others, others);
    PlanAppend(c, k, da, lab + db, out, If1(a.1, own), others, If1(a.1, own) + others);
    all := da + (lab + db);
    OwnMet(k, a, da, lab, db, n + ga, out);
    PlanReduce(c, k, all, out, If1(a.1, own) + others, others);
  }

  /** The position behind the own exit label has the depth the code leaves. */
  lemma OwnMet(k: nat, a: Compiled, da: Depths, lab: Depths, db: Depths, n: int, out: int)
    requires |da| == |a.2| && First(db, out) == n && |lab| == if a.1 then 1 else 0
    ensures a.1 ==> Met(k, da + (lab + db), out, (k + |a.2| + 1, n))
  {
    if a.1 {
      var all := da + (lab + db) + [out];
      assert all[|da| + 1] == if db == [] then out else db[0];
    }
  }

  lemma {:induction false} PlanExpr(c: Code, k: nat, l: Label, exit: nat, env: Env, e: Expr, size: nat, n: nat,
      out: int) returns (ds: Depths)
    requires Set(c, k, l, exit, env, CompileExpr(l, env, e), size) && WellFormed(e)
    requires !CompileExpr(l, env, e).1 ==> out == n + Grows1(Yield(e))
    ensures Planned(c, k, exit, CompileExpr(l, env, e), ds, n, out, Grows1(Yield(e)))
    decreases Size(e), 1
  {
    hide *;
    NotReference(e);
    match e
    case Seq(a, b) => ds := PlanSeq(c, k, l, exit, env, e, size, n, out);
    case Ignore(s) => ds := PlanIgnore(c, k, l, exit, env, e, size, n, out);
    case Binop(op, a, b) => ds := PlanOperation(c, k, l, exit, env, e, size, n, out);
    case ElemOf(b, i) => ds := PlanOperation(c, k, l, exit, env, e, size, n, out);
    case Arr(items) => ds := PlanOperation(c, k, l, exit, env, e, size, n, out);
    case Sexp(tag, items) => ds := PlanOperation(c, k, l, exit, env, e, size, n, out);
    case Call(g, args) => ds := PlanCall(c, k, l, exit, env, e, size, n, out);
    case Assign(x, s) => ds := PlanAssign(c, k, l, exit, env, e, size, n, out);
    case If(_, _, _) => ds := PlanIf(c, k, l, exit, env, e, size, n, out);
    case While(_, _) => ds := PlanWhile(c, k, l, exit, env, e, size, n, out);
    case DoWhile(_, _) => ds := PlanDoWhile(c, k, l, exit, env, e, size, n, out);
    case Case(_, _) => ds := PlanCase(c, k, l, exit, env, e, size, n, out);
    case Scope(_, _) => ds := PlanScope(c, k, l, exit, env, e, size, n, out);
    case _ => ds := PlanLeaf(c, k, l, exit, env, e, size, n, out);
  }

  lemma PlanLeaf(c: Code, k: nat, l: Label, exit: nat, env: Env, e: Expr, size: nat, n: nat, out: int)
      returns (ds: Depths)
    requires (e.Const? || e.Str? || e.VarOf? || e.Unit? || e.Skip?)
    requires Set(c, k, l, exit, env, CompileExpr(l, env, e), size) && WellFormed(e)
    requires !CompileExpr(l, env, e).1 ==> out == n + Grows1(Yield(e))
    ensures Planned(c, k, exit, CompileExpr(l, env, e), ds, n, out, Grows1(Yield(e)))
  {
    hide Plan, Unique, FindLabel, LookUp, Mapped, Count;
    var code := CompileExpr(l, env, e).2;
    if e.Skip? {
      ds := [];
      NoCode(c.p, k);
      PlanNone(c, k, n);
    } else if e.VarOf? {
      PlaceKeeps(env, e.name);
      MappedLookUp(env.scope, c.slots, e.name);
      InsnAt(c.p, k, code, 0);
      PlanVariable(c, k, code[0], n);
      ds := [n];
    } else {
      InsnAt(c.p, k, code, 0);
      PlanOne(c, k, code[0], n);
      ds := [n];
    }
  }

  lemma {:induction false} PlanIgnore(c: Code, k: nat, l: Label, exit: nat, env: Env, e: Expr, size: nat, n: nat,
      out: int) returns (ds: Depths)
    requires e.Ignore? && Set(c, k, l, exit, env, CompileExpr(l, env, e), size) && WellFormed(e)
    requires !CompileExpr(l, env, e).1 ==> out == n + Grows1(Yield(e))
    ensures Planned(c, k, exit, CompileExpr(l, env, e), ds, n, out, Grows1(Yield(e)))
    decreases Size(e), 0
  {
    hide Plan, Planned, Unique, FindLabel, Mapped, Count, CodeAt, Yield, Finish, Ready;
    IgnoreYield(e);
    var (ls, env1) := env.NewLabel();
    var code := CompileExpr(ls, env1, e.inner);
    ReadyFinish(c.p, k, l, exit, code, ls, DROP, size);
    var a := PlanExpr(c, k, ls, k + |code.2| + 1, env1, e.inner, size, n, n + 1);
    PlanOne(c, After(k, k + |code.2| + 1, code), DROP, n + 1);
    FinishUnflagged(code, ls, DROP);
    ds := PlanFinish(c, k, l, exit, code, ls, DROP, size, a, n, 1, out, Grows1(Yield(e)));
  }

  lemma FinishUnflagged(code: Compiled, ls: Label, tail: Insn)
    ensures !Finish(code, ls, [tail]).1
  {
  }

  lemma {:induction false} PlanSeq(c: Code, k: nat, l: Label, exit: nat, env: Env, e: Expr, size: nat, n: nat, out: int)
      returns (ds: Depths)
    requires e.Seq? && Set(c, k, l, exit, env, CompileExpr(l, env, e), size) && WellFormed(e)
    requires !CompileExpr(l, env, e).1 ==> out == n + Grows1(Yield(e))
    ensures Planned(c, k, exit, CompileExpr(l, env, e), ds, n, out, Grows1(Yield(e)))
    decreases Size(e), 0
  {
    hide Plan, Planned, Unique, FindLabel, Mapped, Count, CodeAt, Yield, Ready, CompileExpr, Kept, Grows;
    var (ls, env1) := env.NewLabel();
    var a := CompileExpr(ls, env1, e.first);
    var b := CompileExpr(l, a.0, e.second);
    PairUnfold(l, env, e.first, e.second);
    SeqYield(e);
    ExprKept(ls, env1, e.first);
    KeptLayout(env1, a.0);
    ExprKept(l, a.0, e.second);
    KeptLayout(a.0, b.0);
    ReadyPair(c.p, k, l, exit, a, ls, b, size);
    var da := PlanExpr(c, k, ls, k + |a.2| + 1, env1, e.first, size, n, n);
    var db := PlanExpr(c, After(k, k + |a.2| + 1, a), l, exit, a.0, e.second, size, n, out);
    ds := PlanPair(c, k, l, exit, a, ls, b, size, da, db, n, 0, Grows1(Yield(e)), out);
  }

  lemma {:induction false} PlanList(c: Code, k: nat, l: Label, exit: nat, env: Env, es: seq<Expr>, size: nat, n: nat,
      out: int) returns (ds: Depths)
    requires Set(c, k, l, exit, env, CompileList(l, env, es), size) && Operands(es)
    requires !CompileList(l, env, es).1 ==> out == n + |es|
    ensures Planned(c, k, exit, CompileList(l, env, es), ds, n, out, |es|)
    decreases SizeOfAll(es), 2
  {
    hide Plan, Unique, FindLabel, Mapped, Count, Yield, CodeAt, Ready, CompileExpr, CompileList, Kept, Grows,
      WellFormed;
    if es == [] {
      EmptyList(l, env);
      ds := [];
      ReadyCode(c.p, k, l, exit, CompileList(l, env, es), size);
      NoCode(c.p, k);
      PlanNone(c, k, n);
    } else if |es| == 1 {
      SingleList(l, env, es);
      ds := PlanExpr(c, k, l, exit, env, es[0], size, n, out);
    } else {
      var (ls, env1) := env.NewLabel();
      var a := CompileExpr(ls, env1, es[0]);
      var b := CompileList(l, a.0, es[1..]);
      LongList(l, env, es);
      ExprKept(ls, env1, es[0]);
      KeptLayout(env1, a.0);
      ListKept(l, a.0, es[1..]);
      KeptLayout(a.0, b.0);
      ReadyPair(c.p, k, l, exit, a, ls, b, size);
      var da := PlanExpr(c, k, ls, k + |a.2| + 1, env1, es[0], size, n, n + 1);
      var db := PlanList(c, After(k, k + |a.2| + 1, a), l, exit, a.0, es[1..], size, n + 1, out);
      ds := PlanPair(c, k, l, exit, a, ls, b, size, da, db, n, 1, |es| - 1, out);
    }
  }

  lemma ReadyCode(p: Prog, k: nat, l: Label, exit: nat, c: Compiled, size: nat)
    requires Ready(p, k, l, exit, c, size)
    ensures CodeAt(p, k, c.2)
  {
  }

  /** The operands and the instruction of an operation. */
  function OperandsOf(e: Expr): seq<Expr>
    requires e.Binop? || e.ElemOf? || e.Arr? || e.Sexp?
  {
    match e
    case Binop(_, x, y) => [x, y]
    case ElemOf(b, i) => [b, i]
    case Arr(items) => items
    case Sexp(_, items) => items
  }

  function OperationOf(e: Expr): Insn
    requires e.Binop? || e.ElemOf? || e.Arr? || e.Sexp?
  {
    match e
    case Binop(op, _, _) => BINOP(op)
    case ElemOf(_, _) => ELEM
    case Arr(items) => CALL(Named(".array"), |items|)
    case Sexp(tag, items) => SEXP(tag, |items|)
  }

  lemma OperationFacts(l: Label, env: Env, e: Expr)
    requires (e.Binop? || e.ElemOf? || e.Arr? || e.Sexp?) && WellFormed(e)
    ensures
      var (lop, env1) := env.NewLabel();
      CompileExpr(l, env, e) == Finish(CompileList(lop, env1, OperandsOf(e)), lop, [OperationOf(e)])
    ensures Operands(OperandsOf(e)) && Yield(e) == Proper && SizeOfAll(OperandsOf(e)) < Size(e)
  {
    hide CompileList, Finish;
    match e
    case Binop(_, x, y) => TwoFacts(x, y);
    case ElemOf(b, i) => TwoFacts(b, i);
    case _ =>
  }

  lemma TwoFacts(x: Expr, y: Expr)
    requires Operand(x) && Operand(y)
    ensures Operands([x, y]) && SizeOfAll([x, y]) == 2 + Size(x) + Size(y)
  {
    hide Operand, Size;
    SizeOfSome(x, y, x, []);
    CompilerCorrectness.TwoOperands(x, y);
    assert [x, y][1..] == [y] && [y][1..] == [];
  }

  lemma {:induction false} PlanOperation(c: Code, k: nat, l: Label, exit: nat, env: Env, e: Expr, size: nat, n: nat,
      out: int) returns (ds: Depths)
    requires e.Binop? || e.ElemOf? || e.Arr? || e.Sexp?
    requires Set(c, k, l, exit, env, CompileExpr(l, env, e), size) && WellFormed(e)
    requires !CompileExpr(l, env, e).1 ==> out == n + Grows1(Yield(e))
    ensures Planned(c, k, exit, CompileExpr(l, env, e), ds, n, out, Grows1(Yield(e)))
    decreases Size(e), 0
  {
    hide Plan, Planned, Unique, FindLabel, Mapped, Count, CodeAt, Yield, Finish, Ready, CompileExpr, CompileList,
      WellFormed, Operands, OperandsOf, Size, SizeOfAll, LeavesBuiltins;
    OperationFacts(l, env, e);
    var (lop, env1) := env.NewLabel();
    var es, i := OperandsOf(e), OperationOf(e);
    var code := CompileList(lop, env1, es);
    ReadyFinish(c.p, k, l, exit, code, lop, i, size);
    var a := PlanList(c, k, lop, k + |code.2| + 1, env1, es, size, n, n + |es|);
    FinishUnflagged(code, lop, i);
    PlanOperator(c, After(k, k + |code.2| + 1, code), e, n);
    ds := PlanFinish(c, k, l, exit, code, lop, i, size, a, n, |es|, out, Grows1(Yield(e)));
  }

  lemma PlanOperator(c: Code, k: nat, e: Expr, n: nat)
    requires (e.Binop? || e.ElemOf? || e.Arr? || e.Sexp?) && k < |c.p| && c.p[k] == OperationOf(e)
    requires LeavesBuiltins(c.p)
    ensures Plan(c, k, [n + |OperandsOf(e)|], n + 1, {})
  {
    hide Plan, Count;
    var m := n + |OperandsOf(e)|;
    if e.Arr? {
      FindsNothing(c.p, Named(".array"));
      PlanBuiltin(c, k, ".array", |e.items|, m);
    } else {
      PlanOne(c, k, OperationOf(e), m);
    }
  }

  lemma {:induction false} PlanCall(c: Code, k: nat, l: Label, exit: nat, env: Env, e: Expr, size: nat, n: nat,
      out: int) returns (ds: Depths)
    requires e.Call? && Set(c, k, l, exit, env, CompileExpr(l, env, e), size) && WellFormed(e)
    requires !CompileExpr(l, env, e).1 ==> out == n + Grows1(Yield(e))
    ensures Planned(c, k, exit, CompileExpr(l, env, e), ds, n, out, Grows1(Yield(e)))
    decreases Size(e), 0
  {
    hide Plan, Planned, Unique, FindLabel, Mapped, Count, CodeAt, Yield, Finish, Ready, CompileExpr, CompileList,
      WellFormed, Operands, LeavesBuiltins, LookUp;
    CalleeNamed(e);
    var name, a := e.callee.name, |e.args|;
    var (lcall, env1) := env.NewLabel();
    if LookUp(env.scope, name).Some? {
      MappedLookUp(env.scope, c.slots, name);
    }
    CallCode(c.p, k, l, exit, env, e, size);
    var code := CompileList(lcall, env1, e.args);
    var i := CALL(Named(name), a);
    ReadyFinish(c.p, k, l, exit, code, lcall, i, size);
    var d := PlanList(c, k, lcall, k + |code.2| + 1, env1, e.args, size, n, n + a);
    FinishUnflagged(code, lcall, i);
    BuiltinFree(c.p, name);
    PlanBuiltin(c, After(k, k + |code.2| + 1, code), name, a, n + a);
    ds := PlanFinish(c, k, l, exit, code, lcall, i, size, d, n, a, out, Grows1(Yield(e)));
  }

  lemma BuiltinFree(p: Prog, name: string)
    requires LeavesBuiltins(p) && name in BUILTINS
    ensures FindLabel(p, Named(name)) == None
  {
    hide FindLabel, Count;
    FindsNothing(p, Named(name));
  }

  lemma {:induction false} PlanAssign(c: Code, k: nat, l: Label, exit: nat, env: Env, e: Expr, size: nat, n: nat,
      out: int) returns (ds: Depths)
    requires e.Assign? && Set(c, k, l, exit, env, CompileExpr(l, env, e), size) && WellFormed(e)
    requires !CompileExpr(l, env, e).1 ==> out == n + Grows1(Yield(e))
    ensures Planned(c, k, exit, CompileExpr(l, env, e), ds, n, out, Grows1(Yield(e)))
    decreases Size(e), 0, 1
  {
    hide *;
    AssignTarget(e);
    if e.target.RefOf? {
      ds := PlanStore(c, k, l, exit, env, e, size, n, out);
    } else {
      ds := PlanStoreElement(c, k, l, exit, env, e, size, n, out);
    }
  }

  lemma {:induction false} PlanStore(c: Code, k: nat, l: Label, exit: nat, env: Env, e: Expr, size: nat, n: nat,
      out: int) returns (ds: Depths)
    requires e.Assign? && e.target.RefOf? && Set(c, k, l, exit, env, CompileExpr(l, env, e), size) && WellFormed(e)
    requires !CompileExpr(l, env, e).1 ==> out == n + Grows1(Yield(e))
    ensures Planned(c, k, exit, CompileExpr(l, env, e), ds, n, out, Grows1(Yield(e)))
    decreases Size(e), 0, 0
  {
    hide Plan, Planned, Unique, FindLabel, Mapped, Count, CodeAt, Yield, Finish, Ready, CompileExpr, WellFormed, LookUp,
      Place;
    AssignTarget(e);
    var x := e.target.name;
    var (lassn, env1) := env.NewLabel();
    var (env2, d) := Place(env1, x);
    AssignVariableCode(l, env, e);
    var code := CompileExpr(lassn, env2, e.source);
    ReadyFinish(c.p, k, l, exit, code, lassn, ST(d), size);
    PlaceKeeps(env1, x);
    KeptLayout(env1, env2);
    ExprKept(lassn, env2, e.source);
    KeptLayout(env2, code.0);
    ReadyOk(c.p, k, lassn, k + |code.2| + 1, code, size);
    MappedLookUp(env.scope, c.slots, x);
    var a := PlanExpr(c, k, lassn, k + |code.2| + 1, env2, e.source, size, n, n + 1);
    FinishUnflagged(code, lassn, ST(d));
    PlanVariable(c, After(k, k + |code.2| + 1, code), ST(d), n + 1);
    ds := PlanFinish(c, k, l, exit, code, lassn, ST(d), size, a, n, 1, out, Grows1(Yield(e)));
  }

  lemma {:induction false} PlanStoreElement(c: Code, k: nat, l: Label, exit: nat, env: Env, e: Expr, size: nat, n: nat,
      out: int) returns (ds: Depths)
    requires e.Assign? && e.target.ElemRef? && Set(c, k, l, exit, env, CompileExpr(l, env, e), size) && WellFormed(e)
    requires !CompileExpr(l, env, e).1 ==> out == n + Grows1(Yield(e))
    ensures Planned(c, k, exit, CompileExpr(l, env, e), ds, n, out, Grows1(Yield(e)))
    decreases Size(e), 0, 0
  {
    hide Plan, Planned, Unique, FindLabel, Mapped, Count, CodeAt, Yield, Finish, Ready, CompileExpr, CompileList,
      WellFormed, Kept, Grows;
    AssignTarget(e);
    AssignSizes(e);
    var (b, i, s) := (e.target.base, e.target.index, e.source);
    var (lassn, env1) := env.NewLabel();
    AssignElementCode(l, env, e);
    var all := CompileList(lassn, env1, [b, i, s]);
    ReadyFinish(c.p, k, l, exit, all, lassn, STA, size);
    var a := PlanList(c, k, lassn, k + |all.2| + 1, env1, [b, i, s], size, n, n + 3);
    FinishUnflagged(all, lassn, STA);
    PlanOne(c, After(k, k + |all.2| + 1, all), STA, n + 3);
    ds := PlanFinish(c, k, l, exit, all, lassn, STA, size, a, n, 3, out, Grows1(Yield(e)));
  }

  lemma AssignSizes(e: Expr)
    requires e.Assign? && e.target.ElemRef? && WellFormed(e)
    ensures
      var es := [e.target.base, e.target.index, e.source];
      Operands(es) && SizeOfAll(es) < Size(e)
  {
    var (b, i, s) := (e.target.base, e.target.index, e.source);
    SizeOfAssign(e.target, s);
    TwoFacts(i, s);
    assert [b, i, s][1..] == [i, s];
  }

  /** An arm of a conditional: its code and the jump to the exit. */
  lemma {:induction false} PlanArm(c: Code, k: nat, l: Label, exit: nat, env: Env, e: Expr, size: nat, n: nat, g: nat,
      out: int) returns (ds: Depths)
    requires Set(c, k, l, exit, env, CompileExpr(l, env, e), size) && WellFormed(e) && g == Grows1(Yield(e))
    requires CodeAt(c.p, k + |CompileExpr(l, env, e).2|, JumpUnless(CompileExpr(l, env, e).1, l))
    requires FindLabel(c.p, l) == Some(exit)
    ensures |ds| == |CompileExpr(l, env, e).2| + |JumpUnless(CompileExpr(l, env, e).1, l)| && First(ds, out) == n
    ensures Plan(c, k, ds, out, {(exit, n + g)})
    decreases Size(e), 2
  {
    hide Plan, Unique, FindLabel, Mapped, Count, CodeAt, Yield, Ready, CompileExpr, WellFormed;
    var code := CompileExpr(l, env, e);
    if code.1 {
      ds := PlanExpr(c, k, l, exit, env, e, size, n, out);
    } else {
      var a := PlanExpr(c, k, l, exit, env, e, size, n, n + g);
      InsnAt(c.p, k + |code.2|, JumpUnless(code.1, l), 0);
      PlanJump(c, k + |code.2|, l, n + g, exit, out);
      PlanAppend(c, k, a, [n + g], out, {}, {(exit, n + g)}, {(exit, n + g)});
      ds := a + [n + g];
    }
  }

  /** An operand and its own exit label. */
  lemma {:induction false} PlanOperand(c: Code, k: nat, ls: Label, env: Env, e: Expr, size: nat, n: nat)
      returns (ds: Depths)
    requires Set(c, k, ls, k + |CompileExpr(ls, env, e).2| + 1, env, CompileExpr(ls, env, e), size) && Operand(e)
    requires CodeAt(c.p, k + |CompileExpr(ls, env, e).2|, LabelIf(CompileExpr(ls, env, e).1, ls))
    ensures |ds| == |CompileExpr(ls, env, e).2| + |LabelIf(CompileExpr(ls, env, e).1, ls)| && First(ds, n + 1) == n
    ensures Plan(c, k, ds, n + 1, {})
    decreases Size(e), 2
  {
    hide Plan, Unique, FindLabel, Mapped, Count, CodeAt, Yield, Ready, CompileExpr, WellFormed;
    var code := CompileExpr(ls, env, e);
    var own := k + |code.2| + 1;
    var a := PlanExpr(c, k, ls, own, env, e, size, n, n + 1);
    var lab := LabelPlan(c, k + |code.2|, code.1, ls, n + 1);
    PlanAppend(c, k, a, lab, n + 1, If1(code.1, (own, n + 1)), {}, If1(code.1, (own, n + 1)));
    ds := a + lab;
    PlanReduce(c, k, ds, n + 1, If1(code.1, (own, n + 1)), {});
  }

  lemma {:induction false} PlanIf(c: Code, k: nat, l: Label, exit: nat, env: Env, e: Expr, size: nat, n: nat, out: int)
      returns (ds: Depths)
    requires e.If? && Set(c, k, l, exit, env, CompileExpr(l, env, e), size) && WellFormed(e)
    requires !CompileExpr(l, env, e).1 ==> out == n + Grows1(Yield(e))
    ensures Planned(c, k, exit, CompileExpr(l, env, e), ds, n, out, Grows1(Yield(e)))
    decreases Size(e), 0
  {
    hide Plan, Unique, FindLabel, Mapped, Count, CodeAt, Yield, Ready, CompileExpr, CompileIf, WellFormed,
      LeavesBuiltins, Size;
    IfParts(e);
    IfFacts(e);
    var i := IfReady(c.p, k, l, exit, env, e, size);
    var g := Grows1(Yield(e));
    var j := i.k1 - 1;
    var da := PlanOperand(c, k, i.lc, i.envc, e.cond, size, n);
    var db := PlanArm(c, i.k1, l, exit, i.env1, e.thn, size, n, g, n);
    var dc := PlanArm(c, i.k2, l, exit, i.env2, e.els, size, n, g, out);
    PlanBranch(c, j, false, i.l2, n + 1, i.k2);
    PlanOne(c, i.k2 - 1, LABEL(i.l2), n);
    ds := IfPlan(c, k, i, exit, da, db, dc, n, g, out);
  }

  lemma IfFacts(e: Expr)
    requires e.If? && WellFormed(e)
    ensures Grows1(Yield(e)) == Grows1(Yield(e.thn)) == Grows1(Yield(e.els))
    ensures Size(e) == 1 + Size(e.cond) + Size(e.thn) + Size(e.els)
  {
  }

  lemma IfPlan(c: Code, k: nat, i: IfPieces, exit: nat, da: Depths, db: Depths, dc: Depths, n: nat, g: nat, out: int)
      returns (ds: Depths)
    requires i.k1 == k + |da| + 1 && i.k2 == i.k1 + |db| + 1
    requires First(da, n + 1) == n && First(db, n) == n && First(dc, out) == n
    requires Plan(c, k, da, n + 1, {}) && Plan(c, i.k1 - 1, [n + 1], n, {(i.k2, n)})
    requires Plan(c, i.k1, db, n, {(exit, n + g)})
    requires Plan(c, i.k2 - 1, [n], n, {}) && Plan(c, i.k2, dc, out, {(exit, n + g)})
    ensures |ds| == |da| + |db| + |dc| + 2 && First(ds, out) == n && Plan(c, k, ds, out, {(exit, n + g)})
  {
    hide Plan;
    var marks := {(exit, n + g), (i.k2, n)};
    PlanAppend(c, i.k2 - 1, [n], dc, out, {}, {(exit, n + g)}, marks);
    PlanAppend(c, i.k1, db, [n] + dc, out, {(exit, n + g)}, marks, marks);
    PlanAppend(c, i.k1 - 1, [n + 1], db + ([n] + dc), out, {(i.k2, n)}, marks, marks);
    PlanAppend(c, k, da, [n + 1] + (db + ([n] + dc)), out, {}, marks, marks);
    ds := da + ([n + 1] + (db + ([n] + dc)));
    assert ds == da + [n + 1] + db + [n] + dc;
    MetAt(k, da + [n + 1] + db + [n], dc, out, n);
    PlanReduce(c, k, ds, out, marks, {(exit, n + g)});
  }

  /** The depth a later piece starts with. */
  lemma MetAt(k: nat, before: Depths, after: Depths, out: int, n: int)
    requires First(after, out) == n
    ensures Met(k, before + after, out, (k + |before|, n))
  {
    var all := before + after + [out];
    assert all[|before|] == if after == [] then out else after[0];
  }

  lemma {:induction false} PlanWhile(c: Code, k: nat, l: Label, exit: nat, env: Env, e: Expr, size: nat, n: nat,
      out: int) returns (ds: Depths)
    requires e.While? && Set(c, k, l, exit, env, CompileExpr(l, env, e), size) && WellFormed(e)
    requires !CompileExpr(l, env, e).1 ==> out == n + Grows1(Yield(e))
    ensures Planned(c, k, exit, CompileExpr(l, env, e), ds, n, out, Grows1(Yield(e)))
    decreases Size(e), 0
  {
    hide Plan, Unique, FindLabel, Mapped, Count, CodeAt, Yield, Ready, CompileExpr, CompileWhile, WellFormed,
      LeavesBuiltins, Size, LoopEnd;
    WhileParts(e);
    WhileFacts(e);
    var i := WhileReady(c.p, k, l, exit, env, e, size);
    var b, d := CompileExpr(i.lb, i.envb, e.body), CompileExpr(i.lc, i.envc, e.cond);
    LoopParts(c.p, i, e.cond, e.body, size);
    var db := PlanExpr(c, i.kb, i.lb, i.eb, i.envb, e.body, size, n, n);
    var dc := PlanOperand(c, i.kc, i.lc, i.envc, e.cond, size, n);
    PlanJump(c, k, Gen(env.number + 2), n, i.kc, n);
    PlanOne(c, k + 1, FLABEL(i.loop), n);
    PlanOne(c, i.kc - 1, c.p[i.kc - 1], n);
    PlanBranch(c, i.kc + |dc|, true, i.loop, n + 1, i.kb);
    ds := WhilePlan(c, k, i, db, dc, b.1, n);
  }

  lemma WhileFacts(e: Expr)
    requires e.While? && WellFormed(e)
    ensures Size(e) == 1 + Size(e.cond) + Size(e.body) && Grows1(Yield(e)) == 0
  {
  }

  lemma LoopParts(p: Prog, i: LoopPieces, cond: Expr, body: Expr, size: nat)
    requires LoopReady(p, i, cond, body, size)
    ensures
      var b, c := CompileExpr(i.lb, i.envb, body), CompileExpr(i.lc, i.envc, cond);
      var kj := After(i.kc, i.ec, c);
      && Ready(p, i.kb, i.lb, i.eb, b, size) && Ready(p, i.kc, i.lc, i.ec, c, size)
      && LayoutOf(i.envb) == LayoutOf(i.envc) && !i.envb.scope.I?
      && kj < |p| && p[kj] == CJMP(true, i.loop) && FindLabel(p, i.loop) == Some(i.kb) && LoopEnd(i, cond) == kj + 1
  {
    hide Unique, FindLabel, CodeAt, CompileExpr;
  }

  lemma WhilePlan(c: Code, k: nat, i: LoopPieces, db: Depths, dc: Depths, flag: bool, n: nat) returns (ds: Depths)
    requires i.kb == k + 2 && i.kc == i.kb + |db| + 1 && i.eb == i.kc
    requires First(db, n) == n && First(dc, n + 1) == n
    requires Plan(c, k, [n], n, {(i.kc, n)}) && Plan(c, k + 1, [n], n, {}) && Plan(c, i.kb, db, n, If1(flag, (i.eb, n)))
    requires Plan(c, i.kc - 1, [n], n, {}) && Plan(c, i.kc, dc, n + 1, {})
    requires Plan(c, i.kc + |dc|, [n + 1], n, {(i.kb, n)})
    ensures |ds| == |db| + |dc| + 4 && First(ds, n) == n && Plan(c, k, ds, n, {})
  {
    hide Plan;
    var marks := {(i.kc, n as int), (i.kb, n as int)};
    PlanAppend(c, i.kc, dc, [n + 1], n, {}, {(i.kb, n)}, marks);
    PlanAppend(c, i.kc - 1, [n], dc + [n + 1], n, {}, marks, marks);
    PlanAppend(c, i.kb, db, [n] + (dc + [n + 1]), n, If1(flag, (i.eb, n)), marks, marks);
    PlanAppend(c, k + 1, [n], db + ([n] + (dc + [n + 1])), n, {}, marks, marks);
    PlanAppend(c, k, [n], [n] + (db + ([n] + (dc + [n + 1]))), n, {(i.kc, n)}, marks, marks);
    ds := [n] + ([n] + (db + ([n] + (dc + [n + 1]))));
    assert ds == ([n] + [n]) + (db + ([n] + (dc + [n + 1])));
    assert ds == ([n] + [n] + db + [n]) + (dc + [n + 1]);
    MetAt(k, [n] + [n], db + ([n] + (dc + [n + 1])), n, n);
    MetAt(k, [n] + [n] + db + [n], dc + [n + 1], n, n);
    PlanReduce(c, k, ds, n, marks, {});
  }

  lemma {:induction false} PlanDoWhile(c: Code, k: nat, l: Label, exit: nat, env: Env, e: Expr, size: nat, n: nat,
      out: int) returns (ds: Depths)
    requires e.DoWhile? && Set(c, k, l, exit, env, CompileExpr(l, env, e), size) && WellFormed(e)
    requires !CompileExpr(l, env, e).1 ==> out == n + Grows1(Yield(e))
    ensures Planned(c, k, exit, CompileExpr(l, env, e), ds, n, out, Grows1(Yield(e)))
    decreases Size(e), 0
  {
    hide Plan, Unique, FindLabel, Mapped, Count, CodeAt, Yield, Ready, CompileExpr, CompileDoWhile, WellFormed,
      LeavesBuiltins, Size, LoopEnd;
    DoWhileFacts(e);
    var i := DoWhileReady(c.p, k, l, exit, env, e, size);
    var b, d := CompileExpr(i.lb, i.envb, e.body), CompileExpr(i.lc, i.envc, e.cond);
    LoopParts(c.p, i, e.cond, e.body, size);
    var db := PlanExpr(c, i.kb, i.lb, i.eb, i.envb, e.body, size, n, n);
    var lab := LabelPlan(c, i.kb + |b.2|, b.1, i.lb, n);
    var dc := PlanOperand(c, i.kc, i.lc, i.envc, e.cond, size, n);
    PlanOne(c, k, c.p[k], n);
    PlanBranch(c, i.kc + |dc|, true, i.loop, n + 1, i.kb);
    ds := DoWhilePlan(c, k, i, db, lab, dc, b.1, n);
  }

  lemma DoWhileFacts(e: Expr)
    requires e.DoWhile? && WellFormed(e)
    ensures Operand(e.cond) && WellFormed(e.body) && Yield(e.body) == Nothing
    ensures Size(e) == 1 + Size(e.cond) + Size(e.body) && Grows1(Yield(e)) == 0
  {
  }

  lemma DoWhilePlan(c: Code, k: nat, i: LoopPieces, db: Depths, lab: Depths, dc: Depths, flag: bool, n: nat)
      returns (ds: Depths)
    requires i.kb == k + 1 && i.kc == i.kb + |db| + |lab| && i.eb == i.kb + |db| + 1 && |lab| == if flag then 1 else 0
    requires First(db, n) == n && First(lab, n) == n && First(dc, n + 1) == n
    requires Plan(c, k, [n], n, {}) && Plan(c, i.kb, db, n, If1(flag, (i.eb, n))) && Plan(c, i.kb + |db|, lab, n, {})
    requires Plan(c, i.kc, dc, n + 1, {}) && Plan(c, i.kc + |dc|, [n + 1], n, {(i.kb, n)})
    ensures |ds| == |db| + |lab| + |dc| + 2 && First(ds, n) == n && Plan(c, k, ds, n, {})
  {
    hide Plan;
    var marks := If1(flag, (i.eb, n)) + {(i.kb, n)};
    PlanAppend(c, i.kc, dc, [n + 1], n, {}, {(i.kb, n)}, marks);
    PlanAppend(c, i.kb + |db|, lab, dc + [n + 1], n, {}, marks, marks);
    PlanAppend(c, i.kb, db, lab + (dc + [n + 1]), n, If1(flag, (i.eb, n)), marks, marks);
    PlanAppend(c, k, [n], db + (lab + (dc + [n + 1])), n, {}, marks, marks);
    ds := [n] + (db + (lab + (dc + [n + 1])));
    assert ds == ([n] + db + lab) + (dc + [n + 1]);
    MetAt(k, [n], db + (lab + (dc + [n + 1])), n, n);
    MetAt(k, [n] + db + lab, dc + [n + 1], n, n);
    PlanReduce(c, k, ds, n, marks, {});
  }

  lemma {:induction false} PlanScope(c: Code, k: nat, l: Label, exit: nat, env: Env, e: Expr, size: nat, n: nat,
      out: int) returns (ds: Depths)
    requires e.Scope? && Set(c, k, l, exit, env, CompileExpr(l, env, e), size) && WellFormed(e)
    requires !CompileExpr(l, env, e).1 ==> out == n + Grows1(Yield(e))
    ensures Planned(c, k, exit, CompileExpr(l, env, e), ds, n, out, Grows1(Yield(e)))
    decreases Size(e), 0
  {
    hide Plan, Unique, FindLabel, Mapped, Count, CodeAt, Yield, Ready, CompileExpr, WellFormed, LeavesBuiltins, Size,
      Opened, AddNames, OpenScope;
    ScopeParts(e);
    ScopeFacts(e);
    var env2 := env.NewLabel().1.NewLabel().1;
    var inner := AddNames(OpenScope(env2), NamesOf(e.defs));
    var body := Initialised(e.defs, e.scoped);
    ScopeReady(c.p, k, l, exit, env, e, size);
    MappedOpens(env2, c.slots, NamesOf(e.defs));
    var code := CompileExpr(l, inner, body);
    var g := Grows1(Yield(e));
    ds := PlanScoped(c, k, l, exit, inner, body, size, n, g, out);
  }

  lemma ScopeFacts(e: Expr)
    requires e.Scope?
    ensures Size(Initialised(e.defs, e.scoped)) < Size(e)
  {
    SizeOfInitialised(e.defs, e.scoped);
  }

  lemma {:induction false} PlanScoped(c: Code, k: nat, l: Label, exit: nat, inner: Env, body: Expr, size: nat, n: nat,
      g: nat, out: int) returns (ds: Depths)
    requires Set(c, k + 1, l, exit, inner, CompileExpr(l, inner, body), size) && WellFormed(body)
    requires g == Grows1(Yield(body))
    requires
      var end := k + 1 + |CompileExpr(l, inner, body).2|;
      k < |c.p| && c.p[k].SLABEL? && end < |c.p| && c.p[end].SLABEL?
    requires !CompileExpr(l, inner, body).1 ==> out == n + g
    ensures
      var code := CompileExpr(l, inner, body);
      |ds| == |code.2| + 2 && First(ds, out) == n && Plan(c, k, ds, out, If1(code.1, (exit, n + g)))
    decreases Size(body), 2
  {
    hide Plan, Unique, FindLabel, Mapped, Count, CodeAt, Yield, Ready, CompileExpr, WellFormed;
    var code := CompileExpr(l, inner, body);
    var marks := If1(code.1, (exit, n + g));
    var a := PlanExpr(c, k + 1, l, exit, inner, body, size, n, out);
    PlanOne(c, k, c.p[k], n);
    PlanSilent(c, k + 1 + |code.2|, out);
    PlanAppend(c, k + 1, a, [out], out, marks, {}, marks);
    PlanAppend(c, k, [n], a + [out], out, {}, marks, marks);
    ds := [n] + (a + [out]);
  }

  /** A scope label, reached or not. */
  lemma PlanSilent(c: Code, k: nat, n: int)
    requires k < |c.p| && c.p[k].SLABEL?
    ensures Plan(c, k, [n], n, {})
  {
    forall d | Follows(c.p, d, k, [n], n, {}) ensures AllBalanced(c.(d := d), k, k + 1) {
      OneFollows(c.p, d, k, n, n, {});
    }
  }

  // ---- case expressions ----

  /** One branch: from the head, through pattern, bindings and body, to the end label. */
  lemma {:induction false} PlanOneBranch(c: Code, k: nat, l: Label, exit: nat, env: Env, b: Branch, last: bool,
      lab: Option<Label>, lfalse: Label, xfalse: nat, i: BranchPieces, size: nat, n: nat, g: nat, out: int)
      returns (ds: Depths)
    requires BranchReady(c.p, k, l, exit, env, b, last, lab, lfalse, i, size) && LeavesBuiltins(c.p) && !env.scope.I?
    requires Mapped(env.scope, c.slots)
    requires Unique(c.p) && FindLabel(c.p, l) == Some(exit)
    requires CompilePattern(env, lfalse, b.pattern).1 ==> FindLabel(c.p, lfalse) == Some(xfalse)
    requires WellFormedBranch(b) && g == Grows1(YieldOfBranch(b))
    requires last ==> out == n + g
    ensures |ds| == |CompileBranch(l, env, b, last, lab, lfalse).2|
    ensures First(ds, out) == (if lab.None? then n + 2 else n + 1)
    ensures lab.Some? ==> |ds| > 2 && ds[2] == n + 1
    ensures Plan(c, k, ds, out, {(exit, n + g)} + If1(CompilePattern(env, lfalse, b.pattern).1, (xfalse, n + 1)))
    decreases Size(b.body), 3
  {
    hide Plan, Unique, FindLabel, Mapped, Count, CodeAt, Yield, Ready, CompileExpr, CompilePattern, CompileBindings,
      WellFormed, BranchHead, BranchEnds, LeavesAt, AddNames, OpenScope, Opened, Paths, Vars, Size, LeavesBuiltins,
      CompileBranch;
    var marks := {(exit, n + g)} + If1(CompilePattern(env, lfalse, b.pattern).1, (xfalse, n + 1));
    BranchParts(c.p, k, l, exit, env, b, last, lab, lfalse, i, size);
    BranchFacts(b);
    var blab := BranchStart(c.p, k, l, exit, env, b, last, lab, lfalse, i, size);
    var dh := PlanBranchHead(c, k, blab, lab, n);
    var dp := PlanPattern(c, i.kp, env, lfalse, xfalse, b.pattern, n + 2);
    BranchEnv(i.up, b.pattern);
    OpenScopeShape(i.up);
    var db := PlanBindings(c, i.kb, i.up, OpenScope(i.up), BindingsOf(b), n + 1);
    PlanOne(c, i.ks - 1, DROP, n + 1);
    OpenedIsLocal(i.up, i.env, |Vars(b.pattern)|);
    MappedOpens(i.up, c.slots, Vars(b.pattern));
    var code := CompileExpr(l, i.env, b.body);
    var de := PlanExpr(c, i.ks, l, exit, i.env, b.body, size, n, n + g);
    var dt := PlanBranchEnd(c, k, l, exit, env, b, last, lab, lfalse, i.ks + |code.2|, n, g, out);
    ds := BranchPlan(c, k, i, dh, dp, db, de, dt, n, g, exit,
      If1(CompilePattern(env, lfalse, b.pattern).1, (xfalse, n + 1)), code.1, out);
    HeadDepth(dh, lab, n, dp, db, de, dt);
  }

  lemma HeadDepth(dh: Depths, lab: Option<Label>, n: nat, dp: Depths, db: Depths, de: Depths, dt: Depths)
    requires lab.Some? ==> |dh| > 2 && dh[2] == n + 1
    ensures var ds := dh + (dp + (db + ([n + 1] + (de + dt)))); lab.Some? ==> |ds| > 2 && ds[2] == n + 1
  {
  }

  lemma BranchFacts(b: Branch)
    requires WellFormedBranch(b)
    ensures WellFormed(b.body) && OrdinaryNames(Vars(b.pattern)) && YieldOfBranch(b) == Yield(b.body)
  {
  }

  lemma BranchParts(p: Prog, k: nat, l: Label, exit: nat, env: Env, b: Branch, last: bool, lab: Option<Label>,
      lfalse: Label, i: BranchPieces, size: nat)
    requires BranchReady(p, k, l, exit, env, b, last, lab, lfalse, i, size)
    ensures
      var bind := CompileBindings(OpenScope(i.up), BindingsOf(b));
      var body := CompileExpr(l, i.env, b.body);
      && LayoutOf(i.up) == LayoutOf(env) && !i.up.scope.I?
      && CodeAt(p, i.kb, bind.1) && i.env == bind.0 && i.env.ok
      && i.ks == i.kb + |bind.1| + 1 && i.ks <= |p| && p[i.ks - 1] == DROP
      && Ready(p, i.ks, l, exit, body, size)
      && BranchEnds(p, k, l, env, b, last, lab, lfalse, i.ks + |body.2|)
  {
    hide CodeAt, BranchHead, CompilePattern, CompileBindings, CompileExpr, CompileBranch, Ready, LeavesAt, OpenScope,
      BranchEnds;
  }

  lemma PlanBranchHead(c: Code, k: nat, blab: Label, lab: Option<Label>, n: nat) returns (ds: Depths)
    requires CodeAt(c.p, k, BranchHead(blab, lab))
    ensures |ds| == |BranchHead(blab, lab)| && First(ds, n + 2) == (if lab.None? then n + 2 else n + 1)
    ensures lab.Some? ==> |ds| > 2 && ds[2] == n + 1
    ensures Plan(c, k, ds, n + 2, {})
  {
    hide Plan;
    var head := BranchHead(blab, lab);
    InsnAt(c.p, k, head, 0);
    if lab.None? {
      PlanOne(c, k, head[0], n + 2);
      ds := [n + 2];
    } else {
      InsnAt(c.p, k, head, 1);
      InsnAt(c.p, k, head, 2);
      PlanOne(c, k, head[0], n + 1);
      PlanOne(c, k + 1, head[1], n + 1);
      PlanOne(c, k + 2, DUP, n + 1);
      PlanAppend(c, k + 1, [n + 1], [n + 1], n + 2, {}, {}, {});
      PlanAppend(c, k, [n + 1], [n + 1] + [n + 1], n + 2, {}, {}, {});
      ds := [n + 1] + ([n + 1] + [n + 1]);
    }
  }

  lemma PlanBranchEnd(c: Code, k: nat, l: Label, exit: nat, env: Env, b: Branch, last: bool, lab: Option<Label>,
      lfalse: Label, end: nat, n: nat, g: nat, out: int)
    returns (ds: Depths)
    requires BranchEnds(c.p, k, l, env, b, last, lab, lfalse, end) && FindLabel(c.p, l) == Some(exit)
    requires (last ==> out == n + g)
    ensures end + |ds| == k + |CompileBranch(l, env, b, last, lab, lfalse).2| && First(ds, out) == n + g
    ensures Plan(c, end, ds, out, {(exit, n + g)})
  {
    hide Plan, FindLabel, CompileBranch;
    if last {
      PlanSilent(c, end, out);
      ds := [out];
      PlanReduce(c, end, ds, out, {}, {(exit, n + g)});
    } else {
      PlanJump(c, end, l, n + g, exit, out);
      PlanSilent(c, end + 1, out);
      PlanAppend(c, end, [n + g], [out], out, {(exit, n + g)}, {}, {(exit, n + g)});
      ds := [n + g] + [out];
    }
  }

  lemma BranchPlan(c: Code, k: nat, i: BranchPieces, dh: Depths, dp: Depths, db: Depths, de: Depths, dt: Depths, n: nat,
      g: nat, exit: nat, fails: Marks, flag: bool, out: int)
    returns (ds: Depths)
    requires i.kp == k + |dh| && i.kb == i.kp + |dp| && i.ks == i.kb + |db| + 1
    requires First(dp, n + 1) == n + 2 && First(db, n + 1) == n + 1 && First(de, n + g) == n && First(dt, out) == n + g
    requires Plan(c, k, dh, n + 2, {}) && Plan(c, i.kp, dp, n + 1, fails) && Plan(c, i.kb, db, n + 1, {})
    requires Plan(c, i.ks - 1, [n + 1], n, {})
    requires Plan(c, i.ks, de, n + g, If1(flag, (exit, n + g))) && Plan(c, i.ks + |de|, dt, out, {(exit, n + g)})
    ensures ds == dh + (dp + (db + ([n + 1] + (de + dt))))
    ensures |ds| == |dh| + |dp| + |db| + 1 + |de| + |dt| && First(ds, out) == First(dh, n + 2)
    ensures Plan(c, k, ds, out, {(exit, n + g)} + fails)
  {
    hide Plan;
    var marks := {(exit, n + g)} + fails;
    PlanAppend(c, i.ks, de, dt, out, If1(flag, (exit, n + g)), {(exit, n + g)}, marks);
    PlanAppend(c, i.ks - 1, [n + 1], de + dt, out, {}, marks, marks);
    PlanAppend(c, i.kb, db, [n + 1] + (de + dt), out, {}, marks, marks);
    PlanAppend(c, i.kp, dp, db + ([n + 1] + (de + dt)), out, fails, marks, marks);
    PlanAppend(c, k, dh, dp + (db + ([n + 1] + (de + dt))), out, {}, marks, marks);
    ds := dh + (dp + (db + ([n + 1] + (de + dt))));
  }

  lemma {:induction false} PlanBranches(c: Code, k: nat, l: Label, exit: nat, env: Env, branches: seq<Branch>,
      lab: Option<Label>, lfail: Label, xfail: nat, size: nat, n: nat, g: nat)
    returns (ds: Depths)
    requires BranchesReady(c.p, k, l, exit, CompileBranches(l, env, branches, lab, lfail), lfail, xfail, size)
    requires branches != [] && LeavesBuiltins(c.p) && !env.scope.I? && Mapped(env.scope, c.slots)
    requires WellFormedBranches(branches) && g == Grows1(YieldOfBranches(branches))
    ensures |ds| == |CompileBranches(l, env, branches, lab, lfail).2|
    ensures First(ds, n + g) == (if lab.None? then n + 2 else n + 1)
    ensures lab.Some? ==> |ds| > 2 && ds[2] == n + 1
    ensures Plan(c, k, ds, n + g,
      {(exit, n + g)} + If1(CompileBranches(l, env, branches, lab, lfail).1, (xfail, n + 1)))
    decreases SizeOfBranches(branches), 0
  {
    hide Plan, Unique, FindLabel, Mapped, Count, CodeAt, Yield, YieldOfBranch, CompilePattern, CompileBranch,
      CompileBranches, WellFormedBranch, BranchReady, LeavesBuiltins, BranchesReady;
    var b, last := branches[0], |branches| == 1;
    var lfalse := if last then lfail else env.NewLabel().0;
    var env1 := if last then env else env.NewLabel().1;
    var code := CompileBranch(l, env1, b, last, lab, lfalse);
    assert SizeOfBranch(b) == Size(b.body);
    BranchesLaid(c.p, k, l, exit, CompileBranches(l, env, branches, lab, lfail), lfail, xfail, size);
    var i, xfalse := FirstBranch(c.p, k, l, exit, env, branches, lab, lfail, xfail, size);
    BranchesCode(l, env, branches, lab, lfail);
    BranchCanFail(l, env1, b, last, lab, lfalse);
    DepthsJoin(branches);
    if last || !code.1 {
      ds := PlanOneBranch(c, k, l, exit, env1, b, last, lab, lfalse, xfalse, i, size, n, g, n + g);
      LastMarks(c.p, lfalse, lfail, last, code.1, xfalse, xfail, l, exit, CompileBranches(l, env, branches, lab, lfail),
        k, size);
    } else {
      var others := CompileBranches(l, code.0, branches[1..], Some(lfalse), lfail);
      var a := PlanOneBranch(c, k, l, exit, env1, b, last, lab, lfalse, xfalse, i, size, n, g, n + 1);
      var r := PlanBranches(c, k + |code.2|, l, exit, code.0, branches[1..], Some(lfalse), lfail, xfail, size, n, g);
      var outer := {(exit, n + g)} + If1(others.1, (xfail, n + 1));
      var inner := {(exit, n + g)} + {(xfalse, n + 1)};
      PlanAppend(c, k, a, r, n + g, inner, outer, outer + inner);
      ds := a + r;
      NextMet(k, a, r, n, n + g);
      PlanReduce(c, k, ds, n + g, outer + inner, outer);
    }
  }

  /** A failing pattern enters the next branch behind its label. */
  lemma NextMet(k: nat, a: Depths, r: Depths, n: nat, out: int)
    requires |r| > 2 && r[2] == n + 1
    ensures Met(k, a + r, out, (k + |a| + 2, n + 1))
  {
    var all := a + r + [out];
    assert all[|a| + 2] == r[2];
  }

  lemma BranchesLaid(p: Prog, k: nat, l: Label, exit: nat, c: Compiled, lfail: Label, xfail: nat, size: nat)
    requires BranchesReady(p, k, l, exit, c, lfail, xfail, size)
    ensures Unique(p) && FindLabel(p, l) == Some(exit) && (c.1 ==> FindLabel(p, lfail) == Some(xfail))
  {
  }

  lemma LastMarks(p: Prog, lfalse: Label, lfail: Label, last: bool, fails: bool, xfalse: nat, xfail: nat, l: Label,
      exit: nat, c: Compiled, k: nat, size: nat)
    requires BranchesReady(p, k, l, exit, c, lfail, xfail, size) && c.1 == fails && (last ==> lfalse == lfail)
    requires (fails ==> last)
    requires fails ==> FindLabel(p, lfalse) == Some(xfalse)
    ensures fails ==> xfalse == xfail
  {
    hide Unique, FindLabel, CodeAt;
  }

  lemma DepthsJoin(branches: seq<Branch>)
    requires branches != [] && WellFormedBranches(branches)
    ensures WellFormedBranch(branches[0]) && Grows1(YieldOfBranches(branches)) == Grows1(YieldOfBranch(branches[0]))
    ensures WellFormedBranches(branches[1..])
    ensures |branches| > 1 ==> Grows1(YieldOfBranches(branches)) == Grows1(YieldOfBranches(branches[1..]))
    ensures SizeOfBranches(branches) == 1 + SizeOfBranch(branches[0]) + SizeOfBranches(branches[1..])
  {
    hide WellFormedBranch, YieldOfBranch;
  }

  lemma {:induction false} PlanCase(c: Code, k: nat, l: Label, exit: nat, env: Env, e: Expr, size: nat, n: nat,
      out: int) returns (ds: Depths)
    requires e.Case? && Set(c, k, l, exit, env, CompileExpr(l, env, e), size) && WellFormed(e)
    requires !CompileExpr(l, env, e).1 ==> out == n + Grows1(Yield(e))
    ensures Planned(c, k, exit, CompileExpr(l, env, e), ds, n, out, Grows1(Yield(e)))
    decreases Size(e), 0
  {
    hide Plan, Unique, FindLabel, Mapped, Count, CodeAt, Yield, YieldOfBranches, Ready, CompileExpr, CompileBranches,
      WellFormed, WellFormedBranches, LeavesBuiltins, Size, SizeOfBranches, BranchesReady, CaseEnds;
    CaseParts(e);
    CaseFacts(e);
    var ls, es, envs, envb, kb, lfail, xfail := CaseReady(c.p, k, l, exit, env, e, size);
    var b := CompileBranches(l, envb, e.branches, None, lfail);
    var g := Grows1(Yield(e));
    BranchesLaid(c.p, kb, l, exit, b, lfail, xfail, size);
    var da := PlanOperand(c, k, ls, envs, e.scrutinee, size, n);
    PlanOne(c, kb - 1, DUP, n + 1);
    var db := PlanBranches(c, kb, l, exit, envb, e.branches, None, lfail, xfail, size, n, g);
    BranchesJump(c.p, kb, l, exit, b, lfail, xfail, size);
    var dt := PlanCaseEnd(c, k, l, exit, env, e, b, kb + |b.2|, xfail, n, g, out);
    ds := CasePlan(c, k, kb, da, db, dt, b.1, exit, xfail, n, g, out);
  }

  lemma CaseFacts(e: Expr)
    requires e.Case? && WellFormed(e)
    ensures Size(e) == 1 + Size(e.scrutinee) + SizeOfBranches(e.branches) && e.branches != []
  {
  }

  lemma BranchesJump(p: Prog, k: nat, l: Label, exit: nat, c: Compiled, lfail: Label, xfail: nat, size: nat)
    requires BranchesReady(p, k, l, exit, c, lfail, xfail, size)
    ensures k + |c.2| < |p| && p[k + |c.2|] == JMP(l)
  {
    hide Unique, FindLabel, CodeAt;
  }

  /** The jump behind the branches, and the failure if there is one. */
  lemma PlanCaseEnd(c: Code, k: nat, l: Label, exit: nat, env: Env, e: Expr, b: Compiled, end: nat, xfail: nat, n: nat,
      g: nat, out: int) returns (ds: Depths)
    requires CaseEnds(c.p, k, l, env, e, b, end + 1, xfail) && FindLabel(c.p, l) == Some(exit) && end < |c.p|
    requires c.p[end] == JMP(l)
    ensures end + |ds| == k + |CompileExpr(l, env, e).2| && First(ds, out) == n + g
    ensures b.1 ==> xfail == end + 2 && |ds| > 2 && ds[2] == n + 1
    ensures Plan(c, end, ds, out, {(exit, n + g)})
  {
    hide Plan, FindLabel, CompileExpr;
    var marks := {(exit, n + g)};
    if b.1 {
      PlanJump(c, end, l, n + g, exit, n + 1);
      PlanOne(c, end + 1, c.p[end + 1], n + 1);
      PlanFail(c, end + 2, n + 1, n + g);
      PlanJump(c, end + 3, l, n + g, exit, out);
      PlanAppend(c, end + 2, [n + 1], [n + g], out, {}, marks, marks);
      PlanAppend(c, end + 1, [n + 1], [n + 1] + [n + g], out, {}, marks, marks);
      PlanAppend(c, end, [n + g], [n + 1] + ([n + 1] + [n + g]), out, marks, marks, marks);
      ds := [n + g] + ([n + 1] + ([n + 1] + [n + g]));
    } else {
      PlanJump(c, end, l, n + g, exit, out);
      ds := [n + g];
    }
  }

  lemma CasePlan(c: Code, k: nat, kb: nat, da: Depths, db: Depths, dt: Depths, fails: bool, exit: nat, xfail: nat,
      n: nat, g: nat, out: int) returns (ds: Depths)
    requires kb == k + |da| + 1 && First(da, n + 1) == n && First(db, n + g) == n + 2 && First(dt, out) == n + g
    requires Plan(c, k, da, n + 1, {}) && Plan(c, kb - 1, [n + 1], n + 2, {})
    requires Plan(c, kb, db, n + g, {(exit, n + g)} + If1(fails, (xfail, n + 1)))
    requires Plan(c, kb + |db|, dt, out, {(exit, n + g)})
    requires fails ==> xfail == kb + |db| + 2 && |dt| > 2 && dt[2] == n + 1
    ensures |ds| == |da| + 1 + |db| + |dt| && First(ds, out) == n && Plan(c, k, ds, out, {(exit, n + g)})
  {
    hide Plan;
    var marks := {(exit, n + g)} + If1(fails, (xfail, n + 1));
    PlanAppend(c, kb, db, dt, out, marks, {(exit, n + g)}, marks);
    PlanAppend(c, kb - 1, [n + 1], db + dt, out, {}, marks, marks);
    PlanAppend(c, k, da, [n + 1] + (db + dt), out, {}, marks, marks);
    ds := da + ([n + 1] + (db + dt));
    if fails {
      assert ds == (da + [n + 1] + db) + dt;
      NextMet(k, da + [n + 1] + db, dt, n, out);
    }
    PlanReduce(c, k, ds, out, marks, {(exit, n + g)});
  }
}
