/** A whole program: the compiled program halts with the output of the source evaluator (src/SM.ml:1589-1684,
    src/Language.ml:1182-1184). */
module ProgramCorrectness {
  import opened Wrappers
  import opened LamaValues
  import opened LamaSource
  import opened StackMachine
  import opened Compiler
  import opened CodeShape
  import opened Correspondence
  import opened Execution
  import opened ScopeCompilation
  import opened WellFormedness
  import opened Simulation
  import opened CompilerCorrectness

  /** The evaluator's start. */
  function InitialConf(input: seq<int>): Conf {
    Conf(I, World(input, [], []), Nil)
  }

  /** The machine's start. */
  function InitialMachine(input: seq<int>): Machine {
    Machine(0, Nil, Nil, map x | x in BUILTINS :: Builtin(x), Frame([], [], None), World(input, [], []))
  }

  /** A tame run that halts. */
  ghost predicate HaltsIn(p: Prog, m: Machine, m': Machine, n: nat) {
    Run(p, m, n) == Halt(m') && TameRun(p, m, n)
  }

  ghost predicate Halts(p: Prog, m: Machine, m': Machine) {
    exists n: nat :: HaltsIn(p, m, m', n)
  }

  lemma {:induction false} HaltStays(p: Prog, m: Machine, m': Machine, n: nat, k: nat)
    requires Run(p, m, n) == Halt(m') && n <= k
    ensures Run(p, m, k) == Halt(m')
    decreases n
  {
    hide Step;
    if Step(p, m).Next? {
      HaltStays(p, Step(p, m).m, m', n - 1, k - 1);
    }
  }

  /** A program halts in one way at most. */
  lemma HaltsOnce(p: Prog, m: Machine, m1: Machine, m2: Machine)
    requires Halts(p, m, m1) && Halts(p, m, m2)
    ensures m1 == m2
  {
    hide Run;
    var n1: nat :| HaltsIn(p, m, m1, n1);
    var n2: nat :| HaltsIn(p, m, m2, n2);
    HaltStays(p, m, m1, n1, n1 + n2);
    HaltStays(p, m, m2, n2, n1 + n2);
  }

  lemma ReachesHalt(p: Prog, m: Machine, mid: Machine, m': Machine)
    requires Reaches(p, m, mid) && Step(p, mid) == Halt(m') && Tame(p, mid)
    ensures Halts(p, m, m')
  {
    hide Step, Tame;
    var n: nat :| ReachesIn(p, m, mid, n);
    RunCompose(p, m, mid, n, 1);
    assert Run(p, mid, 1) == Halt(m');
    assert TameRun(p, mid, 1);
    TameCompose(p, m, mid, n, 1);
    assert HaltsIn(p, m, m', n + 1);
  }

  // ---- the shape of the program ----

  /** Everything in front of the code of the program's expression. */
  function Prologue(externs: seq<string>, e: Expr): Prog {
    [IMPORT("Std"), PUBLIC(MAIN)] + Externs(externs) + [LABEL(MAIN), BEGIN(MAIN, 2, CompiledMain(e).0.nlocals, [])]
  }

  /** The environment of the outermost scope. */
  function TopEnv(e: Expr): Env
    requires e.Scope?
  {
    AddNames(OpenScope(InitialEnv().NewLabel().1.NewLabel().1), NamesOf(e.defs))
  }

  function TopCode(e: Expr): Compiled
    requires e.Scope?
  {
    CompileExpr(EndLabel(), TopEnv(e), Initialised(e.defs, e.scoped))
  }

  lemma TopUnfold(e: Expr)
    requires e.Scope?
    ensures CompiledMain(e) == (CloseScope(TopCode(e).0), TopCode(e).1,
      [SLABEL(Gen(1))] + TopCode(e).2 + [SLABEL(Gen(2))])
  {
    hide AddNames, OpenScope, CloseScope, Initialised, NamesOf;
    ScopeCode(EndLabel(), InitialEnv(), e);
  }

  lemma {:induction false} GlobalNames(env: Env, xs: seq<string>)
    requires env.scope.G?
    ensures AddNames(env, xs).scope.G? && AddNames(env, xs).number == env.number
    ensures AddNames(env, xs).nlocals == env.nlocals && AddNames(env, xs).localIndex == env.localIndex
  {
    if xs != [] {
      GlobalNames(env, xs[1..]);
    }
  }

  lemma TopShape(e: Expr, x: Label)
    requires e.Scope?
    ensures TopEnv(e).scope.G? && TopEnv(e).number == 3 && TopEnv(e).localIndex == 0
    ensures Kept(TopEnv(e), TopCode(e).0) && Count(TopCode(e).2, x) <= Room(TopEnv(e), TopCode(e).0, x)
    ensures CompiledMain(e).0.ok == TopCode(e).0.ok && CompiledMain(e).0.nlocals == TopCode(e).0.nlocals
    ensures Count(CompiledMain(e).2, x) == Count(TopCode(e).2, x) + (if x == Gen(1) || x == Gen(2) then 1 else 0)
  {
    hide Count, AddNames, CompileExpr;
    var env := InitialEnv().NewLabel().1.NewLabel().1;
    GlobalNames(OpenScope(env), NamesOf(e.defs));
    ExprShape(EndLabel(), TopEnv(e), Initialised(e.defs, e.scoped), x);
    TopUnfold(e);
    CountOne(SLABEL(Gen(1)), x);
    CountOne(SLABEL(Gen(2)), x);
    CountAppend([SLABEL(Gen(1))], TopCode(e).2, x);
    CountAppend([SLABEL(Gen(1))] + TopCode(e).2, [SLABEL(Gen(2))], x);
  }

  lemma ProgramUnfold(externs: seq<string>, e: Expr)
    ensures CompileProgram(externs, e) == Prologue(externs, e) + CompiledMain(e).2 + LabelIf(CompiledMain(e).1,
      EndLabel()) + [END]
  {
    hide CompiledMain;
  }

  /** Every label of a compiled program is defined once, and the names of builtins are left alone. */
  lemma ProgramLabels(externs: seq<string>, e: Expr)
    requires e.Scope?
    ensures Unique(CompileProgram(externs, e)) && LeavesBuiltins(CompileProgram(externs, e))
  {
    hide Count, CompileProgram, CompiledMain, Prologue;
    var p := CompileProgram(externs, e);
    forall x ensures Count(p, x) <= (if x.Gen? || x == MAIN then 1 else 0) {
      ProgramCount(externs, e, x);
    }
  }

  lemma ProgramCount(externs: seq<string>, e: Expr, x: Label)
    requires e.Scope?
    ensures Count(CompileProgram(externs, e), x) <= if x.Gen? || x == MAIN then 1 else 0
  {
    hide Count, CompileProgram, CompiledMain, Prologue, TopCode, TopEnv;
    var c := CompiledMain(e);
    TopShape(e, x);
    ProgramUnfold(externs, e);
    PrologueCount(externs, e, x);
    LabelIfShape(c.1, EndLabel(), x);
    CountOne(END, x);
    var head := Prologue(externs, e);
    CountAppend(head, c.2, x);
    CountAppend(head + c.2, LabelIf(c.1, EndLabel()), x);
    CountAppend(head + c.2 + LabelIf(c.1, EndLabel()), [END], x);
  }

  lemma PrologueCount(externs: seq<string>, e: Expr, x: Label)
    ensures Count(Prologue(externs, e), x) == if x == MAIN then 1 else 0
  {
    hide Count, CompiledMain;
    var a: Prog := [IMPORT("Std"), PUBLIC(MAIN)] + Externs(externs);
    var b: Prog := [BEGIN(MAIN, 2, CompiledMain(e).0.nlocals, [])];
    CountPlain(a, x);
    CountPlain(b, x);
    CountOne(LABEL(MAIN), x);
    CountAppend(a, [LABEL(MAIN)], x);
    CountAppend(a + [LABEL(MAIN)], b, x);
    assert Prologue(externs, e) == a + [LABEL(MAIN)] + b;
  }

  // ---- running it ----

  /** The prologue gives main its locals. */
  lemma PrologueRuns(externs: seq<string>, e: Expr, input: seq<int>) returns (m: Machine)
    requires e.Scope?
    ensures Reaches(CompileProgram(externs, e), InitialMachine(input), m)
    ensures m == InitialMachine(input).(pc := |Prologue(externs, e)|, frame := m.frame)
    ensures |m.frame.locals| == CompiledMain(e).0.nlocals
  {
    hide Reaches, CompiledMain, Step, CompileProgram;
    var p := CompileProgram(externs, e);
    ProgramUnfold(externs, e);
    var m0 := InitialMachine(input);
    var n := |externs| + 3;
    PrologueAt(externs, e);
    SkipAll(p, m0, n);
    var m1 := m0.(pc := n);
    m := BeginRuns(p, m1, CompiledMain(e).0.nlocals);
    ReachesThen(p, m0, m1, m);
  }

  lemma PrologueAt(externs: seq<string>, e: Expr)
    ensures
      var p := CompileProgram(externs, e);
      && |Prologue(externs, e)| == |externs| + 4 && |externs| + 4 <= |p|
      && (forall i :: 0 <= i < |externs| + 3 ==> Skipped(p[i]))
      && p[|externs| + 3] == BEGIN(MAIN, 2, CompiledMain(e).0.nlocals, [])
  {
    hide CompiledMain;
  }

  predicate Skipped(i: Insn) {
    i.LABEL? || i.PUBLIC? || i.IMPORT? || i.EXTERN?
  }

  lemma {:induction false} SkipAll(p: Prog, m: Machine, n: nat)
    requires m.pc <= n <= |p| && forall i :: 0 <= i < n ==> Skipped(p[i])
    ensures Reaches(p, m, m.(pc := n))
    decreases n - m.pc
  {
    hide Reaches;
    if m.pc == n {
      ReachesNow(p, m);
    } else {
      RunSkip(p, m);
      var m1 := m.(pc := m.pc + 1);
      SkipAll(p, m1, n);
      ReachesThen(p, m, m1, m.(pc := n));
    }
  }

  lemma BeginRuns(p: Prog, m: Machine, n: nat) returns (m': Machine)
    requires Fetches(p, m, BEGIN(MAIN, 2, n, []))
    ensures Reaches(p, m, m') && |m'.frame.locals| == n
    ensures m' == m.(pc := m.pc + 1, frame := m'.frame)
  {
    hide Reaches;
    m' := m.(pc := m.pc + 1, frame := m.frame.(locals := seq(n, _ => Empty)));
    OneStep(p, m, m');
  }

  /** The code of the program's expression is in place, its end label and END behind it. */
  lemma MainAt(externs: seq<string>, e: Expr)
    requires e.Scope?
    ensures
      var p := CompileProgram(externs, e);
      var h, c := |Prologue(externs, e)|, CompiledMain(e);
      var end := h + |c.2| + |LabelIf(c.1, EndLabel())|;
      && CodeAt(p, h, c.2) && end < |p| && p[end] == END
      && (c.1 ==> end == h + |c.2| + 1 && FindLabel(p, EndLabel()) == Some(end))
  {
    hide Unique, Count, CompiledMain, CompileProgram, Prologue, CodeAt, FindLabel;
    var p := CompileProgram(externs, e);
    var c := CompiledMain(e);
    ProgramLabels(externs, e);
    ProgramUnfold(externs, e);
    WholeAt(p);
    var c1 := Prologue(externs, e) + c.2;
    var c2 := c1 + LabelIf(c.1, EndLabel());
    CodeSplit(p, 0, c2, [END]);
    CodeSplit(p, 0, c1, LabelIf(c.1, EndLabel()));
    CodeSplit(p, 0, Prologue(externs, e), c.2);
    InsnAt(p, |c2|, [END], 0);
    if c.1 {
      InsnAt(p, |c1|, LabelIf(c.1, EndLabel()), 0);
      LabelAt(p, |c1|, EndLabel());
    }
  }

  /** So is the code of the outermost scope's body. */
  lemma TopReady(externs: seq<string>, e: Expr)
    requires e.Scope? && CompiledMain(e).0.ok
    ensures
      var p := CompileProgram(externs, e);
      var k := |Prologue(externs, e)| + 1;
      var c := TopCode(e);
      var end := k + |c.2| + 1 + (if c.1 then 1 else 0);
      && Ready(p, k, EndLabel(), end, c, CompiledMain(e).0.nlocals)
      && k - 1 < |p| && p[k - 1].SLABEL?
      && end < |p| && p[end] == END
      && (!c.1 ==> p[k + |c.2|].SLABEL? && k + |c.2| + 1 == end)
  {
    hide Unique, Count, CompiledMain, CompileExpr, CompileProgram, Prologue, TopCode, TopEnv, CodeAt, FindLabel;
    var p := CompileProgram(externs, e);
    var h := |Prologue(externs, e)|;
    var t := TopCode(e);
    ProgramLabels(externs, e);
    TopUnfold(e);
    TopShape(e, MAIN);
    MainAt(externs, e);
    CodeSplit(p, h, [SLABEL(Gen(1))] + t.2, [SLABEL(Gen(2))]);
    CodeSplit(p, h, [SLABEL(Gen(1))], t.2);
    InsnAt(p, h, [SLABEL(Gen(1))], 0);
    InsnAt(p, h + 1 + |t.2|, [SLABEL(Gen(2))], 0);
  }

  lemma WholeAt(p: Prog)
    ensures CodeAt(p, 0, p)
  {
  }

  lemma TopAgrees(e: Expr, input: seq<int>, m: Machine)
    requires e.Scope? && WellFormed(e) && TopEnv(e).ok && m.world == World(input, [], [])
    ensures
      var st := PushScope(I, map[], Tagged(NamesOf(e.defs), Mut));
      Agrees([], st, InitialConf(input).world, LayoutOf(TopEnv(e)), DataOf(m))
  {
    hide AddNames, PushScope, Scopes;
    ScopeParts(e);
    TopOpens([], InitialEnv().NewLabel().1.NewLabel().1, NamesOf(e.defs), m.globals, m.frame.locals);
  }

  /** If the source program terminates, its compiled form halts with the same remaining input, output and, up to
      the names of objects, the same value on top of the stack and the same objects. */
  lemma ProgramCorrect(externs: seq<string>, e: Expr, input: seq<int>, fuel: nat) returns (f: Injection, m: Machine)
    requires e.Scope? && WellFormed(e) && CompiledMain(e).0.ok
    requires Eval(e, InitialConf(input), fuel).Some?
    ensures
      var c := Eval(e, InitialConf(input), fuel).value;
      && Halts(CompileProgram(externs, e), InitialMachine(input), m)
      && m.world.output == c.world.output && m.world.input == c.world.input
      && Image(f, c.world.store, m.world.store)
      && Grown(f, Yield(e), Nil, c.stack, Nil, m.stack)
  {
    hide Tame, Reaches, Unique, Count, FindLabel, Image, Progress, Alike, Ready, Yield, CompileExpr, WellFormed, Eval,
      Grown, CompileProgram, CompiledMain, Prologue, TopCode, TopEnv, PushScope, DropScope, Kept, Scopes, Step, Run,
      AddNames;
    var p := CompileProgram(externs, e);
    var k := |Prologue(externs, e)| + 1;
    var code := TopCode(e);
    var end := k + |code.2| + 1 + (if code.1 then 1 else 0);
    TopReady(externs, e);
    ProgramLabels(externs, e);
    TopShape(e, MAIN);
    KeptLayout(TopEnv(e), code.0);
    ScopeParts(e);
    ScopeEval(e, InitialConf(input), fuel);
    TopOk(e);
    TopCodeIs(e);
    var m0 := InitialMachine(input);
    var m1 := PrologueRuns(externs, e, input);
    RunSkip(p, m1);
    var m2 := m1.(pc := k);
    ReachesThen(p, m0, m1, m2);
    TopAgrees(e, input, m2);
    var c1 := InitialConf(input).(st := PushScope(I, map[], Tagged(NamesOf(e.defs), Mut)));
    var m3;
    f, m3 := ExprCorrect(p, k, EndLabel(), end, TopEnv(e), Initialised(e.defs, e.scoped), fuel - 1, c1, [], m2);
    ProgressReaches(p, [], m2, f, m3);
    ReachesThen(p, m0, m2, m3);
    m := m3;
    if !code.1 {
      RunSkip(p, m3);
      m := m3.(pc := end);
      ReachesThen(p, m0, m3, m);
    }
    EndHalts(p, m);
    ReachesHalt(p, m0, m, m);
  }

  lemma TopCodeIs(e: Expr)
    requires e.Scope?
    ensures TopCode(e) == CompileExpr(EndLabel(), TopEnv(e), Initialised(e.defs, e.scoped))
  {
    hide CompileExpr;
  }

  lemma TopOk(e: Expr)
    requires e.Scope? && CompiledMain(e).0.ok
    ensures TopEnv(e).ok && !TopEnv(e).scope.I?
  {
    hide CompiledMain, TopEnv, TopCode, Count;
    TopShape(e, MAIN);
  }

  lemma ProgressReaches(p: Prog, f: Injection, m: Machine, f': Injection, m': Machine)
    requires Progress(p, f, m, f', m')
    ensures Reaches(p, m, m') && SameFrame(m, m')
  {
  }

  lemma EndHalts(p: Prog, m: Machine)
    requires Fetches(p, m, END) && m.control == Nil
    ensures Step(p, m) == Halt(m) && Tame(p, m)
  {
  }
}
