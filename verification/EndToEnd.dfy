/** From source to bytecode interpreter: a program that terminates under the source evaluator prints the same output
    when it is compiled and interpreted. */
module EndToEnd {
  import opened Wrappers
  import opened LamaValues
  import opened LamaSource
  import opened StackMachine
  import opened Compiler
  import opened CodeShape
  import opened Correspondence
  import opened Execution
  import opened ScopeCompilation
  import opened WellFormedness
  import opened Simulation
  import opened CompilerCorrectness
  import opened ProgramCorrectness
  import opened FlatMemory
  import opened Interpretation
  import opened Interpreter
  import opened Portability
  import RuntimeCalls
  import opened DepthPlans
  import opened BalancedCode

  /** Every global of the program has a slot of its own. */
  ghost predicate SlotsFor(e: Expr, slots: map<string, nat>, words: nat)
    requires e.Scope?
  {
    && (forall i :: 0 <= i < |NamesOf(e.defs)| ==> NamesOf(e.defs)[i] in slots)
    && (forall x :: x in slots ==> x !in BUILTINS && slots[x] < words)
    && (forall x, y :: x in slots && y in slots && x != y ==> slots[x] != slots[y])
  }

  /** A program of the fragment as the parser makes them. */
  ghost predicate Program(e: Expr) {
    e.Scope? && WellFormed(e) && Yield(e) != Nothing && CompiledMain(e).0.ok
  }

  /** The loaded program. */
  function Loaded(externs: seq<string>, e: Expr, d: Depths, slots: map<string, nat>, words: nat,
      address: nat -> int): Code {
    Code(CompileProgram(externs, e), d, |externs| + 3, slots, words, address)
  }

  lemma TopMapped(e: Expr, slots: map<string, nat>, words: nat)
    requires Program(e) && SlotsFor(e, slots, words)
    ensures Mapped(TopEnv(e).scope, slots)
  {
    hide WellFormed, Yield, CompiledMain, AddNames;
    TopOk(e);
    ScopeParts(e);
    var env := InitialEnv().NewLabel().1.NewLabel().1;
    AddGlobals(OpenScope(env), NamesOf(e.defs));
    var sc := TopEnv(e).scope;
    forall x | x in sc.values && Ordinary(x) ensures x in slots {
      assert PlacedGlobally(x, sc.names, sc.values);
      InTagged(x, NamesOf(e.defs), Mut);
    }
  }

  /** No operands before main begins, then those the plan says, and the program's value at its end. */
  function AllDepths(externs: seq<string>, ds: Depths, flag: bool): Depths {
    seq(|externs| + 4, _ => -1) + ds + (if flag then [1] else []) + [1, 0]
  }

  /** The depths of the outermost scope. */
  lemma TopPlan(externs: seq<string>, e: Expr, slots: map<string, nat>, words: nat, address: nat -> int)
      returns (ds: Depths)
    requires Program(e) && SlotsFor(e, slots, words)
    ensures
      var h, t := |Prologue(externs, e)|, TopCode(e);
      var end := h + |t.2| + 2 + (if t.1 then 1 else 0);
      && |ds| == |t.2| + 2 && First(ds, 1) == 0
      && Plan(Loaded(externs, e, [], slots, words, address), h, ds, 1, If1(t.1, (end, 1)))
  {
    hide WellFormed, Yield, CompiledMain, AddNames, CompileProgram, Plan, Ready, CompileExpr, Prologue, TopCode, TopEnv,
      Mapped, Unique, Count;
    var c := Loaded(externs, e, [], slots, words, address);
    var h, t := |Prologue(externs, e)|, TopCode(e);
    TopReady(externs, e);
    ProgramLabels(externs, e);
    TopMapped(e, slots, words);
    TopOk(e);
    TopCodeIs(e);
    ScopeParts(e);
    ScopeFacts(e);
    TopEnds(externs, e);
    ds := PlanScoped(c, h, EndLabel(), h + |t.2| + 2 + (if t.1 then 1 else 0), TopEnv(e), Initialised(e.defs, e.scoped),
      CompiledMain(e).0.nlocals, 0, 1, 1);
  }

  lemma TopEnds(externs: seq<string>, e: Expr)
    requires e.Scope?
    ensures
      var p := CompileProgram(externs, e);
      var h, t := |Prologue(externs, e)|, TopCode(e);
      var end := h + |t.2| + 2 + (if t.1 then 1 else 0);
      && h < |p| && p[h].SLABEL? && h + 1 + |t.2| < |p| && p[h + 1 + |t.2|].SLABEL?
      && end + 1 == |p| && p[end] == END && (t.1 ==> p[end - 1].LABEL?)
  {
    hide CompiledMain, CompileExpr, CompileProgram, Prologue, TopCode, TopEnv, CodeAt;
    var p := CompileProgram(externs, e);
    var h := |Prologue(externs, e)|;
    var c, t := CompiledMain(e), TopCode(e);
    ProgramUnfold(externs, e);
    TopUnfold(e);
    WholeAt(p);
    var c1 := Prologue(externs, e) + c.2;
    var c2 := c1 + LabelIf(c.1, EndLabel());
    CodeSplit(p, 0, c2, [END]);
    CodeSplit(p, 0, c1, LabelIf(c.1, EndLabel()));
    CodeSplit(p, 0, Prologue(externs, e), c.2);
    InsnAt(p, h, c.2, 0);
    InsnAt(p, h, c.2, |t.2| + 1);
    InsnAt(p, |c2|, [END], 0);
    if t.1 {
      InsnAt(p, |c1|, LabelIf(c.1, EndLabel()), 0);
    }
  }

  /** Compiled programs satisfy the interpreter's static condition. */
  lemma ProgramSound(externs: seq<string>, e: Expr, slots: map<string, nat>, words: nat, address: nat -> int)
      returns (d: Depths)
    requires Program(e) && SlotsFor(e, slots, words)
    ensures Sound(Loaded(externs, e, d, slots, words, address))
  {
    hide WellFormed, Yield, CompiledMain, CompileProgram, Plan, TopCode, Balanced, Program, Prologue;
    ProgramScope(e);
    var t := TopCode(e);
    var ds := TopPlan(externs, e, slots, words, address);
    d := AllDepths(externs, ds, t.1);
    var k := Loaded(externs, e, d, slots, words, address);
    TopEnds(externs, e);
    PrologueAt(externs, e);
    BodyBalanced(externs, e, ds, slots, words, address);
    PrologueDeclares(k, externs, e);
    forall pc | 0 <= pc < |k.p| ensures Balanced(k, pc) {
      if pc <= |externs| + 3 {
        PrologueBalanced(k, externs, e, ds, t.1, pc);
      } else if pc >= |externs| + 4 + |ds| {
        EndBalanced(k, externs, ds, t.1, pc);
      }
    }
  }

  lemma ProgramScope(e: Expr)
    requires Program(e)
    ensures e.Scope?
  {
  }

  /** main is the one public name in front of the code. */
  lemma PrologueDeclares(k: Code, externs: seq<string>, e: Expr)
    requires k.p == CompileProgram(externs, e)
    ensures |externs| + 3 < |k.p| && forall i :: 0 <= i < |externs| + 3 ==> Declared(k, k.p[i])
  {
    hide CompiledMain, FindLabel, CompileProgram;
    ProgramUnfold(externs, e);
    var at := |externs| + 2;
    assert k.p[at] == LABEL(MAIN);
    FoundAgain(k.p, MAIN, at);
    forall i | 0 <= i < |externs| + 3 ensures Declared(k, k.p[i]) {
      assert k.p[i].PUBLIC? ==> k.p[i].name == MAIN;
    }
  }

  lemma {:induction false} FoundAgain(p: Prog, l: Label, at: nat)
    requires at < |p| && Defines(p[at], l)
    ensures FindLabel(p, l).Some?
  {
    if at < |p| - 1 {
      FoundAgain(p[..|p| - 1], l, at);
    }
  }

  lemma PrologueBalanced(k: Code, externs: seq<string>, e: Expr, ds: Depths, flag: bool, pc: nat)
    requires k.d == AllDepths(externs, ds, flag) && |k.d| == |k.p| + 1 && pc <= |externs| + 3 && pc < |k.p|
    requires forall i :: 0 <= i < |externs| + 3 && i < |k.p| ==> Skipped(k.p[i]) && Declared(k, k.p[i])
    requires pc == |externs| + 3 ==> k.p[pc].BEGIN?
    requires First(ds, 1) == 0
    ensures Balanced(k, pc)
  {
    var n := |externs| + 4;
    assert k.d[pc] == -1;
    if pc == n - 1 {
      assert k.d[n] == 0;
    } else {
      assert Skipped(k.p[pc]);
      assert k.d[pc + 1] == -1;
    }
  }

  lemma EndBalanced(k: Code, externs: seq<string>, ds: Depths, flag: bool, pc: nat)
    requires k.d == AllDepths(externs, ds, flag) && |k.d| == |k.p| + 1 && |externs| + 4 + |ds| <= pc < |k.p|
    requires k.p[|k.p| - 1] == END && (flag ==> k.p[|k.p| - 2].LABEL?)
    ensures Balanced(k, pc)
  {
    assert k.d[pc] == 1;
    if pc < |k.p| - 1 {
      assert k.d[pc + 1] == 1;
    }
  }

  lemma BodyBalanced(externs: seq<string>, e: Expr, ds: Depths, slots: map<string, nat>, words: nat,
      address: nat -> int)
    requires e.Scope?
    requires
      var h, t := |Prologue(externs, e)|, TopCode(e);
      var end := h + |t.2| + 2 + (if t.1 then 1 else 0);
      && |ds| == |t.2| + 2 && First(ds, 1) == 0
      && Plan(Loaded(externs, e, [], slots, words, address), h, ds, 1, If1(t.1, (end, 1)))
    ensures
      var d := AllDepths(externs, ds, TopCode(e).1);
      var k := Loaded(externs, e, d, slots, words, address);
      && |d| == |k.p| + 1 && |externs| + 4 + |ds| <= |k.p|
      && forall pc :: |externs| + 4 <= pc < |externs| + 4 + |ds| ==> Balanced(k, pc)
  {
    hide CompiledMain, CompileProgram, TopCode, Balanced, Prologue;
    var t := TopCode(e);
    var d := AllDepths(externs, ds, t.1);
    var k := Loaded(externs, e, d, slots, words, address);
    var h := |externs| + 4;
    PrologueAt(externs, e);
    TopEnds(externs, e);
    assert d[h..h + |ds|] == ds;
    assert d[h + |ds|] == 1;
    var marks := If1(t.1, (h + |t.2| + 2 + (if t.1 then 1 else 0), 1));
    forall mark | mark in marks ensures Marked(d, mark) {
    }
    assert Follows(k.p, d, h, ds, 1, marks);
    assert AllBalanced(Loaded(externs, e, [], slots, words, address).(d := d), h, h + |ds|);
  }

  // ---- stack space ----

  /** The space the next instruction needs. */
  ghost function Need(k: Code, m: Machine): nat {
    k.words + Usage(m.world.store, m.stack, m.frame, m.control)
      + (if m.pc < |k.p| && k.p[m.pc].CLOSURE? then |k.p[m.pc].captured| else 0)
  }

  /** The most space a run of n steps takes. */
  ghost function Peak(k: Code, m: Machine, n: nat): nat
    decreases n
  {
    if n == 0 || !Step(k.p, m).Next? then Need(k, m)
    else
      var later := Peak(k, Step(k.p, m).m, n - 1);
      if later > Need(k, m) then later else Need(k, m)
  }

  /** A tame run that halts goes through on the interpreter, given the space. */
  lemma {:induction false} TameAlong(k: Code, size: nat, m: Machine, end: Machine, n: nat)
    requires Sound(k) && HaltsIn(k.p, m, end, n) && Peak(k, m, n) <= size
    requires Portable(k.p) && PlainStore(k.p, m.world.store) && MildRun(k.address, k.p, m, n)
    ensures AlongRun(k, size, m, n)
    decreases n
  {
    hide Step, Sound, Need, Tame, Guarded, Fits, Portable, PlainStore, MildStep;
    if n > 0 {
      var s := Step(k.p, m);
      if s.Next? {
        StepPlain(k.address, k.p, m);
        TameAlong(k, size, s.m, end, n - 1);
        TameGuarded(k, m);
        NeedFits(k, size, m, n);
        NeedFits(k, size, s.m, n - 1);
      }
    }
  }

  lemma NeedFits(k: Code, size: nat, m: Machine, n: nat)
    requires Peak(k, m, n) <= size
    ensures Fits(k, size, m)
  {
    hide Usage, Step;
  }

  lemma TameGuarded(k: Code, m: Machine)
    requires Tame(k.p, m) && Step(k.p, m).Next?
    requires Portable(k.p) && PlainStore(k.p, m.world.store) && MildStep(k.address, k.p, m)
    ensures Guarded(k, m) && m.pc < |k.p|
  {
    hide Portable, PlainStore, MildStep, RuntimeCalls.Faithful;
    StepFaithful(k.address, k.p, m);
  }

  /** Compile, load and interpret: the output is the source evaluator's, if the program's text is portable, its run
      mild and there is space. */
  method CompileAndRun(externs: seq<string>, e: Expr, input: seq<int>, slots: map<string, nat>, words: nat,
      address: nat -> int, capacity: nat, ghost fuel: nat)
    returns (output: seq<int>)
    requires Program(e) && SlotsFor(e, slots, words) && Eval(e, InitialConf(input), fuel).Some?
    requires Portable(CompileProgram(externs, e)) && words <= capacity
    requires forall d, end, n :: HaltsIn(CompileProgram(externs, e), InitialMachine(input), end, n) ==>
      && Peak(Loaded(externs, e, d, slots, words, address), InitialMachine(input), n) <= capacity
      && MildRun(address, CompileProgram(externs, e), InitialMachine(input), n)
    ensures output == Eval(e, InitialConf(input), fuel).value.world.output
  {
    hide WellFormed, Yield, CompiledMain, CompileProgram, Sound, Eval, Step, Run, Peak, AlongRun,
      Interpretation.Running, Pending, Starting, Portable, MildRun;
    ghost var d := ProgramSound(externs, e, slots, words, address);
    ghost var f, end := ProgramCorrect(externs, e, input, fuel);
    ghost var m := InitialMachine(input);
    ghost var n: nat :| HaltsIn(CompileProgram(externs, e), m, end, n);
    ghost var k := Loaded(externs, e, d, slots, words, address);
    TameAlong(k, capacity, m, end, n);
    var w := new Worker(CompileProgram(externs, e), |externs| + 3, slots, words, address, capacity, input, d);
    w.Eval(m, n, end);
    output := w.world.output;
  }
}
