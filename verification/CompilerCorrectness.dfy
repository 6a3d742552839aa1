/** Compiling preserves meaning: running the code of an expression takes a machine that represents a configuration
    to one that represents what the source evaluator makes of it (src/SM.ml:1377-1588, src/Language.ml:440-600). */
module CompilerCorrectness {
  import opened Wrappers
  import opened LamaValues
  import opened LamaSource
  import opened StackMachine
  import opened Compiler
  import opened CodeShape
  import opened Correspondence
  import opened Execution
  import opened PatternCompilation
  import opened ScopeCompilation
  import opened WellFormedness
  import opened Simulation

  /** The machine stands at k and represents c. */
  ghost predicate Start(env: Env, k: nat, c: Conf, f: Injection, m: Machine) {
    m.pc == k && !env.scope.I? && Agrees(f, c.st, c.world, LayoutOf(env), DataOf(m))
  }

  lemma KeptLayout(env: Env, env': Env)
    requires Kept(env, env')
    ensures LayoutOf(env') == LayoutOf(env) && Grows(env, env')
  {
  }

  lemma ExprKept(l: Label, env: Env, e: Expr)
    requires !env.scope.I?
    ensures Kept(env, CompileExpr(l, env, e).0)
  {
    ExprShape(l, env, e, l);
  }

  lemma ListKept(l: Label, env: Env, es: seq<Expr>)
    requires !env.scope.I?
    ensures Kept(env, CompileList(l, env, es).0)
  {
    ListShape(l, env, es, l);
  }

  /** Code, its exit label, more code. */
  lemma ReadyPair(p: Prog, k: nat, l: Label, exit: nat, a: Compiled, ls: Label, b: Compiled, size: nat)
    requires Ready(p, k, l, exit, (b.0, b.1, a.2 + LabelIf(a.1, ls) + b.2), size) && Grows(a.0, b.0)
    ensures
      var mid := After(k, k + |a.2| + 1, a);
      && Ready(p, k, ls, k + |a.2| + 1, a, size) && Ready(p, mid, l, exit, b, size)
      && After(k, exit, (b.0, b.1, a.2 + LabelIf(a.1, ls) + b.2)) == After(mid, exit, b)
  {
    hide Unique, Count, CodeAt;
    CodeSplit(p, k, a.2 + LabelIf(a.1, ls), b.2);
    CodeSplit(p, k, a.2, LabelIf(a.1, ls));
    LabelBehind(p, k, a, ls, size);
  }

  // ---- the theorem ----

  lemma {:induction false} ExprCorrect(p: Prog, k: nat, l: Label, exit: nat, env: Env, e: Expr, fuel: nat, c: Conf,
      f: Injection, m: Machine)
    returns (f': Injection, m': Machine)
    requires LeavesBuiltins(p) && WellFormed(e) && Eval(e, c, fuel).Some?
    requires Ready(p, k, l, exit, CompileExpr(l, env, e), |m.frame.locals|)
    requires Start(env, k, c, f, m)
    ensures Simulates(p, LayoutOf(env), Yield(e), After(k, exit, CompileExpr(l, env, e)), c, f, m,
      Eval(e, c, fuel).value, f', m')
    decreases fuel, 2
  {
    hide *;
    NotReference(e);
    match e
    case Seq(a, b) => f', m' := SeqCorrect(p, k, l, exit, env, e, fuel, c, f, m);
    case Ignore(s) => f', m' := IgnoreCorrect(p, k, l, exit, env, e, fuel, c, f, m);
    case Binop(op, a, b) => f', m' := BinopCorrect(p, k, l, exit, env, e, fuel, c, f, m);
    case ElemOf(b, i) => f', m' := ElemCorrect(p, k, l, exit, env, e, fuel, c, f, m);
    case Arr(items) => f', m' := ArrayCorrect(p, k, l, exit, env, e, fuel, c, f, m);
    case Sexp(tag, items) => f', m' := SexpCorrect(p, k, l, exit, env, e, fuel, c, f, m);
    case Call(g, args) => f', m' := CallCorrect(p, k, l, exit, env, e, fuel, c, f, m);
    case Assign(x, s) => f', m' := AssignCorrect(p, k, l, exit, env, e, fuel, c, f, m);
    case If(_, _, _) => f', m' := IfCorrect(p, k, l, exit, env, e, fuel, c, f, m);
    case While(_, _) => f', m' := WhileCorrect(p, k, l, exit, env, e, fuel, c, f, m);
    case DoWhile(_, _) => f', m' := DoWhileCorrect(p, k, l, exit, env, e, fuel, c, f, m);
    case Case(_, _) => f', m' := CaseCorrect(p, k, l, exit, env, e, fuel, c, f, m);
    case Scope(_, _) => f', m' := ScopeCorrect(p, k, l, exit, env, e, fuel, c, f, m);
    case _ => f', m' := LeafCorrect(p, k, l, exit, env, e, fuel, c, f, m);
  }

  // ---- cases ----

  lemma NotReference(e: Expr)
    requires WellFormed(e)
    ensures !e.RefOf? && !e.ElemRef?
  {
  }

  lemma {:induction false} LeafCorrect(p: Prog, k: nat, l: Label, exit: nat, env: Env, e: Expr, fuel: nat, c: Conf,
      f: Injection, m: Machine)
    returns (f': Injection, m': Machine)
    requires (e.Const? || e.Str? || e.VarOf? || e.Unit? || e.Skip?) && LeavesBuiltins(p) && WellFormed(e)
    requires Eval(e, c, fuel).Some?
    requires Ready(p, k, l, exit, CompileExpr(l, env, e), |m.frame.locals|)
    requires Start(env, k, c, f, m)
    ensures Simulates(p, LayoutOf(env), Yield(e), After(k, exit, CompileExpr(l, env, e)), c, f, m,
      Eval(e, c, fuel).value, f', m')
    decreases fuel, 1
  {
    hide Reaches, Unique, Count, FindLabel, Agrees, Progress;
    match e
    case Const(n) => f', m' := ConstantCorrect(p, k, l, exit, env, e, fuel, c, f, m);
    case Unit => f', m' := ConstantCorrect(p, k, l, exit, env, e, fuel, c, f, m);
    case Str(s) => f', m' := LiteralCorrect(p, k, l, exit, env, e, fuel, c, f, m);
    case VarOf(x) => f', m' := VariableCorrect(p, k, l, exit, env, e, fuel, c, f, m);
    case Skip =>
      f', m' := f, m;
      ProgressNow(p, f, m);
  }

  lemma {:induction false} ConstantCorrect(p: Prog, k: nat, l: Label, exit: nat, env: Env, e: Expr, fuel: nat, c: Conf,
      f: Injection, m: Machine)
    returns (f': Injection, m': Machine)
    requires (e.Const? || e.Unit?) && LeavesBuiltins(p) && WellFormed(e) && Eval(e, c, fuel).Some?
    requires Ready(p, k, l, exit, CompileExpr(l, env, e), |m.frame.locals|)
    requires Start(env, k, c, f, m)
    ensures Simulates(p, LayoutOf(env), Yield(e), After(k, exit, CompileExpr(l, env, e)), c, f, m,
      Eval(e, c, fuel).value, f', m')
    decreases fuel, 1
  {
    hide Reaches, Unique, Count, FindLabel, Agrees, Progress;
    var n := if e.Const? then e.n else 0;
    InsnAt(p, k, [CONST(n)], 0);
    RunConst(p, m, n);
    f', m' := f, m.(pc := m.pc + 1, stack := Cons(Int(n), m.stack));
    ProgressRun(p, f, m, m');
  }

  lemma {:induction false} LiteralCorrect(p: Prog, k: nat, l: Label, exit: nat, env: Env, e: Expr, fuel: nat, c: Conf,
      f: Injection, m: Machine)
    returns (f': Injection, m': Machine)
    requires e.Str? && LeavesBuiltins(p) && WellFormed(e) && Eval(e, c, fuel).Some?
    requires Ready(p, k, l, exit, CompileExpr(l, env, e), |m.frame.locals|)
    requires Start(env, k, c, f, m)
    ensures Simulates(p, LayoutOf(env), Yield(e), After(k, exit, CompileExpr(l, env, e)), c, f, m,
      Eval(e, c, fuel).value, f', m')
    decreases fuel, 1
  {
    hide Reaches, Unique, Count, FindLabel, Agrees, Progress, Image;
    InsnAt(p, k, [STRING(e.s)], 0);
    RunString(p, m, e.s);
    var o := StringObject(e.s);
    AgreesWorlds(f, c.st, c.world, LayoutOf(env), DataOf(m));
    ImageAllocate(f, c.world.store, m.world.store, o, o);
    f', m' := f + [|m.world.store|], Moved(m, m.pc + 1, Cons(Ref(|m.world.store|), m.stack), m.world.store + [o]);
    AgreesGrow(f, f', c.st, c.world, LayoutOf(env), DataOf(m), c.world.(store := c.world.store + [o]), DataOf(m'));
    ProgressRun(p, f, m, m');
    ProgressGrow(p, f, f', m, m');
  }

  lemma {:induction false} VariableCorrect(p: Prog, k: nat, l: Label, exit: nat, env: Env, e: Expr, fuel: nat, c: Conf,
      f: Injection, m: Machine)
    returns (f': Injection, m': Machine)
    requires e.VarOf? && LeavesBuiltins(p) && WellFormed(e) && Eval(e, c, fuel).Some?
    requires Ready(p, k, l, exit, CompileExpr(l, env, e), |m.frame.locals|)
    requires Start(env, k, c, f, m)
    ensures Simulates(p, LayoutOf(env), Yield(e), After(k, exit, CompileExpr(l, env, e)), c, f, m,
      Eval(e, c, fuel).value, f', m')
    decreases fuel, 1
  {
    hide Reaches, Unique, Count, FindLabel, Progress, Scopes, Image, Alike, LookUp;
    PlaceKeeps(env, e.name);
    var d := Place(env, e.name).1;
    LookUpAlike(f, c.st, env.scope, env.localIndex, m.globals, m.frame.locals, e.name);
    var w := Held(d, m.globals, m.frame.locals).value;
    AlikeProper(f, LookUp(c.st, e.name).value, w);
    InsnAt(p, k, [LD(d)], 0);
    RunLoad(p, m, d, w);
    f', m' := f, m.(pc := m.pc + 1, stack := Cons(w, m.stack));
    ProgressRun(p, f, m, m');
  }

  lemma AlikeProper(f: Injection, v: Value, w: Value)
    requires Alike(f, v, w)
    ensures w != Empty
  {
  }

  lemma ProgressGrow(p: Prog, f: Injection, g: Injection, m: Machine, m': Machine)
    requires Progress(p, f, m, f, m') && f <= g
    ensures Progress(p, f, m, g, m')
  {
    hide Reaches;
  }

  lemma {:induction false} IgnoreCorrect(p: Prog, k: nat, l: Label, exit: nat, env: Env, e: Expr, fuel: nat, c: Conf,
      f: Injection, m: Machine)
    returns (f': Injection, m': Machine)
    requires e.Ignore? && LeavesBuiltins(p) && WellFormed(e) && Eval(e, c, fuel).Some?
    requires Ready(p, k, l, exit, CompileExpr(l, env, e), |m.frame.locals|)
    requires Start(env, k, c, f, m)
    ensures Simulates(p, LayoutOf(env), Yield(e), After(k, exit, CompileExpr(l, env, e)), c, f, m,
      Eval(e, c, fuel).value, f', m')
    decreases fuel, 1
  {
    hide Reaches, Unique, Count, FindLabel, Agrees, Progress, Ready, Yield, Alike, Finish;
    IgnoreYield(e);
    var (ls, env1) := env.NewLabel();
    var code := CompileExpr(ls, env1, e.inner);
    var mid := k + |code.2| + 1;
    ReadyFinish(p, k, l, exit, code, ls, DROP, |m.frame.locals|);
    var m1;
    f', m1 := ExprCorrect(p, k, ls, mid, env1, e.inner, fuel - 1, c, f, m);
    RunDrop(p, m1);
    m' := m1.(pc := m1.pc + 1, stack := m1.stack.tail);
    ProgressStep(p, f, m, f', m1, m');
  }

  lemma {:induction false} SeqCorrect(p: Prog, k: nat, l: Label, exit: nat, env: Env, e: Expr, fuel: nat, c: Conf,
      f: Injection, m: Machine)
    returns (f': Injection, m': Machine)
    requires e.Seq? && LeavesBuiltins(p) && WellFormed(e) && Eval(e, c, fuel).Some?
    requires Ready(p, k, l, exit, CompileExpr(l, env, e), |m.frame.locals|)
    requires Start(env, k, c, f, m)
    ensures Simulates(p, LayoutOf(env), Yield(e), After(k, exit, CompileExpr(l, env, e)), c, f, m,
      Eval(e, c, fuel).value, f', m')
    decreases fuel, 1
  {
    hide Reaches, Unique, Count, FindLabel, Agrees, Progress, Ready, Yield, Alike, CompileExpr, Grows, Kept;
    var (ls, env1) := env.NewLabel();
    var a := CompileExpr(ls, env1, e.first);
    var b := CompileExpr(l, a.0, e.second);
    PairUnfold(l, env, e.first, e.second);
    ExprKept(ls, env1, e.first);
    KeptLayout(env1, a.0);
    ExprKept(l, a.0, e.second);
    KeptLayout(a.0, b.0);
    ReadyPair(p, k, l, exit, a, ls, b, |m.frame.locals|);
    SeqYield(e);
    EvalSeq(e, c, fuel);
    var c1 := Eval(e.first, c, fuel - 1).value;
    var f1, m1 := ExprCorrect(p, k, ls, k + |a.2| + 1, env1, e.first, fuel - 1, c, f, m);
    SameSize(p, f, m, f1, m1);
    f', m' := ExprCorrect(p, m1.pc, l, exit, a.0, e.second, fuel - 1, c1, f1, m1);
    ProgressThen(p, f, m, f1, m1, f', m');
  }

  lemma IgnoreYield(e: Expr)
    requires e.Ignore? && WellFormed(e)
    ensures Yield(e) == Nothing && Yield(e.inner) != Nothing && WellFormed(e.inner)
  {
  }

  lemma SeqYield(e: Expr)
    requires e.Seq? && WellFormed(e)
    ensures Yield(e.first) == Nothing && Yield(e) == Yield(e.second) && WellFormed(e.first) && WellFormed(e.second)
  {
  }

  lemma EvalSeq(e: Expr, c: Conf, fuel: nat)
    requires e.Seq? && Eval(e, c, fuel).Some?
    ensures fuel > 0 && Eval(e.first, c, fuel - 1).Some?
    ensures Eval(e, c, fuel) == Eval(e.second, Eval(e.first, c, fuel - 1).value, fuel - 1)
  {
  }

  lemma PairUnfold(l: Label, env: Env, x: Expr, y: Expr)
    ensures
      var (ls, env1) := env.NewLabel();
      var a := CompileExpr(ls, env1, x);
      var b := CompileExpr(l, a.0, y);
      && CompileList(l, env, [x, y]) == (b.0, b.1, a.2 + LabelIf(a.1, ls) + b.2)
      && CompileExpr(l, env, Seq(x, y)) == CompileList(l, env, [x, y])
  {
    assert [x, y][1..] == [y];
  }

  lemma SameSize(p: Prog, f: Injection, m: Machine, f': Injection, m': Machine)
    requires Progress(p, f, m, f', m')
    ensures |m'.frame.locals| == |m.frame.locals| && f <= f'
  {
  }

  /** Operands, one after the other. */
  lemma {:induction false} ListCorrect(p: Prog, k: nat, l: Label, exit: nat, env: Env, es: seq<Expr>, fuel: nat,
      c: Conf, f: Injection, m: Machine)
    returns (f': Injection, m': Machine)
    requires LeavesBuiltins(p) && Operands(es) && EvalList(es, c, fuel).Some?
    requires Ready(p, k, l, exit, CompileList(l, env, es), |m.frame.locals|)
    requires Start(env, k, c, f, m)
    ensures SimulatesList(p, LayoutOf(env), |es|, After(k, exit, CompileList(l, env, es)), c, f, m,
      EvalList(es, c, fuel).value, f', m')
    decreases fuel, 0
  {
    hide Reaches, Unique, Count, FindLabel, Agrees, Progress, Ready, Yield, Alike, CompileExpr, Grows, Kept, Eval,
      WellFormed, CompileList;
    if es == [] {
      EmptyList(l, env);
      f', m' := f, m;
      ProgressNow(p, f, m);
    } else if |es| == 1 {
      SingleList(l, env, es);
      var c1 := Eval(es[0], c, fuel - 1).value;
      f', m' := ExprCorrect(p, k, l, exit, env, es[0], fuel - 1, c, f, m);
      PushesOne(f', c.stack, c1.stack, m.stack, m'.stack);
    } else {
      var (ls, env1) := env.NewLabel();
      var a := CompileExpr(ls, env1, es[0]);
      var b := CompileList(l, a.0, es[1..]);
      LongList(l, env, es);
      ExprKept(ls, env1, es[0]);
      KeptLayout(env1, a.0);
      ListKept(l, a.0, es[1..]);
      KeptLayout(a.0, b.0);
      ReadyPair(p, k, l, exit, a, ls, b, |m.frame.locals|);
      var c1 := Eval(es[0], c, fuel - 1).value;
      var f1, m1 := ExprCorrect(p, k, ls, k + |a.2| + 1, env1, es[0], fuel - 1, c, f, m);
      SameSize(p, f, m, f1, m1);
      f', m' := ListCorrect(p, m1.pc, l, exit, a.0, es[1..], fuel - 1, c1, f1, m1);
      SameSize(p, f1, m1, f', m');
      ProgressThen(p, f, m, f1, m1, f', m');
      PushesOne(f1, c.stack, c1.stack, m.stack, m1.stack);
      PushesGrow(f1, f', 1, c.stack, c1.stack, m.stack, m1.stack);
      PushesThen(f', 1, |es| - 1, c.stack, c1.stack, EvalList(es, c, fuel).value.stack, m.stack, m1.stack, m'.stack);
    }
  }

  lemma EmptyList(l: Label, env: Env)
    ensures CompileList(l, env, []) == (env, false, [])
  {
  }

  lemma SingleList(l: Label, env: Env, es: seq<Expr>)
    requires |es| == 1
    ensures CompileList(l, env, es) == CompileExpr(l, env, es[0]) && es[1..] == []
  {
  }

  lemma LongList(l: Label, env: Env, es: seq<Expr>)
    requires |es| > 1
    ensures
      var (ls, env1) := env.NewLabel();
      var a := CompileExpr(ls, env1, es[0]);
      var b := CompileList(l, a.0, es[1..]);
      CompileList(l, env, es) == (b.0, b.1, a.2 + LabelIf(a.1, ls) + b.2)
  {
  }

  lemma {:induction false} BinopCorrect(p: Prog, k: nat, l: Label, exit: nat, env: Env, e: Expr, fuel: nat, c: Conf,
      f: Injection, m: Machine)
    returns (f': Injection, m': Machine)
    requires e.Binop? && LeavesBuiltins(p) && WellFormed(e) && Eval(e, c, fuel).Some?
    requires Ready(p, k, l, exit, CompileExpr(l, env, e), |m.frame.locals|)
    requires Start(env, k, c, f, m)
    ensures Simulates(p, LayoutOf(env), Yield(e), After(k, exit, CompileExpr(l, env, e)), c, f, m,
      Eval(e, c, fuel).value, f', m')
    decreases fuel, 1
  {
    hide Reaches, Unique, Count, FindLabel, Agrees, Progress, Ready, Pushes, Finish, CompileList, EvalList, Operate,
      Operands;
    var (lop, env1) := env.NewLabel();
    var es := [e.left, e.right];
    var code := CompileList(lop, env1, es);
    ReadyFinish(p, k, l, exit, code, lop, BINOP(e.op), |m.frame.locals|);
    TwoOperands(e.left, e.right);
    var m1;
    f', m1 := ListCorrect(p, k, lop, k + |code.2| + 1, env1, es, fuel - 1, c, f, m);
    var c1 := EvalList(es, c, fuel - 1).value;
    PushesTwo(f', c.stack, c1.stack, m.stack, m1.stack);
    var x, y := c1.stack.tail.head.n, c1.stack.head.n;
    RunOperator(p, m1, e.op, x, y, m.stack);
    m' := m1.(pc := m1.pc + 1, stack := Cons(Int(Operate(e.op, x, y).value), m.stack));
    ProgressStep(p, f, m, f', m1, m');
  }

  lemma TwoOperands(x: Expr, y: Expr)
    requires Operand(x) && Operand(y)
    ensures Operands([x, y])
  {
    hide Yield, WellFormed, Operand;
    assert [x, y][1..] == [y] && [y][1..] == [];
    assert Operands([y]);
  }

  lemma {:induction false} ElemCorrect(p: Prog, k: nat, l: Label, exit: nat, env: Env, e: Expr, fuel: nat, c: Conf,
      f: Injection, m: Machine)
    returns (f': Injection, m': Machine)
    requires e.ElemOf? && LeavesBuiltins(p) && WellFormed(e) && Eval(e, c, fuel).Some?
    requires Ready(p, k, l, exit, CompileExpr(l, env, e), |m.frame.locals|)
    requires Start(env, k, c, f, m)
    ensures Simulates(p, LayoutOf(env), Yield(e), After(k, exit, CompileExpr(l, env, e)), c, f, m,
      Eval(e, c, fuel).value, f', m')
    decreases fuel, 1
  {
    hide Reaches, Unique, Count, FindLabel, Scopes, Image, Alike, Progress, Ready, Pushes, Finish, CompileList,
      EvalList, Element, Operands;
    var (lelem, env1) := env.NewLabel();
    var es := [e.base, e.index];
    var code := CompileList(lelem, env1, es);
    ReadyFinish(p, k, l, exit, code, lelem, ELEM, |m.frame.locals|);
    TwoOperands(e.base, e.index);
    var m1;
    f', m1 := ListCorrect(p, k, lelem, k + |code.2| + 1, env1, es, fuel - 1, c, f, m);
    var c1 := EvalList(es, c, fuel - 1).value;
    PushesTwo(f', c.stack, c1.stack, m.stack, m1.stack);
    var b, j := c1.stack.tail.head, c1.stack.head;
    var b', j' := m1.stack.tail.head, m1.stack.head;
    ElementAlike(f', c1.world.store, m1.world.store, b, b', j, j');
    RunElem(p, m1, b', j', m.stack);
    m' := m1.(pc := m1.pc + 1, stack := Cons(Element(m1.world.store, b', j').value, m.stack));
    ProgressStep(p, f, m, f', m1, m');
  }

  /** A builtin called on corresponding arguments. */
  lemma BuiltinRuns(p: Prog, lay: Layout, f: Injection, st: State<Value>, w: World, m: Machine, name: string,
      args: seq<Value>, n: nat, ws: List<Value>, rest: List<Value>) returns (f': Injection, m': Machine)
    requires Agrees(f, st, w, lay, DataOf(m)) && AlikeAll(f, args, BottomUp(ws)) && CallBuiltin(w, args, name).Some?
    requires Fetches(p, m, CALL(Named(name), n)) && name in BUILTINS && LeavesBuiltins(p)
    requires Take(n, m.stack) == Some((ws, rest))
    ensures Progress(p, f, m, f', m') && m'.pc == m.pc + 1
    ensures Agrees(f', st, CallBuiltin(w, args, name).value.0, lay, DataOf(m'))
    ensures m'.stack.Cons? && m'.stack.tail == rest
    ensures
      if name == "write" then CallBuiltin(w, args, name).value.1 == Empty
      else Alike(f', CallBuiltin(w, args, name).value.1, m'.stack.head)
  {
    hide Reaches, Agrees, Worlds, CallBuiltin, AlikeAll, LeavesBuiltins, Alike;
    AgreesWorlds(f, st, w, lay, DataOf(m));
    BuiltinAlike(f, w, m.world, args, BottomUp(ws), name);
    var r := CallBuiltin(m.world, BottomUp(ws), name).value;
    RunBuiltin(p, m, name, n, ws, rest);
    f', m' := AfterBuiltin(f, m.world, name), m.(pc := m.pc + 1, stack := Cons(r.1, rest), world := r.0);
    AgreesGrow(f, f', st, w, lay, DataOf(m), CallBuiltin(w, args, name).value.0, DataOf(m'));
    ProgressRun(p, f, m, m');
    ProgressGrow(p, f, f', m, m');
  }

  lemma {:induction false} ArrayCorrect(p: Prog, k: nat, l: Label, exit: nat, env: Env, e: Expr, fuel: nat, c: Conf,
      f: Injection, m: Machine)
    returns (f': Injection, m': Machine)
    requires e.Arr? && LeavesBuiltins(p) && WellFormed(e) && Eval(e, c, fuel).Some?
    requires Ready(p, k, l, exit, CompileExpr(l, env, e), |m.frame.locals|)
    requires Start(env, k, c, f, m)
    ensures Simulates(p, LayoutOf(env), Yield(e), After(k, exit, CompileExpr(l, env, e)), c, f, m,
      Eval(e, c, fuel).value, f', m')
    decreases fuel, 1
  {
    hide Reaches, Unique, Count, FindLabel, Agrees, AlikeAll, Alike, Progress, Ready, Pushes, Finish, CompileList,
      EvalList, CallBuiltin, Operands, LeavesBuiltins, Take, BottomUp;
    var (lar, env1) := env.NewLabel();
    var n := |e.items|;
    var code := CompileList(lar, env1, e.items);
    ReadyFinish(p, k, l, exit, code, lar, CALL(Named(".array"), n), |m.frame.locals|);
    var f1, m1 := ListCorrect(p, k, lar, k + |code.2| + 1, env1, e.items, fuel - 1, c, f, m);
    var c1 := EvalList(e.items, c, fuel - 1).value;
    var vs, ws := PushesTake(f1, n, c.stack, c1.stack, m.stack, m1.stack);
    f', m' := BuiltinRuns(p, LayoutOf(env), f1, c1.st, c1.world, m1, ".array", BottomUp(vs), n, ws, m.stack);
    ProgressThen(p, f, m, f1, m1, f', m');
  }

  lemma {:induction false} SexpCorrect(p: Prog, k: nat, l: Label, exit: nat, env: Env, e: Expr, fuel: nat, c: Conf,
      f: Injection, m: Machine)
    returns (f': Injection, m': Machine)
    requires e.Sexp? && LeavesBuiltins(p) && WellFormed(e) && Eval(e, c, fuel).Some?
    requires Ready(p, k, l, exit, CompileExpr(l, env, e), |m.frame.locals|)
    requires Start(env, k, c, f, m)
    ensures Simulates(p, LayoutOf(env), Yield(e), After(k, exit, CompileExpr(l, env, e)), c, f, m,
      Eval(e, c, fuel).value, f', m')
    decreases fuel, 1
  {
    hide Reaches, Unique, Count, FindLabel, Agrees, AlikeAll, Progress, Ready, Pushes, Finish, CompileList, EvalList,
      Image, Operands, LeavesBuiltins, Take, BottomUp;
    var (lsexp, env1) := env.NewLabel();
    var n := |e.items|;
    var code := CompileList(lsexp, env1, e.items);
    ReadyFinish(p, k, l, exit, code, lsexp, SEXP(e.tag, n), |m.frame.locals|);
    var f1, m1 := ListCorrect(p, k, lsexp, k + |code.2| + 1, env1, e.items, fuel - 1, c, f, m);
    var c1 := EvalList(e.items, c, fuel - 1).value;
    var vs, ws := PushesTake(f1, n, c.stack, c1.stack, m.stack, m1.stack);
    var o, o' := SexpObject(e.tag, BottomUp(vs)), SexpObject(e.tag, BottomUp(ws));
    AgreesWorlds(f1, c1.st, c1.world, LayoutOf(env), DataOf(m1));
    ImageAllocate(f1, c1.world.store, m1.world.store, o, o');
    RunSexp(p, m1, e.tag, n, ws, m.stack);
    f', m' := f1 + [|m1.world.store|],
      Moved(m1, m1.pc + 1, Cons(Ref(|m1.world.store|), m.stack), m1.world.store + [o']);
    AgreesGrow(f1, f', c1.st, c1.world, LayoutOf(env), DataOf(m1), c1.world.(store := c1.world.store + [o]),
      DataOf(m'));
    ProgressStep(p, f, m, f1, m1, m');
    ProgressWiden(p, f, m, f1, f', m');
  }

  lemma ProgressWiden(p: Prog, f: Injection, m: Machine, g: Injection, h: Injection, m': Machine)
    requires Progress(p, f, m, g, m') && g <= h
    ensures Progress(p, f, m, h, m')
  {
    hide Reaches;
  }

  lemma {:induction false} CallCorrect(p: Prog, k: nat, l: Label, exit: nat, env: Env, e: Expr, fuel: nat, c: Conf,
      f: Injection, m: Machine)
    returns (f': Injection, m': Machine)
    requires e.Call? && LeavesBuiltins(p) && WellFormed(e) && Eval(e, c, fuel).Some?
    requires Ready(p, k, l, exit, CompileExpr(l, env, e), |m.frame.locals|)
    requires Start(env, k, c, f, m)
    ensures Simulates(p, LayoutOf(env), Yield(e), After(k, exit, CompileExpr(l, env, e)), c, f, m,
      Eval(e, c, fuel).value, f', m')
    decreases fuel, 1
  {
    hide Reaches, Unique, Count, FindLabel, Agrees, AlikeAll, Alike, Progress, Ready, Pushes, Finish, CompileList,
      EvalList, CallBuiltin, Operands, LeavesBuiltins, Take, BottomUp, CompileExpr, Eval;
    var name := e.callee.name;
    var n := |e.args|;
    var (lcall, env1) := env.NewLabel();
    var code := CompileList(lcall, env1, e.args);
    CalleeNamed(e);
    LookUpAgrees(f, c, env, m, name);
    CallCode(p, k, l, exit, env, e, |m.frame.locals|);
    ReadyFinish(p, k, l, exit, code, lcall, CALL(Named(name), n), |m.frame.locals|);
    var args, c1 := CallEval(e, c, fuel);
    var f1, m1 := ListCorrect(p, k, lcall, k + |code.2| + 1, env1, e.args, fuel - 2, Push(c, Builtin(name)), f, m);
    var vs, ws := PushesTake(f1, n, Cons(Builtin(name), c.stack), c1.stack, m.stack, m1.stack);
    CallArguments(e, c, fuel, c1, vs);
    f', m' := BuiltinRuns(p, LayoutOf(env), f1, c1.st, c1.world, m1, name, BottomUp(vs), n, ws, m.stack);
    ProgressThen(p, f, m, f1, m1, f', m');
  }

  lemma CalleeNamed(e: Expr)
    requires e.Call? && WellFormed(e)
    ensures e.callee.VarOf? && e.callee.name in BUILTINS && Called(e.callee.name) && Operands(e.args)
    ensures Yield(e) == if e.callee.name == "write" then Anything else Proper
  {
    hide Operands;
  }

  lemma LookUpAgrees(f: Injection, c: Conf, env: Env, m: Machine, name: string)
    requires Agrees(f, c.st, c.world, LayoutOf(env), DataOf(m)) && name in BUILTINS
    ensures LookUp(c.st, name) == Some(Builtin(name))
    ensures LookUp(env.scope, name).Some? ==> LookUp(env.scope, name) == Some(Fun(Named(name)))
  {
    hide Scopes, Worlds;
    LookUpBuiltin(f, c.st, env.scope, env.localIndex, m.globals, m.frame.locals, name);
  }

  /** The call of a builtin compiles to its arguments and a direct call. */
  lemma CallCode(p: Prog, k: nat, l: Label, exit: nat, env: Env, e: Expr, size: nat)
    requires e.Call? && WellFormed(e) && Ready(p, k, l, exit, CompileExpr(l, env, e), size) && !env.scope.I?
    requires LookUp(env.scope, e.callee.name).Some? ==>
      LookUp(env.scope, e.callee.name) == Some(Fun(Named(e.callee.name)))
    ensures
      var (lcall, env1) := env.NewLabel();
      CompileExpr(l, env, e) == Finish(CompileList(lcall, env1, e.args), lcall, [CALL(Named(e.callee.name), |e.args|)])
  {
    hide Unique, CodeAt, FindLabel, CompileList, Place, LookUp, Operands;
    var name := e.callee.name;
    var (lcall, env1) := env.NewLabel();
    var (env2, d) := Place(env1, name);
    PlaceKeeps(env1, name);
    KeptLayout(env1, env2);
    ListKept(lcall, env2, e.args);
    ListKept(lcall, env2, [e.callee] + e.args);
  }

  lemma CallEval(e: Expr, c: Conf, fuel: nat) returns (es: seq<Expr>, c1: Conf)
    requires e.Call? && WellFormed(e) && Eval(e, c, fuel).Some?
    requires LookUp(c.st, e.callee.name) == Some(Builtin(e.callee.name))
    ensures fuel >= 2 && EvalList(e.args, Push(c, Builtin(e.callee.name)), fuel - 2) == Some(c1)
    ensures EvalList([e.callee] + e.args, c, fuel - 1) == Some(c1)
    ensures Operands(e.args)
  {
    hide Operands, CallBuiltin, Take, BottomUp, LookUp;
    es := [e.callee] + e.args;
    c1 := EvalList(es, c, fuel - 1).value;
    assert es[1..] == e.args;
    assert Eval(e.callee, c, fuel - 2) == Some(Push(c, Builtin(e.callee.name)));
  }

  /** The callee lies below its arguments. */
  lemma CallArguments(e: Expr, c: Conf, fuel: nat, c1: Conf, vs: List<Value>)
    requires e.Call? && e.callee.VarOf? && Eval(e, c, fuel).Some? && fuel > 0
    requires EvalList([e.callee] + e.args, c, fuel - 1) == Some(c1)
    requires Take(|e.args|, c1.stack) == Some((vs, Cons(Builtin(e.callee.name), c.stack)))
    ensures CallBuiltin(c1.world, BottomUp(vs), e.callee.name).Some?
    ensures
      var r := CallBuiltin(c1.world, BottomUp(vs), e.callee.name).value;
      Eval(e, c, fuel) == Some(Conf(c1.st, r.0, Cons(r.1, c.stack)))
  {
    hide CallBuiltin, EvalList, Take, BottomUp;
    var b := Builtin(e.callee.name);
    TakeBelow(|e.args|, c.stack, c1.stack, b, vs);
    assert ([b] + BottomUp(vs))[1..] == BottomUp(vs);
  }

  lemma {:induction false} AssignCorrect(p: Prog, k: nat, l: Label, exit: nat, env: Env, e: Expr, fuel: nat, c: Conf,
      f: Injection, m: Machine)
    returns (f': Injection, m': Machine)
    requires e.Assign? && LeavesBuiltins(p) && WellFormed(e) && Eval(e, c, fuel).Some?
    requires Ready(p, k, l, exit, CompileExpr(l, env, e), |m.frame.locals|)
    requires Start(env, k, c, f, m)
    ensures Simulates(p, LayoutOf(env), Yield(e), After(k, exit, CompileExpr(l, env, e)), c, f, m,
      Eval(e, c, fuel).value, f', m')
    decreases fuel, 1
  {
    hide *;
    AssignTarget(e);
    if e.target.RefOf? {
      f', m' := AssignVariable(p, k, l, exit, env, e, fuel, c, f, m);
    } else {
      f', m' := AssignElement(p, k, l, exit, env, e, fuel, c, f, m);
    }
  }

  lemma AssignTarget(e: Expr)
    requires e.Assign? && WellFormed(e)
    ensures e.target.RefOf? || e.target.ElemRef?
    ensures Yield(e) == Proper && Operand(e.source)
    ensures e.target.RefOf? ==> Ordinary(e.target.name)
    ensures e.target.ElemRef? ==> Operand(e.target.base) && Operand(e.target.index)
  {
  }

  lemma {:induction false} AssignVariable(p: Prog, k: nat, l: Label, exit: nat, env: Env, e: Expr, fuel: nat, c: Conf,
      f: Injection, m: Machine)
    returns (f': Injection, m': Machine)
    requires e.Assign? && e.target.RefOf? && LeavesBuiltins(p) && WellFormed(e) && Eval(e, c, fuel).Some?
    requires Ready(p, k, l, exit, CompileExpr(l, env, e), |m.frame.locals|)
    requires Start(env, k, c, f, m)
    ensures Simulates(p, LayoutOf(env), Yield(e), After(k, exit, CompileExpr(l, env, e)), c, f, m,
      Eval(e, c, fuel).value, f', m')
    decreases fuel, 0
  {
    hide Reaches, Unique, Count, FindLabel, Agrees, Alike, Progress, Ready, Finish, CompileExpr, Eval, Place, Stored,
      WellFormed, Update, LookUp;
    AssignTarget(e);
    var x := e.target.name;
    var (lassn, env1) := env.NewLabel();
    var (env2, d) := Place(env1, x);
    AssignVariableCode(l, env, e);
    var code := CompileExpr(lassn, env2, e.source);
    ReadyFinish(p, k, l, exit, code, lassn, ST(d), |m.frame.locals|);
    PlaceKeeps(env1, x);
    KeptLayout(env1, env2);
    ExprKept(lassn, env2, e.source);
    KeptLayout(env2, code.0);
    ReadyOk(p, k, lassn, k + |code.2| + 1, code, |m.frame.locals|);
    var c2 := AssignVariableEval(e, c, fuel);
    var m1;
    f', m1 := ExprCorrect(p, k, lassn, k + |code.2| + 1, env2, e.source, fuel - 3, Push(c, Var(Global(x))), f, m);
    m' := StoreRuns(p, f', c2, env, d, x, m1);
    ProgressStep(p, f, m, f', m1, m');
  }

  lemma ReadyOk(p: Prog, k: nat, l: Label, exit: nat, c: Compiled, size: nat)
    requires Ready(p, k, l, exit, c, size)
    ensures c.0.ok && c.0.nlocals <= size
  {
  }

  lemma AssignVariableCode(l: Label, env: Env, e: Expr)
    requires e.Assign? && e.target.RefOf?
    ensures
      var (lassn, env1) := env.NewLabel();
      var (env2, d) := Place(env1, e.target.name);
      CompileExpr(l, env, e) == Finish(CompileExpr(lassn, env2, e.source), lassn, [ST(d)])
  {
    hide Place, Finish;
  }

  lemma AssignVariableEval(e: Expr, c: Conf, fuel: nat) returns (c2: Conf)
    requires e.Assign? && e.target.RefOf? && Eval(e, c, fuel).Some?
    ensures fuel >= 3 && Eval(e.source, Push(c, Var(Global(e.target.name))), fuel - 3) == Some(c2)
    ensures c2.stack.Cons? && c2.stack.tail.Cons?
    ensures c2.stack.tail.head == Var(Global(e.target.name)) ==>
      && Update(c2.st, e.target.name, c2.stack.head).Some?
      && Eval(e, c,
        fuel) == Some(Conf(Update(c2.st, e.target.name, c2.stack.head).value, c2.world,
        Cons(c2.stack.head, c2.stack.tail.tail)))
  {
    hide Update;
    var es := [e.target, e.source];
    assert es[1..] == [e.source] && [e.source][1..] == [];
    var c1 := Push(c, Var(Global(e.target.name)));
    assert Eval(e.target, c, fuel - 2) == Some(c1);
    assert EvalList(es, c, fuel - 1) == EvalList([e.source], c1, fuel - 2);
    c2 := Eval(e.source, c1, fuel - 3).value;
    assert EvalList([e.source], c1, fuel - 2) == EvalList([], c2, fuel - 3) == Some(c2);
  }

  /** ST stores the top of the stack where the source updates the variable. */
  lemma StoreRuns(p: Prog, f: Injection, c: Conf, env: Env, d: Designation, x: string, m: Machine) returns (m': Machine)
    requires Agrees(f, c.st, c.world, LayoutOf(env), DataOf(m)) && Fetches(p, m, ST(d)) && Ordinary(x)
    requires c.stack.Cons? && m.stack.Cons? && Alike(f, c.stack.head, m.stack.head)
    requires LookUp(env.scope, x) == Some(d) && Update(c.st, x, c.stack.head).Some?
    ensures Reaches(p, m, m') && SameFrame(m, m') && m'.pc == m.pc + 1 && m'.stack == m.stack
    ensures Agrees(f, Update(c.st, x, c.stack.head).value, c.world, LayoutOf(env), DataOf(m'))
  {
    hide Reaches, Scopes, Worlds, Alike, LookUp, Update;
    var w := m.stack.head;
    UpdateAlikeScopes(f, c.st, env.scope, env.localIndex, m.globals, m.frame.locals, x, c.stack.head, w);
    var (g, l) := Stored(d, w, m.globals, m.frame.locals);
    m' := m.(globals := g, frame := m.frame.(locals := l));
    RunStore(p, m, d, m');
    m' := m'.(pc := m.pc + 1);
  }

  lemma {:induction false} AssignElement(p: Prog, k: nat, l: Label, exit: nat, env: Env, e: Expr, fuel: nat, c: Conf,
      f: Injection, m: Machine)
    returns (f': Injection, m': Machine)
    requires e.Assign? && e.target.ElemRef? && LeavesBuiltins(p) && WellFormed(e) && Eval(e, c, fuel).Some?
    requires Ready(p, k, l, exit, CompileExpr(l, env, e), |m.frame.locals|)
    requires Start(env, k, c, f, m)
    ensures Simulates(p, LayoutOf(env), Yield(e), After(k, exit, CompileExpr(l, env, e)), c, f, m,
      Eval(e, c, fuel).value, f', m')
    decreases fuel, 0
  {
    hide Reaches, Unique, Count, FindLabel, Agrees, Progress, Ready, Finish, CompileExpr, Eval, CompileList, WellFormed,
      EvalList, Kept, Grows, Alike, UpdateElement;
    AssignTarget(e);
    var size := |m.frame.locals|;
    var (b, i, s) := (e.target.base, e.target.index, e.source);
    var (lassn, env1) := env.NewLabel();
    AssignElementCode(l, env, e);
    var all := CompileList(lassn, env1, [b, i, s]);
    ReadyFinish(p, k, l, exit, all, lassn, STA, size);
    var exit3 := k + |all.2| + 1;
    var (lb, env2) := env1.NewLabel();
    var cb := CompileExpr(lb, env2, b);
    var (li, env3) := cb.0.NewLabel();
    var ci := CompileExpr(li, env3, i);
    var cs := CompileExpr(lassn, ci.0, s);
    var rest := CompileList(lassn, cb.0, [i, s]);
    ThreeUnfold(lassn, env1, b, i, s);
    ExprKept(lb, env2, b);
    KeptLayout(env2, cb.0);
    ListKept(lassn, cb.0, [i, s]);
    KeptLayout(cb.0, rest.0);
    ExprKept(li, env3, i);
    KeptLayout(env3, ci.0);
    ExprKept(lassn, ci.0, s);
    KeptLayout(ci.0, cs.0);
    ReadyPair(p, k, lassn, exit3, cb, lb, rest, size);
    var k2 := After(k, k + |cb.2| + 1, cb);
    ReadyPair(p, k2, lassn, exit3, ci, li, cs, size);
    var k3 := After(k2, k2 + |ci.2| + 1, ci);
    var c1, c2, c3, c4 := AssignElementEval(e, c, fuel);
    var f1, m1 := ExprCorrect(p, k, lb, k + |cb.2| + 1, env2, b, fuel - 4, c, f, m);
    SameSize(p, f, m, f1, m1);
    var f2, m2 := ExprCorrect(p, k2, li, k2 + |ci.2| + 1, env3, i, fuel - 5, c1, f1, m1);
    SameSize(p, f1, m1, f2, m2);
    var f3, m3 := ExprCorrect(p, k3, lassn, exit3, ci.0, s, fuel - 3, c3, f2, m2);
    SameSize(p, f2, m2, f3, m3);
    ProgressThen(p, f, m, f1, m1, f2, m2);
    ProgressThen(p, f, m, f2, m2, f3, m3);
    AlikeGrows(f1, f3, c1.stack.head, m1.stack.head);
    AlikeGrows(f2, f3, c2.stack.head, m2.stack.head);
    f' := f3;
    m' := UpdateRuns(p, f3, c4, LayoutOf(env), c1.stack.head, m1.stack.head, c2.stack.head, m2.stack.head, m3, m.stack);
    ProgressStep(p, f, m, f3, m3, m');
  }

  lemma AssignElementCode(l: Label, env: Env, e: Expr)
    requires e.Assign? && e.target.ElemRef?
    ensures
      var (lassn, env1) := env.NewLabel();
      CompileExpr(l, env, e) == Finish(CompileList(lassn, env1, [e.target.base, e.target.index, e.source]), lassn,
        [STA])
  {
    hide CompileList, Finish;
  }

  lemma ThreeUnfold(l: Label, env: Env, x: Expr, y: Expr, z: Expr)
    ensures
      var (ls, env1) := env.NewLabel();
      var a := CompileExpr(ls, env1, x);
      var rest := CompileList(l, a.0, [y, z]);
      var (ls2, env2) := a.0.NewLabel();
      var b := CompileExpr(ls2, env2, y);
      var d := CompileExpr(l, b.0, z);
      && CompileList(l, env, [x, y, z]) == (rest.0, rest.1, a.2 + LabelIf(a.1, ls) + rest.2)
      && rest == (d.0, d.1, b.2 + LabelIf(b.1, ls2) + d.2)
  {
    hide CompileExpr, CompileList;
    LongList(l, env, [x, y, z]);
    assert [x, y, z][1..] == [y, z];
    var a := CompileExpr(env.NewLabel().0, env.NewLabel().1, x);
    LongList(l, a.0, [y, z]);
    assert [y, z][1..] == [z];
    var b := CompileExpr(a.0.NewLabel().0, a.0.NewLabel().1, y);
    SingleList(l, b.0, [z]);
  }

  /** The configurations after the container, the index, the reference and the value. */
  lemma AssignElementEval(e: Expr, c: Conf, fuel: nat) returns (c1: Conf, c2: Conf, c3: Conf, c4: Conf)
    requires e.Assign? && e.target.ElemRef? && Eval(e, c, fuel).Some?
    ensures fuel >= 5 && Eval(e.target.base, c, fuel - 4) == Some(c1) && Eval(e.target.index, c1, fuel - 5) == Some(c2)
    ensures c2.stack.Cons? && c2.stack.tail.Cons? && c2.stack.head.Int?
    ensures c3 == c2.(stack := Cons(Elem(c2.stack.tail.head, c2.stack.head.n), c2.stack.tail.tail))
    ensures Eval(e.source, c3, fuel - 3) == Some(c4)
    ensures c4.stack.Cons? && c4.stack.tail == c3.stack ==>
      var u := UpdateElement(c4.world.store, c2.stack.tail.head, c2.stack.head.n, c4.stack.head);
      u.Some? && Eval(e, c,
        fuel) == Some(Conf(c4.st, c4.world.(store := u.value), Cons(c4.stack.head, c2.stack.tail.tail)))
  {
    hide UpdateElement;
    var (b, i) := (e.target.base, e.target.index);
    assert [e.target, e.source][1..] == [e.source] && [e.source][1..] == [];
    assert [b, i][1..] == [i] && [i][1..] == [];
    assert EvalList([e.target, e.source], c, fuel - 1).Some?;
    c3 := Eval(e.target, c, fuel - 2).value;
    assert EvalList([b, i], c, fuel - 3).Some?;
    c1 := Eval(b, c, fuel - 4).value;
    assert EvalList([b, i], c, fuel - 3) == EvalList([i], c1, fuel - 4);
    c2 := Eval(i, c1, fuel - 5).value;
    assert EvalList([i], c1, fuel - 4) == EvalList([], c2, fuel - 5);
    assert EvalList([e.target, e.source], c, fuel - 1) == EvalList([e.source], c3, fuel - 2);
    c4 := Eval(e.source, c3, fuel - 3).value;
    assert EvalList([e.source], c3, fuel - 2) == EvalList([], c4, fuel - 3);
  }

  lemma UpdateRuns(p: Prog, f: Injection, c: Conf, lay: Layout, b: Value, b': Value, j: Value, j': Value, m: Machine,
      rest: List<Value>) returns (m': Machine)
    requires Agrees(f, c.st, c.world, lay, DataOf(m)) && Fetches(p, m, STA)
    requires c.stack.Cons? && m.stack.Cons? && Alike(f, c.stack.head, m.stack.head) && Alike(f, b, b')
    requires Alike(f, j, j') && j.Int?
    requires m.stack.tail == Cons(j', Cons(b', rest)) && UpdateElement(c.world.store, b, j.n, c.stack.head).Some?
    ensures Reaches(p, m, m') && SameFrame(m, m') && m'.pc == m.pc + 1 && m'.stack == Cons(m.stack.head, rest)
    ensures Agrees(f, c.st, c.world.(store := UpdateElement(c.world.store, b, j.n, c.stack.head).value), lay,
      DataOf(m'))
  {
    hide Reaches, Scopes, Image, UpdateElement;
    var z := m.stack.head;
    UpdateAlike(f, c.world.store, m.world.store, b, b', j.n, c.stack.head, z);
    RunUpdate(p, m, z, j.n, b', rest);
    m' := Moved(m, m.pc + 1, Cons(z, rest), UpdateElement(m.world.store, b', j.n, z).value);
  }

  lemma {:induction false} IfCorrect(p: Prog, k: nat, l: Label, exit: nat, env: Env, e: Expr, fuel: nat, c: Conf,
      f: Injection, m: Machine)
    returns (f': Injection, m': Machine)
    requires e.If? && LeavesBuiltins(p) && WellFormed(e) && Eval(e, c, fuel).Some?
    requires Ready(p, k, l, exit, CompileExpr(l, env, e), |m.frame.locals|)
    requires Start(env, k, c, f, m)
    ensures Simulates(p, LayoutOf(env), Yield(e), After(k, exit, CompileExpr(l, env, e)), c, f, m,
      Eval(e, c, fuel).value, f', m')
    decreases fuel, 1
  {
    hide Reaches, Unique, Count, FindLabel, Agrees, Progress, Ready, Alike, Yield, CompileExpr, CompileIf, WellFormed,
      CodeAt, Kept, Grows, Grown, Eval;
    var size := |m.frame.locals|;
    var pieces := IfReady(p, k, l, exit, env, e, size);
    IfParts(e);
    IfEval(e, c, fuel);
    var c1 := Eval(e.cond, c, fuel - 1).value;
    var f1, m1 := ExprCorrect(p, k, pieces.lc, pieces.ec, pieces.envc, e.cond, fuel - 1, c, f, m);
    SameSize(p, f, m, f1, m1);
    GrownProper(f1, c.stack, c1.stack, m.stack, m1.stack);
    var n := c1.stack.head.n;
    var c2 := c1.(stack := c.stack);
    RunBranch(p, m1, false, pieces.l2, n, m.stack, pieces.k2);
    var m2 := m1.(pc := if n != 0 then pieces.k1 else pieces.k2, stack := m.stack);
    ProgressStep(p, f, m, f1, m1, m2);
    var branch := if n != 0 then e.thn else e.els;
    var envb, kb := if n != 0 then pieces.env1 else pieces.env2, m2.pc;
    var code := CompileExpr(l, envb, branch);
    var m3;
    f', m3 := ExprCorrect(p, kb, l, exit, envb, branch, fuel - 1, c2, f1, m2);
    ProgressThen(p, f, m, f1, m2, f', m3);
    LeaveThrough(p, kb + |code.2|, exit, code.1, l, f, m, f', m3);
    m' := m3.(pc := exit);
    GrownJoin(f', Yield(branch), Yield(e), c.stack, Eval(e, c, fuel).value.stack, m.stack, m'.stack);
  }

  /** Where the parts of a conditional lie. */
  datatype IfPieces = IfPieces(lc: Label, ec: nat, envc: Env, l2: Label, k1: nat, env1: Env, k2: nat, env2: Env)

  lemma IfReady(p: Prog, k: nat, l: Label, exit: nat, env: Env, e: Expr, size: nat) returns (i: IfPieces)
    requires e.If? && !env.scope.I? && Ready(p, k, l, exit, CompileExpr(l, env, e), size)
    ensures CompileExpr(l, env, e).1 && FindLabel(p, l) == Some(exit)
    ensures LayoutOf(i.envc) == LayoutOf(env) && LayoutOf(i.env1) == LayoutOf(env) && LayoutOf(i.env2) == LayoutOf(env)
    ensures Ready(p, k, i.lc, i.ec, CompileExpr(i.lc, i.envc, e.cond), size)
    ensures
      var j := After(k, i.ec, CompileExpr(i.lc, i.envc, e.cond));
      j < |p| && p[j] == CJMP(false, i.l2) && i.k1 == j + 1 && FindLabel(p, i.l2) == Some(i.k2)
    ensures
      var a := CompileExpr(l, i.env1, e.thn);
      Ready(p, i.k1, l, exit, a, size) && CodeAt(p, i.k1 + |a.2|, JumpUnless(a.1, l))
    ensures
      var b := CompileExpr(l, i.env2, e.els);
      Ready(p, i.k2, l, exit, b, size) && CodeAt(p, i.k2 + |b.2|, JumpUnless(b.1, l))
    ensures
      var c, a, b := CompileExpr(i.lc, i.envc, e.cond), CompileExpr(l, i.env1, e.thn), CompileExpr(l, i.env2, e.els);
      && i.ec == k + |c.2| + 1 && CodeAt(p, k + |c.2|, LabelIf(c.1, i.lc))
      && i.k2 == i.k1 + |a.2| + |JumpUnless(a.1, l)| + 1 && i.k2 <= |p| && p[i.k2 - 1] == LABEL(i.l2)
      && k + |CompileExpr(l, env, e).2| == i.k2 + |b.2| + |JumpUnless(b.1, l)|
  {
    hide Unique, Count, FindLabel, CodeAt, LabelIf, JumpUnless, CompileExpr;
    var (le, env1) := env.NewLabel();
    var (l2, env2) := env1.NewLabel();
    var c := CompileExpr(le, env2, e.cond);
    var a := CompileExpr(l, c.0, e.thn);
    var b := CompileExpr(l, a.0, e.els);
    IfCode(l, env, e);
    ExprKept(le, env2, e.cond);
    ExprKept(l, c.0, e.thn);
    ExprKept(l, a.0, e.els);
    var k1, k2 := IfLaid(p, k, c.2, LabelIf(c.1, le), a.2, JumpUnless(a.1, l), l2, b.2, JumpUnless(b.1, l));
    LabelBehind(p, k, c, le, size);
    LabelIfLength(c.1, le);
    i := IfPieces(le, k + |c.2| + 1, env2, l2, k1, c.0, k2, a.0);
  }

  lemma LabelIfLength(flag: bool, l: Label)
    ensures |LabelIf(flag, l)| == if flag then 1 else 0
  {
  }

  /** The pieces of a conditional's code, one behind the other. */
  lemma IfLaid(p: Prog, k: nat, c: Prog, cl: Prog, a: Prog, aj: Prog, l2: Label, b: Prog, bj: Prog)
      returns (k1: nat, k2: nat)
    requires Unique(p) && CodeAt(p, k, c + cl + [CJMP(false, l2)] + a + aj + [LABEL(l2)] + b + bj)
    ensures CodeAt(p, k, c) && CodeAt(p, k + |c|, cl) && k1 == k + |c| + |cl| + 1 && k1 - 1 < |p|
    ensures p[k1 - 1] == CJMP(false, l2)
    ensures CodeAt(p, k1, a) && CodeAt(p, k1 + |a|, aj) && k2 == k1 + |a| + |aj| + 1 && k2 <= |p|
    ensures p[k2 - 1] == LABEL(l2)
    ensures FindLabel(p, l2) == Some(k2) && CodeAt(p, k2, b) && CodeAt(p, k2 + |b|, bj)
  {
    hide Unique, Count, FindLabel, CodeAt;
    var c0 := c + cl;
    var c1: Prog := c0 + [CJMP(false, l2)];
    var c2 := c1 + a;
    var c3 := c2 + aj;
    var c4 := c3 + [LABEL(l2)];
    CodeSplit(p, k, c4 + b, bj);
    CodeSplit(p, k, c4, b);
    CodeSplit(p, k, c3, [LABEL(l2)]);
    CodeSplit(p, k, c2, aj);
    CodeSplit(p, k, c1, a);
    CodeSplit(p, k, c0, [CJMP(false, l2)]);
    CodeSplit(p, k, c, cl);
    InsnAt(p, k + |c0|, [CJMP(false, l2)], 0);
    InsnAt(p, k + |c3|, [LABEL(l2)], 0);
    LabelAt(p, k + |c3|, l2);
    k1, k2 := k + |c1|, k + |c4|;
  }

  lemma IfCode(l: Label, env: Env, e: Expr)
    requires e.If?
    ensures
      var (le, env1) := env.NewLabel();
      var (l2, env2) := env1.NewLabel();
      var c := CompileExpr(le, env2, e.cond);
      var a := CompileExpr(l, c.0, e.thn);
      var b := CompileExpr(l, a.0, e.els);
      CompileExpr(l, env, e) ==
        (b.0, true,
          c.2 + LabelIf(c.1, le) + [CJMP(false, l2)] + a.2 + JumpUnless(a.1, l) + [LABEL(l2)] + b.2 + JumpUnless(b.1,
          l))
  {
  }

  lemma IfParts(e: Expr)
    requires e.If? && WellFormed(e)
    ensures Operand(e.cond) && WellFormed(e.thn) && WellFormed(e.els)
    ensures Yield(e) == Join(Yield(e.thn), Yield(e.els)) && SameDepth(Yield(e.thn), Yield(e.els))
  {
  }

  lemma IfEval(e: Expr, c: Conf, fuel: nat)
    requires e.If? && Eval(e, c, fuel).Some?
    ensures fuel > 0 && Eval(e.cond, c, fuel - 1).Some?
    ensures
      var c1 := Eval(e.cond, c, fuel - 1).value;
      && c1.stack.Cons? && c1.stack.head.Int?
      && Eval(e, c, fuel) == Eval(if c1.stack.head.n != 0 then e.thn else e.els, c1.(stack := c1.stack.tail), fuel - 1)
  {
  }

  lemma GrownProper(f: Injection, s: List<Value>, s': List<Value>, t: List<Value>, t': List<Value>)
    requires Grown(f, Proper, s, s', t, t')
    ensures s'.Cons? && s'.tail == s && t'.Cons? && t'.tail == t && Alike(f, s'.head, t'.head)
    ensures s'.head.Int? ==> t'.head == s'.head
  {
  }

  lemma GrownJoin(f: Injection, y: Effect, y': Effect, s: List<Value>, s': List<Value>, t: List<Value>, t': List<Value>)
    requires Grown(f, y, s, s', t, t') && (y' == y || (y' == Anything && y != Nothing))
    ensures Grown(f, y', s, s', t, t')
  {
    hide Alike;
  }

  // ---- loops ----

  /** A loop's condition lies at kc, a jump back at kj, its body at kb. */
  datatype LoopPieces = LoopPieces(
    kb: nat, lb: Label, eb: nat, envb: Env, kc: nat, lc: Label, ec: nat, envc: Env, loop: Label)

  ghost predicate LoopReady(p: Prog, i: LoopPieces, cond: Expr, body: Expr, size: nat) {
    var b, c := CompileExpr(i.lb, i.envb, body), CompileExpr(i.lc, i.envc, cond);
    var end, kj := After(i.kb, i.eb, b), After(i.kc, i.ec, c);
    && Ready(p, i.kb, i.lb, i.eb, b, size) && Ready(p, i.kc, i.lc, i.ec, c, size)
    && LayoutOf(i.envb) == LayoutOf(i.envc) && !i.envb.scope.I?
    && kj < |p| && p[kj] == CJMP(true, i.loop) && FindLabel(p, i.loop) == Some(i.kb)
    && (end == i.kc || (end + 1 == i.kc && end < |p| && p[end].LABEL?))
  }

  /** The condition's own exit label comes right behind it. */
  ghost predicate CondBehind(p: Prog, i: LoopPieces, c: Compiled) {
    i.ec == i.kc + |c.2| + 1 && CodeAt(p, i.kc + |c.2|, LabelIf(c.1, i.lc))
      && After(i.kc, i.ec, c) == i.kc + |c.2| + |LabelIf(c.1, i.lc)|
  }

  /** Behind the jump back. */
  function LoopEnd(i: LoopPieces, cond: Expr): nat {
    After(i.kc, i.ec, CompileExpr(i.lc, i.envc, cond)) + 1
  }

  lemma {:induction false} LoopCorrect(p: Prog, i: LoopPieces, e: Expr, fuel: nat, c: Conf, f: Injection, m: Machine)
    returns (f': Injection, m': Machine)
    requires e.While? && LeavesBuiltins(p) && WellFormed(e) && Eval(e, c, fuel).Some?
    requires LoopReady(p, i, e.cond, e.body, |m.frame.locals|) && Start(i.envc, i.kc, c, f, m)
    ensures Simulates(p, LayoutOf(i.envc), Nothing, LoopEnd(i, e.cond), c, f, m, Eval(e, c, fuel).value, f', m')
    decreases fuel, 0
  {
    hide Reaches, Unique, Count, FindLabel, Agrees, Progress, Ready, Alike, Yield, CompileExpr, WellFormed, Grown, Eval,
      LeavesBuiltins;
    WhileParts(e);
    WhileEval(e, c, fuel);
    var c1 := Eval(e.cond, c, fuel - 1).value;
    var f1, m1 := ExprCorrect(p, i.kc, i.lc, i.ec, i.envc, e.cond, fuel - 1, c, f, m);
    SameSize(p, f, m, f1, m1);
    GrownProper(f1, c.stack, c1.stack, m.stack, m1.stack);
    var n := c1.stack.head.n;
    var c2 := c1.(stack := c.stack);
    RunBranch(p, m1, true, i.loop, n, m.stack, i.kb);
    var m2 := m1.(pc := if n != 0 then i.kb else m1.pc + 1, stack := m.stack);
    ProgressStep(p, f, m, f1, m1, m2);
    if n != 0 {
      var c3 := Eval(e.body, c2, fuel - 1).value;
      var f3, m3 := ExprCorrect(p, i.kb, i.lb, i.eb, i.envb, e.body, fuel - 1, c2, f1, m2);
      SameSize(p, f1, m2, f3, m3);
      GrownNothing(f3, c2.stack, c3.stack, m2.stack, m3.stack);
      ProgressThen(p, f, m, f1, m2, f3, m3);
      var m4 := LoopBack(p, i, f, m, f3, m3);
      f', m' := LoopCorrect(p, i, e, fuel - 1, c3, f3, m4);
      ProgressThen(p, f, m, f3, m4, f', m');
    } else {
      f', m' := f1, m2;
      NothingGrown(f', c.stack, m.stack);
    }
  }

  lemma LoopBack(p: Prog, i: LoopPieces, f: Injection, m: Machine, g: Injection, mid: Machine) returns (m': Machine)
    requires Progress(p, f, m, g, mid)
    requires mid.pc == i.kc || (mid.pc + 1 == i.kc && mid.pc < |p| && p[mid.pc].LABEL?)
    ensures Progress(p, f, m, g, m') && m' == mid.(pc := i.kc)
  {
    hide Reaches, Progress;
    m' := mid.(pc := i.kc);
    if mid.pc != i.kc {
      RunSkip(p, mid);
      ProgressStep(p, f, m, g, mid, m');
    }
  }

  lemma GrownNothing(f: Injection, s: List<Value>, s': List<Value>, t: List<Value>, t': List<Value>)
    requires Grown(f, Nothing, s, s', t, t')
    ensures s' == s && t' == t
  {
  }

  lemma NothingGrown(f: Injection, s: List<Value>, t: List<Value>)
    ensures Grown(f, Nothing, s, s, t, t)
  {
  }

  lemma WhileParts(e: Expr)
    requires e.While? && WellFormed(e)
    ensures Operand(e.cond) && WellFormed(e.body) && Yield(e.body) == Nothing && Yield(e) == Nothing
  {
  }

  lemma WhileEval(e: Expr, c: Conf, fuel: nat)
    requires e.While? && Eval(e, c, fuel).Some?
    ensures fuel > 0 && Eval(e.cond, c, fuel - 1).Some?
    ensures
      var c1 := Eval(e.cond, c, fuel - 1).value;
      var c2 := c1.(stack := if c1.stack.Cons? then c1.stack.tail else Nil);
      && c1.stack.Cons? && c1.stack.head.Int?
      && (c1.stack.head.n != 0 ==>
            && Eval(e.body, c2, fuel - 1).Some?
            && Eval(e, c, fuel) == Eval(e, Eval(e.body, c2, fuel - 1).value, fuel - 1))
      && (c1.stack.head.n == 0 ==> Eval(e, c, fuel) == Some(c2))
  {
  }

  lemma {:induction false} WhileCorrect(p: Prog, k: nat, l: Label, exit: nat, env: Env, e: Expr, fuel: nat, c: Conf,
      f: Injection, m: Machine)
    returns (f': Injection, m': Machine)
    requires e.While? && LeavesBuiltins(p) && WellFormed(e) && Eval(e, c, fuel).Some?
    requires Ready(p, k, l, exit, CompileExpr(l, env, e), |m.frame.locals|)
    requires Start(env, k, c, f, m)
    ensures Simulates(p, LayoutOf(env), Yield(e), After(k, exit, CompileExpr(l, env, e)), c, f, m,
      Eval(e, c, fuel).value, f', m')
    decreases fuel, 1
  {
    hide Reaches, Unique, Count, FindLabel, Agrees, Progress, Ready, Alike, Yield, CompileExpr, WellFormed, Eval,
      LoopReady, LoopEnd, Kept, Grows;
    WhileParts(e);
    var i := WhileReady(p, k, l, exit, env, e, |m.frame.locals|);
    RunJump(p, m, Gen(env.number + 2), i.kc);
    var m1 := m.(pc := i.kc);
    ProgressRun(p, f, m, m1);
    f', m' := LoopCorrect(p, i, e, fuel, c, f, m1);
    ProgressThen(p, f, m, f, m1, f', m');
  }

  lemma WhileReady(p: Prog, k: nat, l: Label, exit: nat, env: Env, e: Expr, size: nat) returns (i: LoopPieces)
    requires e.While? && !env.scope.I? && Ready(p, k, l, exit, CompileExpr(l, env, e), size)
    ensures LayoutOf(i.envc) == LayoutOf(env) && LoopReady(p, i, e.cond, e.body, size)
    ensures k < |p| && p[k] == JMP(Gen(env.number + 2)) && FindLabel(p, Gen(env.number + 2)) == Some(i.kc)
    ensures After(k, exit, CompileExpr(l, env, e)) == LoopEnd(i, e.cond)
    ensures
      var b, c := CompileExpr(i.lb, i.envb, e.body), CompileExpr(i.lc, i.envc, e.cond);
      && LayoutOf(i.envb) == LayoutOf(env) && i.kb == k + 2 && p[k + 1] == FLABEL(i.loop)
      && i.kc == i.kb + |b.2| + 1 && i.eb == i.kc && i.kc <= |p| && p[i.kc - 1].LABEL?
      && CondBehind(p, i, c) && k + |CompileExpr(l, env, e).2| == LoopEnd(i, e.cond) && !CompileExpr(l, env, e).1
  {
    hide Unique, Count, FindLabel, CodeAt, LabelIf, CompileExpr;
    var (lexp, env1) := env.NewLabel();
    var (loop, env2) := env1.NewLabel();
    var (cond, env3) := env2.NewLabel();
    var c := CompileExpr(lexp, env3, e.cond);
    var b := CompileExpr(cond, c.0, e.body);
    WhileCode(l, env, e);
    ExprKept(lexp, env3, e.cond);
    ExprKept(cond, c.0, e.body);
    var c0: Prog := [JMP(cond), FLABEL(loop)];
    var c1 := c0 + b.2;
    var c2 := c1 + [LABEL(cond)];
    var c3 := c2 + c.2;
    var c4 := c3 + LabelIf(c.1, lexp);
    CodeSplit(p, k, c4, [CJMP(true, loop)]);
    CodeSplit(p, k, c3, LabelIf(c.1, lexp));
    CodeSplit(p, k, c2, c.2);
    CodeSplit(p, k, c1, [LABEL(cond)]);
    CodeSplit(p, k, c0, b.2);
    InsnAt(p, k, c0, 0);
    InsnAt(p, k, c0, 1);
    LabelAt(p, k + 1, loop);
    InsnAt(p, k + |c1|, [LABEL(cond)], 0);
    LabelAt(p, k + |c1|, cond);
    InsnAt(p, k + |c4|, [CJMP(true, loop)], 0);
    LabelBehind(p, k + |c2|, c, lexp, size);
    i := LoopPieces(k + 2, cond, k + |c2|, c.0, k + |c2|, lexp, k + |c2| + |c.2| + 1, env3, loop);
  }

  lemma WhileCode(l: Label, env: Env, e: Expr)
    requires e.While?
    ensures
      var (lexp, env1) := env.NewLabel();
      var (loop, env2) := env1.NewLabel();
      var (cond, env3) := env2.NewLabel();
      var c := CompileExpr(lexp, env3, e.cond);
      var b := CompileExpr(cond, c.0, e.body);
      CompileExpr(l, env, e) ==
        (b.0, false, [JMP(cond), FLABEL(loop)] + b.2 + [LABEL(cond)] + c.2 + LabelIf(c.1, lexp) + [CJMP(true, loop)])
  {
  }

  lemma {:induction false} DoWhileCorrect(p: Prog, k: nat, l: Label, exit: nat, env: Env, e: Expr, fuel: nat, c: Conf,
      f: Injection, m: Machine)
    returns (f': Injection, m': Machine)
    requires e.DoWhile? && LeavesBuiltins(p) && WellFormed(e) && Eval(e, c, fuel).Some?
    requires Ready(p, k, l, exit, CompileExpr(l, env, e), |m.frame.locals|)
    requires Start(env, k, c, f, m)
    ensures Simulates(p, LayoutOf(env), Yield(e), After(k, exit, CompileExpr(l, env, e)), c, f, m,
      Eval(e, c, fuel).value, f', m')
    decreases fuel, 1
  {
    hide Reaches, Unique, Count, FindLabel, Agrees, Progress, Ready, Alike, Yield, CompileExpr, WellFormed, Eval,
      LoopReady, LoopEnd, Kept, Grows, Grown;
    DoWhileParts(e);
    DoWhileEval(e, c, fuel);
    var i := DoWhileReady(p, k, l, exit, env, e, |m.frame.locals|);
    var w := While(e.cond, e.body);
    RunSkip(p, m);
    var m1 := m.(pc := i.kb);
    ProgressRun(p, f, m, m1);
    var c2 := Eval(e.body, c, fuel - 1).value;
    var f2, m2 := ExprCorrect(p, i.kb, i.lb, i.eb, i.envb, e.body, fuel - 1, c, f, m1);
    SameSize(p, f, m1, f2, m2);
    ProgressThen(p, f, m, f, m1, f2, m2);
    GrownNothing(f2, c.stack, c2.stack, m1.stack, m2.stack);
    f', m' := LoopCorrect(p, i, w, fuel - 1, c2, f2, m2);
    ProgressThen(p, f, m, f2, m2, f', m');
  }

  lemma DoWhileParts(e: Expr)
    requires e.DoWhile? && WellFormed(e)
    ensures WellFormed(e.body) && Yield(e.body) == Nothing && Yield(e) == Nothing && WellFormed(While(e.cond, e.body))
  {
  }

  lemma DoWhileEval(e: Expr, c: Conf, fuel: nat)
    requires e.DoWhile? && Eval(e, c, fuel).Some?
    ensures fuel > 0 && Eval(e.body, c, fuel - 1).Some?
    ensures Eval(e, c, fuel) == Eval(While(e.cond, e.body), Eval(e.body, c, fuel - 1).value, fuel - 1)
  {
  }

  lemma DoWhileReady(p: Prog, k: nat, l: Label, exit: nat, env: Env, e: Expr, size: nat) returns (i: LoopPieces)
    requires e.DoWhile? && !env.scope.I? && Ready(p, k, l, exit, CompileExpr(l, env, e), size)
    ensures LayoutOf(i.envc) == LayoutOf(env) && LayoutOf(i.envb) == LayoutOf(env)
    ensures LoopReady(p, i, e.cond, e.body, size)
    ensures After(i.kb, i.eb, CompileExpr(i.lb, i.envb, e.body)) == i.kc
    ensures Ready(p, i.kb, i.lb, i.eb, CompileExpr(i.lb, i.envb, e.body), size)
    ensures k < |p| && p[k].LABEL? && i.kb == k + 1
    ensures After(k, exit, CompileExpr(l, env, e)) == LoopEnd(i, e.cond)
    ensures
      var b, c := CompileExpr(i.lb, i.envb, e.body), CompileExpr(i.lc, i.envc, e.cond);
      && i.eb == i.kb + |b.2| + 1 && i.kc == i.kb + |b.2| + |LabelIf(b.1, i.lb)|
        && CodeAt(p, i.kb + |b.2|, LabelIf(b.1, i.lb))
      && CondBehind(p, i, c) && k + |CompileExpr(l, env, e).2| == LoopEnd(i, e.cond) && !CompileExpr(l, env, e).1
  {
    hide Unique, Count, FindLabel, CodeAt, LabelIf, CompileExpr;
    var (lexp, env1) := env.NewLabel();
    var (loop, env2) := env1.NewLabel();
    var (check, env3) := env2.NewLabel();
    var c := CompileExpr(lexp, env3, e.cond);
    var b := CompileExpr(check, c.0, e.body);
    DoWhileCode(l, env, e);
    ExprKept(lexp, env3, e.cond);
    ExprKept(check, c.0, e.body);
    var c0: Prog := [LABEL(loop)];
    var c1 := c0 + b.2;
    var c2 := c1 + LabelIf(b.1, check);
    var c3 := c2 + c.2;
    var c4 := c3 + LabelIf(c.1, lexp);
    CodeSplit(p, k, c4, [CJMP(true, loop)]);
    CodeSplit(p, k, c3, LabelIf(c.1, lexp));
    CodeSplit(p, k, c2, c.2);
    CodeSplit(p, k, c1, LabelIf(b.1, check));
    CodeSplit(p, k, c0, b.2);
    InsnAt(p, k, c0, 0);
    LabelAt(p, k, loop);
    InsnAt(p, k + |c4|, [CJMP(true, loop)], 0);
    LabelBehind(p, k + 1, b, check, size);
    LabelBehind(p, k + |c2|, c, lexp, size);
    i := LoopPieces(k + 1, check, k + 1 + |b.2| + 1, c.0, k + |c2|, lexp, k + |c2| + |c.2| + 1, env3, loop);
  }

  lemma DoWhileCode(l: Label, env: Env, e: Expr)
    requires e.DoWhile?
    ensures
      var (lexp, env1) := env.NewLabel();
      var (loop, env2) := env1.NewLabel();
      var (check, env3) := env2.NewLabel();
      var c := CompileExpr(lexp, env3, e.cond);
      var b := CompileExpr(check, c.0, e.body);
      CompileExpr(l, env, e) ==
        (b.0, false, [LABEL(loop)] + b.2 + LabelIf(b.1, check) + c.2 + LabelIf(c.1, lexp) + [CJMP(true, loop)])
  {
  }

  // ---- scopes ----

  lemma {:induction false} ScopeCorrect(p: Prog, k: nat, l: Label, exit: nat, env: Env, e: Expr, fuel: nat, c: Conf,
      f: Injection, m: Machine)
    returns (f': Injection, m': Machine)
    requires e.Scope? && LeavesBuiltins(p) && WellFormed(e) && Eval(e, c, fuel).Some?
    requires Ready(p, k, l, exit, CompileExpr(l, env, e), |m.frame.locals|)
    requires Start(env, k, c, f, m)
    ensures Simulates(p, LayoutOf(env), Yield(e), After(k, exit, CompileExpr(l, env, e)), c, f, m,
      Eval(e, c, fuel).value, f', m')
    decreases fuel, 1
  {
    hide Reaches, Unique, Count, FindLabel, Agrees, Progress, Ready, Alike, Yield, CompileExpr, WellFormed, Eval, Kept,
      Grows, Grown, Opened, AddNames, OpenScope, PushScope, DropScope, CodeAt;
    var xs, body := NamesOf(e.defs), Initialised(e.defs, e.scoped);
    ScopeParts(e);
    var env2 := env.NewLabel().1.NewLabel().1;
    var inner := AddNames(OpenScope(env2), xs);
    ScopeReady(p, k, l, exit, env, e, |m.frame.locals|);
    RunSkip(p, m);
    var m1 := m.(pc := k + 1);
    ProgressRun(p, f, m, m1);
    OpenAgrees(f, c.st, c.world, env2, xs, Mut, map[], DataOf(m));
    ScopeEval(e, c, fuel);
    var c1 := c.(st := PushScope(c.st, map[], Tagged(xs, Mut)));
    var c2 := Eval(body, c1, fuel - 1).value;
    var f2, m2 := ExprCorrect(p, k + 1, l, exit, inner, body, fuel - 1, c1, f, m1);
    ProgressThen(p, f, m, f, m1, f2, m2);
    CloseAgrees(f2, c2.st, c2.world, env2, inner, |xs|, DataOf(m2));
    f', m' := f2, m2;
    if !CompileExpr(l, inner, body).1 {
      RunSkip(p, m2);
      m' := m2.(pc := m2.pc + 1);
      ProgressStep(p, f, m, f2, m2, m');
    }
  }

  lemma ScopeParts(e: Expr)
    requires e.Scope? && WellFormed(e)
    ensures WellFormed(Initialised(e.defs, e.scoped)) && Yield(Initialised(e.defs, e.scoped)) == Yield(e)
    ensures OrdinaryNames(NamesOf(e.defs))
  {
    InitialisedWellFormed(e.defs, e.scoped);
  }

  lemma ScopeEval(e: Expr, c: Conf, fuel: nat)
    requires e.Scope? && Eval(e, c, fuel).Some?
    ensures
      var c1 := c.(st := PushScope(c.st, map[], Tagged(NamesOf(e.defs), Mut)));
      var body := Initialised(e.defs, e.scoped);
      && fuel > 0 && Eval(body, c1, fuel - 1).Some?
      && var c2 := Eval(body, c1, fuel - 1).value;
         DropScope(c2.st).Some? && Eval(e, c, fuel) == Some(c2.(st := DropScope(c2.st).value))
  {
  }

  lemma ScopeReady(p: Prog, k: nat, l: Label, exit: nat, env: Env, e: Expr, size: nat)
    requires e.Scope? && !env.scope.I? && Ready(p, k, l, exit, CompileExpr(l, env, e), size)
    ensures
      var env2 := env.NewLabel().1.NewLabel().1;
      var inner := AddNames(OpenScope(env2), NamesOf(e.defs));
      var code := CompileExpr(l, inner, Initialised(e.defs, e.scoped));
      && Opened(env2, inner, |NamesOf(e.defs)|) && inner.ok && inner.nlocals <= size && !inner.scope.I?
      && Ready(p, k + 1, l, exit, code, size)
      && k < |p| && p[k].SLABEL?
      && (if code.1 then After(k, exit, CompileExpr(l, env, e)) == exit
          else After(k, exit, CompileExpr(l, env, e)) == k + 1 + |code.2| + 1)
      && k + 1 + |code.2| < |p| && p[k + 1 + |code.2|].SLABEL? && CompileExpr(l, env, e).1 == code.1
      && |CompileExpr(l, env, e).2| == |code.2| + 2
  {
    hide Unique, Count, FindLabel, CodeAt, CompileExpr, AddNames, OpenScope, CloseScope;
    var (blab, env1) := env.NewLabel();
    var (elab, env2) := env1.NewLabel();
    var xs := NamesOf(e.defs);
    var inner := AddNames(OpenScope(env2), xs);
    var code := CompileExpr(l, inner, Initialised(e.defs, e.scoped));
    ScopeCode(l, env, e);
    OpenScopeShape(env2);
    AddNamesShape(env2, OpenScope(env2), xs);
    ExprKept(l, inner, Initialised(e.defs, e.scoped));
    OpenedKept(env2, inner, code.0, |xs|);
    CloseScopeShape(env2, code.0, |xs|);
    CodeSplit(p, k, [SLABEL(blab)] + code.2, [SLABEL(elab)]);
    CodeSplit(p, k, [SLABEL(blab)], code.2);
    InsnAt(p, k, [SLABEL(blab)], 0);
    InsnAt(p, k + 1 + |code.2|, [SLABEL(elab)], 0);
  }

  lemma ScopeCode(l: Label, env: Env, e: Expr)
    requires e.Scope?
    ensures
      var (blab, env1) := env.NewLabel();
      var (elab, env2) := env1.NewLabel();
      var code := CompileExpr(l, AddNames(OpenScope(env2), NamesOf(e.defs)), Initialised(e.defs, e.scoped));
      CompileExpr(l, env, e) == (CloseScope(code.0), code.1, [SLABEL(blab)] + code.2 + [SLABEL(elab)])
  {
    hide AddNames, OpenScope, CloseScope, Initialised, NamesOf;
  }

  /** A new scope on both sides. */
  lemma OpenAgrees(f: Injection, st: State<Value>, w: World, env: Env, xs: seq<string>, kind: Kind,
      values: map<string, Value>, d: Data)
    requires Agrees(f, st, w, LayoutOf(env), d) && OrdinaryNames(xs)
    requires AddNames(OpenScope(env), xs).ok && AddNames(OpenScope(env), xs).nlocals <= |d.locals|
    requires forall i :: 0 <= i < |xs| ==> Initial(f, xs[i], values, env.localIndex + |xs| - 1 - i, d.locals)
    ensures Agrees(f, PushScope(st, values, Tagged(xs, kind)), w, LayoutOf(AddNames(OpenScope(env), xs)), d)
  {
    hide Scopes, Worlds, AddNames, PushScope, Initial;
    ScopeOpens(f, st, env, xs, kind, values, d.globals, d.locals);
  }

  lemma CloseAgrees(f: Injection, st: State<Value>, w: World, base: Env, env: Env, n: nat, d: Data)
    requires Agrees(f, st, w, LayoutOf(env), d) && Opened(base, env, n)
    ensures DropScope(st).Some? && Agrees(f, DropScope(st).value, w, LayoutOf(base), d)
  {
    hide Worlds, TopScope, LocalScope;
  }

  // ---- case expressions ----

  /** A branch is entered at its start, or by a failing pattern behind its label. */
  ghost predicate Entered(k: nat, lab: Option<Label>, w: Value, rest: List<Value>, m: Machine) {
    if lab.None? then m.pc == k && m.stack == Cons(w, Cons(w, rest)) else m.pc == k + 2 && m.stack == Cons(w, rest)
  }

  lemma EnterBranch(p: Prog, k: nat, blab: Label, lab: Option<Label>, w: Value, rest: List<Value>, f: Injection,
      m: Machine) returns (m': Machine)
    requires Entered(k, lab, w, rest, m) && CodeAt(p, k, BranchHead(blab, lab))
    ensures Progress(p, f, m, f, m')
    ensures m' == m.(pc := k + |BranchHead(blab, lab)|, stack := Cons(w, Cons(w, rest)))
  {
    hide Reaches, Progress;
    if lab.None? {
      InsnAt(p, k, BranchHead(blab, lab), 0);
      RunSkip(p, m);
      m' := m.(pc := k + 1);
    } else {
      InsnAt(p, k, BranchHead(blab, lab), 2);
      RunDup(p, m);
      m' := m.(pc := k + 3, stack := Cons(w, Cons(w, rest)));
    }
    ProgressRun(p, f, m, m');
  }

  /** Where the parts of a branch lie. */
  datatype BranchPieces = BranchPieces(kp: nat, kb: nat, ks: nat, up: Env, env: Env)

  function BindingsOf(b: Branch): seq<(string, Path)> { Paths(b.pattern, []) }

  ghost predicate BranchReady(p: Prog, k: nat, l: Label, exit: nat, env: Env, b: Branch, last: bool, lab: Option<Label>,
      lfalse: Label, i: BranchPieces, size: nat) {
    var (env2, canFail, pcode) := CompilePattern(env, lfalse, b.pattern);
    var bind := CompileBindings(OpenScope(i.up), BindingsOf(b));
    var body := CompileExpr(l, i.env, b.body);
    && (exists blab :: i.kp == k + |BranchHead(blab, lab)| && CodeAt(p, k, BranchHead(blab, lab)))
    && CodeAt(p, i.kp, pcode) && i.kb == i.kp + |pcode|
    && LayoutOf(i.up) == LayoutOf(env) && !i.up.scope.I?
    && CodeAt(p, i.kb, bind.1) && i.env == bind.0 && i.env.ok && i.env.nlocals <= size
    && i.ks == i.kb + |bind.1| + 1 && i.ks <= |p| && p[i.ks - 1] == DROP
    && Ready(p, i.ks, l, exit, body, size)
    && LeavesAt(p, i.ks + |body.2|, l)
    && BranchEnds(p, k, l, env, b, last, lab, lfalse, i.ks + |body.2|)
  }

  /** What follows a branch's body. */
  ghost predicate BranchEnds(p: Prog, k: nat, l: Label, env: Env, b: Branch, last: bool, lab: Option<Label>,
      lfalse: Label, end: nat) {
    var size := |CompileBranch(l, env, b, last, lab, lfalse).2|;
    if last then end < |p| && p[end].SLABEL? && k + size == end + 1
    else end + 1 < |p| && p[end] == JMP(l) && p[end + 1].SLABEL? && k + size == end + 2
  }

  /** From here on control leaves through l. */
  ghost predicate LeavesAt(p: Prog, k: nat, l: Label) {
    && k < |p|
    && (p[k] == JMP(l) || (k + 1 < |p| && p[k].SLABEL? && p[k + 1] == JMP(l)))
  }

  lemma LeaveRun(p: Prog, k: nat, l: Label, exit: nat, f: Injection, m: Machine, g: Injection, mid: Machine)
    requires LeavesAt(p, k, l) && FindLabel(p, l) == Some(exit) && Progress(p, f, m, g, mid)
    requires (mid.pc == k || mid.pc == exit)
    ensures Progress(p, f, m, g, mid.(pc := exit))
  {
    hide Reaches, FindLabel, Progress;
    if mid.pc != exit {
      var m1 := mid;
      if p[k].SLABEL? {
        RunSkip(p, mid);
        m1 := mid.(pc := k + 1);
        ProgressStep(p, f, m, g, mid, m1);
      }
      RunJump(p, m1, l, exit);
      ProgressStep(p, f, m, g, m1, mid.(pc := exit));
    }
  }

  lemma BranchSplit(p: Prog, k: nat, l: Label, exit: nat, env: Env, b: Branch, last: bool, lab: Option<Label>,
      lfalse: Label, size: nat)
    returns (i: BranchPieces)
    requires !env.scope.I? && Unique(p) && FindLabel(p, l) == Some(exit)
    requires
      var c := CompileBranch(l, env, b, last, lab, lfalse);
      && CodeAt(p, k, c.2) && c.0.ok && c.0.nlocals <= size
      && (last ==> k + |c.2| < |p| && p[k + |c.2|] == JMP(l))
    ensures BranchReady(p, k, l, exit, env, b, last, lab, lfalse, i, size)
  {
    hide Unique, Count, FindLabel, CodeAt, CompileExpr, CompilePattern, CompileBindings, OpenScope, CloseScope, Opened,
      BranchHead;
    var (env2, canFail, pcode) := CompilePattern(env, lfalse, b.pattern);
    var (blab, env3) := env2.NewLabel();
    var (elab, env4) := env3.NewLabel();
    var bs := Paths(b.pattern, []);
    var (env5, bind) := CompileBindings(OpenScope(env4), bs);
    var body := CompileExpr(l, env5, b.body);
    var end: Prog := if last then [] else [JMP(l)];
    PatternShape(env, lfalse, b.pattern, l);
    OpenScopeShape(env4);
    BindingsShape(env4, OpenScope(env4), bs, l);
    OpenedIsLocal(env4, env5, |bs|);
    ExprKept(l, env5, b.body);
    OpenedKept(env4, env5, body.0, |bs|);
    CloseScopeShape(env4, body.0, |bs|);
    var head := BranchHead(blab, lab);
    var c1 := head + pcode;
    var c2 := c1 + bind;
    var c3 := c2 + [DROP];
    var c4 := c3 + body.2;
    var c5 := c4 + end;
    CodeSplit(p, k, c5, [SLABEL(elab)]);
    CodeSplit(p, k, c4, end);
    CodeSplit(p, k, c3, body.2);
    CodeSplit(p, k, c2, [DROP]);
    CodeSplit(p, k, c1, bind);
    CodeSplit(p, k, head, pcode);
    InsnAt(p, k + |c2|, [DROP], 0);
    InsnAt(p, k + |c5|, [SLABEL(elab)], 0);
    if !last {
      InsnAt(p, k + |c4|, end, 0);
    }
    i := BranchPieces(k + |head|, k + |c1|, k + |c3|, env4, env5);
  }

  /** The scope of a branch holds the bindings of its pattern once the binding code has run. */
  lemma BindAgrees(f: Injection, st: State<Value>, w: World, env: Env, p: Pattern, root: Value, acc: Bindings, d: Data,
      locals: seq<Value>)
    requires Agrees(f, st, w, LayoutOf(env), d) && OrdinaryNames(Vars(p)) && Matches(p, root, w.store, acc)
    requires AddNames(OpenScope(env), Vars(p)).ok && AddNames(OpenScope(env), Vars(p)).nlocals <= |d.locals|
    requires Distinct(Vars(p)) && Bound(f, w.store, root, Paths(p, []), env.localIndex, d.locals, locals)
    ensures
      var values := MatchPatt(p, root, w.store, Some(acc)).value;
      Agrees(f, PushScope(st, values, Tagged(Vars(p), Unmut)), w, LayoutOf(AddNames(OpenScope(env), Vars(p))),
        d.(locals := locals))
  {
    hide Scopes, Worlds, AddNames, PushScope, Matches, MatchPatt, Vars, Paths, BoundAt, BindsAt, Initial;
    MatchesSome(p, root, w.store, acc);
    var values := MatchPatt(p, root, w.store, Some(acc)).value;
    var xs, bs := Vars(p), Paths(p, []);
    RootPath(w.store, root);
    MatchBinds(p, root, w.store, acc, root, []);
    PathsName(p, []);
    ScopesIgnore(f, st, env.scope, env.localIndex, d.globals, d.locals, locals);
    forall i | 0 <= i < |xs| ensures Initial(f, xs[i], values, env.localIndex + |xs| - 1 - i, locals) {
      assert Names(bs)[i] == bs[i].0;
      assert BoundAt(f, w.store, root, bs, i, env.localIndex, locals);
      assert BindsAt(bs, i, values, w.store, root);
      InitialFromBound(f, w.store, root, bs, i, env.localIndex, locals, values);
    }
    OpenAgrees(f, st, w, env, xs, Unmut, values, d.(locals := locals));
  }

  lemma RootPath(store: Store, v: Value)
    ensures AtPath(store, v, []) == Some(v)
  {
  }

  lemma MatchesSome(p: Pattern, v: Value, store: Store, acc: Bindings)
    ensures Matches(p, v, store, acc) == MatchPatt(p, v, store, Some(acc)).Some?
  {
  }

  lemma InitialFromBound(f: Injection, store: Store, root: Value, bs: seq<(string, Path)>, i: nat, base: nat,
      locals: seq<Value>, values: Bindings)
    requires i < |bs| && BoundAt(f, store, root, bs, i, base, locals) && BindsAt(bs, i, values, store, root)
    ensures Initial(f, bs[i].0, values, base + |bs| - 1 - i, locals)
  {
    hide AtPath, Alike;
  }

  /** Every name of a matching pattern has a value. */
  lemma PathsLead(p: Pattern, v: Value, store: Store, acc: Bindings)
    requires Matches(p, v, store, acc) && Distinct(Vars(p))
    ensures forall i :: 0 <= i < |Paths(p, [])| ==> AtPath(store, v, Paths(p, [])[i].1).Some?
  {
    hide AtPath, Matches, MatchPatt, Vars, Paths;
    RootPath(store, v);
    MatchesSome(p, v, store, acc);
    MatchBinds(p, v, store, acc, v, []);
    var b := MatchPatt(p, v, store, Some(acc)).value;
    forall i | 0 <= i < |Paths(p, [])| ensures AtPath(store, v, Paths(p, [])[i].1).Some? {
      assert BindsAt(Paths(p, []), i, b, store, v);
    }
  }

  /** What the compiled environment of a branch is. */
  lemma BranchEnv(env: Env, p: Pattern)
    requires !env.scope.I?
    ensures
      var inner := CompileBindings(OpenScope(env), Paths(p, [])).0;
      && inner == AddNames(OpenScope(env), Vars(p)) && Opened(env, inner, |Vars(p)|)
      && (inner.ok ==> Distinct(Vars(p)) && (Vars(p) == [] || env.localIndex + |Vars(p)| <= inner.nlocals))
    ensures |Paths(p, [])| == |Vars(p)|
  {
    hide AddNames, CompileBindings, Paths, Vars, OpenScope;
    OpenScopeShape(env);
    BindingsAddNames(env, OpenScope(env), Paths(p, []));
    PathsName(p, []);
    AddNamesShape(env, OpenScope(env), Vars(p));
    if AddNames(OpenScope(env), Vars(p)).ok {
      OpenedEmpty(env);
      AddNamesPlaces(OpenScope(env), Vars(p));
    }
  }

  lemma OpenedEmpty(env: Env)
    requires !env.scope.I?
    ensures OpenScope(env).scope.L? && OpenScope(env).scope.names == [] && OpenScope(env).localIndex == env.localIndex
  {
  }

  /** A branch whose pattern has matched: bind, run the body, leave. */
  lemma {:induction false} BodyCorrect(p: Prog, k: nat, l: Label, exit: nat, env: Env, b: Branch, last: bool,
      lab: Option<Label>, lfalse: Label, i: BranchPieces, v: Value, w: Value, fuel: nat, c: Conf, f: Injection,
      rest: List<Value>, m: Machine)
        returns (f': Injection, m': Machine)
    requires LeavesBuiltins(p) && WellFormedBranch(b) && FindLabel(p, l) == Some(exit)
    requires BranchReady(p, k, l, exit, env, b, last, lab, lfalse, i, |m.frame.locals|)
    requires Alike(f, v, w) && Matches(b.pattern, v, c.world.store, map[])
    requires Agrees(f, c.st, c.world, LayoutOf(env), DataOf(m)) && m.pc == i.kb && m.stack == Cons(w, rest)
    requires Eval(b.body, BranchConf(b, v, c), fuel).Some?
    ensures
      var c2 := Eval(b.body, BranchConf(b, v, c), fuel).value;
      && Progress(p, f, m, f', m') && m'.pc == exit && DropScope(c2.st).Some?
      && Agrees(f', DropScope(c2.st).value, c2.world, LayoutOf(env), DataOf(m'))
      && Grown(f', YieldOfBranch(b), c.stack, c2.stack, rest, m'.stack)
    decreases fuel, 3
  {
    hide Reaches, Unique, Count, FindLabel, Agrees, Progress, Ready, Alike, CompileExpr, WellFormed, Eval, Grown, Yield,
      LeavesAt, LeavesBuiltins, Opened, AddNames, OpenScope, PushScope, DropScope, CodeAt, CompileBindings,
      CompilePattern, Paths, Vars, MatchPatt, Matches, Bound, AtPath, OrdinaryNames, Distinct;
    var bs, xs := BindingsOf(b), Vars(b.pattern);
    BranchEnv(i.up, b.pattern);
    PathsLead(b.pattern, v, c.world.store, map[]);
    OpenScopeShape(i.up);
    AgreesWorlds(f, c.st, c.world, LayoutOf(env), DataOf(m));
    AgreesBound(f, c.st, c.world, LayoutOf(env), DataOf(m));
    var m1 := BindingsCorrect(p, i.kb, i.up, OpenScope(i.up), bs, f, c.world.store, v, w, rest, m);
    BoundSize(f, c.world.store, v, bs, i.up.localIndex, m.frame.locals, m1.frame.locals);
    OpenedEmpty(i.up);
    BindAgrees(f, c.st, c.world, i.up, b.pattern, v, map[], DataOf(m), m1.frame.locals);
    RunDrop(p, m1);
    var m2 := m1.(pc := m1.pc + 1, stack := rest);
    ProgressRun(p, f, m, m1);
    ProgressStep(p, f, m, f, m1, m2);
    OpenedIsLocal(i.up, i.env, |xs|);
    var c1 := BranchConf(b, v, c);
    var c2 := Eval(b.body, c1, fuel).value;
    var f3, m3 := ExprCorrect(p, i.ks, l, exit, i.env, b.body, fuel, c1, f, m2);
    ProgressThen(p, f, m, f, m2, f3, m3);
    CloseAgrees(f3, c2.st, c2.world, i.up, i.env, |xs|, DataOf(m3));
    LeaveRun(p, i.ks + |CompileExpr(l, i.env, b.body).2|, l, exit, f, m, f3, m3);
    f', m' := f3, m3.(pc := exit);
  }

  lemma AgreesBound(f: Injection, st: State<Value>, w: World, lay: Layout, d: Data)
    requires Agrees(f, st, w, lay, d)
    ensures lay.index <= |d.locals|
  {
    hide Worlds;
    NotInitial(f, st, lay.scope, lay.index, d.globals, d.locals);
  }

  lemma BoundSize(f: Injection, store: Store, v: Value, bs: seq<(string, Path)>, base: nat, locals: seq<Value>,
      locals': seq<Value>)
    requires Bound(f, store, v, bs, base, locals, locals')
    ensures |locals'| == |locals|
  {
  }

  /** The configuration a matching branch's body runs in. */
  function BranchConf(b: Branch, v: Value, c: Conf): Conf
    requires Matches(b.pattern, v, c.world.store, map[])
  {
    c.(st := PushScope(c.st, MatchPatt(b.pattern, v, c.world.store, Some(map[])).value, Tagged(Vars(b.pattern), Unmut)))
  }

  lemma BranchesEval(branches: seq<Branch>, v: Value, c: Conf, fuel: nat)
    requires EvalBranches(branches, v, c, fuel).Some?
    ensures fuel > 0 && branches != []
    ensures
      var b := branches[0];
      if Matches(b.pattern, v, c.world.store, map[]) then
        && Eval(b.body, BranchConf(b, v, c), fuel - 1).Some?
        && var c2 := Eval(b.body, BranchConf(b, v, c), fuel - 1).value;
           DropScope(c2.st).Some? && EvalBranches(branches, v, c, fuel) == Some(c2.(st := DropScope(c2.st).value))
      else
        EvalBranches(branches, v, c, fuel) == EvalBranches(branches[1..], v, c, fuel - 1)
  {
    hide Eval, MatchPatt, PushScope, DropScope;
  }

  ghost predicate BranchesReady(p: Prog, k: nat, l: Label, exit: nat, c: Compiled, lfail: Label, xfail: nat,
      size: nat) {
    && Unique(p) && CodeAt(p, k, c.2) && FindLabel(p, l) == Some(exit)
    && k + |c.2| < |p| && p[k + |c.2|] == JMP(l)
    && (c.1 ==> FindLabel(p, lfail) == Some(xfail))
    && c.0.ok && c.0.nlocals <= size
  }

  /** The first branch whose pattern matches is run; the others leave no trace but fresh strings in the store. */
  lemma {:induction false} BranchesCorrect(p: Prog, k: nat, l: Label, exit: nat, env: Env, branches: seq<Branch>,
      lab: Option<Label>, lfail: Label, xfail: nat, v: Value, w: Value, fuel: nat, c: Conf, f: Injection,
      rest: List<Value>, m: Machine)
        returns (f': Injection, m': Machine)
    requires LeavesBuiltins(p) && WellFormedBranches(branches) && !env.scope.I?
    requires BranchesReady(p, k, l, exit, CompileBranches(l, env, branches, lab, lfail), lfail, xfail, |m.frame.locals|)
    requires Alike(f, v, w) && Agrees(f, c.st, c.world, LayoutOf(env), DataOf(m)) && Entered(k, lab, w, rest, m)
    requires EvalBranches(branches, v, c, fuel).Some?
    ensures
      var c2 := EvalBranches(branches, v, c, fuel).value;
      && Progress(p, f, m, f', m') && m'.pc == exit
      && Agrees(f', c2.st, c2.world, LayoutOf(env), DataOf(m'))
      && Grown(f', YieldOfBranches(branches), c.stack, c2.stack, rest, m'.stack)
    decreases fuel, 0
  {
    hide Reaches, Unique, Count, FindLabel, Agrees, Progress, Alike, CompileExpr, WellFormedBranch, Eval, EvalBranches,
      Grown, Yield, YieldOfBranch, BranchReady, LeavesBuiltins, CodeAt, CompilePattern, Matches, Image, CompileBranch,
      CompileBranches, BranchHead, Kept, Grows;
    BranchesEval(branches, v, c, fuel);
    var b, last := branches[0], |branches| == 1;
    var lfalse := if last then lfail else env.NewLabel().0;
    var env1 := if last then env else env.NewLabel().1;
    var code := CompileBranch(l, env1, b, last, lab, lfalse);
    var i, xfalse := FirstBranch(p, k, l, exit, env, branches, lab, lfail, xfail, |m.frame.locals|);
    var blab := BranchStart(p, k, l, exit, env1, b, last, lab, lfalse, i, |m.frame.locals|);
    var m1 := EnterBranch(p, k, blab, lab, w, rest, f, m);
    AgreesWorlds(f, c.st, c.world, LayoutOf(env), DataOf(m));
    var m2 := PatternCorrect(p, i.kp, env1, lfalse, xfalse, b.pattern, f, c.world.store, map[], v, w, Cons(w, rest),
      m1);
    PatternProgress(p, f, c, LayoutOf(env), m, m1, m2, i.kp, i.kb, xfalse, Matches(b.pattern, v, c.world.store, map[]),
      Cons(w, rest));
    SameSize(p, f, m, f, m2);
    if Matches(b.pattern, v, c.world.store, map[]) {
      f', m' := BodyCorrect(p, k, l, exit, env1, b, last, lab, lfalse, i, v, w, fuel - 1, c, f, rest, m2);
      ProgressThen(p, f, m, f, m2, f', m');
      var c2 := EvalBranches(branches, v, c, fuel).value;
      BranchJoin(branches);
      GrownJoin(f', YieldOfBranch(b), YieldOfBranches(branches), c.stack, c2.stack, rest, m'.stack);
    } else {
      BranchesJoin(branches, v, c, fuel);
      f', m' := BranchesCorrect(p, k + |code.2|, l, exit, code.0, branches[1..], Some(lfalse), lfail, xfail, v, w,
        fuel - 1, c, f, rest, m2);
      ProgressThen(p, f, m, f, m2, f', m');
      var c2 := EvalBranches(branches, v, c, fuel).value;
      GrownJoin(f', YieldOfBranches(branches[1..]), YieldOfBranches(branches), c.stack, c2.stack, rest, m'.stack);
    }
  }

  lemma BranchStart(p: Prog, k: nat, l: Label, exit: nat, env: Env, b: Branch, last: bool, lab: Option<Label>,
      lfalse: Label, i: BranchPieces, size: nat)
    returns (blab: Label)
    requires BranchReady(p, k, l, exit, env, b, last, lab, lfalse, i, size)
    ensures CodeAt(p, k, BranchHead(blab, lab)) && i.kp == k + |BranchHead(blab, lab)|
    ensures CodeAt(p, i.kp, CompilePattern(env, lfalse, b.pattern).2)
    ensures i.kb == i.kp + |CompilePattern(env, lfalse, b.pattern).2|
  {
    hide CodeAt, BranchHead, CompilePattern, CompileBindings, CompileExpr, Ready, LeavesAt, OpenScope;
    blab :| i.kp == k + |BranchHead(blab, lab)| && CodeAt(p, k, BranchHead(blab, lab));
  }

  lemma PatternProgress(p: Prog, f: Injection, c: Conf, lay: Layout, m: Machine, m1: Machine, m2: Machine, kp: nat,
      kb: nat, xfalse: nat, ok: bool, stack: List<Value>)
    requires Progress(p, f, m, f, m1) && m1 == m.(pc := kp, stack := m1.stack)
    requires Matched(p, m1, m2, if ok then kb else xfalse, stack)
    requires Agrees(f, c.st, c.world, lay, DataOf(m))
    ensures Progress(p, f, m, f, m2) && Agrees(f, c.st, c.world, lay, DataOf(m2))
    ensures m2.pc == (if ok then kb else xfalse) && m2.stack == stack
  {
    hide Reaches, Agrees, Progress;
    AgreesExtra(f, c.st, c.world, lay, DataOf(m), m2.world.store);
    ProgressStep(p, f, m, f, m1, m2);
  }

  lemma BranchJoin(branches: seq<Branch>)
    requires branches != [] && WellFormedBranches(branches)
    ensures WellFormedBranch(branches[0])
    ensures YieldOfBranches(branches) == YieldOfBranch(branches[0]) ||
      (YieldOfBranches(branches) == Anything && YieldOfBranch(branches[0]) != Nothing)
  {
    hide YieldOfBranch, WellFormedBranch;
  }

  lemma BranchesJoin(branches: seq<Branch>, v: Value, c: Conf, fuel: nat)
    requires fuel > 0 && branches != [] && WellFormedBranches(branches)
    requires EvalBranches(branches[1..], v, c, fuel - 1).Some?
    ensures WellFormedBranches(branches[1..]) && |branches| > 1
    ensures
      var y := YieldOfBranches(branches[1..]);
      YieldOfBranches(branches) == y || (YieldOfBranches(branches) == Anything && y != Nothing)
  {
    hide YieldOfBranch, WellFormedBranch, Eval, MatchPatt;
  }

  /** The first branch is in place; if its pattern can fail, the label it fails to is the next branch's. */
  lemma FirstBranch(p: Prog, k: nat, l: Label, exit: nat, env: Env, branches: seq<Branch>, lab: Option<Label>,
      lfail: Label, xfail: nat, size: nat)
    returns (i: BranchPieces, xfalse: nat)
    requires branches != [] && !env.scope.I?
    requires BranchesReady(p, k, l, exit, CompileBranches(l, env, branches, lab, lfail), lfail, xfail, size)
    ensures
      var last := |branches| == 1;
      var lfalse := if last then lfail else env.NewLabel().0;
      var env1 := if last then env else env.NewLabel().1;
      var code := CompileBranch(l, env1, branches[0], last, lab, lfalse);
      && LayoutOf(env1) == LayoutOf(env) && LayoutOf(code.0) == LayoutOf(env) && !code.0.scope.I?
      && BranchReady(p, k, l, exit, env1, branches[0], last, lab, lfalse, i, size)
      && code.1 == CompilePattern(env1, lfalse, branches[0].pattern).1
      && (code.1 ==> FindLabel(p, lfalse) == Some(xfalse))
      && (!last && code.1 ==>
            && xfalse == k + |code.2| + 2
            && BranchesReady(p, k + |code.2|, l, exit, CompileBranches(l, code.0, branches[1..], Some(lfalse), lfail),
              lfail, xfail, size))
  {
    hide Unique, Count, FindLabel, CodeAt, CompileExpr, CompilePattern, CompileBranch, CompileBranches, BranchReady,
      BranchHead;
    var b, last := branches[0], |branches| == 1;
    var lfalse := if last then lfail else env.NewLabel().0;
    var env1 := if last then env else env.NewLabel().1;
    var code := CompileBranch(l, env1, b, last, lab, lfalse);
    BranchesCode(l, env, branches, lab, lfail);
    BranchShape(l, env1, b, last, lab, lfalse, l);
    BranchCanFail(l, env1, b, last, lab, lfalse);
    xfalse := xfail;
    if !last && code.1 {
      var others := CompileBranches(l, code.0, branches[1..], Some(lfalse), lfail);
      BranchesShape(l, code.0, branches[1..], Some(lfalse), lfail, l);
      CodeSplit(p, k, code.2, others.2);
      NextLabel(p, k + |code.2|, l, code.0, branches[1..], lfalse, lfail);
      xfalse := k + |code.2| + 2;
    }
    i := BranchSplit(p, k, l, exit, env1, b, last, lab, lfalse, size);
  }

  lemma BranchesCode(l: Label, env: Env, branches: seq<Branch>, lab: Option<Label>, lfail: Label)
    requires branches != []
    ensures
      var last := |branches| == 1;
      var lfalse := if last then lfail else env.NewLabel().0;
      var env1 := if last then env else env.NewLabel().1;
      var b := CompileBranch(l, env1, branches[0], last, lab, lfalse);
      CompileBranches(l, env, branches, lab, lfail) ==
        if last || !b.1 then b
        else
          var r := CompileBranches(l, b.0, branches[1..], Some(lfalse), lfail);
          (r.0, r.1, b.2 + r.2)
  {
    hide CompileBranch;
  }

  lemma BranchCanFail(l: Label, env: Env, b: Branch, last: bool, lab: Option<Label>, lfalse: Label)
    ensures CompileBranch(l, env, b, last, lab, lfalse).1 == CompilePattern(env, lfalse, b.pattern).1
  {
    hide CompileExpr, CompilePattern, CompileBindings, OpenScope, CloseScope, BranchHead, Paths;
  }

  /** The next branch starts with the label the one before it fails to. */
  lemma NextLabel(p: Prog, k: nat, l: Label, env: Env, branches: seq<Branch>, lab: Label, lfail: Label)
    requires Unique(p) && branches != [] && CodeAt(p, k, CompileBranches(l, env, branches, Some(lab), lfail).2)
    ensures FindLabel(p, lab) == Some(k + 2)
  {
    hide Unique, FindLabel, CodeAt, CompileBranch, CompileBranches;
    var last := |branches| == 1;
    var lfalse := if last then lfail else env.NewLabel().0;
    var env1 := if last then env else env.NewLabel().1;
    BranchesCode(l, env, branches, Some(lab), lfail);
    var code := CompileBranch(l, env1, branches[0], last, Some(lab), lfalse);
    if !last && code.1 {
      CodeSplit(p, k, code.2, CompileBranches(l, code.0, branches[1..], Some(lfalse), lfail).2);
    }
    BranchBegins(l, env1, branches[0], last, lab, lfalse);
    InsnAt(p, k, code.2, 1);
    LabelAt(p, k + 1, lab);
  }

  lemma BranchBegins(l: Label, env: Env, b: Branch, last: bool, lab: Label, lfalse: Label)
    ensures
      var code := CompileBranch(l, env, b, last, Some(lab), lfalse).2;
      |code| > 1 && code[1] == LABEL(lab)
  {
    hide CompileExpr, CompilePattern, CompileBindings, OpenScope, CloseScope, Paths;
  }

  lemma {:induction false} CaseCorrect(p: Prog, k: nat, l: Label, exit: nat, env: Env, e: Expr, fuel: nat, c: Conf,
      f: Injection, m: Machine)
    returns (f': Injection, m': Machine)
    requires e.Case? && LeavesBuiltins(p) && WellFormed(e) && Eval(e, c, fuel).Some?
    requires Ready(p, k, l, exit, CompileExpr(l, env, e), |m.frame.locals|)
    requires Start(env, k, c, f, m)
    ensures Simulates(p, LayoutOf(env), Yield(e), After(k, exit, CompileExpr(l, env, e)), c, f, m,
      Eval(e, c, fuel).value, f', m')
    decreases fuel, 1
  {
    hide Reaches, Unique, Count, FindLabel, Agrees, Progress, Ready, Alike, Yield, YieldOfBranches, CompileExpr,
      CompileBranches, WellFormed, WellFormedBranches, Eval, EvalBranches, Kept, Grows, Grown, CodeAt, BranchesReady;
    CaseParts(e);
    CaseEval(e, c, fuel);
    var ls, es, envs, envb, kb, lfail, xfail := CaseReady(p, k, l, exit, env, e, |m.frame.locals|);
    var c1 := Eval(e.scrutinee, c, fuel - 1).value;
    var f1, m1 := ExprCorrect(p, k, ls, es, envs, e.scrutinee, fuel - 1, c, f, m);
    SameSize(p, f, m, f1, m1);
    GrownProper(f1, c.stack, c1.stack, m.stack, m1.stack);
    var v, w := c1.stack.head, m1.stack.head;
    RunDup(p, m1);
    var m2 := m1.(pc := kb, stack := Cons(w, m1.stack));
    ProgressStep(p, f, m, f1, m1, m2);
    f', m' := BranchesCorrect(p, kb, l, exit, envb, e.branches, None, lfail, xfail, v, w, fuel - 1,
      c1.(stack := c.stack), f1, m.stack, m2);
    ProgressThen(p, f, m, f1, m2, f', m');
  }

  lemma CaseParts(e: Expr)
    requires e.Case? && WellFormed(e)
    ensures Operand(e.scrutinee) && WellFormedBranches(e.branches) && Yield(e) == YieldOfBranches(e.branches)
  {
  }

  lemma CaseEval(e: Expr, c: Conf, fuel: nat)
    requires e.Case? && Eval(e, c, fuel).Some?
    ensures fuel > 0 && Eval(e.scrutinee, c, fuel - 1).Some?
    ensures
      var c1 := Eval(e.scrutinee, c, fuel - 1).value;
      c1.stack.Cons?
        && Eval(e, c, fuel) == EvalBranches(e.branches, c1.stack.head, c1.(stack := c1.stack.tail), fuel - 1)
  {
  }

  lemma CaseReady(p: Prog, k: nat, l: Label, exit: nat, env: Env, e: Expr, size: nat)
    returns (ls: Label, es: nat, envs: Env, envb: Env, kb: nat, lfail: Label, xfail: nat)
    requires e.Case? && !env.scope.I? && Ready(p, k, l, exit, CompileExpr(l, env, e), size)
    ensures CompileExpr(l, env, e).1
    ensures LayoutOf(envs) == LayoutOf(env) && LayoutOf(envb) == LayoutOf(env)
    ensures Ready(p, k, ls, es, CompileExpr(ls, envs, e.scrutinee), size)
    ensures
      var d := After(k, es, CompileExpr(ls, envs, e.scrutinee));
      d < |p| && p[d] == DUP && kb == d + 1
    ensures BranchesReady(p, kb, l, exit, CompileBranches(l, envb, e.branches, None, lfail), lfail, xfail, size)
    ensures
      var a, b := CompileExpr(ls, envs, e.scrutinee), CompileBranches(l, envb, e.branches, None, lfail);
      && es == k + |a.2| + 1 && CodeAt(p, k + |a.2|, LabelIf(a.1, ls)) && kb == k + |a.2| + |LabelIf(a.1, ls)| + 1
      && CaseEnds(p, k, l, env, e, b, kb + |b.2| + 1, xfail)
  {
    hide Unique, Count, FindLabel, CodeAt, LabelIf, CompileExpr, CompileBranches;
    var (lfail', env1) := env.NewLabel();
    var (lexp, env2) := env1.NewLabel();
    var a := CompileExpr(lexp, env2, e.scrutinee);
    var b := CompileBranches(l, a.0, e.branches, None, lfail');
    CaseCode(l, env, e);
    ExprKept(lexp, env2, e.scrutinee);
    BranchesShape(l, a.0, e.branches, None, lfail', l);
    var tail: Prog := if b.1 then [LABEL(lfail'), FAIL(0, 0), JMP(l)] else [];
    var end := CasePieces(p, k, a.2, LabelIf(a.1, lexp), b.2, JMP(l), tail);
    LabelBehind(p, k, a, lexp, size);
    if b.1 {
      FailAt(p, end, lfail', l);
    }
    ls, es, envs, envb, lfail, xfail := lexp, k + |a.2| + 1, env2, a.0, lfail', end + 1;
    kb := k + |a.2| + |LabelIf(a.1, lexp)| + 1;
  }

  /** The pieces of a case and where they lie. */
  lemma CasePieces(p: Prog, k: nat, a: Prog, lab: Prog, b: Prog, jump: Insn, tail: Prog) returns (end: nat)
    requires CodeAt(p, k, a + lab + [DUP] + b + [jump] + tail)
    ensures end == k + |a| + |lab| + |b| + 2 && end <= |p|
    ensures CodeAt(p, k, a) && CodeAt(p, k + |a|, lab) && p[k + |a| + |lab|] == DUP
    ensures CodeAt(p, k + |a| + |lab| + 1, b) && p[end - 1] == jump && CodeAt(p, end, tail)
  {
    hide CodeAt;
    var c0 := a + lab;
    var c1: Prog := c0 + [DUP];
    var c2 := c1 + b;
    var c3 := c2 + [jump];
    CodeSplit(p, k, c3, tail);
    CodeSplit(p, k, c2, [jump]);
    CodeSplit(p, k, c1, b);
    CodeSplit(p, k, c0, [DUP]);
    CodeSplit(p, k, a, lab);
    InsnAt(p, k + |c0|, [DUP], 0);
    InsnAt(p, k + |c2|, [jump], 0);
    end := k + |c3|;
  }

  lemma FailAt(p: Prog, k: nat, lfail: Label, l: Label)
    requires Unique(p) && CodeAt(p, k, [LABEL(lfail), FAIL(0, 0), JMP(l)])
    ensures k + 2 < |p| && p[k].LABEL? && p[k + 1].FAIL? && p[k + 2] == JMP(l) && FindLabel(p, lfail) == Some(k + 1)
  {
    hide Unique, FindLabel;
    var tail: Prog := [LABEL(lfail), FAIL(0, 0), JMP(l)];
    InsnAt(p, k, tail, 0);
    InsnAt(p, k, tail, 1);
    InsnAt(p, k, tail, 2);
    LabelAt(p, k, lfail);
  }

  /** What follows the branches and the jump behind them. */
  ghost predicate CaseEnds(p: Prog, k: nat, l: Label, env: Env, e: Expr, b: Compiled, end: nat, xfail: nat) {
    var size := |CompileExpr(l, env, e).2|;
    if b.1 then
      && end + 2 < |p| && p[end].LABEL? && p[end + 1].FAIL? && p[end + 2] == JMP(l)
      && k + size == end + 3 && xfail == end + 1
    else k + size == end
  }

  lemma CaseCode(l: Label, env: Env, e: Expr)
    requires e.Case?
    ensures
      var (lfail, env1) := env.NewLabel();
      var (lexp, env2) := env1.NewLabel();
      var a := CompileExpr(lexp, env2, e.scrutinee);
      var b := CompileBranches(l, a.0, e.branches, None, lfail);
      CompileExpr(l, env, e) ==
        (b.0, true,
          a.2 + LabelIf(a.1, lexp) + [DUP] + b.2 + [JMP(l)] + (if b.1 then [LABEL(lfail), FAIL(0, 0), JMP(l)] else []))
  {
    hide CompileBranches;
  }

}
