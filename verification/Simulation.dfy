/** The simulation relation between the source evaluator and compiled code, and how its parts compose. */
module Simulation {
  import opened Wrappers
  import opened LamaValues
  import opened LamaSource
  import opened StackMachine
  import opened Compiler
  import opened CodeShape
  import opened Correspondence
  import opened Execution
  import opened WellFormedness

  /** Where the compiler has placed the names in scope. */
  datatype Layout = Layout(scope: Places, index: nat)

  function LayoutOf(env: Env): Layout { Layout(env.scope, env.localIndex) }

  /** What the machine keeps of the program's data besides the stack. */
  datatype Data = Data(globals: map<string, Value>, locals: seq<Value>, world: World)

  function DataOf(m: Machine): Data { Data(m.globals, m.frame.locals, m.world) }

  ghost predicate Agrees(f: Injection, st: State<Value>, w: World, lay: Layout, d: Data) {
    Scopes(f, st, lay.scope, lay.index, d.globals, d.locals) && Worlds(f, w, d.world)
  }

  ghost predicate SameFrame(m: Machine, m': Machine) {
    && m'.control == m.control && m'.frame.args == m.frame.args && m'.frame.closure == m.frame.closure
    && |m'.frame.locals| == |m.frame.locals|
  }

  ghost predicate Progress(p: Prog, f: Injection, m: Machine, f': Injection, m': Machine) {
    f <= f' && Reaches(p, m, m') && SameFrame(m, m')
  }

  /** How source and machine stacks have grown. */
  ghost predicate Grown(f: Injection, y: Effect, s: List<Value>, s': List<Value>, t: List<Value>, t': List<Value>) {
    match y
    case Nothing => s' == s && t' == t
    case Proper => s'.Cons? && s'.tail == s && t'.Cons? && t'.tail == t && Alike(f, s'.head, t'.head)
    case Anything => s'.Cons? && s'.tail == s && t'.Cons? && t'.tail == t && Loose(f, s'.head, t'.head)
  }

  /** n proper values have been pushed on both stacks. */
  ghost predicate Pushes(f: Injection, n: nat, s: List<Value>, s': List<Value>, t: List<Value>, t': List<Value>) {
    if n == 0 then s' == s && t' == t
    else s'.Cons? && t'.Cons? && Alike(f, s'.head, t'.head) && Pushes(f, n - 1, s, s'.tail, t, t'.tail)
  }

  /** From m, which represents c, the program reaches m', which represents c'. */
  ghost predicate Simulates(p: Prog, lay: Layout, y: Effect, pc: nat, c: Conf, f: Injection, m: Machine, c': Conf,
      f': Injection, m': Machine) {
    && Progress(p, f, m, f', m') && m'.pc == pc
    && Agrees(f', c'.st, c'.world, lay, DataOf(m'))
    && Grown(f', y, c.stack, c'.stack, m.stack, m'.stack)
  }

  ghost predicate SimulatesList(p: Prog, lay: Layout, n: nat, pc: nat, c: Conf, f: Injection, m: Machine, c': Conf,
      f': Injection, m': Machine) {
    && Progress(p, f, m, f', m') && m'.pc == pc
    && Agrees(f', c'.st, c'.world, lay, DataOf(m'))
    && Pushes(f', n, c.stack, c'.stack, m.stack, m'.stack)
  }

  lemma ProgressThen(p: Prog, f: Injection, a: Machine, g: Injection, b: Machine, h: Injection, c: Machine)
    requires Progress(p, f, a, g, b) && Progress(p, g, b, h, c)
    ensures Progress(p, f, a, h, c)
  {
    hide Reaches;
    ReachesThen(p, a, b, c);
  }

  lemma ProgressRun(p: Prog, f: Injection, m: Machine, m': Machine)
    requires Reaches(p, m, m') && SameFrame(m, m')
    ensures Progress(p, f, m, f, m')
  {
    hide Reaches;
  }

  lemma ProgressNow(p: Prog, f: Injection, m: Machine)
    ensures Progress(p, f, m, f, m)
  {
    hide Reaches;
    ReachesNow(p, m);
  }

  /** Progress, then instructions that only move on. */
  lemma ProgressStep(p: Prog, f: Injection, a: Machine, g: Injection, b: Machine, c: Machine)
    requires Progress(p, f, a, g, b) && Reaches(p, b, c) && SameFrame(b, c)
    ensures Progress(p, f, a, g, c)
  {
    hide Reaches, SameFrame;
    ProgressRun(p, g, b, c);
    ProgressThen(p, f, a, g, b, g, c);
  }

  lemma AgreesGrow(f: Injection, g: Injection, st: State<Value>, w: World, lay: Layout, d: Data, w': World, d': Data)
    requires Agrees(f, st, w, lay, d) && f <= g && Worlds(g, w', d'.world) && d' == d.(world := d'.world)
    ensures Agrees(g, st, w', lay, d')
  {
    hide Scopes, Worlds;
    ScopesGrow(f, g, st, lay.scope, lay.index, d.globals, d.locals);
  }

  lemma AgreesWorlds(f: Injection, st: State<Value>, w: World, lay: Layout, d: Data)
    requires Agrees(f, st, w, lay, d)
    ensures Worlds(f, w, d.world)
  {
  }

  /** A machine that only allocates more. */
  lemma AgreesExtra(f: Injection, st: State<Value>, w: World, lay: Layout, d: Data, store: Store)
    requires Agrees(f, st, w, lay, d) && d.world.store <= store
    ensures Agrees(f, st, w, lay, d.(world := d.world.(store := store)))
  {
    hide Scopes, Image;
    ImageExtra(f, w.store, d.world.store, store);
  }

  lemma {:induction false} PushesGrow(f: Injection, g: Injection, n: nat, s: List<Value>, s': List<Value>,
      t: List<Value>, t': List<Value>)
    requires f <= g && Pushes(f, n, s, s', t, t')
    ensures Pushes(g, n, s, s', t, t')
  {
    if n > 0 {
      AlikeGrows(f, g, s'.head, t'.head);
      PushesGrow(f, g, n - 1, s, s'.tail, t, t'.tail);
    }
  }

  lemma {:induction false} PushesThen(f: Injection, a: nat, b: nat, s: List<Value>, s1: List<Value>, s2: List<Value>,
      t: List<Value>, t1: List<Value>, t2: List<Value>)
    requires Pushes(f, a, s, s1, t, t1) && Pushes(f, b, s1, s2, t1, t2)
    ensures Pushes(f, a + b, s, s2, t, t2)
    decreases b
  {
    if b > 0 {
      PushesThen(f, a, b - 1, s, s1, s2.tail, t, t1, t2.tail);
    }
  }

  lemma PushesOne(f: Injection, s: List<Value>, s': List<Value>, t: List<Value>, t': List<Value>)
    requires Grown(f, Proper, s, s', t, t')
    ensures Pushes(f, 1, s, s', t, t')
  {
    hide Alike;
    assert Pushes(f, 0, s, s'.tail, t, t'.tail);
  }

  lemma PushesTwo(f: Injection, s: List<Value>, s': List<Value>, t: List<Value>, t': List<Value>)
    requires Pushes(f, 2, s, s', t, t')
    ensures s'.Cons? && s'.tail.Cons? && s'.tail.tail == s
    ensures t'.Cons? && t'.tail.Cons? && t'.tail.tail == t
    ensures Alike(f, s'.head, t'.head) && Alike(f, s'.tail.head, t'.tail.head)
  {
    hide Alike;
    assert Pushes(f, 1, s, s'.tail, t, t'.tail);
    assert Pushes(f, 0, s, s'.tail.tail, t, t'.tail.tail);
  }

  /** The pushed values, taken off again. */
  lemma {:induction false} PushesTake(f: Injection, n: nat, s: List<Value>, s': List<Value>, t: List<Value>,
      t': List<Value>)
    returns (vs: List<Value>, ws: List<Value>)
    requires Pushes(f, n, s, s', t, t')
    ensures Take(n, s') == Some((vs, s)) && Take(n, t') == Some((ws, t))
    ensures AlikeAll(f, BottomUp(vs), BottomUp(ws)) && |BottomUp(vs)| == n
  {
    hide Alike;
    if n == 0 {
      vs, ws := Nil, Nil;
    } else {
      var vs1, ws1 := PushesTake(f, n - 1, s, s'.tail, t, t'.tail);
      vs, ws := Cons(s'.head, vs1), Cons(t'.head, ws1);
    }
  }

  /** A value below the pushed ones. */
  lemma {:induction false} TakeBelow(n: nat, s: List<Value>, s': List<Value>, b: Value, vs: List<Value>)
    requires Take(n, s') == Some((vs, Cons(b, s)))
    ensures Take(n + 1, s') == Some((Append(vs, Cons(b, Nil)), s))
    ensures BottomUp(Append(vs, Cons(b, Nil))) == [b] + BottomUp(vs)
    decreases n
  {
    if n == 0 {
      assert Take(0, s) == Some((Nil, s));
    } else {
      TakeBelow(n - 1, s, s'.tail, b, vs.tail);
    }
  }

  // ---- placed code ----

  /** The compiled code lies at k, its exit label is defined, and the frame has room for its locals. */
  ghost predicate Ready(p: Prog, k: nat, l: Label, exit: nat, c: Compiled, size: nat) {
    && Unique(p) && CodeAt(p, k, c.2)
    && (c.1 ==> FindLabel(p, l) == Some(exit))
    && c.0.ok && c.0.nlocals <= size
  }

  /** Where control is after the compiled code. */
  function After(k: nat, exit: nat, c: Compiled): nat {
    if c.1 then exit else k + |c.2|
  }

  /** Code followed by its own exit label: control arrives behind the label. */
  lemma LabelBehind(p: Prog, k: nat, c: Compiled, l: Label, size: nat)
    requires Unique(p) && CodeAt(p, k, c.2) && CodeAt(p, k + |c.2|, LabelIf(c.1, l)) && c.0.ok && c.0.nlocals <= size
    ensures Ready(p, k, l, k + |c.2| + 1, c, size)
    ensures After(k, k + |c.2| + 1, c) == k + |c.2| + |LabelIf(c.1, l)|
  {
    hide Unique, Count;
    if c.1 {
      InsnAt(p, k + |c.2|, LabelIf(c.1, l), 0);
      LabelAt(p, k + |c.2|, l);
    }
  }

  lemma ReadyFinish(p: Prog, k: nat, l: Label, exit: nat, c: Compiled, ls: Label, tail: Insn, size: nat)
    requires Ready(p, k, l, exit, Finish(c, ls, [tail]), size)
    ensures Ready(p, k, ls, k + |c.2| + 1, c, size)
    ensures After(k, k + |c.2| + 1, c) + 1 == After(k, exit, Finish(c, ls, [tail]))
    ensures After(k, k + |c.2| + 1, c) < |p| && p[After(k, k + |c.2| + 1, c)] == tail
  {
    hide Unique, Count, CodeAt;
    CodeSplit(p, k, c.2 + LabelIf(c.1, ls), [tail]);
    CodeSplit(p, k, c.2, LabelIf(c.1, ls));
    LabelBehind(p, k, c, ls, size);
    InsnAt(p, k + |c.2| + |LabelIf(c.1, ls)|, [tail], 0);
  }

  /** Leaving through the exit label, by falling onto a jump or through the code itself. */
  lemma LeaveThrough(p: Prog, k: nat, exit: nat, flag: bool, l: Label, f: Injection, m: Machine, g: Injection,
      mid: Machine)
    requires CodeAt(p, k, JumpUnless(flag, l)) && FindLabel(p, l) == Some(exit)
    requires Progress(p, f, m, g, mid) && mid.pc == if flag then exit else k
    ensures Progress(p, f, m, g, mid.(pc := exit))
  {
    hide Reaches, FindLabel, Progress;
    if !flag {
      InsnAt(p, k, JumpUnless(flag, l), 0);
      RunJump(p, mid, l, exit);
      ProgressStep(p, f, m, g, mid, mid.(pc := exit));
    }
  }

  /** The function names of builtins are not defined by the program. */
  ghost predicate LeavesBuiltins(p: Prog) {
    forall x :: x in BUILTINS ==> Count(p, Named(x)) == 0
  }

  lemma RunBuiltin(p: Prog, m: Machine, name: string, n: nat, ws: List<Value>, rest: List<Value>)
    requires Fetches(p, m, CALL(Named(name), n)) && name in BUILTINS && LeavesBuiltins(p)
    requires Take(n, m.stack) == Some((ws, rest)) && CallBuiltin(m.world, BottomUp(ws), name).Some?
    ensures
      var r := CallBuiltin(m.world, BottomUp(ws), name).value;
      Reaches(p, m, m.(pc := m.pc + 1, stack := Cons(r.1, rest), world := r.0))
  {
    hide Reaches, CallBuiltin;
    FindsNothing(p, Named(name));
    var r := CallBuiltin(m.world, BottomUp(ws), name).value;
    OneStep(p, m, m.(pc := m.pc + 1, stack := Cons(r.1, rest), world := r.0));
  }

  lemma RunSexp(p: Prog, m: Machine, tag: string, n: nat, ws: List<Value>, rest: List<Value>)
    requires Fetches(p, m, SEXP(tag, n)) && Take(n, m.stack) == Some((ws, rest))
    ensures Reaches(p, m,
      Moved(m, m.pc + 1, Cons(Ref(|m.world.store|), rest), m.world.store + [SexpObject(tag, BottomUp(ws))]))
  {
    hide Reaches;
    OneStep(p, m,
      Moved(m, m.pc + 1, Cons(Ref(|m.world.store|), rest), m.world.store + [SexpObject(tag, BottomUp(ws))]));
  }

  lemma RunOperator(p: Prog, m: Machine, op: Op, x: int, y: int, rest: List<Value>)
    requires Fetches(p, m, BINOP(op)) && m.stack == Cons(Int(y), Cons(Int(x), rest)) && Operate(op, x, y).Some?
    ensures Reaches(p, m, m.(pc := m.pc + 1, stack := Cons(Int(Operate(op, x, y).value), rest)))
  {
    hide Reaches;
    OneStep(p, m, m.(pc := m.pc + 1, stack := Cons(Int(Operate(op, x, y).value), rest)));
  }

  lemma RunLoad(p: Prog, m: Machine, d: Designation, w: Value)
    requires Fetches(p, m, LD(d)) && Load(m, d) == Some(w) && w != Empty
    ensures Reaches(p, m, m.(pc := m.pc + 1, stack := Cons(w, m.stack)))
  {
    hide Reaches;
    OneStep(p, m, m.(pc := m.pc + 1, stack := Cons(w, m.stack)));
  }

  lemma RunUpdate(p: Prog, m: Machine, z: Value, i: int, x: Value, rest: List<Value>)
    requires Fetches(p, m, STA) && m.stack == Cons(z, Cons(Int(i), Cons(x, rest)))
    requires UpdateElement(m.world.store, x, i, z).Some?
    ensures Reaches(p, m, Moved(m, m.pc + 1, Cons(z, rest), UpdateElement(m.world.store, x, i, z).value))
  {
    hide Reaches, UpdateElement;
    OneStep(p, m, Moved(m, m.pc + 1, Cons(z, rest), UpdateElement(m.world.store, x, i, z).value));
  }
}
