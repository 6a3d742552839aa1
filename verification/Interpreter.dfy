/** The bytecode interpreter (byterun/interpretatorv1_0.cpp): one array for globals and stack, a scope pointer and
    an instruction pointer, updated opcode by opcode.  Every opcode refines the stack machine's step. */
module Interpreter {
  import opened Wrappers
  import opened LamaValues
  import opened StackMachine
  import opened FlatMemory
  import opened Interpretation
  import opened RuntimeCalls

  /** The machine is about to take a step as compiled programs take it: variables are assigned before they are
      read, elements are stored by index, closures are called with as many arguments as their functions have; and
      the runtime does what the machine does. */
  ghost predicate Guarded(k: Code, m: Machine) {
    Faithful(k.address, k.p, m) && (m.pc < |k.p| ==> Usual(k, m))
  }

  ghost predicate Usual(k: Code, m: Machine)
    requires m.pc < |k.p|
  {
    match k.p[m.pc]
    case LD(d) => Assigned(m, d)
    case CLOSURE(_, ds) => forall i :: 0 <= i < |ds| ==> Assigned(m, ds[i])
    case CALLC(n) =>
      var t := Take(n + 1, m.stack);
      t.Some? && BottomUp(t.value.0) != [] &&
      var o := Deref(m.world.store, BottomUp(t.value.0)[0]);
      o.Some? && o.value.ClosureObject? && Entry(k, o.value.entry, n) && Expects(k, o.value.entry, |o.value.cells|)
    case STA => m.stack.Cons? && m.stack.tail.Cons? ==> m.stack.tail.head.Int?
    case _ => true
  }

  /** The memory has room for the configuration and what its next instruction pushes for a while. */
  ghost predicate Fits(k: Code, size: nat, m: Machine) {
    k.words + Usage(m.world.store, m.stack, m.frame, m.control)
      + (if m.pc < |k.p| && k.p[m.pc].CLOSURE? then |k.p[m.pc].captured| else 0) <= size
  }

  /** The machine takes a step, and both sides have room. */
  ghost predicate Steps(k: Code, size: nat, m: Machine) {
    Sound(k) && m.pc < |k.p| && Step(k.p, m).Next? && Guarded(k, m) && Fits(k, size, m) && Fits(k, size, Step(k.p, m).m)
  }

  function After(p: Prog, m: Machine): Machine
    requires Step(p, m).Next?
  {
    Step(p, m).m
  }

  /** Room above the globals while an activation runs. */
  lemma Room(k: Code, s: Flat, m: Machine)
    requires Running(k, s, m) && Fits(k, |s.mem|, m)
    ensures k.words <= s.top && s.scope.Some? && s.top <= s.scope.value && s.scope.value + SCOPE_WORDS <= |s.mem|
    ensures |s.mem| <= s.top + Usage(m.world.store, m.stack, m.frame, m.control)
    ensures s.ip == m.pc && s.world == m.world && m.pc < |k.d| && k.d[m.pc] == s.scope.value - s.top
  {
    hide Chain, Usage;
    ChainSize(k.d, s.mem, s.world.store, s.top, s.scope, m.stack, m.frame, m.control);
    ChainTop(k.d, s.mem, s.world.store, s.top, s.scope, m.stack, m.frame, m.control);
  }

  /** Room to push when the next configuration holds one value more. */
  lemma RoomToPush(k: Code, s: Flat, m: Machine, m': Machine, v: Value)
    requires Running(k, s, m) && Fits(k, |s.mem|, m) && Fits(k, |s.mem|, m')
    requires m'.stack == Cons(v, m.stack) && m'.frame == m.frame && m'.control == m.control
    requires KeepsClosures(m.world.store, m'.world.store)
    requires ClosuresOk(m.world.store, m.frame, m.control)
    ensures k.words < s.top
  {
    hide Running;
    Room(k, s, m);
    UsageKept(m.world.store, m'.world.store, m.frame, m.control);
  }

  ghost predicate ClosuresOk(store: Store, frame: Frame, control: List<Control>)
    decreases control
  {
    ClosureOk(store, frame.closure) && (control.Cons? ==> ClosuresOk(store, control.head.frame, control.tail))
  }

  lemma {:induction false} ChainClosures(d: Depths, mem: Memory, store: Store, t: nat, scope: Option<nat>,
      stack: List<Value>, frame: Frame, control: List<Control>)
    requires Chain(d, mem, store, t, scope, stack, frame, control)
    ensures ClosuresOk(store, frame, control)
    decreases control
  {
    hide Values;
    match control
    case Nil =>
    case Cons(c, outer) =>
      var r := mem[scope.value].record;
      ChainClosures(d, mem, store, r.limit, r.outer, Drop(scope.value - t, stack), c.frame, outer);
  }

  lemma {:induction false} UsageKept(store: Store, store': Store, frame: Frame, control: List<Control>)
    requires KeepsClosures(store, store') && ClosuresOk(store, frame, control)
    ensures FrameSize(store', frame) == FrameSize(store, frame)
    ensures ControlSize(store', control) == ControlSize(store, control)
    decreases control
  {
    if control.Cons? {
      UsageKept(store, store', control.head.frame, control.tail);
    }
  }

  /** The n topmost operands. */
  lemma Operands(k: Code, s: Flat, m: Machine, n: nat)
    requires Running(k, s, m) && n <= s.scope.value - s.top
    ensures Take(n, m.stack).Some?
    ensures |BottomUp(Take(n, m.stack).value.0)| == n
    ensures ArgsAt(s.mem, s.top + n - 1, BottomUp(Take(n, m.stack).value.0))
  {
    hide Chain;
    ChainTake(k.d, s.mem, s.world.store, s.top, s.scope, m.stack, m.frame, m.control, n);
  }

  lemma OneOperand(k: Code, s: Flat, m: Machine)
    requires Running(k, s, m) && 1 <= s.scope.value - s.top
    ensures m.stack.Cons? && s.top + 1 < |s.mem| && s.mem[s.top] == Data(m.stack.head)
    ensures Take(1, m.stack).Some? && Take(1, m.stack).value.1 == m.stack.tail
  {
    hide Chain;
    ChainPop(k.d, s.mem, s.world.store, s.top, s.scope, m.stack, m.frame, m.control);
    ChainTop(k.d, s.mem, s.world.store, s.top, s.scope, m.stack, m.frame, m.control);
    assert Take(0, m.stack.tail) == Some((Nil, m.stack.tail));
  }

  lemma TwoOperands(k: Code, s: Flat, m: Machine)
    requires Running(k, s, m) && 2 <= s.scope.value - s.top
    ensures m.stack.Cons? && m.stack.tail.Cons? && s.top + 2 < |s.mem|
    ensures s.mem[s.top] == Data(m.stack.head) && s.mem[s.top + 1] == Data(m.stack.tail.head)
    ensures Take(2, m.stack).Some? && Take(2, m.stack).value.1 == m.stack.tail.tail
  {
    hide Chain;
    ChainPop(k.d, s.mem, s.world.store, s.top, s.scope, m.stack, m.frame, m.control);
    ChainPop(k.d, s.mem, s.world.store, s.top + 1, s.scope, m.stack.tail, m.frame, m.control);
    ChainTop(k.d, s.mem, s.world.store, s.top, s.scope, m.stack, m.frame, m.control);
    assert Take(0, m.stack.tail.tail) == Some((Nil, m.stack.tail.tail));
    assert Take(1, m.stack.tail) == Some((Cons(m.stack.tail.head, Nil), m.stack.tail.tail));
  }

  class Worker {
    const program: Prog
    const start: nat
    const slots: map<string, nat>
    const words: nat
    const memory: array<Word>
    const address: nat -> int
    ghost const depths: Depths

    var top: nat
    var ip: nat
    var scope: Option<nat>
    var world: World

    ghost function K(): Code { Code(program, depths, start, slots, words, address) }

    ghost function State(): Flat
      reads this, memory
    {
      Flat(memory[..], top, ip, scope, world)
    }

    method Push(w: Word)
      requires 0 < top <= memory.Length
      modifies this`top, memory
      ensures top == old(top) - 1 && memory[..] == old(memory[..])[top := w]
    {
      top := top - 1;
      memory[top] := w;
    }

    method Pop() returns (w: Word)
      requires top < memory.Length
      modifies this`top
      ensures top == old(top) + 1 && w == memory[..][old(top)]
    {
      w := memory[top];
      top := top + 1;
    }

    /** A value off the stack. */
    method PopValue() returns (v: Value)
      requires top < memory.Length && memory[top].Data?
      modifies this`top
      ensures top == old(top) + 1 && memory[..][old(top)] == Data(v)
    {
      var w := Pop();
      v := w.v;
    }

    /** The elements of a new object, the last on top. */
    method PopItems(n: nat, ghost items: seq<Value>) returns (vs: seq<Value>)
      requires |items| == n && top + n <= memory.Length && ArgsAt(memory[..], top + n - 1, items)
      modifies this`top
      ensures vs == items && top == old(top) + n
    {
      ghost var last := top + n - 1;
      vs := [];
      var i := n;
      while i > 0
        invariant 0 <= i <= n && vs == items[i..] && top + i == last + 1
      {
        assert DataAt(memory[..], last - (i - 1), items[i - 1]);
        i := i - 1;
        var v := PopValue();
        vs := [v] + vs;
      }
    }

    // ---- the operations of an activation ----

    /** Push a value in place of a operands and go on. */
    method Result(a: nat, v: Value, w: World, ghost s: Flat, ghost m: Machine)
      requires top == s.top + a && memory[..] == s.mem && ip == s.ip && scope == s.scope && world == s.world
      requires Running(K(), s, m) && a <= s.scope.value - s.top && words < top && Take(a, m.stack).Some?
      requires Effect(K(), m.pc, s.scope.value - s.top, a, 1) && KeepsClosures(s.world.store, w.store)
      requires Step(program, m) == Next(m.(pc := m.pc + 1, stack := Cons(v, Take(a, m.stack).value.1), world := w))
      modifies this, memory
      ensures Running(K(), State(), After(program, m))
    {
      hide Step, KeepsClosures, Running;
      ghost var k := K();
      RunningTop(k, s, m);
      Push(Data(v));
      world := w;
      ip := ip + 1;
      PopPush(k, s, m, a, v, State(), After(program, m));
    }

    method Const(n: int, ghost m: Machine)
      requires Running(K(), State(), m) && Steps(K(), memory.Length, m) && program[m.pc] == CONST(n)
      modifies this, memory
      ensures Running(K(), State(), After(program, m))
    {
      hide Running, Fits, Chain, KeepsClosures, Usage;
      ghost var k, s := K(), State();
      Room(k, s, m);
      assert Balanced(k, m.pc);
      KeepsSame(world.store);
      StackRoom(k, s, m, Int(n));
      Result(0, Int(Wrap(n)), world, s, m);
    }

    /** The word or cell a designation resolves to. */
    method Fetch(d: Designation, ghost want: Value) returns (v: Value)
      requires Holds(memory[..], world.store, Resolve(K(), memory[..], scope, d), want)
      ensures v == want
    {
      var slot := Resolve(Code(program, [], start, slots, words, address), memory[..], scope, d);
      match slot {
        case InMemory(a) => v := memory[a].v;
        case InCell(c, i) => v := world.store[c].cells[i];
        case Nowhere => v := Empty;
      }
    }

    method EvalBinop(op: Op, ghost m: Machine)
      requires Running(K(), State(), m) && Steps(K(), memory.Length, m) && program[m.pc] == BINOP(op)
      modifies this, memory
      ensures Running(K(), State(), After(program, m))
    {
      hide Running, Fits, Chain, KeepsClosures, Usage, Operate;
      ghost var k, s := K(), State();
      Room(k, s, m);
      assert Balanced(k, m.pc);
      TwoOperands(k, s, m);
      KeepsSame(world.store);
      var y := PopValue();
      var x := PopValue();
      Result(2, RuntimeBinop(address, op, x, y).value, world, s, m);
    }

    method String(chars: string, ghost m: Machine)
      requires Running(K(), State(), m) && Steps(K(), memory.Length, m) && program[m.pc] == STRING(chars)
      modifies this, memory
      ensures Running(K(), State(), After(program, m))
    {
      hide Running, Fits, Chain, KeepsClosures, Usage;
      ghost var k, s := K(), State();
      Room(k, s, m);
      assert Balanced(k, m.pc);
      var (store, v) := Allocate(world.store, CreateStr(chars));
      KeepsAllocated(world.store, StringObject(chars));
      StackRoom(k, s, m, v);
      Result(0, v, world.(store := store), s, m);
    }

    /** sexpEval; the object keeps the tag, of which the runtime uses the hash only. */
    method Sexp(tag: string, n: nat, ghost m: Machine)
      requires Running(K(), State(), m) && Steps(K(), memory.Length, m) && program[m.pc] == SEXP(tag, n)
      modifies this, memory
      ensures Running(K(), State(), After(program, m))
    {
      hide Running, Fits, Chain, KeepsClosures, Usage, ArgsAt, Take, BottomUp;
      ghost var k, s := K(), State();
      Room(k, s, m);
      assert Balanced(k, m.pc);
      Operands(k, s, m, n);
      ghost var items := BottomUp(Take(n, m.stack).value.0);
      var hash := LtagHash(tag);
      assert hash.Some?;
      var vs := PopItems(n, items);
      var (store, v) := Allocate(world.store, SexpObject(tag, vs));
      KeepsAllocated(world.store, SexpObject(tag, vs));
      RoomAfter(k, s, m, n);
      Result(n, v, world.(store := store), s, m);
    }

    method Elem(ghost m: Machine)
      requires Running(K(), State(), m) && Steps(K(), memory.Length, m) && program[m.pc] == ELEM
      modifies this, memory
      ensures Running(K(), State(), After(program, m))
    {
      hide Running, Fits, Chain, KeepsClosures, Usage, Element, Belem;
      ghost var k, s := K(), State();
      Room(k, s, m);
      assert Balanced(k, m.pc);
      TwoOperands(k, s, m);
      KeepsSame(world.store);
      var b := PopValue();
      var a := PopValue();
      Result(2, Belem(world.store, a, b).value, world, s, m);
    }

    method StoreArray(ghost m: Machine)
      requires Running(K(), State(), m) && Steps(K(), memory.Length, m) && program[m.pc] == STA
      modifies this, memory
      ensures Running(K(), State(), After(program, m))
    {
      hide Running, Fits, Chain, KeepsClosures, Usage, UpdateElement, Bsta;
      ghost var k, s := K(), State();
      Room(k, s, m);
      assert Balanced(k, m.pc);
      ThreeOperands(k, s, m);
      var v := PopValue();
      var i := PopValue();
      var loc := PopValue();
      KeepsUpdated(world.store, loc, i.n, v);
      AssignmentAgrees(world.store, loc, i.n, v);
      Result(3, v, world.(store := Bsta(world.store, loc, i.n, v).value), s, m);
    }

    method Jump(l: Label, ghost m: Machine)
      requires Running(K(), State(), m) && Steps(K(), memory.Length, m) && program[m.pc] == JMP(l)
      modifies this, memory
      ensures Running(K(), State(), After(program, m))
    {
      hide Running, Fits, Chain, KeepsClosures, Usage, FindLabel, Take;
      ghost var k, s := K(), State();
      Room(k, s, m);
      assert Balanced(k, m.pc);
      TakeNone(m.stack);
      ip := FindLabel(program, l).value;
      PopOnly(k, s, m, 0, ip, State(), After(program, m));
    }

    /** JumpIfZero and JumpIfNotZero. */
    method JumpIf(nonzero: bool, l: Label, ghost m: Machine)
      requires Running(K(), State(), m) && Steps(K(), memory.Length, m) && program[m.pc] == CJMP(nonzero, l)
      modifies this, memory
      ensures Running(K(), State(), After(program, m))
    {
      hide Running, Fits, Chain, KeepsClosures, Usage, FindLabel, Take;
      ghost var k, s := K(), State();
      Room(k, s, m);
      assert Balanced(k, m.pc);
      OneOperand(k, s, m);
      var v := PopValue();
      if (v.n != 0) == nonzero {
        ip := FindLabel(program, l).value;
      } else {
        ip := ip + 1;
      }
      PopOnly(k, s, m, 1, ip, State(), After(program, m));
    }

    method Discard(ghost m: Machine)
      requires Running(K(), State(), m) && Steps(K(), memory.Length, m) && program[m.pc] == DROP
      modifies this, memory
      ensures Running(K(), State(), After(program, m))
    {
      hide Running, Fits, Chain, KeepsClosures, Usage, Take;
      ghost var k, s := K(), State();
      Room(k, s, m);
      assert Balanced(k, m.pc);
      OneOperand(k, s, m);
      var _ := Pop();
      ip := ip + 1;
      PopOnly(k, s, m, 1, ip, State(), After(program, m));
    }

    method Silent(ghost m: Machine)
      requires Running(K(), State(), m) && Steps(K(), memory.Length, m) && Interpretation.Silent(program[m.pc])
      modifies this, memory
      ensures Running(K(), State(), After(program, m))
    {
      hide Running, Fits, Chain, KeepsClosures, Usage, Take;
      ghost var k, s := K(), State();
      Room(k, s, m);
      assert Balanced(k, m.pc);
      TakeNone(m.stack);
      ip := ip + 1;
      PopOnly(k, s, m, 0, ip, State(), After(program, m));
    }

    method Dup(ghost m: Machine)
      requires Running(K(), State(), m) && Steps(K(), memory.Length, m) && program[m.pc] == DUP
      modifies this, memory
      ensures Running(K(), State(), After(program, m))
    {
      hide Running, Fits, Chain, KeepsClosures, Usage, Take;
      ghost var k, s := K(), State();
      Room(k, s, m);
      assert Balanced(k, m.pc);
      OneOperand(k, s, m);
      KeepsSame(world.store);
      StackRoom(k, s, m, m.stack.head);
      var v := PopValue();
      Push(Data(v));
      Push(Data(v));
      ip := ip + 1;
      assert memory[..] == s.mem[s.top - 1 := Data(v)];
      DupRuns(k, s, m, v, State(), After(program, m));
    }

    /** A test takes one operand and answers. */
    method Answer(answer: bool, ghost s: Flat, ghost m: Machine)
      requires top == s.top + 1 && memory[..] == s.mem && ip == s.ip && scope == s.scope && world == s.world
      requires Running(K(), s, m) && Steps(K(), memory.Length, m) && 1 <= s.scope.value - s.top && m.stack.Cons?
      requires Effect(K(), m.pc, s.scope.value - s.top, 1, 1) && Step(program, m) == Truth(m, answer, m.stack.tail)
      modifies this, memory
      ensures Running(K(), State(), After(program, m))
    {
      hide Running, Fits, Chain, KeepsClosures, Usage, Step, Take;
      ghost var k := K();
      RunningTop(k, s, m);
      OneOperand(k, s, m);
      KeepsSame(world.store);
      Result(1, Int(BoolToInt(answer)), world, s, m);
    }

    /** Tag: the words kept for the tags are compared. */
    method TagTest(tag: string, n: nat, ghost m: Machine)
      requires Running(K(), State(), m) && Steps(K(), memory.Length, m) && program[m.pc] == TAG(tag, n)
      modifies this, memory
      ensures Running(K(), State(), After(program, m))
    {
      hide Running, Fits, Chain, KeepsClosures, Usage, Take, TagHash;
      ghost var k, s := K(), State();
      Room(k, s, m);
      assert Balanced(k, m.pc);
      OneOperand(k, s, m);
      var w := PopValue();
      Answer(Btag(world.store, w, tag, n).value, s, m);
    }

    method ArrayTest(n: nat, ghost m: Machine)
      requires Running(K(), State(), m) && Steps(K(), memory.Length, m) && program[m.pc] == ARRAY(n)
      modifies this, memory
      ensures Running(K(), State(), After(program, m))
    {
      hide Running, Fits, Chain, KeepsClosures, Usage, Take;
      ghost var k, s := K(), State();
      Room(k, s, m);
      assert Balanced(k, m.pc);
      OneOperand(k, s, m);
      var w := PopValue();
      Answer(BarrayPatt(world.store, w, n).value, s, m);
    }

    method PatternTest(q: Patt, ghost m: Machine)
      requires Running(K(), State(), m) && Steps(K(), memory.Length, m) && program[m.pc] == PATT(q) && q != StrCmp
      modifies this, memory
      ensures Running(K(), State(), After(program, m))
    {
      hide Running, Fits, Chain, KeepsClosures, Usage, Take, IsKind;
      ghost var k, s := K(), State();
      Room(k, s, m);
      assert Balanced(k, m.pc);
      OneOperand(k, s, m);
      var w := PopValue();
      Answer(KindTest(world.store, w, q).value, s, m);
    }

    /** StringMatch: the word popped first is the first argument. */
    method StringMatch(ghost m: Machine)
      requires Running(K(), State(), m) && Steps(K(), memory.Length, m) && program[m.pc] == PATT(StrCmp)
      modifies this, memory
      ensures Running(K(), State(), After(program, m))
    {
      hide Running, Fits, Chain, KeepsClosures, Usage, Take, Cut;
      ghost var k, s := K(), State();
      Room(k, s, m);
      assert Balanced(k, m.pc);
      TwoOperands(k, s, m);
      KeepsSame(world.store);
      var a := PopValue();
      var b := PopValue();
      Result(2, Int(BoolToInt(BstringPatt(world.store, a, b).value)), world, s, m);
    }

    /** The builtin functions have opcodes of their own, which take a fixed number of operands; only that for arrays
        is told how many. */
    method Builtins(name: string, n: nat, ghost m: Machine)
      requires Running(K(), State(), m) && Steps(K(), memory.Length, m)
      requires program[m.pc] == CALL(Named(name), n) && FindLabel(program, Named(name)) == None
      modifies this, memory
      ensures Running(K(), State(), After(program, m))
    {
      hide Running, Fits, Chain, KeepsClosures, Usage, Take, BottomUp, CallBuiltin, RuntimeBuiltin, ArgsAt, FindLabel,
        Called;
      ghost var k, s := K(), State();
      Room(k, s, m);
      assert Balanced(k, m.pc);
      Operands(k, s, m, n);
      BuiltinAgreesIff(world, m.stack, name, n);
      ghost var items := BottomUp(Take(n, m.stack).value.0);
      var vs := PopItems(Pops(name, n), items);
      KeepsBuiltin(world, vs, name);
      RoomAfter(k, s, m, n);
      var r := RuntimeBuiltin(world, vs, name).value;
      Result(Pops(name, n), r.1, r.0, s, m);
    }

    method Load(d: Designation, ghost m: Machine)
      requires Running(K(), State(), m) && Steps(K(), memory.Length, m) && program[m.pc] == LD(d)
      modifies this, memory
      ensures Running(K(), State(), After(program, m))
    {
      hide Running, Fits, Chain, KeepsClosures, Usage, Take, Resolve, Holds, StackMachine.Load;
      ghost var k, s := K(), State();
      Room(k, s, m);
      assert Balanced(k, m.pc);
      LoadFinds(k, s, m, d);
      KeepsSame(world.store);
      StackRoom(k, s, m, StackMachine.Load(m, d).value);
      var v := Fetch(d, StackMachine.Load(m, d).value);
      Result(0, v, world, s, m);
    }

    method Store(d: Designation, ghost m: Machine)
      requires Running(K(), State(), m) && Steps(K(), memory.Length, m) && program[m.pc] == ST(d)
      modifies this, memory
      ensures Running(K(), State(), After(program, m))
    {
      hide Running, Fits, Chain, KeepsClosures, Usage, Take, Resolve, AssignTo;
      ghost var k, s := K(), State();
      Room(k, s, m);
      assert Balanced(k, m.pc);
      OneOperand(k, s, m);
      StoreFinds(k, s, m, d);
      var v := PopValue();
      var slot := Resolve(Code(program, [], start, slots, words, address), memory[..], scope, d);
      ResolveCode(k, Code(program, [], start, slots, words, address), s.mem, scope, d);
      match slot {
        case InMemory(a) => memory[a] := Data(v);
        case InCell(c, i) =>
          var o := world.store[c];
          world := world.(store := world.store[c := o.(cells := o.cells[i := v])]);
        case Nowhere =>
      }
      Push(Data(v));
      ip := ip + 1;
      StoreWrites(k, s, m, d, v, State());
      StoreRuns(k, s, m, d, State(), AssignTo(m, d, v).value);
    }

    // ---- closures and calls ----

    /** The captured variables are pushed in order, then popped into the closure's cells. */
    method Closure(l: Label, ds: seq<Designation>, ghost m: Machine)
      requires Running(K(), State(), m) && Steps(K(), memory.Length, m) && program[m.pc] == CLOSURE(l, ds)
      modifies this, memory
      ensures Running(K(), State(), After(program, m))
    {
      hide Running, Chain, KeepsClosures, Usage, Take, ArgsAt, Capture;
      ghost var k, s := K(), State();
      Room(k, s, m);
      assert Balanced(k, m.pc);
      ghost var vs := Capture(m, ds).value;
      ClosureRoom(k, s, m, l, ds);
      CaptureLength(m, ds);
      PushCaptured(ds, vs, s, m);
      ArgsPushed(s.mem, memory[..], s.top, vs);
      var cells := PopItems(|ds|, vs);
      KeepsAllocated(world.store, ClosureObject(l, cells));
      ghost var store := world.store + [ClosureObject(l, cells)];
      Push(Data(Ref(|world.store|)));
      world := world.(store := world.store + [ClosureObject(l, cells)]);
      ip := ip + 1;
      TakeNone(m.stack);
      PushedAbove(s.mem, s.top, vs, Ref(|s.world.store|), k.words, memory[..]);
      PopPush(k, s, m, 0, Ref(|s.world.store|), State(), After(program, m));
    }

    method PushCaptured(ds: seq<Designation>, ghost vs: seq<Value>, ghost s: Flat, ghost m: Machine)
      requires s == State() && Running(K(), s, m) && Sound(K()) && |vs| == |ds| && words + |ds| <= top
      requires forall i :: 0 <= i < |ds| ==>
        Placed(K(), ds[i]) && Assigned(m, ds[i]) && StackMachine.Load(m, ds[i]) == Some(vs[i])
      modifies this`top, memory
      ensures top == s.top - |ds| && Pushed(s.mem, s.top, vs, |ds|, memory[..])
    {
      hide Running, Chain, Placed, Assigned, StackMachine.Load, Resolve, Holds;
      RunningTop(K(), s, m);
      var i := 0;
      while i < |ds|
        invariant 0 <= i <= |ds| && top == s.top - i && Pushed(s.mem, s.top, vs, i, memory[..])
      {
        LoadFinds(K(), s, m, ds[i]);
        SlotAbove(K(), s, m, ds[i], vs, i, memory[..]);
        var v := Fetch(ds[i], vs[i]);
        Push(Data(v));
        i := i + 1;
      }
    }

    /** Linkage is written below the arguments, then everything is popped down to the caller's operands. */
    method Call(l: Label, n: nat, ghost m: Machine)
      requires Running(K(), State(), m) && Steps(K(), memory.Length, m) && program[m.pc] == CALL(l, n)
      requires FindLabel(program, l).Some?
      modifies this, memory
      ensures Pending(K(), State(), After(program, m))
    {
      hide Running, Pending, Chain, Usage, Take, BottomUp, ArgsAt, FindLabel;
      ghost var k, s := K(), State();
      Room(k, s, m);
      assert Balanced(k, m.pc);
      Operands(k, s, m, n);
      ghost var vs, rest := Take(n, m.stack).value.0, Take(n, m.stack).value.1;
      CallRoom(k, s, m, l, n, vs, rest);
      Push(Return(ip + 1));
      Push(Captures(0));
      ip := FindLabel(program, l).value;
      Skip(n + 2);
      DirectEntry(k, m, l, n, After(program, m));
      CallLinks(k, s, m, n, ip, vs, rest, State(), After(program, m));
    }

    method Skip(n: nat)
      requires top + n <= memory.Length
      modifies this`top
      ensures top == old(top) + n
    {
      var i := 0;
      while i < n
        invariant 0 <= i <= n && top == old(top) + i
      {
        var _ := Pop();
        i := i + 1;
      }
    }

    /** The arguments are moved over the closure; return address, capture count and the cells' addresses follow. */
    method CallClosure(n: nat, ghost m: Machine)
      requires Running(K(), State(), m) && Steps(K(), memory.Length, m) && program[m.pc] == CALLC(n)
      modifies this, memory
      ensures Pending(K(), State(), After(program, m))
    {
      hide Step, Guarded, Running, Pending, Chain, Usage, Take, BottomUp, ArgsAt, FindLabel, Sound, Fits, AtEntry,
        CellsAt;
      ghost var k, s := K(), State();
      Room(k, s, m);
      CallcBalanced(k, m, n);
      Operands(k, s, m, n + 1);
      ghost var vs, rest := Take(n + 1, m.stack).value.0, Take(n + 1, m.stack).value.1;
      CalleeFound(s.mem, s.top, n, BottomUp(vs));
      CalleeIsRef(k, memory.Length, m, n, vs, rest);
      var c := memory[top + n].v.address;
      CallcRoom(k, s, m, n, vs, rest, c);
      CallcEntry(k, m, n, vs, rest, c);
      MoveUp(n);
      ghost var moved := memory[..];
      top := top + 1;
      var cells := |world.store[c].cells|;
      Push(Return(ip + 1));
      Push(Captures(cells));
      PushCells(c, cells);
      ip := FindLabel(program, world.store[c].entry).value;
      Skip(cells + n + 2);
      CallcCalled(s.mem, memory[..], moved, s.top, n, m.pc + 1, cells, c, k.words);
      CallClosureLinks(k, s, m, n, c, ip, vs, rest, State(), After(program, m));
    }

    /** memmove of the arguments by one word. */
    method MoveUp(n: nat)
      requires top + n < memory.Length
      modifies memory
      ensures MovedUp(old(memory[..]), memory[..], top, n)
    {
      ghost var before := memory[..];
      var i := n;
      while i > 0
        invariant 0 <= i <= n
        invariant forall j :: 0 <= j < memory.Length && !(top + i < j <= top + n) ==> memory[j] == before[j]
        invariant forall j :: top + i <= j < top + n ==> memory[j + 1] == before[j]
      {
        i := i - 1;
        memory[top + i + 1] := memory[top + i];
      }
    }

    method PushCells(c: nat, n: nat)
      requires n <= top <= memory.Length
      modifies this`top, memory
      ensures top == old(top) - n
      ensures CellsAt(memory[..], old(top) - n, n, Some(c))
      ensures forall j :: 0 <= j < memory.Length && !(old(top) - n <= j < old(top)) ==> memory[j] == old(memory[..])[j]
    {
      ghost var base := top - n;
      var i := n;
      while i > 0
        invariant 0 <= i <= n && top == base + i
        invariant forall j :: i <= j < n ==> CellAt(memory[..], base, j, c)
        invariant forall j :: 0 <= j < memory.Length && !(old(top) - n <= j < old(top)) ==>
          memory[j] == old(memory[..])[j]
      {
        i := i - 1;
        ghost var before := memory[..];
        Push(Cell(c, i));
        ghost var now := memory[..];
        forall j | i <= j < n ensures CellAt(now, base, j, c) {
          if j > i {
            assert CellAt(before, base, j, c);
          }
        }
      }
    }

    /** A record's words, first claimed and then filled. */
    method AllocateScope(r: Record)
      requires SCOPE_WORDS <= top <= memory.Length
      modifies this`top, memory
      ensures top == old(top) - SCOPE_WORDS && memory[top] == Scope(r)
      ensures forall j :: 0 <= j < memory.Length && !(top <= j < old(top)) ==> memory[j] == old(memory[..])[j]
    {
      var i := 0;
      while i < SCOPE_WORDS
        invariant 0 <= i <= SCOPE_WORDS && top == old(top) - i
        invariant forall j :: 0 <= j < memory.Length && !(top <= j < old(top)) ==> memory[j] == old(memory[..])[j]
      {
        Push(Blank);
        i := i + 1;
      }
      memory[top] := Scope(r);
    }

    /** Begin: the linkage below the top is claimed again, then popped. */
    method Begin(nargs: nat, nlocals: nat)
      requires words + nargs + nlocals + SCOPE_WORDS <= top <= memory.Length && nargs + 2 <= top
      modifies this, memory
      ensures Begun(K(), old(State()), State(), nargs, nlocals, false, 0)
    {
      ghost var s := State();
      var frameEntry := top;
      top := top - (nargs + 2);
      var _ := Pop();
      var origin := Pop();
      var args := top;
      top := top - nlocals;
      var vars := top;
      AllocateScope(Record(origin, scope, vars, args, vars, nlocals, nargs, 0, 0, frameEntry));
      scope := Some(top);
      ip := ip + 1;
    }

    /** BeginCaptured: the linkage stays in the activation, above the cells' addresses and the locals. */
    method BeginCaptured(nargs: nat, nlocals: nat)
      requires nargs + 2 <= top <= memory.Length && memory[top - nargs - 2].Captures?
      requires words + nargs + 2 + memory[top - nargs - 2].n + nlocals + SCOPE_WORDS <= top
      modifies this, memory
      ensures Begun(K(), old(State()), State(), nargs, nlocals, true, old(memory[top - nargs - 2].n))
    {
      ghost var s := State();
      var frameEntry := top;
      top := top - (nargs + 2);
      var args := top;
      var captured := Pop();
      var origin := Pop();
      top := top - 2;
      top := top - captured.n;
      var acc := top;
      top := top - nlocals;
      var vars := top;
      AllocateScope(Record(origin, scope, vars, args, acc, nlocals, nargs + 2, captured.n, 2, frameEntry));
      scope := Some(top);
      ip := ip + 1;
    }

    method EnterFunction(ghost m: Machine)
      requires Pending(K(), State(), m) && Steps(K(), memory.Length, m)
      modifies this, memory
      ensures Running(K(), State(), After(program, m))
    {
      hide Running, Pending, Chain, Usage, Fits, Begun;
      ghost var k, s := K(), State();
      PendingFacts(k, s, m);
      EntryRoom(k, s, m);
      var nargs, nlocals := program[ip].nargs, program[ip].nlocals;
      if program[ip].closure == [] {
        Begin(nargs, nlocals);
      } else {
        BeginCaptured(nargs, nlocals);
      }
      BeginRuns(k, s, m, State(), After(program, m));
    }

    /** END: the result replaces the arguments, the caller goes on; in the outermost activation the program exits. */
    method End(ghost m: Machine) returns (exits: bool)
      requires Running(K(), State(), m) && Sound(K()) && m.pc < |program| && program[m.pc] == END
      modifies this, memory
      ensures exits <==> Step(program, m).Halt?
      ensures exits ==> world == m.world && Step(program, m) == Halt(m)
      ensures !exits ==> Step(program, m).Next? && Running(K(), State(), After(program, m))
    {
      hide Running, Chain;
      ghost var k, s := K(), State();
      RunningTop(k, s, m);
      RunningDepth(k, s, m);
      assert Balanced(k, m.pc);
      EndFinds(k, s, m);
      RecordFound(k, s, m);
      var r := memory[scope.value].record;
      if r.outer.None? {
        exits := true;
      } else {
        exits := false;
        var res := PopValue();
        top := r.limit;
        ip := r.origin.back;
        scope := r.outer;
        Push(Data(res));
        EndReturns(k, s, m, State(), After(program, m));
      }
    }

    /** The first BEGIN. */
    method StartProgram(ghost m: Machine)
      requires Starting(K(), State(), m) && Steps(K(), memory.Length, m) && program[m.pc].BEGIN?
      modifies this, memory
      ensures Running(K(), State(), After(program, m))
    {
      hide Running, Chain, Begun;
      ghost var k, s := K(), State();
      StartFacts(k, s, m);
      Begin(program[ip].nargs, program[ip].nlocals);
      StartRuns(k, s, m, State(), After(program, m));
    }

    // ---- the dispatch loop ----

    method Storage(ghost m: Machine)
      requires Running(K(), State(), m) && Steps(K(), memory.Length, m) && InStorage(program[m.pc])
      modifies this, memory
      ensures Running(K(), State(), After(program, m))
    {
      hide Running, Steps;
      InRange(K(), State(), m);
      match program[ip] {
        case CONST(n) => Const(n, m);
        case STRING(chars) => String(chars, m);
        case SEXP(tag, n) => Sexp(tag, n, m);
        case STA => StoreArray(m);
        case JMP(l) => Jump(l, m);
        case DROP => Discard(m);
        case DUP => Dup(m);
        case ELEM => Elem(m);
      }
    }

    method Others(ghost m: Machine)
      requires Running(K(), State(), m) && Steps(K(), memory.Length, m) && InOthers(program[m.pc])
      modifies this, memory
      ensures Running(K(), State(), After(program, m))
    {
      hide Running, Steps, Interpretation.Silent;
      InRange(K(), State(), m);
      var i := program[ip];
      match i {
        case BINOP(op) => EvalBinop(op, m);
        case LD(d) => Load(d, m);
        case ST(d) => Store(d, m);
        case CJMP(nonzero, l) => JumpIf(nonzero, l, m);
        case CLOSURE(l, ds) => Closure(l, ds, m);
        case TAG(tag, n) => TagTest(tag, n, m);
        case ARRAY(n) => ArrayTest(n, m);
        case PATT(q) =>
          if q.StrCmp? {
            StringMatch(m);
          } else {
            PatternTest(q, m);
          }
        case _ => Silent(m);
      }
    }

    method Calls(ghost m: Machine)
      requires Running(K(), State(), m) && Steps(K(), memory.Length, m) && (program[m.pc].CALL? || program[m.pc].CALLC?)
      modifies this, memory
      ensures Represents(K(), State(), After(program, m))
    {
      hide Running, Pending, Steps;
      InRange(K(), State(), m);
      match program[ip] {
        case CALL(l, n) =>
          if FindLabel(program, l).Some? {
            Call(l, n, m);
          } else {
            BuiltinNamed(K(), memory.Length, m, l, n);
            Builtins(l.name, n, m);
          }
        case CALLC(n) => CallClosure(n, m);
      }
    }

    /** One opcode of the loop. */
    method Execute(ghost m: Machine) returns (exits: bool)
      requires Represents(K(), State(), m) && Ongoing(K(), memory.Length, m)
      modifies this, memory
      ensures exits <==> Step(program, m).Halt?
      ensures exits ==> world == m.world && Step(program, m) == Halt(m)
      ensures !exits ==> Step(program, m).Next? && Represents(K(), State(), After(program, m))
    {
      hide Running, Pending, Starting, Step, Sound, Guarded, Fits, Steps, Ongoing, InStorage, InOthers,
        Interpretation.Silent;
      exits := false;
      OngoingSound(K(), memory.Length, m);
      Phase(K(), State(), m);
      Progressing(K(), memory.Length, State(), m);
      if ip >= |program| {
        exits := true;
      } else if program[ip].BEGIN? {
        if scope == None {
          StartProgram(m);
        } else {
          EnterFunction(m);
        }
      } else if scope == None {
        ghost var s := State();
        ip := ip + 1;
        StartingOn(K(), s, m, State());
      } else if program[ip].END? {
        exits := End(m);
      } else if program[ip].CALL? || program[ip].CALLC? {
        Calls(m);
      } else if InStorage(program[ip]) {
        Storage(m);
      } else {
        Classified(K(), State(), m);
        Others(m);
      }
    }

    /** The loop runs until the program exits; its world is then the machine's. */
    method Eval(ghost m: Machine, ghost n: nat, ghost end: Machine)
      requires Represents(K(), State(), m) && Run(program, m, n) == Halt(end) && AlongRun(K(), memory.Length, m, n)
      modifies this, memory
      ensures world == end.world
    {
      hide Represents, Step, Ongoing;
      var exits := false;
      ghost var c, left := m, n;
      while !exits
        invariant !exits ==>
          Represents(K(), State(), c) && Run(program, c, left) == Halt(end) && AlongRun(K(), memory.Length, c, left)
        invariant exits ==> world == end.world
        decreases if exits then 0 else left + 1
      {
        exits := Execute(c);
        if !exits {
          c, left := After(program, c), left - 1;
        }
      }
    }

    /** A worker with the program loaded: globals cleared, the stack empty. */
    constructor (program: Prog, start: nat, slots: map<string, nat>, words: nat, address: nat -> int, capacity: nat,
        input: seq<int>, ghost depths: Depths)
      requires words <= capacity
      ensures this.program == program && this.start == start && this.slots == slots && this.words == words
      ensures memory.Length == capacity && this.depths == depths && this.address == address && fresh(memory)
      ensures
        forall m: Machine ::
          && m.pc == 0 && m.control == Nil && m.stack == Nil && m.frame == Frame([], [], None)
            && m.world == World(input, [], [])
          && (forall x :: x in slots ==> x !in m.globals)
          ==> Starting(K(), State(), m)
    {
      this.program, this.start, this.slots, this.words, this.address, this.depths := program, start, slots, words,
        address, depths;
      memory := new Word[capacity](_ => Data(Int(0)));
      top, ip, scope, world := capacity, 0, None, World(input, [], []);
    }
  }

  lemma RunningTop(k: Code, s: Flat, m: Machine)
    requires Running(k, s, m)
    ensures k.words <= s.top <= |s.mem| && s.scope.Some? && s.top <= s.scope.value
    ensures s.scope.value + SCOPE_WORDS <= |s.mem|
    ensures s.ip == m.pc && s.world == m.world
  {
    hide Chain;
    ChainTop(k.d, s.mem, s.world.store, s.top, s.scope, m.stack, m.frame, m.control);
  }

  lemma StackRoom(k: Code, s: Flat, m: Machine, v: Value)
    requires Running(k, s, m) && Steps(k, |s.mem|, m)
    requires After(k.p, m).stack == Cons(v, m.stack) && After(k.p, m).frame == m.frame
    requires After(k.p, m).control == m.control
    requires KeepsClosures(m.world.store, After(k.p, m).world.store)
    ensures k.words < s.top && Take(0, m.stack) == Some((Nil, m.stack))
  {
    hide Step, KeepsClosures, Fits;
    hide Chain;
    ChainClosures(k.d, s.mem, s.world.store, s.top, s.scope, m.stack, m.frame, m.control);
    RoomToPush(k, s, m, After(k.p, m), v);
  }

  lemma KeepsAllocated(store: Store, o: Object)
    ensures KeepsClosures(store, store + [o])
  {
  }

  lemma KeepsUpdated(store: Store, b: Value, i: int, v: Value)
    requires UpdateElement(store, b, i, v).Some?
    ensures KeepsClosures(store, UpdateElement(store, b, i, v).value)
  {
  }

  lemma KeepsBuiltin(w: World, args: seq<Value>, name: string)
    requires CallBuiltin(w, args, name).Some?
    ensures KeepsClosures(w.store, CallBuiltin(w, args, name).value.0.store)
  {
  }

  lemma TakeNone(stack: List<Value>)
    ensures Take(0, stack) == Some((Nil, stack))
  {
  }

  lemma ThreeOperands(k: Code, s: Flat, m: Machine)
    requires Running(k, s, m) && 3 <= s.scope.value - s.top
    ensures m.stack.Cons? && m.stack.tail.Cons? && m.stack.tail.tail.Cons? && s.top + 3 < |s.mem|
    ensures s.mem[s.top] == Data(m.stack.head) && s.mem[s.top + 1] == Data(m.stack.tail.head)
    ensures s.mem[s.top + 2] == Data(m.stack.tail.tail.head)
    ensures Take(3, m.stack).Some? && Take(3, m.stack).value.1 == m.stack.tail.tail.tail
  {
    hide Chain;
    ChainPop(k.d, s.mem, s.world.store, s.top, s.scope, m.stack, m.frame, m.control);
    ChainPop(k.d, s.mem, s.world.store, s.top + 1, s.scope, m.stack.tail, m.frame, m.control);
    ChainPop(k.d, s.mem, s.world.store, s.top + 2, s.scope, m.stack.tail.tail, m.frame, m.control);
    ChainTop(k.d, s.mem, s.world.store, s.top, s.scope, m.stack, m.frame, m.control);
    var rest := m.stack.tail.tail.tail;
    assert Take(0, rest) == Some((Nil, rest));
    assert Take(1, m.stack.tail.tail) == Some((Cons(m.stack.tail.tail.head, Nil), rest));
    assert Take(2, m.stack.tail).value.1 == rest;
  }

  /** Room for the result of an instruction that takes n operands. */
  lemma RoomAfter(k: Code, s: Flat, m: Machine, n: nat)
    requires Running(k, s, m) && Steps(k, |s.mem|, m) && n <= s.scope.value - s.top && Take(n, m.stack).Some?
    requires After(k.p, m).stack.Cons? && After(k.p, m).stack.tail == Take(n, m.stack).value.1
    requires After(k.p, m).frame == m.frame && After(k.p, m).control == m.control
    requires KeepsClosures(m.world.store, After(k.p, m).world.store)
    ensures k.words < s.top + n
  {
    hide Step, KeepsClosures, Fits, Chain, Running;
    if n == 0 {
      TakeNone(m.stack);
      StackRoom(k, s, m, After(k.p, m).stack.head);
    } else {
      RunningTop(k, s, m);
    }
  }

  lemma DupRuns(k: Code, s: Flat, m: Machine, v: Value, s': Flat, m': Machine)
    requires Running(k, s, m) && k.words < s.top && m.stack.Cons? && m.stack.head == v
    requires Effect(k, m.pc, s.scope.value - s.top, 1, 2)
    requires s' == s.(mem := s.mem[s.top - 1 := Data(v)], top := s.top - 1, ip := s.ip + 1)
    requires m' == m.(pc := m.pc + 1, stack := Cons(v, m.stack))
    ensures Running(k, s', m')
  {
    hide Running, KeepsClosures;
    RunningTop(k, s, m);
    TakeNone(m.stack);
    KeepsSame(s.world.store);
    PopPush(k, s, m, 0, v, s', m');
  }

  lemma ResolveCode(k: Code, k': Code, mem: Memory, scope: Option<nat>, d: Designation)
    requires k'.slots == k.slots
    ensures Resolve(k', mem, scope, d) == Resolve(k, mem, scope, d)
  {
  }

  lemma StoreWrites(k: Code, s: Flat, m: Machine, d: Designation, v: Value, s': Flat)
    requires Running(k, s, m) && s.top < |s.mem| && s.mem[s.top] == Data(v) && s'.top == s.top && s'.scope == s.scope
    requires s'.ip == s.ip + 1
    requires
      match Resolve(k, s.mem, s.scope, d)
      case InMemory(a) => 0 <= a < |s.mem| && s'.mem == s.mem[a := Data(v)][s.top := Data(v)] && s'.world == s.world
      case InCell(c, i) =>
        && c < |s.world.store| && s.world.store[c].ClosureObject? && i < |s.world.store[c].cells|
        && s'.mem == s.mem[s.top := Data(v)]
        && s'.world == s.world.(store := s.world.store[c := s.world.store[c].(cells := s.world.store[c].cells[i := v])])
      case Nowhere => false
    ensures Written(k, s, s', d, v)
  {
    hide Running, Resolve;
    match Resolve(k, s.mem, s.scope, d)
    case InMemory(a) => assert s'.mem == s.mem[a := Data(v)];
    case InCell(c, i) => assert s'.mem == s.mem;
    case Nowhere =>
  }

  // ---- what the opcodes rest on ----

  /** An ongoing run: the next step is one, or the run halts. */
  ghost predicate Ongoing(k: Code, size: nat, m: Machine) {
    && Sound(k)
    && match Step(k.p, m)
       case Next(_) => m.pc < |k.p| && Steps(k, size, m)
       case Halt(_) => true
       case Stuck => false
  }

  ghost predicate AlongRun(k: Code, size: nat, m: Machine, n: nat)
    decreases n
  {
    Ongoing(k, size, m) && (n > 0 && Step(k.p, m).Next? ==> AlongRun(k, size, Step(k.p, m).m, n - 1))
  }

  predicate InStorage(i: Insn) {
    i.CONST? || i.STRING? || i.SEXP? || i.STA? || i.JMP? || i.DROP? || i.DUP? || i.ELEM?
  }

  predicate InOthers(i: Insn) {
    i.BINOP? || i.LD? || i.ST? || i.CJMP? || i.CLOSURE? || i.TAG? || i.ARRAY? || i.PATT? || Interpretation.Silent(i)
  }

  lemma InRange(k: Code, s: Flat, m: Machine)
    requires Running(k, s, m) && Steps(k, |s.mem|, m)
    ensures s.ip == m.pc < |k.p|
  {
    hide Chain, Fits, Guarded, Step;
  }

  lemma BuiltinNamed(k: Code, size: nat, m: Machine, l: Label, n: nat)
    requires Steps(k, size, m) && k.p[m.pc] == CALL(l, n) && FindLabel(k.p, l) == None
    ensures l.Named?
  {
    hide Sound, Guarded, Fits;
  }

  lemma CaptureLength(m: Machine, ds: seq<Designation>)
    requires Capture(m, ds).Some?
    ensures |Capture(m, ds).value| == |ds|
    ensures forall i :: 0 <= i < |ds| ==> StackMachine.Load(m, ds[i]) == Some(Capture(m, ds).value[i])
  {
    if ds != [] {
      CaptureLength(m, ds[1..]);
    }
  }

  lemma ClosureRoom(k: Code, s: Flat, m: Machine, l: Label, ds: seq<Designation>)
    requires Running(k, s, m) && Steps(k, |s.mem|, m) && k.p[m.pc] == CLOSURE(l, ds)
    ensures Capture(m, ds).Some? && k.words + |ds| <= s.top && k.words < s.top
    ensures After(k.p, m) == m.(pc := m.pc + 1, stack := Cons(Ref(|m.world.store|), m.stack),
      world := m.world.(store := m.world.store + [ClosureObject(l, Capture(m, ds).value)]))
    ensures forall i :: 0 <= i < |ds| ==> Assigned(m, ds[i])
  {
    hide Running, KeepsClosures, Usage;
    Room(k, s, m);
    var o := ClosureObject(l, Capture(m, ds).value);
    KeepsAllocated(m.world.store, o);
    StackRoom(k, s, m, Ref(|m.world.store|));
  }

  /** i values pushed below t. */
  ghost predicate Pushed(mem: Memory, t: nat, vs: seq<Value>, i: nat, mem': Memory) {
    && i <= |vs| && i <= t <= |mem| && |mem'| == |mem|
    && ArgsAt(mem', t - 1, vs[..i])
    && (forall j :: 0 <= j < |mem| && !(t - i <= j < t) ==> mem'[j] == mem[j])
  }

  lemma ArgsPushed(mem: Memory, mem': Memory, t: nat, vs: seq<Value>)
    requires Pushed(mem, t, vs, |vs|, mem')
    ensures ArgsAt(mem', t - 1, vs)
  {
    assert vs[..|vs|] == vs;
  }

  /** Variables do not lie in the free part of the stack. */
  lemma SlotAbove(k: Code, s: Flat, m: Machine, d: Designation, vs: seq<Value>, i: nat, mem: Memory)
    requires Running(k, s, m) && Placed(k, d) && StackMachine.Load(m, d).Some? && Assigned(m, d) && Sound(k)
    requires Pushed(s.mem, s.top, vs, i, mem) && k.words + i <= s.top
    ensures Resolve(k, mem, s.scope, d) == Resolve(k, s.mem, s.scope, d)
    ensures Holds(mem, s.world.store, Resolve(k, mem, s.scope, d), StackMachine.Load(m, d).value)
  {
    hide Chain, Values, ArgsAt, Balanced;
    LoadFinds(k, s, m, d);
    ChainFrame(k.d, s.mem, s.world.store, s.top, s.scope, m.stack, m.frame, m.control);
    if d.Access? {
      assert CellAt(s.mem, s.mem[s.scope.value].record.acc, d.index, m.frame.closure.value);
    }
  }

  lemma PushedAbove(mem: Memory, t: nat, vs: seq<Value>, v: Value, words: nat, mem': Memory)
    requires words + |vs| <= t <= |mem| && words < t && |mem'| == |mem|
    requires exists mid: Memory :: Pushed(mem, t, vs, |vs|, mid) && mem' == mid[t - 1 := Data(v)]
    ensures SameAbove(mem, mem', t, words) && mem'[t - 1] == Data(v)
  {
  }

  lemma {:induction false} TakeLength(n: nat, stack: List<Value>)
    requires Take(n, stack).Some?
    ensures Length(stack) == n + Length(Take(n, stack).value.1)
    ensures |BottomUp(Take(n, stack).value.0)| == n
  {
    if n > 0 {
      TakeLength(n - 1, stack.tail);
    }
  }

  lemma CallRoom(k: Code, s: Flat, m: Machine, l: Label, n: nat, vs: List<Value>, rest: List<Value>)
    requires Running(k, s, m) && Steps(k, |s.mem|, m) && k.p[m.pc] == CALL(l, n) && FindLabel(k.p, l).Some?
    requires Take(n, m.stack) == Some((vs, rest))
    ensures k.words + 2 <= s.top
    ensures After(k.p, m) == m.(pc := FindLabel(k.p, l).value, stack := rest,
      control := Cons(Control(m.pc + 1, m.frame), m.control),
      frame := Frame(BottomUp(vs), [], None))
  {
    hide Running, Sound, Guarded, FindLabel;
    Room(k, s, m);
    TakeLength(n, m.stack);
  }

  lemma DirectEntry(k: Code, m: Machine, l: Label, n: nat, m': Machine)
    requires Sound(k) && m.pc < |k.p| && k.p[m.pc] == CALL(l, n) && k.d[m.pc] >= 0 && FindLabel(k.p, l).Some?
    requires m'.pc == FindLabel(k.p, l).value && |m'.frame.args| == n && m'.frame.closure == None
    ensures AtEntry(k, m')
  {
    hide FindLabel;
    assert Balanced(k, m.pc);
  }

  lemma CallcBalanced(k: Code, m: Machine, n: nat)
    requires Sound(k) && m.pc < |k.p| && k.p[m.pc] == CALLC(n) && k.d[m.pc] >= 0
    ensures Effect(k, m.pc, k.d[m.pc], n + 1, 1)
  {
    assert Balanced(k, m.pc);
  }

  lemma CalleeFound(mem: Memory, top: nat, n: nat, es: seq<Value>)
    requires |es| == n + 1 && ArgsAt(mem, top + n, es)
    ensures top + n < |mem| && mem[top + n] == Data(es[0])
  {
    assert DataAt(mem, top + n, es[0]);
  }

  lemma CalleeIsRef(k: Code, size: nat, m: Machine, n: nat, vs: List<Value>, rest: List<Value>)
    requires Steps(k, size, m) && k.p[m.pc] == CALLC(n) && Take(n + 1, m.stack) == Some((vs, rest))
    ensures BottomUp(vs) != [] && BottomUp(vs)[0].Ref?
  {
    hide Sound, FindLabel, Fits;
    TakeLength(n + 1, m.stack);
  }

  lemma CallcRoom(k: Code, s: Flat, m: Machine, n: nat, vs: List<Value>, rest: List<Value>, c: nat)
    requires Running(k, s, m) && Steps(k, |s.mem|, m) && k.p[m.pc] == CALLC(n)
    requires Take(n + 1, m.stack) == Some((vs, rest))
    requires BottomUp(vs) != [] && BottomUp(vs)[0].Ref? && BottomUp(vs)[0].address == c
    ensures c < |m.world.store| && m.world.store[c].ClosureObject? && FindLabel(k.p, m.world.store[c].entry).Some?
    ensures k.words + 1 + |m.world.store[c].cells| <= s.top
    ensures After(k.p, m) == m.(pc := FindLabel(k.p, m.world.store[c].entry).value, stack := rest,
      control := Cons(Control(m.pc + 1, m.frame), m.control),
      frame := Frame(BottomUp(vs)[1..], [], Some(c)))
  {
    hide Running, Sound, FindLabel;
    Room(k, s, m);
    TakeLength(n + 1, m.stack);
  }

  lemma CallcEntry(k: Code, m: Machine, n: nat, vs: List<Value>, rest: List<Value>, c: nat)
    requires Guarded(k, m) && m.pc < |k.p| && k.p[m.pc] == CALLC(n) && Take(n + 1, m.stack) == Some((vs, rest))
    requires BottomUp(vs) != []
    requires BottomUp(vs)[0] == Ref(c) && c < |m.world.store| && m.world.store[c].ClosureObject?
    requires FindLabel(k.p, m.world.store[c].entry).Some?
    ensures
      var m' := m.(pc := FindLabel(k.p, m.world.store[c].entry).value, stack := rest,
        control := Cons(Control(m.pc + 1, m.frame), m.control),
        frame := Frame(BottomUp(vs)[1..], [], Some(c)));
      AtEntry(k, m')
  {
    hide FindLabel;
    TakeLength(n + 1, m.stack);
  }

  ghost predicate MovedUp(mem: Memory, mem': Memory, top: nat, n: nat) {
    && |mem'| == |mem| && top + n < |mem|
    && (forall j :: 0 <= j < |mem| && !(top < j <= top + n) ==> mem'[j] == mem[j])
    && (forall j :: top <= j < top + n ==> mem'[j + 1] == mem[j])
  }

  lemma CallcCalled(mem: Memory, mem': Memory, moved: Memory, top: nat, n: nat, back: nat, cells: nat, c: nat,
      words: nat)
    requires MovedUp(mem, moved, top, n) && words + 1 + cells <= top && |mem'| == |mem|
    requires CellsAt(mem', top - 1 - cells, cells, Some(c))
    requires
      var linked := moved[top := Return(back)][top - 1 := Captures(cells)];
      forall j :: 0 <= j < |mem| && !(top - 1 - cells <= j < top - 1) ==> mem'[j] == linked[j]
    ensures ClosureCalled(mem, mem', top, n, back, cells, c) && SameAbove(mem, mem', top + n + 1, words)
  {
    hide CellsAt;
    var linked := moved[top := Return(back)][top - 1 := Captures(cells)];
    forall i | top <= i < top + n ensures mem'[i + 1] == mem[i] {
      assert linked[i + 1] == moved[i + 1] == mem[i];
    }
  }

  lemma PendingFacts(k: Code, s: Flat, m: Machine)
    requires Pending(k, s, m)
    ensures s.ip == m.pc < |k.p| && k.p[m.pc].BEGIN? && k.p[m.pc].nargs == |m.frame.args| && s.top <= |s.mem|
    ensures m.frame.locals == []
    ensures |m.frame.args| + 2 <= s.top
    ensures s.mem[s.top - |m.frame.args| - 2] == Captures(CaptureCount(m.world.store, m.frame.closure))
    ensures k.p[m.pc].closure == [] ==> CaptureCount(m.world.store, m.frame.closure) == 0
  {
    hide Chain;
  }

  lemma EntryRoom(k: Code, s: Flat, m: Machine)
    requires Pending(k, s, m) && Steps(k, |s.mem|, m)
    ensures m.pc < |k.p| && k.p[m.pc].BEGIN?
    ensures After(k.p, m) == m.(pc := m.pc + 1, frame := m.frame.(locals := seq(k.p[m.pc].nlocals, _ => Empty)))
    ensures
      var cells := CaptureCount(m.world.store, m.frame.closure);
      k.words + |m.frame.args| + 2 + cells + k.p[m.pc].nlocals + SCOPE_WORDS <= s.top
  {
    hide Chain, Sound;
    ChainSize(k.d, s.mem, s.world.store, s.top, s.scope, m.stack, m.control.head.frame, m.control.tail);
  }

  lemma RunningDepth(k: Code, s: Flat, m: Machine)
    requires Running(k, s, m)
    ensures s.scope.Some? && m.pc < |k.d| && k.d[m.pc] == s.scope.value - s.top
  {
    hide Chain;
    ChainTop(k.d, s.mem, s.world.store, s.top, s.scope, m.stack, m.frame, m.control);
  }

  lemma RecordFound(k: Code, s: Flat, m: Machine)
    requires Running(k, s, m)
    ensures s.scope.Some? && s.scope.value < |s.mem| && s.mem[s.scope.value].Scope?
  {
    hide Chain;
    ChainTop(k.d, s.mem, s.world.store, s.top, s.scope, m.stack, m.frame, m.control);
  }

  lemma StartFacts(k: Code, s: Flat, m: Machine)
    requires Starting(k, s, m) && Steps(k, |s.mem|, m) && k.p[m.pc].BEGIN?
    ensures s.ip == m.pc && k.p[m.pc].closure == [] && s.top == |s.mem|
    ensures k.words + k.p[m.pc].nargs + k.p[m.pc].nlocals + SCOPE_WORDS <= s.top && k.p[m.pc].nargs + 2 <= s.top
    ensures After(k.p, m) == m.(pc := m.pc + 1, frame := m.frame.(locals := seq(k.p[m.pc].nlocals, _ => Empty)))
  {
  }

  /** Which phase the interpreter is in shows in the scope pointer and the next opcode. */
  lemma Phase(k: Code, s: Flat, m: Machine)
    requires Represents(k, s, m) && Sound(k)
    ensures s.ip == m.pc && s.world == m.world
    ensures s.scope == None ==> Starting(k, s, m) && m.pc < |k.p| && !k.p[m.pc].END?
    ensures s.scope.Some? && m.pc < |k.p| && k.p[m.pc].BEGIN? ==> Pending(k, s, m)
    ensures s.scope.Some? && m.pc < |k.p| && !k.p[m.pc].BEGIN? ==> Running(k, s, m)
  {
    hide Chain;
    if Running(k, s, m) {
      ChainTop(k.d, s.mem, s.world.store, s.top, s.scope, m.stack, m.frame, m.control);
      if m.pc < |k.p| {
        assert Balanced(k, m.pc);
      }
    } else if Pending(k, s, m) {
      ChainTop(k.d, s.mem, s.world.store, s.top, s.scope, m.stack, m.control.head.frame, m.control.tail);
    }
  }

  lemma OngoingSound(k: Code, size: nat, m: Machine)
    requires Ongoing(k, size, m)
    ensures Sound(k)
  {
  }

  /** Only END, or the end of the code, halts. */
  lemma Progressing(k: Code, size: nat, s: Flat, m: Machine)
    requires Represents(k, s, m) && Ongoing(k, size, m) && |s.mem| == size
    ensures m.pc >= |k.p| ==> Step(k.p, m) == Halt(m)
    ensures m.pc < |k.p| && !k.p[m.pc].END? ==> Steps(k, size, m) && Step(k.p, m).Next?
  {
    hide Represents, Guarded, Fits, Running, Pending;
    Phase(k, s, m);
    if m.pc < |k.p| && k.p[m.pc].RET? {
      if s.scope.Some? {
        RunningDepth(k, s, m);
      }
      assert Balanced(k, m.pc);
    }
  }

  /** In front of the first BEGIN nothing happens. */
  lemma StartingOn(k: Code, s: Flat, m: Machine, s': Flat)
    requires Starting(k, s, m) && Steps(k, |s.mem|, m) && !k.p[m.pc].BEGIN? && s' == s.(ip := s.ip + 1)
    ensures Starting(k, s', After(k.p, m))
  {
    hide Balanced, Guarded, Fits, GlobalAt;
  }

  lemma Classified(k: Code, s: Flat, m: Machine)
    requires Running(k, s, m) && Steps(k, |s.mem|, m)
    requires
      var i := k.p[m.pc];
      !i.BEGIN? && !i.END? && !i.CALL? && !i.CALLC? && !InStorage(i)
    ensures InOthers(k.p[m.pc])
  {
    hide Running, Guarded, Fits;
    RunningDepth(k, s, m);
    assert Balanced(k, m.pc);
  }
}
