/** How the interpreter's state represents the stack machine's, instruction by instruction.  Code is taken as a list
    of instructions whose labels stand for their positions; code is balanced, as a static assignment of operand
    depths to positions shows. */
module Interpretation {
  import opened Wrappers
  import opened LamaValues
  import opened StackMachine
  import opened FlatMemory
  import opened RuntimeCalls

  /** The program, its operand depths, where its main function begins, where its globals lie, and the addresses of
      objects. */
  datatype Code = Code(p: Prog, d: Depths, start: nat, slots: map<string, nat>, words: nat, address: nat -> int)

  /** The interpreter's state. */
  datatype Flat = Flat(mem: Memory, top: nat, ip: nat, scope: Option<nat>, world: World)

  // ---- balanced code ----

  /** l is defined, where the depth is n. */
  ghost predicate Target(k: Code, l: Label, n: int) {
    FindLabel(k.p, l).Some? && DepthAt(k.d, FindLabel(k.p, l).value, n)
  }

  /** A function entered through l with n arguments starts with a BEGIN for as many. */
  ghost predicate Entry(k: Code, l: Label, n: nat) {
    FindLabel(k.p, l).Some? ==>
      var t := FindLabel(k.p, l).value;
      t < |k.p| && k.p[t].BEGIN? && k.p[t].nargs == n
  }

  /** Code that captures cells needs a BEGIN that expects them. */
  ghost predicate Expects(k: Code, l: Label, cells: nat) {
    FindLabel(k.p, l).Some? ==>
      var t := FindLabel(k.p, l).value;
      t < |k.p| && k.p[t].BEGIN? && (k.p[t].closure == [] ==> cells == 0)
  }

  ghost predicate Placed(k: Code, d: Designation) {
    (d.Global? ==> d.name in k.slots) && !d.Fun?
  }

  /** From depth n, n1 operands are taken and the rest has depth n2 at the next position. */
  ghost predicate Effect(k: Code, pc: nat, n: int, takes: nat, leaves: nat) {
    takes <= n && DepthAt(k.d, pc + 1, n - takes + leaves)
  }

  /** Instructions that only tell the compiler or the linker something. */
  predicate Silent(i: Insn) {
    i.LABEL? || i.FLABEL? || i.SLABEL? || i.EXTERN? || i.PUBLIC? || i.IMPORT? || i.LINE?
  }

  /** A public name is that of a label. */
  ghost predicate Declared(k: Code, i: Insn) {
    i.PUBLIC? ==> i.name.Named? && FindLabel(k.p, i.name).Some?
  }

  /** The instruction at pc fits the depths.  The interpreter knows no STI, RET, LDA with a single word, nor
      SWAP in the machine's sense. */
  ghost predicate Balanced(k: Code, pc: nat)
    requires pc < |k.p| && pc + 1 < |k.d|
  {
    var n := k.d[pc];
    Declared(k, k.p[pc])
      && if n < 0 then (if k.p[pc].BEGIN? then DepthAt(k.d, pc + 1, 0) else Silent(k.p[pc]) && k.d[pc + 1] < 0)
    else match k.p[pc]
    case BINOP(_) => Effect(k, pc, n, 2, 1)
    case CONST(_) => Effect(k, pc, n, 0, 1)
    case STRING(_) => Effect(k, pc, n, 0, 1)
    case SEXP(_, a) => Effect(k, pc, n, a, 1)
    case LD(d) => Effect(k, pc, n, 0, 1) && Placed(k, d)
    case ST(d) => Effect(k, pc, n, 1, 1) && Placed(k, d)
    case STA => Effect(k, pc, n, 3, 1)
    case ELEM => Effect(k, pc, n, 2, 1)
    case LABEL(_) => Effect(k, pc, n, 0, 0)
    case FLABEL(_) => Effect(k, pc, n, 0, 0)
    case SLABEL(_) => Effect(k, pc, n, 0, 0)
    case JMP(l) => Target(k, l, n)
    case CJMP(_, l) => n >= 1 && Target(k, l, n - 1) && Effect(k, pc, n, 1, 0)
    case END => n == 1
    case CLOSURE(l, ds) => Effect(k, pc, n, 0, 1) && (forall i :: 0 <= i < |ds| ==> Placed(k, ds[i]))
      && Expects(k, l, |ds|) && FindLabel(k.p, l).Some?
    case CALLC(a) => Effect(k, pc, n, a + 1, 1)
    case CALL(l, a) => Effect(k, pc, n, a, 1) && Entry(k, l, a)
      && (FindLabel(k.p, l).Some? || (l.Named? && Called(l.name)))
    case DROP => Effect(k, pc, n, 1, 0)
    case DUP => Effect(k, pc, n, 1, 2)
    case TAG(_, _) => Effect(k, pc, n, 1, 1)
    case ARRAY(_) => Effect(k, pc, n, 1, 1)
    case PATT(q) => if q.StrCmp? then Effect(k, pc, n, 2, 1) else Effect(k, pc, n, 1, 1)
    case FAIL(_, _) => true
    case EXTERN(_) => Effect(k, pc, n, 0, 0)
    case PUBLIC(_) => Effect(k, pc, n, 0, 0)
    case IMPORT(_) => Effect(k, pc, n, 0, 0)
    case LINE(_) => Effect(k, pc, n, 0, 0)
    case _ => false
  }

  ghost predicate Sound(k: Code) {
    && |k.d| == |k.p| + 1
    && k.start < |k.p| && k.p[k.start].BEGIN? && k.p[k.start].closure == [] && k.p[k.start].nargs <= 2
    && (forall i :: 0 <= i < k.start ==> Silent(k.p[i]))
    && (forall pc :: 0 <= pc < |k.p| ==> Balanced(k, pc))
    && (forall x, y :: x in k.slots && y in k.slots && x != y ==> k.slots[x] != k.slots[y])
    && (forall x :: x in k.slots ==> k.slots[x] < k.words)
  }

  // ---- representation ----

  ghost predicate GlobalAt(k: Code, mem: Memory, globals: map<string, Value>, x: string) {
    x in k.slots && x in globals ==> k.slots[x] < k.words <= |mem| && mem[k.slots[x]] == Data(globals[x])
  }

  ghost predicate Common(k: Code, s: Flat, m: Machine) {
    && k.words <= s.top <= |s.mem| && s.ip == m.pc && s.world == m.world
    && forall x :: GlobalAt(k, s.mem, m.globals, x)
  }

  /** An activation is running. */
  ghost predicate Running(k: Code, s: Flat, m: Machine) {
    && Common(k, s, m)
    && Chain(k.d, s.mem, s.world.store, s.top, s.scope, m.stack, m.frame, m.control)
    && DepthAt(k.d, m.pc, s.scope.value - s.top)
  }

  /** What a call has left below the top of the stack: the arguments, the return address, the number of captured
      cells and their addresses. */
  ghost predicate Linked(mem: Memory, store: Store, top: nat, frame: Frame, back: nat, low: nat) {
    var n, cells := |frame.args|, CaptureCount(store, frame.closure);
    && low + n + 2 + cells <= top <= |mem| && frame.locals == []
    && ArgsAt(mem, top - 1, frame.args)
    && mem[top - n - 1] == Return(back) && mem[top - n - 2] == Captures(cells)
    && ClosureOk(store, frame.closure) && CellsAt(mem, top - n - 2 - cells, cells, frame.closure)
  }

  ghost predicate AtEntry(k: Code, m: Machine) {
    && m.pc < |k.p| && k.p[m.pc].BEGIN? && k.p[m.pc].nargs == |m.frame.args|
    && (k.p[m.pc].closure == [] ==> CaptureCount(m.world.store, m.frame.closure) == 0)
  }

  /** A function has been called, its BEGIN is to come. */
  ghost predicate Pending(k: Code, s: Flat, m: Machine) {
    && Common(k, s, m) && AtEntry(k, m) && m.control.Cons?
    && Linked(s.mem, s.world.store, s.top, m.frame, m.control.head.back, k.words)
    && Chain(k.d, s.mem, s.world.store, s.top, s.scope, m.stack, m.control.head.frame, m.control.tail)
    && DepthAt(k.d, m.control.head.back, s.scope.value - s.top + 1)
  }

  /** The program has not got to its first BEGIN. */
  ghost predicate Starting(k: Code, s: Flat, m: Machine) {
    && Common(k, s, m) && s.scope == None && s.top == |s.mem| && m.pc <= k.start
    && m.control == Nil && m.stack == Nil && m.frame == Frame([], [], None)
  }

  ghost predicate Represents(k: Code, s: Flat, m: Machine) {
    Running(k, s, m) || Pending(k, s, m) || Starting(k, s, m)
  }

  // ---- instructions that stay within an activation ----

  /** The state changes from t on only where it says. */
  ghost predicate SameAbove(mem: Memory, mem': Memory, t: nat, words: nat) {
    |mem'| == |mem| && (forall i :: t <= i < |mem| ==> mem'[i] == mem[i])
      && (forall i :: 0 <= i < words && i < |mem| ==> mem'[i] == mem[i])
  }

  lemma CommonKeeps(k: Code, s: Flat, m: Machine, s': Flat, m': Machine, t: nat)
    requires Common(k, s, m) && SameAbove(s.mem, s'.mem, t, k.words) && m'.globals == m.globals
    requires k.words <= s'.top <= |s'.mem| && s'.ip == m'.pc && s'.world == m'.world
    ensures Common(k, s', m')
  {
    forall x ensures GlobalAt(k, s'.mem, m'.globals, x) {
      assert GlobalAt(k, s.mem, m.globals, x);
    }
  }

  /** Instructions that take a operands and push a value. */
  lemma PopPush(k: Code, s: Flat, m: Machine, a: nat, v: Value, s': Flat, m': Machine)
    requires Running(k, s, m) && s.top + a <= s.scope.value && Take(a, m.stack).Some?
    requires s'.top + 1 == s.top + a && k.words <= s'.top && SameAbove(s.mem, s'.mem, s.top + a, k.words)
    requires s'.mem[s'.top] == Data(v)
    requires s'.scope == s.scope && s'.ip == s.ip + 1 && KeepsClosures(s.world.store, s'.world.store)
    requires m' == m.(pc := m.pc + 1, stack := Cons(v, Take(a, m.stack).value.1), world := s'.world)
    requires Effect(k, m.pc, s.scope.value - s.top, a, 1)
    ensures Running(k, s', m')
  {
    hide Chain, KeepsClosures, Common;
    var t := s.top + a;
    var below := Take(a, m.stack).value.1;
    CommonRoom(k, s, m);
    ChainTop(k.d, s.mem, s.world.store, s.top, s.scope, m.stack, m.frame, m.control);
    ChainTake(k.d, s.mem, s.world.store, s.top, s.scope, m.stack, m.frame, m.control, a);
    ChainIgnores(k.d, s.mem, s'.mem, s.world.store, s'.world.store, t, s.scope, below, m.frame, m.control);
    ChainPush(k.d, s'.mem, s'.world.store, t, s.scope, below, m.frame, m.control, v);
    assert s'.mem[t - 1 := Data(v)] == s'.mem;
    CommonKeeps(k, s, m, s', m', t);
  }

  lemma CommonRoom(k: Code, s: Flat, m: Machine)
    requires Common(k, s, m)
    ensures k.words <= s.top <= |s.mem| && s.ip == m.pc && s.world == m.world
  {
  }

  /** Instructions that take a operands, if any, and go on at pc. */
  lemma PopOnly(k: Code, s: Flat, m: Machine, a: nat, pc: nat, s': Flat, m': Machine)
    requires Running(k, s, m) && s.top + a <= s.scope.value && Take(a, m.stack).Some?
    requires s' == s.(top := s.top + a, ip := pc)
    requires m' == m.(pc := pc, stack := Take(a, m.stack).value.1)
    requires DepthAt(k.d, pc, s.scope.value - s.top - a)
    ensures Running(k, s', m')
  {
    hide Chain, Common;
    ChainTake(k.d, s.mem, s.world.store, s.top, s.scope, m.stack, m.frame, m.control, a);
    CommonRoom(k, s, m);
    ChainTop(k.d, s.mem, s.world.store, s.top + a, s.scope, Take(a, m.stack).value.1, m.frame, m.control);
    CommonKeeps(k, s, m, s', m', s.top + a);
  }

  lemma ChainTop(d: Depths, mem: Memory, store: Store, t: nat, scope: Option<nat>, stack: List<Value>, frame: Frame,
      control: List<Control>)
    requires Chain(d, mem, store, t, scope, stack, frame, control)
    ensures scope.Some? && t <= scope.value && scope.value + SCOPE_WORDS <= |mem| && mem[scope.value].Scope?
  {
    hide Values, FrameAt;
  }

  // ---- calls ----

  lemma ArgsKept(mem: Memory, mem': Memory, last: int, args: seq<Value>)
    requires ArgsAt(mem, last, args) && |mem'| == |mem|
    requires forall i :: last - |args| < i < |mem| && 0 <= i ==> mem'[i] == mem[i]
    ensures ArgsAt(mem', last, args)
  {
    forall j | 0 <= j < |args| ensures DataAt(mem', last - j, args[j]) {
      assert DataAt(mem, last - j, args[j]);
    }
  }

  /** All arguments but the first, moved up by a word. */
  lemma ArgsShifted(mem: Memory, mem': Memory, last: int, args: seq<Value>)
    requires ArgsAt(mem, last, args) && |mem'| == |mem| && args != [] && last < |mem|
    requires forall i :: last - |args| < i < last && 0 <= i ==> mem'[i + 1] == mem[i]
    ensures ArgsAt(mem', last, args[1..])
  {
    forall j | 0 <= j < |args[1..]| ensures DataAt(mem', last - j, args[1..][j]) {
      assert DataAt(mem, last - (j + 1), args[j + 1]);
    }
  }

  /** A direct call: linkage below the arguments, which stay where they are. */
  lemma CallLinked(mem: Memory, store: Store, top: nat, args: seq<Value>, back: nat, low: nat)
    requires low + 2 <= top && top + |args| <= |mem| && ArgsAt(mem, top + |args| - 1, args)
    ensures Linked(mem[top - 1 := Return(back)][top - 2 := Captures(0)], store, top + |args|, Frame(args, [], None),
      back, low)
  {
    hide ArgsAt;
    var mem' := mem[top - 1 := Return(back)][top - 2 := Captures(0)];
    ArgsKept(mem, mem', top + |args| - 1, args);
  }

  lemma CallLinks(k: Code, s: Flat, m: Machine, a: nat, target: nat, vs: List<Value>, rest: List<Value>, s': Flat,
      m': Machine)
    requires Running(k, s, m) && Effect(k, m.pc, s.scope.value - s.top, a, 1) && k.words + 2 <= s.top
    requires Take(a, m.stack) == Some((vs, rest))
    requires s' == s.(mem := s.mem[s.top - 1 := Return(m.pc + 1)][s.top - 2 := Captures(0)], top := s.top + a,
      ip := target)
    requires m' == m.(pc := target, stack := rest, control := Cons(Control(m.pc + 1, m.frame), m.control),
      frame := Frame(BottomUp(vs), [], None))
    requires AtEntry(k, m')
    ensures Pending(k, s', m')
  {
    hide Chain, Common, Linked, AtEntry, BottomUp, Take, ArgsAt, KeepsClosures;
    var t := s.top + a;
    CommonRoom(k, s, m);
    ChainTake(k.d, s.mem, s.world.store, s.top, s.scope, m.stack, m.frame, m.control, a);
    ChainTop(k.d, s.mem, s.world.store, t, s.scope, rest, m.frame, m.control);
    CallLinked(s.mem, s.world.store, s.top, BottomUp(vs), m.pc + 1, k.words);
    KeepsSame(s.world.store);
    ChainIgnores(k.d, s.mem, s'.mem, s.world.store, s.world.store, t, s.scope, rest, m.frame, m.control);
    CommonKeeps(k, s, m, s', m', t);
  }

  /** A call through a closure: the arguments move up over the closure, the linkage follows. */
  ghost predicate ClosureCalled(mem: Memory, mem': Memory, top: nat, a: nat, back: nat, cells: nat, c: nat) {
    && |mem'| == |mem| && cells + 1 <= top && top + a < |mem|
    && (forall i :: top <= i < top + a ==> mem'[i + 1] == mem[i])
    && mem'[top] == Return(back) && mem'[top - 1] == Captures(cells)
    && CellsAt(mem', top - 1 - cells, cells, Some(c))
  }

  lemma ClosureLinked(mem: Memory, mem': Memory, store: Store, top: nat, a: nat, back: nat, c: nat, es: seq<Value>,
      low: nat)
    requires c < |store| && store[c].ClosureObject? && |es| == a + 1 && ArgsAt(mem, top + a, es)
    requires ClosureCalled(mem, mem', top, a, back, |store[c].cells|, c) && low + 1 + |store[c].cells| <= top
    ensures Linked(mem', store, top + a + 1, Frame(es[1..], [], Some(c)), back, low)
  {
    hide ArgsAt, CellsAt;
    ArgsShifted(mem, mem', top + a, es);
  }

  lemma CallClosureLinks(k: Code, s: Flat, m: Machine, a: nat, c: nat, target: nat, vs: List<Value>, rest: List<Value>,
      s': Flat, m': Machine)
    requires Running(k, s, m) && Effect(k, m.pc, s.scope.value - s.top, a + 1, 1)
    requires Take(a + 1, m.stack) == Some((vs, rest))
    requires c < |s.world.store| && s.world.store[c].ClosureObject? && k.words + 1 + |s.world.store[c].cells| <= s.top
    requires BottomUp(vs) != []
    requires m' == m.(pc := target, stack := rest, control := Cons(Control(m.pc + 1, m.frame), m.control),
      frame := Frame(BottomUp(vs)[1..], [], Some(c)))
    requires AtEntry(k, m')
    requires s'.top == s.top + a + 1 && s'.ip == target && s'.scope == s.scope && s'.world == s.world
    requires SameAbove(s.mem, s'.mem, s.top + a + 1, k.words)
    requires ClosureCalled(s.mem, s'.mem, s.top, a, m.pc + 1, |s.world.store[c].cells|, c)
    ensures Pending(k, s', m')
  {
    hide Chain, Common, Linked, AtEntry, BottomUp, Take, ArgsAt, KeepsClosures, ClosureCalled;
    var t := s.top + a + 1;
    CommonRoom(k, s, m);
    ChainTake(k.d, s.mem, s.world.store, s.top, s.scope, m.stack, m.frame, m.control, a + 1);
    ChainTop(k.d, s.mem, s.world.store, t, s.scope, rest, m.frame, m.control);
    ClosureLinked(s.mem, s'.mem, s.world.store, s.top, a, m.pc + 1, c, BottomUp(vs), k.words);
    KeepsSame(s.world.store);
    ChainIgnores(k.d, s.mem, s'.mem, s.world.store, s.world.store, t, s.scope, rest, m.frame, m.control);
    CommonKeeps(k, s, m, s', m', t);
  }

  /** The record a BEGIN makes for a pending call, or for the start of the program. */
  ghost predicate Begun(k: Code, s: Flat, s': Flat, nargs: nat, nlocals: nat, captured: bool, cells: nat) {
    var base := s'.top;
    && |s'.mem| == |s.mem| && s.top <= |s.mem| && base + SCOPE_WORDS <= |s'.mem| && s'.mem[base].Scope?
      && s'.scope == Some(base)
    && s'.ip == s.ip + 1 && s'.world == s.world
    && k.words <= base && SameAbove(s.mem, s'.mem, base + SCOPE_WORDS, k.words)
    && var r := s'.mem[base].record;
       var args := if captured then s.top - nargs - 2 else s.top - nargs;
       && nargs + 2 <= s.top && r.origin == s.mem[s.top - nargs - 1] && r.outer == s.scope && r.limit == s.top
       && r.vars == base + SCOPE_WORDS && r.varCount == nlocals && r.args == args
       && r.argCount == (if captured then nargs + 2 else nargs)
       && r.accCount == cells
       && r.vars + nlocals + cells == args && args >= 0
       && (if captured then r.acc == r.vars + nlocals else r.acc == r.vars && cells == 0)
  }

  lemma BeginFrame(k: Code, s: Flat, m: Machine, s': Flat, nlocals: nat)
    requires Pending(k, s, m) && k.p[m.pc].nlocals == nlocals
    requires
      var captured := k.p[m.pc].closure != [];
      Begun(k, s, s', |m.frame.args|, nlocals, captured,
        if captured then CaptureCount(m.world.store, m.frame.closure) else 0)
    ensures FrameAt(s'.mem, s'.world.store, s'.top, s'.mem[s'.top].record, m.frame.(locals := seq(nlocals, _ => Empty)))
  {
    hide Chain, GlobalAt;
    var r := s'.mem[s'.top].record;
    forall j | 0 <= j < |m.frame.args| ensures DataAt(s'.mem, r.args + r.argCount - 1 - j, m.frame.args[j]) {
      assert DataAt(s.mem, s.top - 1 - j, m.frame.args[j]);
    }
    forall i | 0 <= i < r.accCount ensures CellAt(s'.mem, r.acc, i, m.frame.closure.value) {
      assert CellAt(s.mem, s.top - |m.frame.args| - 2 - r.accCount, i, m.frame.closure.value);
    }
  }

  /** BEGIN claims the linkage again and sets up the activation. */
  lemma BeginRuns(k: Code, s: Flat, m: Machine, s': Flat, m': Machine)
    requires Pending(k, s, m) && Sound(k)
    requires
      var captured := k.p[m.pc].closure != [];
      Begun(k, s, s', |m.frame.args|, k.p[m.pc].nlocals, captured,
        if captured then CaptureCount(m.world.store, m.frame.closure) else 0)
    requires m' == m.(pc := m.pc + 1, frame := m.frame.(locals := seq(k.p[m.pc].nlocals, _ => Empty)))
    ensures Running(k, s', m')
  {
    hide Chain, Common, FrameAt, GlobalAt;
    var nlocals := k.p[m.pc].nlocals;
    BeginFrame(k, s, m, s', nlocals);
    CommonRoom(k, s, m);
    ChainTop(k.d, s.mem, s.world.store, s.top, s.scope, m.stack, m.control.head.frame, m.control.tail);
    KeepsSame(s.world.store);
    ChainIgnores(k.d, s.mem, s'.mem, s.world.store, s.world.store, s.top, s.scope, m.stack, m.control.head.frame,
      m.control.tail);
    CommonKeeps(k, s, m, s', m', s.top);
    BeginDepth(k, m.pc);
    ChainBegins(k.d, s'.mem, s'.world.store, s'.top, m.stack, m'.frame, m.control, s.top);
    ChainTop(k.d, s'.mem, s'.world.store, s'.top, s'.scope, m'.stack, m'.frame, m'.control);
  }

  lemma BeginDepth(k: Code, pc: nat)
    requires Sound(k) && pc < |k.p| && k.p[pc].BEGIN?
    ensures DepthAt(k.d, pc + 1, 0)
  {
    assert Balanced(k, pc);
  }

  /** A fresh activation on top of a caller's. */
  lemma ChainBegins(d: Depths, mem: Memory, store: Store, base: nat, stack: List<Value>, frame: Frame,
      control: List<Control>, limit: nat)
    requires base + SCOPE_WORDS <= |mem| && mem[base].Scope? && control.Cons?
    requires
      var r := mem[base].record;
      && FrameAt(mem, store, base, r, frame) && r.limit == limit && r.origin == Return(control.head.back)
        && r.outer.Some?
      && DepthAt(d, control.head.back, r.outer.value - limit + 1)
      && Chain(d, mem, store, limit, r.outer, stack, control.head.frame, control.tail)
    ensures Chain(d, mem, store, base, Some(base), stack, frame, control)
  {
    hide FrameAt;
    assert Drop(base - base, stack) == stack;
  }

  /** The first BEGIN. */
  lemma StartRuns(k: Code, s: Flat, m: Machine, s': Flat, m': Machine)
    requires Starting(k, s, m) && Sound(k) && m.pc < |k.p| && k.p[m.pc].BEGIN? && k.p[m.pc].closure == []
    requires Begun(k, s, s', k.p[m.pc].nargs, k.p[m.pc].nlocals, false, 0)
    requires m' == m.(pc := m.pc + 1, frame := m.frame.(locals := seq(k.p[m.pc].nlocals, _ => Empty)))
    ensures Running(k, s', m')
  {
    hide Common, GlobalAt;
    CommonRoom(k, s, m);
    CommonKeeps(k, s, m, s', m', s.top);
    BeginDepth(k, m.pc);
    assert Drop(0, m.stack) == Nil;
  }

  /** END leaves one result where the arguments were and goes back to the caller. */
  lemma EndReturns(k: Code, s: Flat, m: Machine, s': Flat, m': Machine)
    requires Running(k, s, m) && m.control.Cons? && s.scope.value == s.top + 1
    requires
      var r := s.mem[s.scope.value].record;
      && m.stack.Cons? && r.limit > 0
      && s' == s.(mem := s.mem[r.limit - 1 := Data(m.stack.head)], top := r.limit - 1, ip := m.control.head.back,
        scope := r.outer)
    requires m' == m.(pc := m.control.head.back, control := m.control.tail, frame := m.control.head.frame)
    ensures Running(k, s', m')
  {
    hide Common, FrameAt;
    var r := s.mem[s.scope.value].record;
    var c := m.control.head;
    FrameLimit(s.mem, s.world.store, s.scope.value, r, m.frame);
    CommonRoom(k, s, m);
    assert m.stack.tail == Drop(1, m.stack) by {
      assert Drop(0, m.stack.tail) == m.stack.tail;
    }
    ChainPush(k.d, s.mem, s.world.store, r.limit, r.outer, m.stack.tail, c.frame, m.control.tail, m.stack.head);
    CommonKeeps(k, s, m, s', m', r.limit);
  }

  /** What END finds. */
  lemma EndFinds(k: Code, s: Flat, m: Machine)
    requires Running(k, s, m) && s.scope.value == s.top + 1
    ensures m.stack.Cons? && s.top < |s.mem| && s.mem[s.top] == Data(m.stack.head)
    ensures
      var r := s.mem[s.scope.value].record;
      && (r.outer.None? <==> m.control.Nil?)
      && (m.control.Cons? ==> r.origin == Return(m.control.head.back))
      && s.scope.value + SCOPE_WORDS <= r.limit <= |s.mem|
  {
    hide Common;
  }

  // ---- variables ----

  /** Where resolve_slot finds a variable: a word of memory, or a captured cell. */
  datatype Slot = InMemory(address: int) | InCell(owner: nat, index: nat) | Nowhere

  function Resolve(k: Code, mem: Memory, scope: Option<nat>, d: Designation): Slot {
    if d.Global? then (if d.name in k.slots then InMemory(k.slots[d.name]) else Nowhere)
    else if scope.None? || scope.value >= |mem| || !mem[scope.value].Scope? then Nowhere
    else
      var r := mem[scope.value].record;
      match d
      case Local(i) => if i < r.varCount then InMemory(r.vars + i) else Nowhere
      case Arg(i) => if i < r.argCount then InMemory(r.args + r.argCount - 1 - i) else Nowhere
      case Access(i) =>
        if i < r.accCount && r.acc + i < |mem|
          && mem[r.acc + i].Cell? then InCell(mem[r.acc + i].owner, mem[r.acc + i].index)
        else Nowhere
      case _ => Nowhere
  }

  /** Locals are read only once they have been assigned. */
  ghost predicate Assigned(m: Machine, d: Designation) {
    d.Local? && d.index < |m.frame.locals| ==> m.frame.locals[d.index] != Empty
  }

  ghost predicate Holds(mem: Memory, store: Store, slot: Slot, v: Value) {
    match slot
    case InMemory(a) => DataAt(mem, a, v)
    case InCell(c, i) => c < |store| && store[c].ClosureObject? && i < |store[c].cells| && store[c].cells[i] == v
    case Nowhere => false
  }

  /** The interpreter's slots hold what the machine loads. */
  lemma LoadFinds(k: Code, s: Flat, m: Machine, d: Designation)
    requires Running(k, s, m) && Placed(k, d) && Load(m, d).Some? && Assigned(m, d)
    ensures Holds(s.mem, s.world.store, Resolve(k, s.mem, s.scope, d), Load(m, d).value)
  {
    hide Values, Chain;
    ChainFrame(k.d, s.mem, s.world.store, s.top, s.scope, m.stack, m.frame, m.control);
    var r := s.mem[s.scope.value].record;
    match d
    case Global(x) => assert GlobalAt(k, s.mem, m.globals, x);
    case Local(i) => assert LocalAt(s.mem, r.vars + i, m.frame.locals[i]);
    case Arg(i) => assert DataAt(s.mem, r.args + r.argCount - 1 - i, m.frame.args[i]);
    case Access(i) => assert CellAt(s.mem, r.acc, i, m.frame.closure.value);
    case Fun(_) =>
  }

  lemma ChainFrame(d: Depths, mem: Memory, store: Store, t: nat, scope: Option<nat>, stack: List<Value>, frame: Frame,
      control: List<Control>)
    requires Chain(d, mem, store, t, scope, stack, frame, control)
    ensures RecordAt(mem, t, scope) && FrameAt(mem, store, scope.value, mem[scope.value].record, frame)
  {
    hide Values, FrameAt;
  }

  /** What a store changes. */
  ghost predicate Written(k: Code, s: Flat, s': Flat, d: Designation, v: Value) {
    match Resolve(k, s.mem, s.scope, d)
    case InMemory(a) => 0 <= a < |s.mem| && s' == s.(mem := s.mem[a := Data(v)], ip := s.ip + 1)
    case InCell(c, i) =>
      && c < |s.world.store| && s.world.store[c].ClosureObject? && i < |s.world.store[c].cells|
      && var o := s.world.store[c];
         s' == s.(world := s.world.(store := s.world.store[c := o.(cells := o.cells[i := v])]), ip := s.ip + 1)
    case Nowhere => false
  }

  lemma StoreFinds(k: Code, s: Flat, m: Machine, d: Designation)
    requires Running(k, s, m) && Sound(k) && Placed(k, d) && m.stack.Cons? && AssignTo(m, d, m.stack.head).Some?
    ensures
      match Resolve(k, s.mem, s.scope, d)
      case InMemory(a) => 0 <= a < |s.mem|
      case InCell(c, i) => c < |s.world.store| && s.world.store[c].ClosureObject? && i < |s.world.store[c].cells|
      case Nowhere => false
  {
    hide Values, Chain;
    ChainFrame(k.d, s.mem, s.world.store, s.top, s.scope, m.stack, m.frame, m.control);
    var r := s.mem[s.scope.value].record;
    if d.Access? {
      assert CellAt(s.mem, r.acc, d.index, m.frame.closure.value);
    }
  }

  /** A store reaches the variable the machine assigns, and nothing else. */
  lemma StoreRuns(k: Code, s: Flat, m: Machine, d: Designation, s': Flat, m1: Machine)
    requires Running(k, s, m) && Sound(k) && Placed(k, d) && m.stack.Cons? && AssignTo(m, d, m.stack.head) == Some(m1)
    requires Written(k, s, s', d, m.stack.head) && Effect(k, m.pc, s.scope.value - s.top, 1, 1)
    ensures Running(k, s', m1.(pc := m1.pc + 1))
  {
    hide Chain, Common, Sound, FrameAt;
    var v := m.stack.head;
    ChainFrame(k.d, s.mem, s.world.store, s.top, s.scope, m.stack, m.frame, m.control);
    CommonRoom(k, s, m);
    match d
    case Global(x) =>
      StoreGlobal(k, s, m, x, v);
      KeepsSame(s.world.store);
      ChainIgnores(k.d, s.mem, s'.mem, s.world.store, s.world.store, s.top, s.scope, m.stack, m.frame, m.control);
    case Local(i) =>
      FrameLocal(s.mem, s.world.store, s.scope.value, m.frame, i, v);
      ChainWrites(k.d, s.mem, s'.mem, s.world.store, s.top, s.scope, m.stack, m.frame, m1.frame, m.control,
        s.mem[s.scope.value].record.vars + i);
      CommonWrites(k, s, m, s', m1);
    case Arg(i) =>
      FrameArg(s.mem, s.world.store, s.scope.value, m.frame, i, v);
      var r := s.mem[s.scope.value].record;
      ChainWrites(k.d, s.mem, s'.mem, s.world.store, s.top, s.scope, m.stack, m.frame, m1.frame, m.control,
        r.args + r.argCount - 1 - i);
      CommonWrites(k, s, m, s', m1);
    case Access(i) =>
      CellFound(s.mem, s.world.store, s.scope.value, m.frame, i);
      ChainIgnores(k.d, s.mem, s.mem, s.world.store, s'.world.store, s.top, s.scope, m.stack, m.frame, m.control);
      CommonKeeps(k, s, m, s', m1.(pc := m1.pc + 1), 0);
    case Fun(_) =>
  }

  lemma CellFound(mem: Memory, store: Store, s: nat, frame: Frame, i: nat)
    requires s < |mem| && mem[s].Scope? && FrameAt(mem, store, s, mem[s].record, frame)
    requires frame.closure.Some? && frame.closure.value < |store| && store[frame.closure.value].ClosureObject?
    requires i < |store[frame.closure.value].cells|
    ensures
      var r := mem[s].record;
      i < r.accCount && r.acc + i < |mem| && mem[r.acc + i] == Cell(frame.closure.value, i)
  {
    assert CellAt(mem, mem[s].record.acc, i, frame.closure.value);
  }

  lemma StoreGlobal(k: Code, s: Flat, m: Machine, x: string, v: Value)
    requires Common(k, s, m) && Sound(k) && x in k.slots
    ensures k.slots[x] < k.words <= |s.mem|
    ensures
      var s' := s.(mem := s.mem[k.slots[x] := Data(v)], ip := s.ip + 1);
      Common(k, s', m.(globals := m.globals[x := v], pc := m.pc + 1))
  {
    hide Balanced;
    var s' := s.(mem := s.mem[k.slots[x] := Data(v)], ip := s.ip + 1);
    var globals := m.globals[x := v];
    forall y ensures GlobalAt(k, s'.mem, globals, y) {
      assert GlobalAt(k, s.mem, m.globals, y);
    }
  }

  lemma CommonWrites(k: Code, s: Flat, m: Machine, s': Flat, m1: Machine)
    requires Common(k, s, m) && m1.globals == m.globals && m1.pc == m.pc && m1.world == m.world
    requires s' == s.(mem := s'.mem, ip := s.ip + 1) && |s'.mem| == |s.mem|
    requires forall i :: 0 <= i < s.top && i < |s.mem| ==> s'.mem[i] == s.mem[i]
    ensures Common(k, s', m1.(pc := m1.pc + 1))
  {
    forall x ensures GlobalAt(k, s'.mem, m1.globals, x) {
      assert GlobalAt(k, s.mem, m.globals, x);
    }
  }

  lemma FrameLocal(mem: Memory, store: Store, s: nat, frame: Frame, i: nat, v: Value)
    requires s < |mem| && mem[s].Scope? && FrameAt(mem, store, s, mem[s].record, frame) && i < |frame.locals|
    ensures
      var a := mem[s].record.vars + i;
      && s < a < mem[s].record.limit <= |mem|
      && FrameAt(mem[a := Data(v)], store, s, mem[s].record, frame.(locals := frame.locals[i := v]))
  {
    var r := mem[s].record;
    var mem' := mem[r.vars + i := Data(v)];
    var locals := frame.locals[i := v];
    forall j | 0 <= j < |locals| ensures LocalAt(mem', r.vars + j, locals[j]) {
      assert LocalAt(mem, r.vars + j, frame.locals[j]);
    }
    forall j | 0 <= j < |frame.args| ensures DataAt(mem', r.args + r.argCount - 1 - j, frame.args[j]) {
      assert DataAt(mem, r.args + r.argCount - 1 - j, frame.args[j]);
    }
    forall j | 0 <= j < r.accCount ensures CellAt(mem', r.acc, j, frame.closure.value) {
      assert CellAt(mem, r.acc, j, frame.closure.value);
    }
  }

  lemma FrameArg(mem: Memory, store: Store, s: nat, frame: Frame, i: nat, v: Value)
    requires s < |mem| && mem[s].Scope? && FrameAt(mem, store, s, mem[s].record, frame) && i < |frame.args|
    ensures
      var a := mem[s].record.args + mem[s].record.argCount - 1 - i;
      && s < a < mem[s].record.limit <= |mem|
      && FrameAt(mem[a := Data(v)], store, s, mem[s].record, frame.(args := frame.args[i := v]))
  {
    var r := mem[s].record;
    var mem' := mem[r.args + r.argCount - 1 - i := Data(v)];
    forall j | 0 <= j < |frame.locals| ensures LocalAt(mem', r.vars + j, frame.locals[j]) {
      assert LocalAt(mem, r.vars + j, frame.locals[j]);
    }
    var args := frame.args[i := v];
    forall j | 0 <= j < |args| ensures DataAt(mem', r.args + r.argCount - 1 - j, args[j]) {
      assert DataAt(mem, r.args + r.argCount - 1 - j, frame.args[j]);
    }
    forall j | 0 <= j < r.accCount ensures CellAt(mem', r.acc, j, frame.closure.value) {
      assert CellAt(mem, r.acc, j, frame.closure.value);
    }
  }

  /** A write inside the running activation. */
  lemma ChainWrites(d: Depths, mem: Memory, mem': Memory, store: Store, t: nat, scope: Option<nat>, stack: List<Value>,
      frame: Frame, frame': Frame, control: List<Control>, a: int)
    requires Chain(d, mem, store, t, scope, stack, frame, control)
    requires scope.value < a < mem[scope.value].record.limit <= |mem|
    requires |mem'| == |mem| && mem' == mem[a := mem'[a]]
    requires FrameAt(mem', store, scope.value, mem[scope.value].record, frame')
    ensures Chain(d, mem', store, t, scope, stack, frame', control)
  {
    hide FrameAt, KeepsClosures;
    var s, r := scope.value, mem[scope.value].record;
    var rest := Drop(s - t, stack);
    ValuesIgnore(mem, mem', t, s, stack, rest);
    KeepsSame(store);
    match control
    case Nil =>
    case Cons(c, outer) => ChainIgnores(d, mem, mem', store, store, r.limit, r.outer, rest, c.frame, outer);
  }
}
