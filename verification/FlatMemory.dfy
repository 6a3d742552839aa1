/** The memory of the bytecode interpreter (byterun/interpretatorv1_0.cpp:127-291): globals at the bottom, one
    stack growing down from the top that holds operands, arguments, linkage, captured cells, locals and scope
    records; and how it represents a configuration of the stack machine. */
module FlatMemory {
  import opened Wrappers
  import opened LamaValues
  import opened StackMachine

  /** The scope record Sc; addresses are positions in memory. */
  datatype Record = Record(
    origin: Word, outer: Option<nat>, vars: nat, args: nat, acc: nat,
    varCount: nat, argCount: nat, accCount: nat, header: nat, limit: nat)

  /** A word of memory: a value, a return address, a capture count, the address of a captured cell, or part of a
      scope record (the record counts for its first word). */
  datatype Word = Data(v: Value) | Return(back: nat) | Captures(n: nat) | Cell(owner: nat, index: nat)
      | Scope(record: Record) | Blank

  type Memory = seq<Word>

  /** The words a scope record takes. */
  const SCOPE_WORDS: nat := 10

  function Drop<T>(n: nat, xs: List<T>): List<T> {
    if n == 0 || xs.Nil? then xs else Drop(n - 1, xs.tail)
  }

  // ---- operands ----

  /** The words from t to s hold the stack down to rest, the top first. */
  ghost predicate Values(mem: Memory, t: nat, s: nat, stack: List<Value>, rest: List<Value>)
    decreases s - t
  {
    t <= s <= |mem| &&
    if t == s then stack == rest
    else stack.Cons? && mem[t] == Data(stack.head) && Values(mem, t + 1, s, stack.tail, rest)
  }

  lemma {:induction false} ValuesIgnore(mem: Memory, mem': Memory, t: nat, s: nat, stack: List<Value>,
      rest: List<Value>)
    requires Values(mem, t, s, stack, rest) && |mem'| == |mem|
    requires forall i :: t <= i < s ==> mem'[i] == mem[i]
    ensures Values(mem', t, s, stack, rest)
    decreases s - t
  {
    if t < s {
      ValuesIgnore(mem, mem', t + 1, s, stack.tail, rest);
    }
  }

  lemma {:induction false} ValuesRest(mem: Memory, t: nat, s: nat, stack: List<Value>, rest: List<Value>)
    requires Values(mem, t, s, stack, rest)
    ensures Drop(s - t, stack) == rest && Length(stack) == s - t + Length(rest)
    decreases s - t
  {
    if t < s {
      ValuesRest(mem, t + 1, s, stack.tail, rest);
    }
  }

  /** The first n words are the n topmost values; taken as arguments, the last is on top. */
  lemma {:induction false} ValuesTake(mem: Memory, t: nat, s: nat, stack: List<Value>, rest: List<Value>, n: nat)
    requires Values(mem, t, s, stack, rest) && n <= s - t
    ensures Take(n, stack).Some?
    ensures
      var (vs, below) := Take(n, stack).value;
      && Values(mem, t + n, s, below, rest) && |BottomUp(vs)| == n
      && (forall j :: 0 <= j < n ==> mem[t + n - 1 - j] == Data(BottomUp(vs)[j]))
    decreases n
  {
    if n > 0 {
      ValuesTake(mem, t + 1, s, stack.tail, rest, n - 1);
    }
  }

  // ---- activations ----

  ghost predicate LocalAt(mem: Memory, a: nat, v: Value) {
    a < |mem| && (v == Empty || mem[a] == Data(v))
  }

  ghost predicate DataAt(mem: Memory, a: int, v: Value) {
    0 <= a < |mem| && mem[a] == Data(v)
  }

  ghost predicate CellAt(mem: Memory, acc: int, i: nat, owner: nat) {
    0 <= acc + i < |mem| && mem[acc + i] == Cell(owner, i)
  }

  /** How many cells the frame's closure has captured. */
  ghost function CaptureCount(store: Store, closure: Option<nat>): nat {
    match closure
    case None => 0
    case Some(a) => if a < |store| && store[a].ClosureObject? then |store[a].cells| else 0
  }

  ghost predicate ClosureOk(store: Store, closure: Option<nat>) {
    closure.Some? ==> closure.value < |store| && store[closure.value].ClosureObject?
  }

  /** The words from acc on are the addresses of the closure's cells. */
  ghost predicate CellsAt(mem: Memory, acc: int, count: nat, closure: Option<nat>) {
    (closure == None ==> count == 0) && forall i :: 0 <= i < count ==> CellAt(mem, acc, i, closure.value)
  }

  ghost predicate LocalsAt(mem: Memory, vars: nat, locals: seq<Value>) {
    forall j :: 0 <= j < |locals| ==> LocalAt(mem, vars + j, locals[j])
  }

  /** Arguments lie in order towards lower addresses, the first at last. */
  ghost predicate ArgsAt(mem: Memory, last: int, args: seq<Value>) {
    forall j :: 0 <= j < |args| ==> DataAt(mem, last - j, args[j])
  }

  /** The parts of an activation follow each other without overlap. */
  ghost predicate Ordered(r: Record, s: nat, size: nat) {
    && r.vars == s + SCOPE_WORDS
    && (r.accCount > 0 ==> r.acc == r.vars + r.varCount)
    && r.vars + r.varCount + r.accCount == r.args && r.args + r.argCount == r.limit <= size
  }

  ghost predicate FrameAt(mem: Memory, store: Store, s: nat, r: Record, frame: Frame) {
    && Ordered(r, s, |mem|)
    && |frame.locals| == r.varCount && LocalsAt(mem, r.vars, frame.locals)
    && |frame.args| <= r.argCount <= |frame.args| + 2 && ArgsAt(mem, r.args + r.argCount - 1, frame.args)
    && ClosureOk(store, frame.closure) && CaptureCount(store, frame.closure) == r.accCount
    && CellsAt(mem, r.acc, r.accCount, frame.closure)
  }

  ghost predicate RecordAt(mem: Memory, t: nat, scope: Option<nat>) {
    scope.Some? && t <= scope.value && scope.value + SCOPE_WORDS <= |mem| && mem[scope.value].Scope?
  }

  /** How many operands an activation has at each position; negative where none gets to. */
  type Depths = seq<int>

  ghost predicate DepthAt(d: Depths, pc: nat, n: int) {
    pc < |d| && d[pc] == n
  }

  /** The activations from the innermost out, its operands from t on. */
  ghost predicate Chain(d: Depths, mem: Memory, store: Store, t: nat, scope: Option<nat>, stack: List<Value>,
      frame: Frame, control: List<Control>)
    decreases control
  {
    && RecordAt(mem, t, scope)
    && var s, r := scope.value, mem[scope.value].record;
       var rest := Drop(s - t, stack);
       && Values(mem, t, s, stack, rest) && FrameAt(mem, store, s, r, frame)
       && (match control
           case Nil => r.outer == None && rest == Nil && r.limit == |mem|
           case Cons(c, outer) =>
             && r.outer.Some? && r.origin == Return(c.back)
             && DepthAt(d, c.back, r.outer.value - r.limit + 1)
             && Chain(d, mem, store, r.limit, r.outer, rest, c.frame, outer))
  }

  /** Closures keep their number of cells, nothing else turns into a closure's place. */
  ghost predicate KeepsClosures(store: Store, store': Store) {
    && |store| <= |store'|
    && forall a :: 0 <= a < |store| && store[a].ClosureObject? ==>
         store'[a].ClosureObject? && |store'[a].cells| == |store[a].cells|
  }

  lemma FrameIgnores(mem: Memory, mem': Memory, store: Store, store': Store, s: nat, r: Record, frame: Frame)
    requires FrameAt(mem, store, s, r, frame) && |mem'| == |mem| && KeepsClosures(store, store')
    requires forall i :: s <= i < |mem| ==> mem'[i] == mem[i]
    ensures FrameAt(mem', store', s, r, frame)
  {
    forall j | 0 <= j < |frame.locals| ensures LocalAt(mem', r.vars + j, frame.locals[j]) {
      assert LocalAt(mem, r.vars + j, frame.locals[j]);
    }
    forall j | 0 <= j < |frame.args| ensures DataAt(mem', r.args + r.argCount - 1 - j, frame.args[j]) {
      assert DataAt(mem, r.args + r.argCount - 1 - j, frame.args[j]);
    }
    forall i | 0 <= i < r.accCount ensures CellAt(mem', r.acc, i, frame.closure.value) {
      assert CellAt(mem, r.acc, i, frame.closure.value);
    }
  }

  /** Words below the top do not matter, nor do changes of the store that keep closures. */
  lemma {:induction false} ChainIgnores(d: Depths, mem: Memory, mem': Memory, store: Store, store': Store, t: nat,
      scope: Option<nat>, stack: List<Value>, frame: Frame, control: List<Control>)
    requires Chain(d, mem, store, t, scope, stack, frame, control) && |mem'| == |mem| && KeepsClosures(store, store')
    requires forall i :: t <= i < |mem| ==> mem'[i] == mem[i]
    ensures Chain(d, mem', store', t, scope, stack, frame, control)
    decreases control
  {
    hide Values, FrameAt, KeepsClosures, Drop;
    var s, r := scope.value, mem[scope.value].record;
    var rest := Drop(s - t, stack);
    ValuesIgnore(mem, mem', t, s, stack, rest);
    FrameIgnores(mem, mem', store, store', s, r, frame);
    FrameLimit(mem, store, s, r, frame);
    match control
    case Nil =>
    case Cons(c, outer) => ChainIgnores(d, mem, mem', store, store', r.limit, r.outer, rest, c.frame, outer);
  }

  lemma FrameLimit(mem: Memory, store: Store, s: nat, r: Record, frame: Frame)
    requires FrameAt(mem, store, s, r, frame)
    ensures s + SCOPE_WORDS <= r.limit <= |mem|
  {
  }

  lemma KeepsSame(store: Store)
    ensures KeepsClosures(store, store)
  {
  }

  /** Push below the top. */
  lemma ChainPush(d: Depths, mem: Memory, store: Store, t: nat, scope: Option<nat>, stack: List<Value>, frame: Frame,
      control: List<Control>, v: Value)
    requires Chain(d, mem, store, t, scope, stack, frame, control) && 0 < t
    ensures Chain(d, mem[t - 1 := Data(v)], store, t - 1, scope, Cons(v, stack), frame, control)
  {
    hide FrameAt, KeepsClosures;
    var mem' := mem[t - 1 := Data(v)];
    var s := scope.value;
    KeepsSame(store);
    ChainIgnores(d, mem, mem', store, store, t, scope, stack, frame, control);
    assert Drop(s - (t - 1), Cons(v, stack)) == Drop(s - t, stack);
  }

  /** The top operand and what is below it. */
  lemma ChainPop(d: Depths, mem: Memory, store: Store, t: nat, scope: Option<nat>, stack: List<Value>, frame: Frame,
      control: List<Control>)
    requires Chain(d, mem, store, t, scope, stack, frame, control) && t < scope.value
    ensures stack.Cons? && mem[t] == Data(stack.head)
    ensures Chain(d, mem, store, t + 1, scope, stack.tail, frame, control)
  {
    hide FrameAt;
  }

  /** Popping as many operands as a call takes. */
  lemma ChainTake(d: Depths, mem: Memory, store: Store, t: nat, scope: Option<nat>, stack: List<Value>, frame: Frame,
      control: List<Control>, n: nat)
    requires Chain(d, mem, store, t, scope, stack, frame, control) && t + n <= scope.value
    ensures Take(n, stack).Some?
    ensures
      var (vs, below) := Take(n, stack).value;
      && |BottomUp(vs)| == n && ArgsAt(mem, t + n - 1, BottomUp(vs))
      && Chain(d, mem, store, t + n, scope, below, frame, control)
  {
    hide FrameAt;
    var s := scope.value;
    var rest := Drop(s - t, stack);
    ValuesTake(mem, t, s, stack, rest, n);
    var (vs, below) := Take(n, stack).value;
    ValuesRest(mem, t + n, s, below, rest);
    forall j | 0 <= j < n ensures DataAt(mem, t + n - 1 - j, BottomUp(vs)[j]) {
      assert mem[t + n - 1 - j] == Data(BottomUp(vs)[j]);
    }
  }

  // ---- space ----

  /** An activation takes its record, locals, captured cells and arguments, and at most the two words of linkage. */
  ghost function FrameSize(store: Store, frame: Frame): nat {
    SCOPE_WORDS + |frame.locals| + CaptureCount(store, frame.closure) + |frame.args| + 2
  }

  ghost function ControlSize(store: Store, control: List<Control>): nat {
    match control
    case Nil => 0
    case Cons(c, outer) => FrameSize(store, c.frame) + ControlSize(store, outer)
  }

  /** The stack space a configuration takes. */
  ghost function Usage(store: Store, stack: List<Value>, frame: Frame, control: List<Control>): nat {
    Length(stack) + FrameSize(store, frame) + ControlSize(store, control)
  }

  lemma {:induction false} ChainSize(d: Depths, mem: Memory, store: Store, t: nat, scope: Option<nat>,
      stack: List<Value>, frame: Frame, control: List<Control>)
    requires Chain(d, mem, store, t, scope, stack, frame, control)
    ensures t <= |mem| <= t + Usage(store, stack, frame, control)
    decreases control
  {
    hide Values;
    var s, r := scope.value, mem[scope.value].record;
    var rest := Drop(s - t, stack);
    ValuesRest(mem, t, s, stack, rest);
    match control
    case Nil =>
    case Cons(c, outer) => ChainSize(d, mem, store, r.limit, r.outer, rest, c.frame, outer);
  }
}
