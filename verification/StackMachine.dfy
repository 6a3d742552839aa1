/** The stack machine of src/SM.ml: instructions, label lookup and one step of eval.  A program suffix of the
    original is a position in the whole program here. */
module StackMachine {
  import opened Wrappers
  import opened LamaValues

  datatype Patt = StrCmp | StringTag | ArrayTag | SexpTag | Boxed | UnBoxed | ClosureTag

  datatype Insn =
    | BINOP(op: Op)
    | CONST(value: int)
    | STRING(s: string)
    | SEXP(tag: string, n: nat)
    | LD(place: Designation)
    | LDA(place: Designation)
    | ST(place: Designation)
    | STI
    | STA
    | ELEM
    | LABEL(l: Label)
    | FLABEL(l: Label)
    | SLABEL(l: Label)
    | JMP(l: Label)
    | CJMP(nonzero: bool, l: Label)
    | BEGIN(l: Label, nargs: nat, nlocals: nat, closure: seq<Designation>)
    | END
    | CLOSURE(l: Label, captured: seq<Designation>)
    | CALLC(n: nat)
    | CALL(l: Label, n: nat)
    | RET
    | DROP
    | DUP
    | SWAP
    | TAG(tag: string, n: nat)
    | ARRAY(n: nat)
    | PATT(p: Patt)
    | FAIL(line: int, column: int)
    | EXTERN(name: Label)
    | PUBLIC(name: Label)
    | IMPORT(unit: string)
    | LINE(line: int)

  type Prog = seq<Insn>

  /** The arguments, locals and captured cells of the running function; captured cells are those of the
      closure object it was called through, if any. */
  datatype Frame = Frame(args: seq<Value>, locals: seq<Value>, closure: Option<nat>)

  datatype Control = Control(back: nat, frame: Frame)

  datatype Machine = Machine(pc: nat, control: List<Control>, stack: List<Value>, globals: map<string, Value>,
      frame: Frame, world: World)

  datatype StepResult = Next(m: Machine) | Halt(m: Machine) | Stuck

  // ---- labels ----

  predicate Defines(i: Insn, l: Label) {
    i == LABEL(l) || i == FLABEL(l)
  }

  /** The assembler's table also holds the labels of scopes. */
  predicate Marks(i: Insn, l: Label) {
    Defines(i, l) || i == SLABEL(l)
  }

  /** env#labeled: the position after the last definition of l. */
  function FindLabel(p: Prog, l: Label): Option<nat> {
    if p == [] then None
    else if Defines(p[|p| - 1], l) then Some(|p|)
    else FindLabel(p[..|p| - 1], l)
  }

  // ---- places ----

  function Load(m: Machine, d: Designation): Option<Value> {
    match d
    case Global(x) => Find(x, m.globals)
    case Local(i) => if i < |m.frame.locals| then Some(m.frame.locals[i]) else None
    case Arg(i) => if i < |m.frame.args| then Some(m.frame.args[i]) else None
    case Access(i) =>
      var a :- m.frame.closure;
      if a < |m.world.store| && m.world.store[a].ClosureObject? && i < |m.world.store[a].cells|
      then Some(m.world.store[a].cells[i]) else None
    case Fun(_) => None
  }

  function AssignTo(m: Machine, d: Designation, v: Value): Option<Machine> {
    match d
    case Global(x) => Some(m.(globals := m.globals[x := v]))
    case Local(i) =>
      if i < |m.frame.locals| then Some(m.(frame := m.frame.(locals := m.frame.locals[i := v]))) else None
    case Arg(i) =>
      if i < |m.frame.args| then Some(m.(frame := m.frame.(args := m.frame.args[i := v]))) else None
    case Access(i) =>
      var a :- m.frame.closure;
      if a < |m.world.store| && m.world.store[a].ClosureObject? && i < |m.world.store[a].cells| then
        var o := m.world.store[a];
        Some(m.(world := m.world.(store := m.world.store[a := o.(cells := o.cells[i := v])])))
      else None
    case Fun(_) => None
  }

  /** The values a CLOSURE instruction captures; globals and functions cannot be captured. */
  function Capture(m: Machine, ds: seq<Designation>): Option<seq<Value>> {
    if ds == [] then Some([])
    else if ds[0].Global? || ds[0].Fun? then None
    else
      var v :- Load(m, ds[0]);
      var vs :- Capture(m, ds[1..]);
      Some([v] + vs)
  }

  // ---- steps ----

  function Go(m: Machine, stack: List<Value>): StepResult {
    Next(m.(pc := m.pc + 1, stack := stack))
  }

  function Truth(m: Machine, b: bool, stack: List<Value>): StepResult {
    Go(m, Cons(Int(BoolToInt(b)), stack))
  }

  predicate IsKind(store: Store, v: Value, p: Patt) {
    match p
    case StrCmp => false
    case StringTag => Deref(store, v).Some? && Deref(store, v).value.StringObject?
    case ArrayTag => Deref(store, v).Some? && Deref(store, v).value.ArrayObject?
    case SexpTag => Deref(store, v).Some? && Deref(store, v).value.SexpObject?
    case Boxed => !v.Int?
    case UnBoxed => v.Int?
    case ClosureTag => Deref(store, v).Some? && Deref(store, v).value.ClosureObject?
  }

  /** BINOP: equality also accepts one unboxed operand, all else needs two. */
  function Compute(op: Op, x: Value, y: Value): Option<Value> {
    if op == Eq then
      if x.Int? && y.Int? then Some(Int(BoolToInt(x.n == y.n)))
      else if x.Int? || y.Int? then Some(Int(0))
      else None
    else if x.Int? && y.Int? then
      var r :- Operate(op, x.n, y.n);
      Some(Int(r))
    else None
  }

  function CallLabel(p: Prog, m: Machine, l: Label, args: seq<Value>, closure: Option<nat>,
      rest: List<Value>): StepResult {
    match FindLabel(p, l)
    case None => Stuck
    case Some(target) =>
      Next(m.(pc := target, stack := rest, control := Cons(Control(m.pc + 1, m.frame), m.control),
              frame := Frame(args, [], closure)))
  }

  function Step(p: Prog, m: Machine): StepResult {
    if m.pc >= |p| then Halt(m)
    else match p[m.pc]
      case BINOP(op) =>
        (match m.stack
         case Cons(y, Cons(x, rest)) =>
           (match Compute(op, x, y)
            case Some(v) => Go(m, Cons(v, rest))
            case None => Stuck)
         case _ => Stuck)
      case CONST(n) => Go(m, Cons(Int(n), m.stack))
      case STRING(s) =>
        var (store, v) := Allocate(m.world.store, StringObject(s));
        Go(m.(world := m.world.(store := store)), Cons(v, m.stack))
      case SEXP(tag, n) =>
        (match Take(n, m.stack)
         case Some((vs, rest)) =>
           var (store, v) := Allocate(m.world.store, SexpObject(tag, BottomUp(vs)));
           Go(m.(world := m.world.(store := store)), Cons(v, rest))
         case None => Stuck)
      case LD(d) =>
        (match Load(m, d)
         case Some(v) => Go(m, Cons(v, m.stack))
         case None => Stuck)
      case LDA(d) => Go(m, Cons(Var(d), m.stack))
      case ST(d) =>
        (match m.stack
         case Cons(z, _) =>
           (match AssignTo(m, d, z)
            case Some(m') => Go(m', m'.stack)
            case None => Stuck)
         case Nil => Stuck)
      case STI =>
        (match m.stack
         case Cons(z, Cons(Var(d), rest)) =>
           (match AssignTo(m, d, z)
            case Some(m') => Go(m', Cons(z, rest))
            case None => Stuck)
         case _ => Stuck)
      case STA =>
        (match m.stack
         case Cons(z, Cons(Var(d), rest)) =>
           (match AssignTo(m, d, z)
            case Some(m') => Go(m', Cons(z, rest))
            case None => Stuck)
         case Cons(z, Cons(Int(i), Cons(x, rest))) =>
           (match UpdateElement(m.world.store, x, i, z)
            case Some(store) => Go(m.(world := m.world.(store := store)), Cons(z, rest))
            case None => Stuck)
         case _ => Stuck)
      case ELEM =>
        (match m.stack
         case Cons(a, Cons(b, rest)) =>
           (match CallBuiltin(m.world, [b, a], ".elem")
            case Some((w, v)) => Go(m.(world := w), Cons(v, rest))
            case None => Stuck)
         case _ => Stuck)
      case LABEL(_) => Go(m, m.stack)
      case FLABEL(_) => Go(m, m.stack)
      case SLABEL(_) => Go(m, m.stack)
      case JMP(l) =>
        (match FindLabel(p, l)
         case Some(target) => Next(m.(pc := target))
         case None => Stuck)
      case CJMP(nonzero, l) =>
        (match m.stack
         case Cons(Int(n), rest) =>
           if (n != 0) == nonzero then
             (match FindLabel(p, l)
              case Some(target) => Next(m.(pc := target, stack := rest))
              case None => Stuck)
           else Go(m, rest)
         case _ => Stuck)
      case BEGIN(_, _, nlocals, _) =>
        Go(m.(frame := m.frame.(locals := seq(nlocals, _ => Empty))), m.stack)
      case END => Return(m)
      case RET => Return(m)
      case CLOSURE(l, ds) =>
        (match Capture(m, ds)
         case Some(vs) =>
           var (store, v) := Allocate(m.world.store, ClosureObject(l, vs));
           Go(m.(world := m.world.(store := store)), Cons(v, m.stack))
         case None => Stuck)
      case CALL(l, n) =>
        (match Take(n, m.stack)
         case Some((vs, rest)) =>
           if FindLabel(p, l).Some? then CallLabel(p, m, l, BottomUp(vs), None, rest)
           else if l.Named? then
             (match CallBuiltin(m.world, BottomUp(vs), l.name)
              case Some((w, v)) => Go(m.(world := w), Cons(v, rest))
              case None => Stuck)
           else Stuck
         case None => Stuck)
      case CALLC(n) =>
        (match Take(n + 1, m.stack)
         case Some((vs, rest)) =>
           var es := BottomUp(vs);
           if es == [] then Stuck
           else if es[0].Builtin? then
             (match CallBuiltin(m.world, es[1..], es[0].name)
              case Some((w, v)) => Go(m.(world := w), Cons(v, rest))
              case None => Stuck)
           else
             (match Deref(m.world.store, es[0])
              case Some(ClosureObject(l, _)) => CallLabel(p, m, l, es[1..], Some(es[0].address), rest)
              case _ => Stuck)
         case None => Stuck)
      case DROP => if m.stack.Cons? then Go(m, m.stack.tail) else Stuck
      case DUP => if m.stack.Cons? then Go(m, Cons(m.stack.head, m.stack)) else Stuck
      case SWAP =>
        (match m.stack
         case Cons(x, Cons(y, rest)) => Go(m, Cons(y, Cons(x, rest)))
         case _ => Stuck)
      case TAG(t, n) =>
        (match m.stack
         case Cons(x, rest) =>
           var o := Deref(m.world.store, x);
           Truth(m, o.Some? && o.value.SexpObject? && o.value.tag == t && |o.value.elems| == n, rest)
         case Nil => Stuck)
      case ARRAY(n) =>
        (match m.stack
         case Cons(x, rest) =>
           var o := Deref(m.world.store, x);
           Truth(m, o.Some? && o.value.ArrayObject? && |o.value.elems| == n, rest)
         case Nil => Stuck)
      case PATT(p) =>
        (match m.stack
         case Cons(x, rest) =>
           if p == StrCmp then
             (match rest
              case Cons(y, rest') =>
                var o, o' := Deref(m.world.store, x), Deref(m.world.store, y);
                Truth(m, o.Some? && o.value.StringObject? && o' == o, rest')
              case Nil => Stuck)
           else Truth(m, IsKind(m.world.store, x, p), rest)
         case Nil => Stuck)
      case FAIL(_, _) => Stuck
      case EXTERN(_) => Go(m, m.stack)
      case PUBLIC(_) => Go(m, m.stack)
      case IMPORT(_) => Go(m, m.stack)
      case LINE(_) => Go(m, m.stack)
  }

  /** END and RET: back to the caller, or the end of the run. */
  function Return(m: Machine): StepResult {
    match m.control
    case Cons(Control(back, frame), rest) => Next(m.(pc := back, control := rest, frame := frame))
    case Nil => Halt(m)
  }

  function Run(p: Prog, m: Machine, n: nat): StepResult
    decreases n
  {
    if n == 0 then Next(m)
    else match Step(p, m)
      case Next(m') => Run(p, m', n - 1)
      case r => r
  }

  /** Steps that need no checks: no unassigned local is read, elements are stored by index, numbers and objects are
      tested, string patterns are compared with strings of the program, and no closure is made or called. */
  predicate Tame(p: Prog, m: Machine) {
    m.pc < |p| ==>
    match p[m.pc]
    case LD(Local(i)) => i < |m.frame.locals| ==> m.frame.locals[i] != Empty
    case STA => m.stack.Cons? && m.stack.tail.Cons? ==> m.stack.tail.head.Int?
    case TAG(_, _) => m.stack.Cons? ==> Inspectable(m.world.store, m.stack.head)
    case ARRAY(_) => m.stack.Cons? ==> Inspectable(m.world.store, m.stack.head)
    case PATT(q) => m.stack.Cons? ==>
      if q == StrCmp then IsString(m.world.store, m.stack.head) else Inspectable(m.world.store, m.stack.head)
    case CLOSURE(_, _) => false
    case CALLC(_) => false
    case _ => true
  }

  /** The first n steps are tame. */
  ghost predicate TameRun(p: Prog, m: Machine, n: nat)
    decreases n
  {
    n > 0 ==> Tame(p, m) && (Step(p, m).Next? ==> TameRun(p, Step(p, m).m, n - 1))
  }

  ghost predicate ReachesIn(p: Prog, m: Machine, m': Machine, n: nat) {
    Run(p, m, n) == Next(m') && TameRun(p, m, n)
  }

  ghost predicate Reaches(p: Prog, m: Machine, m': Machine) {
    exists n: nat :: ReachesIn(p, m, m', n)
  }

  lemma {:induction false} RunCompose(p: Prog, m: Machine, m': Machine, n: nat, k: nat)
    requires Run(p, m, n) == Next(m')
    ensures Run(p, m, n + k) == Run(p, m', k)
    decreases n
  {
    hide Step;
    if n > 0 {
      RunCompose(p, Step(p, m).m, m', n - 1, k);
    }
  }

  lemma {:induction false} TameCompose(p: Prog, m: Machine, m': Machine, n: nat, k: nat)
    requires ReachesIn(p, m, m', n) && TameRun(p, m', k)
    ensures TameRun(p, m, n + k)
    decreases n
  {
    hide Step, Tame;
    if n > 0 {
      TameCompose(p, Step(p, m).m, m', n - 1, k);
    }
  }

  lemma ReachesNow(p: Prog, m: Machine)
    ensures Reaches(p, m, m)
  {
    hide Step, Tame;
    assert ReachesIn(p, m, m, 0);
  }

  lemma ReachesStep(p: Prog, m: Machine, m': Machine)
    requires Step(p, m) == Next(m') && Tame(p, m)
    ensures Reaches(p, m, m')
  {
    hide Step, Tame;
    assert ReachesIn(p, m', m', 0);
    assert ReachesIn(p, m, m', 1);
  }

  lemma ReachesThen(p: Prog, a: Machine, b: Machine, c: Machine)
    requires Reaches(p, a, b) && Reaches(p, b, c)
    ensures Reaches(p, a, c)
  {
    hide Step, Tame, Run, TameRun;
    var n: nat :| ReachesIn(p, a, b, n);
    var k: nat :| ReachesIn(p, b, c, k);
    RunCompose(p, a, b, n, k);
    TameCompose(p, a, b, n, k);
    assert ReachesIn(p, a, c, n + k);
  }
}
