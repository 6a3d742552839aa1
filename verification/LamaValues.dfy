/** Values, the store of mutable objects, operators and builtins: what src/Language.ml's evaluator and
    src/SM.ml's machine have in common. */
module LamaValues {
  import opened Wrappers

  /** Labels of generated code, numbered by the compiler, and labels of named functions. */
  datatype Label = Gen(number: nat) | Named(name: string)

  datatype Designation = Global(name: string) | Local(index: nat) | Arg(index: nat) | Access(index: nat)
      | Fun(entry: Label)

  /** Strings, arrays, s-expressions and closures live in the store and are shared by reference. */
  datatype Value =
    | Empty
    | Int(n: int)
    | Ref(address: nat)
    | Var(place: Designation)
    | Elem(container: Value, index: int)
    | Builtin(name: string)

  datatype Object =
    | StringObject(chars: string)
    | ArrayObject(elems: seq<Value>)
    | SexpObject(tag: string, elems: seq<Value>)
    | ClosureObject(entry: Label, cells: seq<Value>)

  type Store = seq<Object>

  datatype Op = Add | Sub | Mul | Div | Mod | Lt | Le | Gt | Ge | Eq | Ne | And | Or

  function BoolToInt(b: bool): int { if b then 1 else 0 }

  /** OCaml's integer division truncates towards zero. */
  function Quotient(x: int, y: int): int
    requires y != 0
  {
    if x >= 0 then (if y > 0 then x / y else -(x / -y))
    else (if y > 0 then -(-x / y) else -x / -y)
  }

  /** Expr.to_func. */
  function Operate(op: Op, x: int, y: int): Option<int> {
    match op
    case Add => Some(x + y)
    case Sub => Some(x - y)
    case Mul => Some(x * y)
    case Div => if y == 0 then None else Some(Quotient(x, y))
    case Mod => if y == 0 then None else Some(x - y * Quotient(x, y))
    case Lt => Some(BoolToInt(x < y))
    case Le => Some(BoolToInt(x <= y))
    case Gt => Some(BoolToInt(x > y))
    case Ge => Some(BoolToInt(x >= y))
    case Eq => Some(BoolToInt(x == y))
    case Ne => Some(BoolToInt(x != y))
    case And => Some(BoolToInt(x != 0 && y != 0))
    case Or => Some(BoolToInt(x != 0 || y != 0))
  }

  function ToInt(v: Value): Option<int> {
    if v.Int? then Some(v.n) else None
  }

  function Deref(store: Store, v: Value): Option<Object> {
    if v.Ref? && v.address < |store| then Some(store[v.address]) else None
  }

  predicate IsString(store: Store, v: Value) { Deref(store, v).Some? && Deref(store, v).value.StringObject? }

  predicate IsArray(store: Store, v: Value) { Deref(store, v).Some? && Deref(store, v).value.ArrayObject? }

  predicate IsSexp(store: Store, v: Value) { Deref(store, v).Some? && Deref(store, v).value.SexpObject? }

  predicate IsClosure(store: Store, v: Value) { Deref(store, v).Some? && Deref(store, v).value.ClosureObject? }

  /** A number or an object: what a test for kinds can look at. */
  predicate Inspectable(store: Store, v: Value) { v.Int? || Deref(store, v).Some? }

  /** A fresh object and the reference to it. */
  function Allocate(store: Store, o: Object): (Store, Value) {
    (store + [o], Ref(|store|))
  }

  /** Builtin ".elem". */
  function Element(store: Store, b: Value, j: Value): Option<Value> {
    var i :- ToInt(j);
    var o :- Deref(store, b);
    match o
    case StringObject(chars) => if 0 <= i < |chars| then Some(Int(chars[i] as int)) else None
    case ArrayObject(elems) => if 0 <= i < |elems| then Some(elems[i]) else None
    case SexpObject(_, elems) => if 0 <= i < |elems| then Some(elems[i]) else None
    case ClosureObject(_, _) => None
  }

  /** Value.update_elem. */
  function UpdateElement(store: Store, b: Value, i: int, v: Value): Option<Store> {
    var o :- Deref(store, b);
    match o
    case StringObject(chars) =>
      var n :- ToInt(v);
      if 0 <= i < |chars| && 0 <= n < 256 then Some(store[b.address := StringObject(chars[i := n as char])]) else None
    case ArrayObject(elems) =>
      if 0 <= i < |elems| then Some(store[b.address := ArrayObject(elems[i := v])]) else None
    case SexpObject(tag, elems) =>
      if 0 <= i < |elems| then Some(store[b.address := SexpObject(tag, elems[i := v])]) else None
    case ClosureObject(_, _) => None
  }

  const BUILTINS: set<string> := {"read", "write", ".elem", "length", ".array", "string"}

  /** The builtins calls go to; elements have an instruction of their own. */
  predicate Called(name: string) { name in BUILTINS && name != ".elem" }

  datatype World = World(input: seq<int>, output: seq<int>, store: Store)

  /** Builtin.eval on the arguments in order: the changed world and the result. */
  function CallBuiltin(w: World, args: seq<Value>, name: string): Option<(World, Value)> {
    if name == "read" then
      if w.input == [] then None else Some((w.(input := w.input[1..]), Int(w.input[0])))
    else if name == "write" then
      if args == [] || !args[0].Int? then None else Some((w.(output := w.output + [args[0].n]), Empty))
    else if name == ".elem" then
      if |args| != 2 then None
      else
        var v :- Element(w.store, args[0], args[1]);
        Some((w, v))
    else if name == "length" then
      if args == [] then None
      else
        var o :- Deref(w.store, args[0]);
        match o
        case StringObject(chars) => Some((w, Int(|chars|)))
        case ArrayObject(elems) => Some((w, Int(|elems|)))
        case SexpObject(_, elems) => Some((w, Int(|elems|)))
        case ClosureObject(_, _) => None
    else if name == ".array" then
      var (store, v) := Allocate(w.store, ArrayObject(args));
      Some((w.(store := store), v))
    else None
  }

  // ---- states: scopes of names, innermost first ----

  datatype Kind = Unmut | Mut | FVal

  datatype State<V> = I | G(names: seq<(string, Kind)>, values: map<string, V>)
      | L(names: seq<(string, Kind)>, values: map<string, V>, up: State<V>)

  predicate InScope(x: string, names: seq<(string, Kind)>) {
    exists i :: 0 <= i < |names| && names[i].0 == x
  }

  /** Whether the first entry for x says it is a variable. */
  predicate IsVar(x: string, names: seq<(string, Kind)>) {
    names != [] && if names[0].0 == x then names[0].1 == Mut else IsVar(x, names[1..])
  }

  function Find<V>(x: string, values: map<string, V>): Option<V> {
    if x in values then Some(values[x]) else None
  }

  /** State.eval. */
  function LookUp<V>(s: State<V>, x: string): Option<V> {
    match s
    case I => None
    case G(_, values) => Find(x, values)
    case L(names, values, up) => if InScope(x, names) then Find(x, values) else LookUp(up, x)
  }

  /** State.update. */
  function Update<V>(s: State<V>, x: string, v: V): Option<State<V>> {
    match s
    case I => None
    case G(names, values) => if IsVar(x, names) then Some(G(names, values[x := v])) else None
    case L(names, values, up) =>
      if InScope(x, names) then
        if IsVar(x, names) then Some(L(names, values[x := v], up)) else None
      else
        var up' :- Update(up, x, v);
        Some(L(names, values, up'))
  }
}
