/** The source language without functions and its evaluator (src/Language.ml): expressions work on a
    configuration of scopes, input, output, store and an explicit stack of values.  The continuation of the
    original is left to recursion; fuel bounds the recursion, so a result is that of a terminating run. */
module LamaSource {
  import opened Wrappers
  import opened LamaValues

  datatype Pattern =
    | Wildcard
    | SexpPattern(tag: string, items: seq<Pattern>)
    | ArrayPattern(items: seq<Pattern>)
    | NamedPattern(name: string, inner: Pattern)
    | ConstPattern(n: int)
    | StringPattern(s: string)
    | BoxedPattern
    | UnBoxedPattern
    | StringTagPattern
    | SexpTagPattern
    | ArrayTagPattern
    | ClosureTagPattern

  datatype Expr =
    | Const(n: int)
    | Str(s: string)
    | Arr(items: seq<Expr>)
    | Sexp(tag: string, items: seq<Expr>)
    | VarOf(name: string)
    | RefOf(name: string)
    | Binop(op: Op, left: Expr, right: Expr)
    | ElemOf(base: Expr, index: Expr)
    | ElemRef(base: Expr, index: Expr)
    | Call(callee: Expr, args: seq<Expr>)
    | Assign(target: Expr, source: Expr)
    | Seq(first: Expr, second: Expr)
    | Skip
    | If(cond: Expr, thn: Expr, els: Expr)
    | While(cond: Expr, body: Expr)
    | DoWhile(body: Expr, cond: Expr)
    | Case(scrutinee: Expr, branches: seq<Branch>)
    | Ignore(inner: Expr)
    | Unit
    | Scope(defs: seq<Def>, scoped: Expr)

  datatype Branch = Branch(pattern: Pattern, body: Expr)

  datatype Def = Def(name: string, init: Option<Expr>)

  datatype Conf = Conf(st: State<Value>, world: World, stack: List<Value>)

  // ---- patterns ----

  /** Pattern.vars. */
  function Vars(p: Pattern): seq<string> {
    match p
    case SexpPattern(_, items) => VarsOfAll(items)
    case ArrayPattern(items) => VarsOfAll(items)
    case NamedPattern(x, inner) => [x] + Vars(inner)
    case _ => []
  }

  function VarsOfAll(ps: seq<Pattern>): seq<string> {
    if ps == [] then [] else Vars(ps[0]) + VarsOfAll(ps[1..])
  }

  type Bindings = map<string, Value>

  /** match_patt: the bindings so far, extended, unless the value does not match. */
  function MatchPatt(p: Pattern, v: Value, store: Store, acc: Option<Bindings>): Option<Bindings> {
    match p
    case NamedPattern(x, inner) =>
      var b :- MatchPatt(inner, v, store, acc);
      Some(b[x := v])
    case Wildcard => acc
    case SexpPattern(tag, items) =>
      var o := Deref(store, v);
      if o.Some? && o.value.SexpObject? && o.value.tag == tag && |o.value.elems| == |items|
      then MatchList(items, o.value.elems, store, acc) else None
    case ArrayPattern(items) =>
      var o := Deref(store, v);
      if o.Some? && o.value.ArrayObject? && |o.value.elems| == |items|
      then MatchList(items, o.value.elems, store, acc) else None
    case ConstPattern(n) => if v == Int(n) then acc else None
    case StringPattern(s) => if Deref(store, v) == Some(StringObject(s)) then acc else None
    case BoxedPattern => if IsString(store, v) || IsArray(store, v) || IsSexp(store, v) then acc else None
    case UnBoxedPattern => if v.Int? then acc else None
    case StringTagPattern => if IsString(store, v) then acc else None
    case SexpTagPattern => if IsSexp(store, v) then acc else None
    case ArrayTagPattern => if IsArray(store, v) then acc else None
    case ClosureTagPattern => if IsClosure(store, v) then acc else None
  }

  function MatchList(ps: seq<Pattern>, vs: seq<Value>, store: Store, acc: Option<Bindings>): Option<Bindings>
    requires |ps| == |vs|
  {
    if ps == [] then acc
    else MatchList(ps[1..], vs[1..], store, MatchPatt(ps[0], vs[0], store, acc))
  }

  // ---- scopes ----

  const BUILTIN_NAMES: seq<(string, Kind)> :=
    [("read", FVal), ("write", FVal), (".elem", FVal), ("length", FVal), (".array", FVal), ("string", FVal)]

  function BuiltinValues(): map<string, Value> {
    map x | x in BUILTINS :: Builtin(x)
  }

  /** State.push with the values of a fresh scope. */
  function PushScope(st: State<Value>, values: map<string, Value>, names: seq<(string, Kind)>): State<Value> {
    match st
    case I => G(names + BUILTIN_NAMES, values + BuiltinValues())
    case _ => L(names, values, st)
  }

  /** State.drop. */
  function DropScope(st: State<Value>): Option<State<Value>> {
    match st
    case I => None
    case G(_, _) => Some(I)
    case L(_, _, up) => Some(up)
  }

  function NamesOf(defs: seq<Def>): seq<string> {
    if defs == [] then [] else [defs[0].name] + NamesOf(defs[1..])
  }

  function Tagged(xs: seq<string>, kind: Kind): seq<(string, Kind)> {
    seq(|xs|, i requires 0 <= i < |xs| => (xs[i], kind))
  }

  /** Initialisers become assignments in front of the body, the first definition's first. */
  function Initialised(defs: seq<Def>, body: Expr): Expr {
    if defs == [] then body
    else
      var rest := Initialised(defs[1..], body);
      match defs[0].init
      case None => rest
      case Some(v) => Seq(Ignore(Assign(RefOf(defs[0].name), v)), rest)
  }

  // ---- evaluation ----

  /** update of src/Language.ml: assignment through what the left-hand side evaluated to. */
  function StoreThrough(c: Conf, place: Value, v: Value): Option<Conf> {
    match place
    case Var(Global(x)) =>
      var st :- Update(c.st, x, v);
      Some(c.(st := st))
    case Elem(b, i) =>
      var store :- UpdateElement(c.world.store, b, i, v);
      Some(c.(world := c.world.(store := store)))
    case _ => None
  }

  function Push(c: Conf, v: Value): Conf {
    c.(stack := Cons(v, c.stack))
  }

  function Eval(e: Expr, c: Conf, fuel: nat): Option<Conf>
    decreases fuel
  {
    if fuel == 0 then None
    else match e
      case Const(n) => Some(Push(c, Int(n)))
      case Str(s) =>
        var (store, v) := Allocate(c.world.store, StringObject(s));
        Some(Push(c.(world := c.world.(store := store)), v))
      case Arr(items) =>
        var c1 :- EvalList(items, c, fuel - 1);
        var t :- Take(|items|, c1.stack);
        var r :- CallBuiltin(c1.world, BottomUp(t.0), ".array");
        Some(Conf(c1.st, r.0, Cons(r.1, t.1)))
      case Sexp(tag, items) =>
        var c1 :- EvalList(items, c, fuel - 1);
        var t :- Take(|items|, c1.stack);
        var (store, v) := Allocate(c1.world.store, SexpObject(tag, BottomUp(t.0)));
        Some(Conf(c1.st, c1.world.(store := store), Cons(v, t.1)))
      case VarOf(x) =>
        var v :- LookUp(c.st, x);
        Some(Push(c, v))
      case RefOf(x) => Some(Push(c, Var(Global(x))))
      case Binop(op, x, y) =>
        var c1 :- EvalList([x, y], c, fuel - 1);
        (match c1.stack
         case Cons(Int(n), Cons(Int(m), vs)) =>
           var r :- Operate(op, m, n);
           Some(c1.(stack := Cons(Int(r), vs)))
         case _ => None)
      case ElemOf(b, i) =>
        var c1 :- EvalList([b, i], c, fuel - 1);
        (match c1.stack
         case Cons(j, Cons(a, vs)) =>
           var r :- CallBuiltin(c1.world, [a, j], ".elem");
           Some(Conf(c1.st, r.0, Cons(r.1, vs)))
         case _ => None)
      case ElemRef(b, i) =>
        var c1 :- EvalList([b, i], c, fuel - 1);
        (match c1.stack
         case Cons(Int(j), Cons(a, vs)) => Some(c1.(stack := Cons(Elem(a, j), vs)))
         case _ => None)
      case Call(f, args) =>
        var c1 :- EvalList([f] + args, c, fuel - 1);
        var t :- Take(|args| + 1, c1.stack);
        var es := BottomUp(t.0);
        if es != [] && es[0].Builtin? then
          var r :- CallBuiltin(c1.world, es[1..], es[0].name);
          Some(Conf(c1.st, r.0, Cons(r.1, t.1)))
        else None
      case Assign(x, s) =>
        var c1 :- EvalList([x, s], c, fuel - 1);
        (match c1.stack
         case Cons(v, Cons(place, vs)) =>
           var c2 :- StoreThrough(c1, place, v);
           Some(c2.(stack := Cons(v, vs)))
         case _ => None)
      case Seq(a, b) =>
        var c1 :- Eval(a, c, fuel - 1);
        Eval(b, c1, fuel - 1)
      case Skip => Some(c)
      case If(cond, a, b) =>
        var c1 :- Eval(cond, c, fuel - 1);
        (match c1.stack
         case Cons(Int(n), vs) => Eval(if n != 0 then a else b, c1.(stack := vs), fuel - 1)
         case _ => None)
      case While(cond, s) =>
        var c1 :- Eval(cond, c, fuel - 1);
        (match c1.stack
         case Cons(Int(n), vs) =>
           if n != 0 then
             var c2 :- Eval(s, c1.(stack := vs), fuel - 1);
             Eval(e, c2, fuel - 1)
           else Some(c1.(stack := vs))
         case _ => None)
      case DoWhile(s, cond) =>
        var c1 :- Eval(s, c, fuel - 1);
        Eval(While(cond, s), c1, fuel - 1)
      case Case(s, branches) =>
        var c1 :- Eval(s, c, fuel - 1);
        (match c1.stack
         case Cons(v, vs) => EvalBranches(branches, v, c1.(stack := vs), fuel - 1)
         case Nil => None)
      case Ignore(s) =>
        var c1 :- Eval(s, c, fuel - 1);
        if c1.stack.Cons? then Some(c1.(stack := c1.stack.tail)) else None
      case Unit => Some(Push(c, Empty))
      case Scope(defs, body) =>
        var c1 := c.(st := PushScope(c.st, map[], Tagged(NamesOf(defs), Mut)));
        var c2 :- Eval(Initialised(defs, body), c1, fuel - 1);
        var st :- DropScope(c2.st);
        Some(c2.(st := st))
  }

  function EvalList(es: seq<Expr>, c: Conf, fuel: nat): Option<Conf>
    decreases fuel
  {
    if fuel == 0 then None
    else if es == [] then Some(c)
    else
      var c1 :- Eval(es[0], c, fuel - 1);
      EvalList(es[1..], c1, fuel - 1)
  }

  /** The first branch whose pattern matches runs in a scope with the pattern's bindings. */
  function EvalBranches(branches: seq<Branch>, v: Value, c: Conf, fuel: nat): Option<Conf>
    decreases fuel
  {
    if fuel == 0 || branches == [] then None
    else
      match MatchPatt(branches[0].pattern, v, c.world.store, Some(map[]))
      case None => EvalBranches(branches[1..], v, c, fuel - 1)
      case Some(b) =>
        var c1 := c.(st := PushScope(c.st, b, Tagged(Vars(branches[0].pattern), Unmut)));
        var c2 :- Eval(branches[0].body, c1, fuel - 1);
        var st :- DropScope(c2.st);
        Some(c2.(st := st))
  }
}
