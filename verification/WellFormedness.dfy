/** What the parser's attributes guarantee of expressions (src/Language.ml:651-800): which expressions leave a
    value, and that operands do. */
module WellFormedness {
  import opened LamaValues
  import opened LamaSource

  /** What an expression leaves on the stack: nothing, a value that may be the unit value, or a proper value. */
  datatype Effect = Nothing | Anything | Proper

  function Join(a: Effect, b: Effect): Effect {
    if a == b then a else Anything
  }

  function Yield(e: Expr): Effect
    decreases e
  {
    match e
    case Skip => Nothing
    case While(_, _) => Nothing
    case DoWhile(_, _) => Nothing
    case Ignore(_) => Nothing
    case Unit => Anything
    case Call(f, _) => if f == VarOf("write") then Anything else Proper
    case Seq(_, b) => Yield(b)
    case If(_, a, b) => Join(Yield(a), Yield(b))
    case Case(_, branches) => YieldOfBranches(branches)
    case Scope(_, body) => Yield(body)
    case _ => Proper
  }

  function YieldOfBranches(branches: seq<Branch>): Effect
    decreases branches
  {
    if branches == [] then Anything
    else if |branches| == 1 then YieldOfBranch(branches[0])
    else Join(YieldOfBranch(branches[0]), YieldOfBranches(branches[1..]))
  }

  function YieldOfBranch(b: Branch): Effect
    decreases b
  {
    match b
    case Branch(_, body) => Yield(body)
  }

  predicate SameDepth(a: Effect, b: Effect) {
    a == Nothing <==> b == Nothing
  }

  predicate OrdinaryNames(xs: seq<string>) {
    forall i :: 0 <= i < |xs| ==> xs[i] !in BUILTINS
  }

  /** Builtins are named only where they are called, references occur only as targets of assignments, and the
      unit value is not used as an operand. */
  predicate WellFormed(e: Expr)
    decreases e, 0
  {
    match e
    case Arr(items) => Operands(items)
    case Sexp(_, items) => Operands(items)
    case VarOf(x) => x !in BUILTINS
    case RefOf(_) => false
    case Binop(_, x, y) => Operand(x) && Operand(y)
    case ElemOf(b, i) => Operand(b) && Operand(i)
    case ElemRef(_, _) => false
    case Call(f, args) => f.VarOf? && Called(f.name) && Operands(args)
    case Assign(target, s) =>
      && Operand(s)
      && (match target
          case RefOf(x) => x !in BUILTINS
          case ElemRef(b, i) => Operand(b) && Operand(i)
          case _ => false)
    case Seq(a, b) => Yield(a) == Nothing && WellFormed(a) && WellFormed(b)
    case If(c, a, b) => Operand(c) && WellFormed(a) && WellFormed(b) && SameDepth(Yield(a), Yield(b))
    case While(c, s) => Operand(c) && WellFormed(s) && Yield(s) == Nothing
    case DoWhile(s, c) => Operand(c) && WellFormed(s) && Yield(s) == Nothing
    case Case(s, branches) => Operand(s) && branches != [] && WellFormedBranches(branches)
    case Ignore(s) => WellFormed(s) && Yield(s) != Nothing
    case Scope(defs, body) => WellFormedDefs(defs) && WellFormed(body)
    case _ => true
  }

  predicate Operand(e: Expr)
    decreases e, 1
  {
    Yield(e) == Proper && WellFormed(e)
  }

  predicate Operands(es: seq<Expr>)
    decreases es
  {
    es == [] || (Operand(es[0]) && Operands(es[1..]))
  }

  predicate WellFormedBranch(b: Branch)
    decreases b
  {
    match b
    case Branch(p, body) => OrdinaryNames(Vars(p)) && WellFormed(body)
  }

  predicate WellFormedBranches(branches: seq<Branch>)
    decreases branches
  {
    branches == [] ||
    (&& WellFormedBranch(branches[0])
     && WellFormedBranches(branches[1..])
     && (|branches| == 1 || SameDepth(YieldOfBranch(branches[0]), YieldOfBranches(branches[1..]))))
  }

  predicate WellFormedDef(d: Def)
    decreases d
  {
    match d
    case Def(x, None) => x !in BUILTINS
    case Def(x, Some(v)) => x !in BUILTINS && Operand(v)
  }

  predicate WellFormedDefs(defs: seq<Def>)
    decreases defs
  {
    defs == [] || (WellFormedDef(defs[0]) && WellFormedDefs(defs[1..]))
  }

  lemma {:induction false} InitialisedWellFormed(defs: seq<Def>, body: Expr)
    requires WellFormedDefs(defs) && WellFormed(body)
    ensures WellFormed(Initialised(defs, body)) && Yield(Initialised(defs, body)) == Yield(body)
    ensures OrdinaryNames(NamesOf(defs))
  {
    if defs != [] {
      InitialisedWellFormed(defs[1..], body);
      var x := defs[0].name;
      match defs[0].init
      case None =>
      case Some(v) =>
        var assign := Assign(RefOf(x), v);
        assert WellFormed(assign);
        assert WellFormed(Ignore(assign));
    }
  }
}
