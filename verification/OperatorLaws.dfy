/** What operators compute, said by laws of arithmetic, and what this makes of an expression, of the machine's
    instruction and of the interpreter's opcode (src/Language.ml:425-450, 505-510). */
module OperatorLaws {
  import opened Wrappers
  import opened LamaValues
  import opened LamaSource
  import opened StackMachine
  import RuntimeCalls

  /** Repeated addition. */
  function Times(x: int, y: int): int
    decreases if y < 0 then -y else y
  {
    if y == 0 then 0 else if y > 0 then Times(x, y - 1) + x else Times(x, y + 1) - x
  }

  function Abs(x: int): nat { if x < 0 then -x else x }

  /** q times and r left over, on the side of x. */
  predicate Division(x: int, y: int, q: int, r: int) {
    x == Times(y, q) + r && Abs(r) < Abs(y) && (r > 0 ==> x > 0) && (r < 0 ==> x < 0)
  }

  predicate Answers(r: Option<int>, yes: bool) { r == Some(if yes then 1 else 0) }

  /** r is what the operator gives for the left operand x and the right operand y. */
  ghost predicate Law(op: Op, x: int, y: int, r: Option<int>) {
    match op
    case Add => r.Some? && r.value - y == x
    case Sub => r.Some? && r.value + y == x
    case Mul => r == Some(Times(x, y))
    case Div => if y == 0 then r == None else r.Some? && exists rest :: Division(x, y, r.value, rest)
    case Mod => if y == 0 then r == None else r.Some? && exists q :: Division(x, y, q, r.value)
    case Lt => Answers(r, x < y)
    case Le => Answers(r, x < y || x == y)
    case Gt => Answers(r, y < x)
    case Ge => Answers(r, !(x < y))
    case Eq => Answers(r, x == y)
    case Ne => Answers(r, x != y)
    case And => Answers(r, !(x == 0 || y == 0))
    case Or => Answers(r, !(x == 0 && y == 0))
  }

  lemma {:induction false} TimesIs(x: int, y: int)
    ensures Times(x, y) == x * y
    decreases Abs(y)
  {
    if y > 0 {
      TimesIs(x, y - 1);
    } else if y < 0 {
      TimesIs(x, y + 1);
    }
  }

  lemma Signs(a: int, b: int)
    ensures a * -b == -(a * b) && -a * b == -(a * b) && -a * -b == a * b
  {
  }

  lemma DivideNat(a: nat, b: nat)
    requires b > 0
    ensures a == b * (a / b) + a % b && 0 <= a % b < b
  {
  }

  /** Truncating division. */
  lemma QuotientProduct(x: int, y: int)
    requires y != 0
    ensures x - y * Quotient(x, y) == if x < 0 then -(Abs(x) % Abs(y)) else Abs(x) % Abs(y)
  {
    var a, b: nat := Abs(x), Abs(y);
    var q := a / b;
    DivideNat(a, b);
    Signs(b, q);
    if x >= 0 {
      assert Quotient(x, y) == if y > 0 then q else -q;
    } else {
      assert Quotient(x, y) == if y > 0 then -q else q;
    }
  }

  lemma QuotientDivides(x: int, y: int)
    requires y != 0
    ensures Division(x, y, Quotient(x, y), x - y * Quotient(x, y))
  {
    hide Quotient, Times, Division, Abs;
    TimesIs(y, Quotient(x, y));
    QuotientProduct(x, y);
    Positive(x, y);
    DivideNat(Abs(x), Abs(y));
    Divided(x, y, Quotient(x, y), x - y * Quotient(x, y), Abs(x) % Abs(y));
  }

  lemma Positive(x: int, y: int)
    requires y != 0
    ensures Abs(y) > 0 && (x == 0 ==> Abs(x) % Abs(y) == 0)
  {
    DivideNat(0, Abs(y));
  }

  lemma Divided(x: int, y: int, q: int, r: int, m: int)
    requires Times(y, q) == x - r && r == (if x < 0 then -m else m) && 0 <= m < Abs(y) && (x == 0 ==> m == 0)
    ensures Division(x, y, q, r)
  {
    hide Times;
  }

  /** The operators obey their laws. */
  lemma LawHolds(op: Op, x: int, y: int)
    ensures Law(op, x, y, Operate(op, x, y))
  {
    hide Division, Times, Quotient;
    TimesIs(x, y);
    if y != 0 {
      QuotientDivides(x, y);
    }
  }

  lemma DivisionUnique(x: int, y: int, q: int, r: int, q': int, r': int)
    requires y != 0 && Division(x, y, q, r) && Division(x, y, q', r')
    ensures q == q' && r == r'
  {
    TimesIs(y, q);
    TimesIs(y, q');
    assert y * q - y * q' == y * (q - q');
    assert r' - r == y * (q - q');
    var d := q - q';
    if d != 0 {
      FarOff(y, d);
    }
  }

  lemma Grows(a: nat, e: nat)
    requires e > 0
    ensures a * e >= a
  {
    assert a * (e - 1) >= 0;
  }

  lemma FarOff(y: int, d: int)
    requires d != 0
    ensures Abs(y * d) >= Abs(y)
  {
    var a, e: nat := Abs(y), Abs(d);
    Grows(a, e);
    Signs(a, e);
    assert y == a || y == -a;
    assert d == e || d == 0 - e;
    assert y * d == a * e || y * d == -(a * e);
  }

  /** The laws leave no choice. */
  lemma LawUnique(op: Op, x: int, y: int, r: Option<int>, r': Option<int>)
    requires Law(op, x, y, r) && Law(op, x, y, r')
    ensures r == r'
  {
    hide Division, Times;
    if y != 0 && op == Div {
      var rest :| Division(x, y, r.value, rest);
      var rest' :| Division(x, y, r'.value, rest');
      DivisionUnique(x, y, r.value, rest, r'.value, rest');
    }
    if y != 0 && op == Mod {
      var q :| Division(x, y, q, r.value);
      var q' :| Division(x, y, q', r'.value);
      DivisionUnique(x, y, q, r.value, q', r'.value);
    }
  }

  // ---- the evaluator, the machine and the interpreter ----

  /** An operation on what the left and then the right operand evaluate to. */
  lemma EvalObeys(op: Op, left: Expr, right: Expr, c: Conf, fuel: nat, c1: Conf, c2: Conf, x: int, y: int,
      vs: List<Value>)
    requires fuel >= 4 && Eval(left, c, fuel - 2) == Some(c1) && Eval(right, c1, fuel - 3) == Some(c2)
    requires c2.stack == Cons(Int(y), Cons(Int(x), vs))
    ensures
      match Eval(Binop(op, left, right), c, fuel)
      case None => Law(op, x, y, None)
      case Some(r) =>
        r == c2.(stack := r.stack) && r.stack.Cons? && r.stack.tail == vs && r.stack.head.Int?
        && Law(op, x, y, Some(r.stack.head.n))
  {
    hide Operate, Law;
    OperandsEvaluate(left, right, c, fuel, c1, c2);
    BinopUnfolds(op, left, right, c, fuel);
    LawHolds(op, x, y);
  }

  lemma OperandsEvaluate(left: Expr, right: Expr, c: Conf, fuel: nat, c1: Conf, c2: Conf)
    requires fuel >= 4 && Eval(left, c, fuel - 2) == Some(c1) && Eval(right, c1, fuel - 3) == Some(c2)
    ensures EvalList([left, right], c, fuel - 1) == Some(c2)
  {
    hide Eval;
    assert [left, right][1..] == [right] && [right][1..] == [];
    assert EvalList([], c2, fuel - 3) == Some(c2);
    assert EvalList([right], c1, fuel - 2) == Some(c2);
  }

  lemma BinopUnfolds(op: Op, left: Expr, right: Expr, c: Conf, fuel: nat)
    requires fuel > 0 && EvalList([left, right], c, fuel - 1).Some?
    ensures
      var c2 := EvalList([left, right], c, fuel - 1).value;
      c2.stack.Cons? && c2.stack.tail.Cons? && c2.stack.head.Int? && c2.stack.tail.head.Int? ==>
        Eval(Binop(op, left, right), c, fuel) ==
        match Operate(op, c2.stack.tail.head.n, c2.stack.head.n)
        case None => None
        case Some(r) => Some(c2.(stack := Cons(Int(r), c2.stack.tail.tail)))
  {
    hide Operate;
  }

  lemma EqualObeys(x: int, y: int)
    ensures Law(Eq, x, y, Some(BoolToInt(x == y)))
  {
  }

  /** BINOP takes the right operand from the top and the left one from below. */
  lemma StepObeys(p: Prog, m: Machine, op: Op, x: int, y: int, rest: List<Value>)
    requires m.pc < |p| && p[m.pc] == BINOP(op) && m.stack == Cons(Int(y), Cons(Int(x), rest))
    ensures
      match Step(p, m)
      case Next(m') =>
        m' == m.(pc := m.pc + 1, stack := m'.stack) && m'.stack.Cons? && m'.stack.tail == rest && m'.stack.head.Int?
        && Law(op, x, y, Some(m'.stack.head.n))
      case Halt(_) => false
      case Stuck => Law(op, x, y, None)
  {
    hide Operate, Law;
    LawHolds(op, x, y);
    EqualObeys(x, y);
  }

  /** The word a value is kept in: a number with a bit behind it, an address, or zero for the unit value. */
  function WordOf(address: nat -> int, v: Value): int {
    match v
    case Int(n) => n + n + 1
    case Ref(a) => address(a)
    case _ => 0
  }

  /** n is the word without its lowest bit. */
  predicate Shifted(address: nat -> int, v: Value, n: int) {
    n + n == WordOf(address, v) || n + n + 1 == WordOf(address, v)
  }

  lemma UnboxShifts(address: nat -> int, v: Value, n: int)
    requires Shifted(address, v, n)
    ensures RuntimeCalls.UnboxWord(address, v) == n
  {
  }

  /** eval_binop works on words without their lowest bits, and gives the number with its 31 lowest bits. */
  lemma OpcodeObeys(address: nat -> int, op: Op, v: Value, w: Value, x: int, y: int)
    requires Shifted(address, v, x) && Shifted(address, w, y)
    ensures
      match RuntimeCalls.RuntimeBinop(address, op, v, w)
      case None => Law(op, x, y, None)
      case Some(r) =>
        r.Int? && -0x4000_0000 <= r.n < 0x4000_0000
        && exists n :: Law(op, x, y, Some(n)) && (n - r.n) % 0x8000_0000 == 0
  {
    hide Law, Shifted, RuntimeCalls.UnboxWord;
    UnboxShifts(address, v, x);
    UnboxShifts(address, w, y);
    LawHolds(op, x, y);
    var r := Operate(op, x, y);
    if r.Some? {
      assert Law(op, x, y, Some(r.value));
      LowBits(r.value);
    }
  }

  lemma LowBits(n: int)
    ensures -0x4000_0000 <= RuntimeCalls.Wrap(n) < 0x4000_0000 && (n - RuntimeCalls.Wrap(n)) % 0x8000_0000 == 0
  {
  }
}
