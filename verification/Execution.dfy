/** Running placed code: where a piece of code lies in a program, and what its instructions do one at a time. */
module Execution {
  import opened Wrappers
  import opened LamaValues
  import opened StackMachine
  import opened CodeShape

  /** The code c starts at position k of p. */
  ghost predicate CodeAt(p: Prog, k: nat, c: Prog) {
    k + |c| <= |p| && p[k..k + |c|] == c
  }

  ghost predicate Unique(p: Prog) {
    forall x :: Count(p, x) <= 1
  }

  lemma CodeSplit(p: Prog, k: nat, a: Prog, b: Prog)
    requires CodeAt(p, k, a + b)
    ensures CodeAt(p, k, a) && CodeAt(p, k + |a|, b)
  {
    var c := p[k..k + |a + b|];
    assert c[..|a|] == a && c[|a|..] == b;
    assert p[k..k + |a|] == c[..|a|];
    assert p[k + |a|..k + |a| + |b|] == c[|a|..];
  }

  lemma InsnAt(p: Prog, k: nat, c: Prog, i: nat)
    requires CodeAt(p, k, c) && i < |c|
    ensures k + i < |p| && p[k + i] == c[i]
  {
    assert p[k..k + |c|][i] == p[k + i];
  }

  lemma LabelAt(p: Prog, k: nat, l: Label)
    requires Unique(p) && k < |p| && (p[k] == LABEL(l) || p[k] == FLABEL(l))
    ensures FindLabel(p, l) == Some(k + 1)
  {
    FindsTheDefinition(p, k, l);
  }

  /** The machine with another position, stack and store. */
  function Moved(m: Machine, pc: nat, stack: List<Value>, store: Store): Machine {
    m.(pc := pc, stack := stack, world := m.world.(store := store))
  }

  predicate Fetches(p: Prog, m: Machine, i: Insn) {
    m.pc < |p| && p[m.pc] == i
  }

  lemma OneStep(p: Prog, m: Machine, m': Machine)
    requires Step(p, m) == Next(m') && Tame(p, m)
    ensures Reaches(p, m, m')
  {
    hide Step, Tame;
    ReachesStep(p, m, m');
  }

  lemma RunSkip(p: Prog, m: Machine)
    requires m.pc < |p|
    requires (p[m.pc].LABEL? || p[m.pc].FLABEL? || p[m.pc].SLABEL? || p[m.pc].PUBLIC? || p[m.pc].IMPORT?
      || p[m.pc].EXTERN?)
    ensures Reaches(p, m, m.(pc := m.pc + 1))
  {
    hide Reaches;
    OneStep(p, m, m.(pc := m.pc + 1));
  }

  lemma RunDup(p: Prog, m: Machine)
    requires Fetches(p, m, DUP) && m.stack.Cons?
    ensures Reaches(p, m, m.(pc := m.pc + 1, stack := Cons(m.stack.head, m.stack)))
  {
    hide Reaches;
    OneStep(p, m, m.(pc := m.pc + 1, stack := Cons(m.stack.head, m.stack)));
  }

  lemma RunDrop(p: Prog, m: Machine)
    requires Fetches(p, m, DROP) && m.stack.Cons?
    ensures Reaches(p, m, m.(pc := m.pc + 1, stack := m.stack.tail))
  {
    hide Reaches;
    OneStep(p, m, m.(pc := m.pc + 1, stack := m.stack.tail));
  }

  lemma RunConst(p: Prog, m: Machine, n: int)
    requires Fetches(p, m, CONST(n))
    ensures Reaches(p, m, m.(pc := m.pc + 1, stack := Cons(Int(n), m.stack)))
  {
    hide Reaches;
    OneStep(p, m, m.(pc := m.pc + 1, stack := Cons(Int(n), m.stack)));
  }

  lemma RunString(p: Prog, m: Machine, s: string)
    requires Fetches(p, m, STRING(s))
    ensures Reaches(p, m, Moved(m, m.pc + 1, Cons(Ref(|m.world.store|), m.stack), m.world.store + [StringObject(s)]))
  {
    hide Reaches;
    OneStep(p, m, Moved(m, m.pc + 1, Cons(Ref(|m.world.store|), m.stack), m.world.store + [StringObject(s)]));
  }

  lemma RunJump(p: Prog, m: Machine, l: Label, target: nat)
    requires Fetches(p, m, JMP(l)) && FindLabel(p, l) == Some(target)
    ensures Reaches(p, m, m.(pc := target))
  {
    hide Reaches;
    OneStep(p, m, m.(pc := target));
  }

  /** A conditional jump; the label need only exist if the jump is taken. */
  lemma RunBranch(p: Prog, m: Machine, nonzero: bool, l: Label, n: int, rest: List<Value>, target: nat)
    requires Fetches(p, m, CJMP(nonzero, l)) && m.stack == Cons(Int(n), rest)
    requires (n != 0) == nonzero ==> FindLabel(p, l) == Some(target)
    ensures Reaches(p, m, m.(pc := if (n != 0) == nonzero then target else m.pc + 1, stack := rest))
  {
    hide Reaches;
    OneStep(p, m, m.(pc := if (n != 0) == nonzero then target else m.pc + 1, stack := rest));
  }

  /** What the inspecting instructions answer about a value. */
  ghost predicate Answers(store: Store, w: Value, i: Insn) {
    match i
    case PATT(q) => q != StrCmp && IsKind(store, w, q)
    case TAG(t, n) =>
      Deref(store, w).Some? && Deref(store, w).value.SexpObject? && Deref(store, w).value.tag == t
        && |Deref(store, w).value.elems| == n
    case ARRAY(n) => Deref(store, w).Some? && Deref(store, w).value.ArrayObject? && |Deref(store, w).value.elems| == n
    case _ => false
  }

  lemma RunInspect(p: Prog, m: Machine, i: Insn, w: Value, rest: List<Value>)
    requires Fetches(p, m, i) && m.stack == Cons(w, rest)
    requires ((i.PATT? && i.p != StrCmp) || i.TAG? || i.ARRAY?) && Inspectable(m.world.store, w)
    ensures Reaches(p, m, m.(pc := m.pc + 1, stack := Cons(Int(BoolToInt(Answers(m.world.store, w, i))), rest)))
  {
    hide Reaches, IsKind;
    OneStep(p, m, m.(pc := m.pc + 1, stack := Cons(Int(BoolToInt(Answers(m.world.store, w, i))), rest)));
  }

  lemma RunEqual(p: Prog, m: Machine, w: Value, n: int, rest: List<Value>)
    requires Fetches(p, m, BINOP(Eq)) && m.stack == Cons(Int(n), Cons(w, rest))
    ensures Reaches(p, m, m.(pc := m.pc + 1, stack := Cons(Int(BoolToInt(w == Int(n))), rest)))
  {
    hide Reaches;
    OneStep(p, m, m.(pc := m.pc + 1, stack := Cons(Int(BoolToInt(w == Int(n))), rest)));
  }

  lemma RunCompare(p: Prog, m: Machine, x: Value, y: Value, rest: List<Value>)
    requires Fetches(p, m, PATT(StrCmp)) && m.stack == Cons(x, Cons(y, rest))
    requires Deref(m.world.store, x).Some? && Deref(m.world.store, x).value.StringObject?
    ensures Reaches(p, m, m.(pc := m.pc + 1,
      stack := Cons(Int(BoolToInt(Deref(m.world.store, y) == Deref(m.world.store, x))), rest)))
  {
    hide Reaches;
    OneStep(p, m, m.(pc := m.pc + 1,
      stack := Cons(Int(BoolToInt(Deref(m.world.store, y) == Deref(m.world.store, x))), rest)));
  }

  lemma RunElem(p: Prog, m: Machine, b: Value, j: Value, rest: List<Value>)
    requires Fetches(p, m, ELEM) && m.stack == Cons(j, Cons(b, rest)) && Element(m.world.store, b, j).Some?
    ensures Reaches(p, m, m.(pc := m.pc + 1, stack := Cons(Element(m.world.store, b, j).value, rest)))
  {
    hide Reaches, Element;
    OneStep(p, m, m.(pc := m.pc + 1, stack := Cons(Element(m.world.store, b, j).value, rest)));
  }

  lemma RunStore(p: Prog, m: Machine, d: Designation, m': Machine)
    requires Fetches(p, m, ST(d)) && m.stack.Cons? && AssignTo(m, d, m.stack.head) == Some(m')
    ensures Reaches(p, m, m'.(pc := m'.pc + 1))
  {
    hide Reaches, AssignTo;
    OneStep(p, m, m'.(pc := m'.pc + 1));
  }
}
