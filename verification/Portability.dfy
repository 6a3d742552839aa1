/** When a run of the stack machine is one of the interpreter: a condition on the program's text and one on its
    steps. */
module Portability {
  import opened Wrappers
  import opened LamaValues
  import opened StackMachine
  import opened RuntimeCalls
  import ByteFormat

  // ---- the program's text ----

  /** No zeros and no bytes with a sign. */
  predicate PlainText(s: string) { forall i :: 0 <= i < |s| ==> 0 < s[i] as int < 128 }

  function TagOf(i: Insn): Option<string> {
    match i
    case SEXP(tag, _) => Some(tag)
    case TAG(tag, _) => Some(tag)
    case _ => None
  }

  /** Constants fit, strings are plain, tags have hashes, patterns have opcodes, builtins get the operands they take. */
  predicate PortableInsn(i: Insn) {
    match i
    case CONST(n) => Fits31(n)
    case STRING(s) => PlainText(s)
    case SEXP(tag, _) => TagHash(tag).Some?
    case TAG(tag, _) => TagHash(tag).Some?
    case PATT(q) => !q.Boxed? && !q.SexpTag?
    case CALL(l, n) => l.Named? ==> l.name != ".elem" && (Called(l.name) ==> n == Pops(l.name, n))
    case _ => true
  }

  /** Different tags differ in their first five characters. */
  predicate TagsApart(p: Prog) {
    forall i, j :: 0 <= i < |p| && 0 <= j < |p| && TagOf(p[i]).Some? && TagOf(p[j]).Some? ==>
      (Short(TagOf(p[i]).value) == Short(TagOf(p[j]).value) ==> TagOf(p[i]) == TagOf(p[j]))
  }

  predicate Portable(p: Prog) {
    (forall i :: 0 <= i < |p| ==> PortableInsn(p[i])) && TagsApart(p)
  }

  // ---- the steps ----

  /** The numbers of this step fit and are not taken for references; bytes assigned are plain; string patterns meet
      strings. */
  ghost predicate MildStep(address: nat -> int, p: Prog, m: Machine) {
    m.pc < |p| ==>
    match p[m.pc]
    case BINOP(op) =>
      m.stack.Cons? && m.stack.tail.Cons? ==>
        var x, y := m.stack.tail.head, m.stack.head;
        Compute(op, x, y).Some? ==>
          if x.Int? && y.Int? then Fits31(Compute(op, x, y).value.n) else UnboxWord(address, x) != UnboxWord(address, y)
    case STA =>
      m.stack.Cons? && m.stack.tail.Cons? && m.stack.tail.tail.Cons?
        && IsString(m.world.store, m.stack.tail.tail.head) ==>
        m.stack.head.Int? ==> 0 < m.stack.head.n < 128
    case PATT(q) => q == StrCmp && m.stack.Cons? && m.stack.tail.Cons? ==> IsString(m.world.store, m.stack.tail.head)
    case CALL(l, n) =>
      l.Named? && Called(l.name) && MachineCall(m.world, m.stack, l.name, n).Some? ==>
        ResultFits(MachineCall(m.world, m.stack, l.name, n).value.1.head)
    case _ => true
  }

  /** The first n steps are mild. */
  ghost predicate MildRun(address: nat -> int, p: Prog, m: Machine, n: nat)
    decreases n
  {
    n > 0 ==> MildStep(address, p, m) && (Step(p, m).Next? ==> MildRun(address, p, Step(p, m).m, n - 1))
  }

  // ---- what holds along the run ----

  ghost predicate FromText(p: Prog, tag: string) { exists i :: 0 <= i < |p| && TagOf(p[i]) == Some(tag) }

  ghost predicate PlainObject(p: Prog, o: Object) {
    match o
    case StringObject(s) => PlainText(s)
    case SexpObject(tag, _) => FromText(p, tag)
    case _ => true
  }

  /** All strings are plain, all tags come from the program. */
  ghost predicate PlainStore(p: Prog, store: Store) {
    forall a :: 0 <= a < |store| ==> PlainObject(p, store[a])
  }

  lemma FromTextHashes(p: Prog, tag: string)
    requires Portable(p) && FromText(p, tag)
    ensures TagHash(tag).Some?
  {
    hide TagHash, Short;
    var i :| 0 <= i < |p| && TagOf(p[i]) == Some(tag);
    assert PortableInsn(p[i]);
  }

  lemma TagFaithful(p: Prog, m: Machine, tag: string, n: nat)
    requires Portable(p) && PlainStore(p, m.world.store) && m.pc < |p| && p[m.pc] == TAG(tag, n)
    requires m.stack.Cons? && Inspectable(m.world.store, m.stack.head)
    ensures Btag(m.world.store, m.stack.head, tag, n) == Some(HasTag(m.world.store, m.stack.head, tag, n))
  {
    hide TagHash, Short;
    var store, v := m.world.store, m.stack.head;
    assert PortableInsn(p[m.pc]) && TagOf(p[m.pc]) == Some(tag);
    if IsSexp(store, v) {
      var t := store[v.address].tag;
      assert PlainObject(p, store[v.address]);
      FromTextHashes(p, t);
      var i :| 0 <= i < |p| && TagOf(p[i]) == Some(t);
      assert Short(TagOf(p[i]).value) == Short(TagOf(p[m.pc]).value) ==> TagOf(p[i]) == TagOf(p[m.pc]);
    }
    TagTestAgreesIff(store, v, tag, n);
  }

  lemma PlainCut(s: string)
    requires PlainText(s)
    ensures ByteFormat.NulFree(s) && Cut(s) == s
  {
    CutNothing(s);
  }

  lemma StringFaithful(p: Prog, store: Store, x: Value, y: Value)
    requires PlainStore(p, store) && IsString(store, x) && IsString(store, y)
    ensures BstringPatt(store, x, y) == Some(SameText(store, x, y))
  {
    hide Cut, PlainText;
    assert PlainObject(p, store[x.address]) && PlainObject(p, store[y.address]);
    PlainCut(store[x.address].chars);
    PlainCut(store[y.address].chars);
    StringTestAgreesIff(store, x, y);
  }

  lemma ElementFaithful(p: Prog, store: Store, b: Value, j: Value)
    requires PlainStore(p, store) && Element(store, b, j).Some?
    ensures Belem(store, b, j) == Element(store, b, j)
  {
    assert PlainObject(p, store[b.address]);
    ElementAgreesIff(store, b, j);
  }

  lemma ElementByCall(w: World, b: Value, j: Value)
    requires CallBuiltin(w, [b, j], ".elem").Some?
    ensures Element(w.store, b, j).Some?
  {
    hide Element;
  }

  lemma CalledIfKnown(w: World, args: seq<Value>, name: string)
    requires CallBuiltin(w, args, name).Some? && name != ".elem"
    ensures Called(name)
  {
  }

  lemma CallFaithful(p: Prog, m: Machine, l: Label, n: nat)
    requires PortableInsn(CALL(l, n)) && l.Named?
    requires Called(l.name) && MachineCall(m.world, m.stack, l.name, n).Some? ==>
      ResultFits(MachineCall(m.world, m.stack, l.name, n).value.1.head)
    ensures MachineCall(m.world, m.stack, l.name, n).Some? ==>
      RuntimeCall(m.world, m.stack, l.name, n) == MachineCall(m.world, m.stack, l.name, n)
  {
    hide RuntimeCall, CallBuiltin, Called, Take, BottomUp;
    if MachineCall(m.world, m.stack, l.name, n).Some? {
      CalledIfKnown(m.world, BottomUp(Take(n, m.stack).value.0), l.name);
      BuiltinAgreesIff(m.world, m.stack, l.name, n);
    }
  }

  /** A mild step of portable code that the machine can take is one of the runtime. */
  lemma StepFaithful(address: nat -> int, p: Prog, m: Machine)
    requires Portable(p) && PlainStore(p, m.world.store) && Tame(p, m) && MildStep(address, p, m) && Step(p, m).Next?
    ensures Faithful(address, p, m)
  {
    hide TagHash, Short, Btag, BstringPatt, Belem, Element, Cut, CallBuiltin, RuntimeBuiltin, PlainStore, PlainText,
      TagsApart, FindLabel, IsKind;
    if m.pc < |p| {
      assert PortableInsn(p[m.pc]);
      match p[m.pc]
      case BINOP(op) => BinopAgreesIff(address, op, m.stack.tail.head, m.stack.head);
      case CONST(n) => WrapsIff(n);
      case STRING(s) => PlainCut(s);
      case ELEM =>
        ElementByCall(m.world, m.stack.tail.head, m.stack.head);
        ElementFaithful(p, m.world.store, m.stack.tail.head, m.stack.head);
      case TAG(tag, n) => TagFaithful(p, m, tag, n);
      case ARRAY(n) => ArrayTestAgreesIff(m.world.store, m.stack.head, n);
      case PATT(q) =>
        if q == StrCmp {
          StringFaithful(p, m.world.store, m.stack.head, m.stack.tail.head);
        } else {
          KindTestAgreesIff(m.world.store, m.stack.head, q);
        }
      case CALL(l, n) =>
        if l.Named? && FindLabel(p, l).None? {
          CallFaithful(p, m, l, n);
        }
      case _ =>
    }
  }

  // ---- the store stays plain ----

  lemma PlainMore(p: Prog, store: Store, o: Object)
    requires PlainStore(p, store) && PlainObject(p, o)
    ensures PlainStore(p, store + [o])
  {
    hide PlainObject;
  }

  lemma PlainUpdate(p: Prog, store: Store, a: nat, o: Object)
    requires PlainStore(p, store) && PlainObject(p, o) && a < |store|
    ensures PlainStore(p, store[a := o])
  {
    hide PlainObject;
  }

  lemma PlainAssign(p: Prog, m: Machine, d: Designation, z: Value)
    requires PlainStore(p, m.world.store) && AssignTo(m, d, z).Some?
    ensures PlainStore(p, AssignTo(m, d, z).value.world.store)
  {
    hide PlainStore;
    if d.Access? {
      var a := m.frame.closure.value;
      var o := m.world.store[a];
      PlainUpdate(p, m.world.store, a, o.(cells := o.cells[d.index := z]));
    }
  }

  lemma PlainElement(p: Prog, store: Store, b: Value, i: int, z: Value)
    requires PlainStore(p, store) && UpdateElement(store, b, i, z).Some?
    requires IsString(store, b) && z.Int? ==> 0 < z.n < 128
    ensures PlainStore(p, UpdateElement(store, b, i, z).value)
  {
    hide PlainStore;
    var o := store[b.address];
    PlainAt(p, store, b.address);
    match o
    case StringObject(chars) => PlainUpdate(p, store, b.address, StringObject(chars[i := z.n as char]));
    case ArrayObject(elems) => PlainUpdate(p, store, b.address, ArrayObject(elems[i := z]));
    case SexpObject(tag, elems) => PlainUpdate(p, store, b.address, SexpObject(tag, elems[i := z]));
  }

  lemma PlainAt(p: Prog, store: Store, a: nat)
    requires PlainStore(p, store) && a < |store|
    ensures PlainObject(p, store[a])
  {
  }

  lemma PlainCall(p: Prog, w: World, args: seq<Value>, name: string)
    requires PlainStore(p, w.store) && CallBuiltin(w, args, name).Some?
    ensures PlainStore(p, CallBuiltin(w, args, name).value.0.store)
  {
    hide PlainStore, Element;
    if name == ".array" {
      PlainMore(p, w.store, ArrayObject(args));
    }
  }

  lemma StepPlain(address: nat -> int, p: Prog, m: Machine)
    requires Portable(p) && PlainStore(p, m.world.store) && Tame(p, m) && MildStep(address, p, m) && Step(p, m).Next?
    ensures PlainStore(p, Step(p, m).m.world.store)
  {
    hide PlainStore, PlainText, TagsApart, FindLabel, CallBuiltin, UpdateElement, AssignTo, Take, BottomUp, Load,
      IsKind, Compute, MachineCall, TagHash;
    if m.pc < |p| {
      var store := m.world.store;
      assert PortableInsn(p[m.pc]);
      match p[m.pc]
      case STRING(s) => PlainMore(p, store, StringObject(s));
      case SEXP(tag, n) =>
        assert TagOf(p[m.pc]) == Some(tag);
        PlainMore(p, store, SexpObject(tag, BottomUp(Take(n, m.stack).value.0)));
      case ST(d) => PlainAssign(p, m, d, m.stack.head);
      case STI => PlainAssign(p, m, m.stack.tail.head.place, m.stack.head);
      case STA => PlainElement(p, store, m.stack.tail.tail.head, m.stack.tail.head.n, m.stack.head);
      case ELEM => PlainCall(p, m.world, [m.stack.tail.head, m.stack.head], ".elem");
      case CALL(l, n) =>
        if FindLabel(p, l).None? && l.Named? {
          PlainCall(p, m.world, BottomUp(Take(n, m.stack).value.0), l.name);
        }
      case _ =>
    }
  }
}
