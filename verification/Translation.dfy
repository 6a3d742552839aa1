/** What the assembler makes of instructions (src/SM.ml:232-340): operations with offsets for labels, indices for
    strings and globals; where each instruction starts, and which labels are still to be filled in. */
module Translation {
  import opened Wrappers
  import opened LamaValues
  import opened StackMachine
  import opened ByteFormat

  /** The indices of strings and globals. */
  datatype Names = Names(strings: map<string, nat>, globals: map<string, nat>)

  /** labeled "read" and the like have opcodes of their own. */
  function BuiltinCode(name: string): Option<Byte> {
    if name == "read" then Some(0x70)
    else if name == "write" then Some(0x71)
    else if name == "length" then Some(0x72)
    else if name == "string" then Some(0x73)
    else None
  }

  predicate IsBuiltinCall(l: Label) {
    l.Named? && (BuiltinCode(l.name).Some? || l.name == ".array")
  }

  function OpNumber(op: Op): Byte {
    match op
    case Add => 1 case Sub => 2 case Mul => 3 case Div => 4 case Mod => 5
    case Lt => 6 case Le => 7 case Gt => 8 case Ge => 9 case Eq => 10 case Ne => 11
    case And => 12 case Or => 13
  }

  function PattNumber(p: Patt): Byte {
    match p
    case StrCmp => 0 case StringTag => 1 case ArrayTag => 2 case SexpTag => 3
    case Boxed => 4 case UnBoxed => 5 case ClosureTag => 6
  }

  type Op = LamaValues.Op

  function ModeOf(d: Designation): Mode {
    match d
    case Local(_) => 1
    case Arg(_) => 2
    case Access(_) => 3
    case _ => 0
  }

  function IndexOf(names: Names, d: Designation): nat
    requires Known(names, d)
  {
    match d
    case Global(x) => names.globals[x]
    case Local(i) => i
    case Arg(i) => i
    case Access(i) => i
    case Fun(_) => 0
  }

  predicate Known(names: Names, d: Designation) {
    d.Global? ==> d.name in names.globals
  }

  /** Functions have no address. */
  predicate Addressable(d: Designation) { !d.Fun? }

  function PlacesOf(i: Insn): seq<Designation> {
    match i
    case LD(d) => [d]
    case LDA(d) => [d]
    case ST(d) => [d]
    case CLOSURE(_, ds) => ds
    case _ => []
  }

  function StringOf(i: Insn): Option<string> {
    match i
    case STRING(s) => Some(s)
    case SEXP(s, _) => Some(s)
    case TAG(s, _) => Some(s)
    case _ => None
  }

  /** Instructions that leave no bytes. */
  predicate Pseudo(i: Insn) {
    i.LABEL? || i.FLABEL? || i.SLABEL? || i.EXTERN? || i.PUBLIC? || i.IMPORT?
  }

  /** The label operand. */
  function TargetOf(i: Insn): Option<Label> {
    match i
    case JMP(l) => Some(l)
    case CJMP(_, l) => Some(l)
    case CLOSURE(l, _) => Some(l)
    case CALL(l, _) => if IsBuiltinCall(l) then None else Some(l)
    case _ => None
  }

  predicate HasNames(names: Names, i: Insn) {
    && (forall j :: 0 <= j < |PlacesOf(i)| ==> Known(names, PlacesOf(i)[j]))
    && (StringOf(i).Some? ==> StringOf(i).value in names.strings)
  }

  function Slots(names: Names, ds: seq<Designation>): seq<Slot>
    requires forall j :: 0 <= j < |ds| ==> Known(names, ds[j])
  {
    seq(|ds|, j requires 0 <= j < |ds| => Slot(ModeOf(ds[j]), IndexOf(names, ds[j])))
  }

  /** The operation for an instruction whose label, if any, is at offset t. */
  function Translate(names: Names, i: Insn, t: int): ByteFormat.Op
    requires HasNames(names, i) && !Pseudo(i)
  {
    match i
    case BINOP(op) => Plain(OpNumber(op))
    case CONST(n) => One(0x10, n)
    case STRING(s) => One(0x11, names.strings[s])
    case SEXP(s, n) => Two(0x12, names.strings[s], n)
    case STI => Plain(0x13)
    case STA => Plain(0x14)
    case JMP(_) => One(0x15, t)
    case END => Plain(0x16)
    case RET => Plain(0x17)
    case DROP => Plain(0x18)
    case DUP => Plain(0x19)
    case SWAP => Plain(0x1a)
    case ELEM => Plain(0x1b)
    case LD(d) => assert d == PlacesOf(i)[0]; ByteFormat.Access(0x20 + ModeOf(d), IndexOf(names, d))
    case LDA(d) => assert d == PlacesOf(i)[0]; ByteFormat.Access(0x30 + ModeOf(d), IndexOf(names, d))
    case ST(d) => assert d == PlacesOf(i)[0]; ByteFormat.Access(0x40 + ModeOf(d), IndexOf(names, d))
    case CJMP(nonzero, _) => One(if nonzero then 0x51 else 0x50, t)
    case BEGIN(_, a, l, c) => Two(if c == [] then 0x52 else 0x53, a, l)
    case CLOSURE(_, ds) => assert ds == PlacesOf(i); ByteFormat.Closure(t, Slots(names, ds))
    case CALLC(n) => One(0x55, n)
    case CALL(l, n) =>
      if l.Named? && BuiltinCode(l.name).Some? then Plain(BuiltinCode(l.name).value)
      else if l.Named? && l.name == ".array" then One(0x74, n)
      else Two(0x56, t, n)
    case TAG(s, n) => Two(0x57, names.strings[s], n)
    case ARRAY(n) => One(0x58, n)
    case PATT(p) => Plain(0x60 + PattNumber(p))
    case FAIL(l, c) => Two(0x59, l, c)
    case LINE(n) => One(0x5a, n)
  }

  function InsnBytes(names: Names, i: Insn, t: int): seq<Byte>
    requires HasNames(names, i)
  {
    if Pseudo(i) then [] else Bytes(Translate(names, i, t))
  }

  function Size(i: Insn): nat {
    match i
    case LABEL(_) => 0 case FLABEL(_) => 0 case SLABEL(_) => 0
    case EXTERN(_) => 0 case PUBLIC(_) => 0 case IMPORT(_) => 0
    case CONST(_) => 5 case STRING(_) => 5 case SEXP(_, _) => 9 case JMP(_) => 5 case CJMP(_, _) => 5
    case LD(_) => 5 case LDA(_) => 5 case ST(_) => 5 case BEGIN(_, _, _, _) => 9
    case CLOSURE(_, ds) => 9 + 5 * |ds|
    case CALLC(_) => 5
    case CALL(l, _) => if l.Named? && BuiltinCode(l.name).Some? then 1 else if l == Named(".array") then 5 else 9
    case TAG(_, _) => 9 case ARRAY(_) => 5 case FAIL(_, _) => 9 case LINE(_) => 5
    case _ => 1
  }

  lemma {:induction false} SlotsSize(ds: seq<Slot>)
    ensures |SlotBytes(ds)| == 5 * |ds|
  {
    if ds != [] {
      SlotsSize(ds[1..]);
    }
  }

  /** The size does not depend on names and offsets. */
  lemma InsnSize(names: Names, i: Insn, t: int)
    requires HasNames(names, i)
    ensures |InsnBytes(names, i, t)| == Size(i)
  {
    hide IntBytes, SlotBytes, BuiltinCode;
    if i.CLOSURE? {
      assert i.captured == PlacesOf(i);
      SlotsSize(Slots(names, i.captured));
    }
  }

  /** A label operand comes right behind the opcode. */
  lemma TargetBytes(names: Names, i: Insn, t: int)
    requires HasNames(names, i) && TargetOf(i).Some?
    ensures
      var tail := InsnBytes(names, i, 0)[5..];
      |InsnBytes(names, i, 0)| >= 5 && InsnBytes(names, i, t) == [InsnBytes(names, i, 0)[0]] + IntBytes(t) + tail
  {
    hide IntBytes, SlotBytes, BuiltinCode, Slots;
  }

  lemma NoTarget(names: Names, i: Insn, t: int)
    requires HasNames(names, i) && TargetOf(i).None?
    ensures InsnBytes(names, i, t) == InsnBytes(names, i, 0)
  {
    hide IntBytes, SlotBytes, BuiltinCode;
  }

  // ---- programs ----

  predicate AllNamed(names: Names, p: Prog) {
    forall j :: 0 <= j < |p| ==> HasNames(names, p[j])
  }

  function Offset(p: Prog): nat {
    if p == [] then 0 else Offset(p[..|p| - 1]) + Size(p[|p| - 1])
  }

  /** The bytes with all label operands zero. */
  function Draft(names: Names, p: Prog): seq<Byte>
    requires AllNamed(names, p)
  {
    if p == [] then [] else Draft(names, p[..|p| - 1]) + InsnBytes(names, p[|p| - 1], 0)
  }

  predicate AllDefined(labels: map<Label, nat>, p: Prog) {
    forall j :: 0 <= j < |p| && TargetOf(p[j]).Some? ==> TargetOf(p[j]).value in labels
  }

  function TargetAt(labels: map<Label, nat>, i: Insn): int
    requires TargetOf(i).Some? ==> TargetOf(i).value in labels
  {
    if TargetOf(i).Some? then labels[TargetOf(i).value] else 0
  }

  /** The bytes with label operands filled in. */
  function Final(names: Names, labels: map<Label, nat>, p: Prog): seq<Byte>
    requires AllNamed(names, p) && AllDefined(labels, p)
  {
    if p == [] then [] else InsnBytes(names, p[0], TargetAt(labels, p[0])) + Final(names, labels, p[1..])
  }

  /** The operations of a program. */
  function Ops(names: Names, labels: map<Label, nat>, p: Prog): seq<ByteFormat.Op>
    requires AllNamed(names, p) && AllDefined(labels, p)
  {
    if p == [] then []
    else if Pseudo(p[0]) then Ops(names, labels, p[1..])
    else [Translate(names, p[0], TargetAt(labels, p[0]))] + Ops(names, labels, p[1..])
  }

  lemma {:induction false} FinalIsOps(names: Names, labels: map<Label, nat>, p: Prog)
    requires AllNamed(names, p) && AllDefined(labels, p)
    ensures Final(names, labels, p) == AllBytes(Ops(names, labels, p))
  {
    hide Translate, Bytes;
    if p != [] {
      FinalIsOps(names, labels, p[1..]);
    }
  }

  lemma {:induction false} DraftSize(names: Names, p: Prog)
    requires AllNamed(names, p)
    ensures |Draft(names, p)| == Offset(p)
  {
    hide InsnBytes, Size;
    if p != [] {
      DraftSize(names, p[..|p| - 1]);
      InsnSize(names, p[|p| - 1], 0);
    }
  }

  /** Where l is marked last. */
  function LastMark(p: Prog, l: Label): Option<nat> {
    if p == [] then None
    else if Marks(p[|p| - 1], l) then Some(|p| - 1)
    else LastMark(p[..|p| - 1], l)
  }

  /** The table of labels after the instructions p. */
  ghost predicate LabelsOf(labels: map<Label, nat>, p: Prog) {
    forall l ::
      match LastMark(p, l)
      case None => l !in labels
      case Some(j) => l in labels && j < |p| && labels[l] == Offset(p[..j])
  }

  /** The operands to fill in, the last first. */
  function Fixups(p: Prog): seq<(nat, Label)> {
    if p == [] then []
    else
      var rest := Fixups(p[..|p| - 1]);
      match TargetOf(p[|p| - 1])
      case None => rest
      case Some(l) => [(Offset(p[..|p| - 1]) + 1, l)] + rest
  }

  /** Names once given stay. */
  ghost predicate Grow(names: Names, names': Names) {
    && (forall s :: s in names.strings ==> s in names'.strings && names'.strings[s] == names.strings[s])
    && (forall x :: x in names.globals ==> x in names'.globals && names'.globals[x] == names.globals[x])
  }

  lemma NamedGrows(names: Names, names': Names, i: Insn)
    requires Grow(names, names') && HasNames(names, i)
    ensures HasNames(names', i)
  {
  }

  lemma BytesGrow(names: Names, names': Names, i: Insn, t: int)
    requires Grow(names, names') && HasNames(names, i) && HasNames(names', i)
    ensures InsnBytes(names', i, t) == InsnBytes(names, i, t)
  {
    hide Bytes;
    if i.CLOSURE? {
      assert i.captured == PlacesOf(i);
      assert Slots(names', i.captured) == Slots(names, i.captured);
    } else if i.LD? || i.LDA? || i.ST? {
      assert PlacesOf(i)[0] == i.place;
    }
  }

  lemma {:induction false} DraftGrows(names: Names, names': Names, p: Prog)
    requires Grow(names, names') && AllNamed(names, p)
    ensures AllNamed(names', p) && Draft(names', p) == Draft(names, p)
  {
    hide InsnBytes, Grow, HasNames;
    forall j | 0 <= j < |p| ensures HasNames(names', p[j]) {
      NamedGrows(names, names', p[j]);
    }
    if p != [] {
      DraftGrows(names, names', p[..|p| - 1]);
      BytesGrow(names, names', p[|p| - 1], 0);
    }
  }

  // ---- filling in ----

  /** Filled in from position c on. */
  function Mixed(names: Names, labels: map<Label, nat>, p: Prog, c: nat): seq<Byte>
    requires AllNamed(names, p) && AllDefined(labels, p) && c <= |p|
  {
    Draft(names, p[..c]) + Final(names, labels, p[c..])
  }

  /** The last instruction before c whose operand is to be filled in. */
  lemma {:induction false} NextFixup(names: Names, labels: map<Label, nat>, p: Prog, c: nat) returns (j: nat)
    requires AllNamed(names, p) && AllDefined(labels, p) && c <= |p| && Fixups(p[..c]) != []
    ensures j < c && TargetOf(p[j]).Some?
    ensures Fixups(p[..c]) == [(Offset(p[..j]) + 1, TargetOf(p[j]).value)] + Fixups(p[..j])
    ensures Mixed(names, labels, p, c) == Mixed(names, labels, p, j + 1)
    decreases c
  {
    hide InsnBytes, Size, Mixed, AllNamed, AllDefined, TargetOf;
    assert p[..c][..c - 1] == p[..c - 1];
    if TargetOf(p[c - 1]).Some? {
      j := c - 1;
    } else {
      j := NextFixup(names, labels, p, c - 1);
      MixedStep(names, labels, p, c - 1);
    }
  }

  /** Nothing to fill in. */
  lemma MixedStep(names: Names, labels: map<Label, nat>, p: Prog, c: nat)
    requires AllNamed(names, p) && AllDefined(labels, p) && c < |p| && TargetOf(p[c]).None?
    ensures Mixed(names, labels, p, c + 1) == Mixed(names, labels, p, c)
  {
    hide InsnBytes;
    NoTarget(names, p[c], TargetAt(labels, p[c]));
    assert p[..c + 1][..c] == p[..c] && p[c..][1..] == p[c + 1..];
    assert Draft(names, p[..c + 1]) == Draft(names, p[..c]) + InsnBytes(names, p[c], 0);
    assert Final(names, labels, p[c..]) == InsnBytes(names, p[c], TargetAt(labels, p[c])) + Final(names, labels,
      p[c + 1..]);
  }

  /** Nothing left to fill in: the code is final. */
  lemma {:induction false} MixedDone(names: Names, labels: map<Label, nat>, p: Prog, c: nat)
    requires AllNamed(names, p) && AllDefined(labels, p) && c <= |p| && Fixups(p[..c]) == []
    ensures Mixed(names, labels, p, c) == Final(names, labels, p)
    decreases c
  {
    hide InsnBytes, Final;
    if c == 0 {
      assert p[0..] == p && p[..0] == [];
      assert Draft(names, p[..0]) == [];
    } else {
      assert p[..c][..c - 1] == p[..c - 1];
      MixedStep(names, labels, p, c - 1);
      MixedDone(names, labels, p, c - 1);
    }
  }

  /** Writing the offset at an operand fills in that instruction. */
  lemma PatchFills(names: Names, labels: map<Label, nat>, p: Prog, j: nat)
    requires AllNamed(names, p) && AllDefined(labels, p) && j < |p| && TargetOf(p[j]).Some?
    ensures
      var code, ofs, t := Mixed(names, labels, p, j + 1), Offset(p[..j]) + 1, labels[TargetOf(p[j]).value];
      && ofs + 4 <= |code|
      && code[..ofs] + IntBytes(t) + code[ofs + 4..] == Mixed(names, labels, p, j)
  {
    hide InsnBytes, IntBytes;
    var t := labels[TargetOf(p[j]).value];
    var pre, b, b' := Draft(names, p[..j]), InsnBytes(names, p[j], 0), InsnBytes(names, p[j], t);
    var post := Final(names, labels, p[j + 1..]);
    TargetBytes(names, p[j], t);
    DraftSize(names, p[..j]);
    assert p[..j + 1][..j] == p[..j] && p[j..][1..] == p[j + 1..];
    assert Mixed(names, labels, p, j + 1) == pre + b + post;
    assert Final(names, labels, p[j..]) == b' + post;
    assert Mixed(names, labels, p, j) == pre + (b' + post);
    PatchBytes(pre, b, post, IntBytes(t), b');
  }

  lemma PatchBytes(pre: seq<Byte>, b: seq<Byte>, post: seq<Byte>, four: seq<Byte>, b': seq<Byte>)
    requires |b| >= 5 && |four| == 4 && b' == [b[0]] + four + b[5..]
    ensures
      var code, ofs := pre + b + post, |pre| + 1;
      code[..ofs] + four + code[ofs + 4..] == pre + (b' + post)
  {
    var code, ofs := pre + b + post, |pre| + 1;
    assert code[..ofs] == pre + [b[0]];
    assert code[ofs + 4..] == b[5..] + post;
  }

  // ---- what offsets mean ----

  lemma {:induction false} FinalAppend(names: Names, labels: map<Label, nat>, a: Prog, b: Prog)
    requires AllNamed(names, a + b) && AllDefined(labels, a + b)
    ensures AllNamed(names, a) && AllNamed(names, b) && AllDefined(labels, a) && AllDefined(labels, b)
    ensures Final(names, labels, a + b) == Final(names, labels, a) + Final(names, labels, b)
    decreases |a|
  {
    hide InsnBytes;
    PartsNamed(names, labels, a, b);
    if a == [] {
      assert a + b == b;
    } else {
      assert (a + b)[1..] == a[1..] + b;
      FinalAppend(names, labels, a[1..], b);
    }
  }

  lemma PartsNamed(names: Names, labels: map<Label, nat>, a: Prog, b: Prog)
    requires AllNamed(names, a + b) && AllDefined(labels, a + b)
    ensures AllNamed(names, a) && AllNamed(names, b) && AllDefined(labels, a) && AllDefined(labels, b)
  {
    hide HasNames, TargetOf;
    var p := a + b;
    forall j | 0 <= j < |a| ensures HasNames(names, a[j]) && (TargetOf(a[j]).Some? ==> TargetOf(a[j]).value in labels) {
      assert p[j] == a[j];
    }
    forall j | 0 <= j < |b| ensures HasNames(names, b[j]) && (TargetOf(b[j]).Some? ==> TargetOf(b[j]).value in labels) {
      assert p[|a| + j] == b[j];
    }
  }

  lemma {:induction false} OffsetFirst(i: Insn, p: Prog)
    ensures Offset([i] + p) == Size(i) + Offset(p)
    decreases |p|
  {
    hide Size;
    if p == [] {
      assert [i] + p == [i] && [i][..0] == [];
    } else {
      assert ([i] + p)[..|p|] == [i] + p[..|p| - 1];
      OffsetFirst(i, p[..|p| - 1]);
    }
  }

  lemma {:induction false} FinalSize(names: Names, labels: map<Label, nat>, p: Prog)
    requires AllNamed(names, p) && AllDefined(labels, p)
    ensures |Final(names, labels, p)| == Offset(p)
  {
    hide InsnBytes, Size;
    if p != [] {
      InsnSize(names, p[0], TargetAt(labels, p[0]));
      FinalSize(names, labels, p[1..]);
      OffsetFirst(p[0], p[1..]);
      assert p == [p[0]] + p[1..];
    }
  }

  /** Operands fit 32 bits. */
  predicate AllFit(names: Names, labels: map<Label, nat>, p: Prog)
    requires AllNamed(names, p) && AllDefined(labels, p)
  {
    forall j :: 0 <= j < |Ops(names, labels, p)| ==> OpOk(Ops(names, labels, p)[j])
  }

  /** Decoding the final code gives the operations; decoding from a label's offset gives those behind the label. */
  lemma DecodesFrom(names: Names, labels: map<Label, nat>, p: Prog, j: nat)
    requires AllNamed(names, p) && AllDefined(labels, p) && j <= |p| && AllFit(names, labels, p)
    ensures AllNamed(names, p[j..]) && AllDefined(labels, p[j..])
    ensures Decode(Final(names, labels, p) + [255],
      Offset(p[..j])) == Some(Positioned(Ops(names, labels, p[j..]), Offset(p[..j])))
  {
    hide Decode, Positioned, OpOk, Final, Ops, Offset, HasNames;
    assert p == p[..j] + p[j..];
    PartsNamed(names, labels, p[..j], p[j..]);
    FinalAppend(names, labels, p[..j], p[j..]);
    FinalSize(names, labels, p[..j]);
    FinalIsOps(names, labels, p[j..]);
    OpsAppend(names, labels, p[..j], p[j..]);
    var code, rest := Final(names, labels, p) + [255], AllBytes(Ops(names, labels, p[j..])) + [255];
    assert code == Final(names, labels, p[..j]) + rest;
    assert code[Offset(p[..j])..Offset(p[..j]) + |rest|] == rest;
    CodeRoundTrip(code, Offset(p[..j]), Ops(names, labels, p[j..]));
  }

  lemma {:induction false} OpsJoin(names: Names, labels: map<Label, nat>, a: Prog, b: Prog)
    requires AllNamed(names, a + b) && AllDefined(labels, a + b) && AllNamed(names, a) && AllNamed(names, b)
    requires AllDefined(labels, a) && AllDefined(labels, b)
    ensures Ops(names, labels, a + b) == Ops(names, labels, a) + Ops(names, labels, b)
    decreases |a|
  {
    hide Translate;
    if a == [] {
      assert a + b == b;
    } else {
      assert (a + b)[1..] == a[1..] + b;
      OpsJoin(names, labels, a[1..], b);
    }
  }

  lemma OpsAppend(names: Names, labels: map<Label, nat>, a: Prog, b: Prog)
    requires AllNamed(names, a + b) && AllDefined(labels, a + b) && AllNamed(names, a) && AllNamed(names, b)
    requires AllDefined(labels, a) && AllDefined(labels, b)
    ensures Ops(names, labels, a + b) == Ops(names, labels, a) + Ops(names, labels, b)
    ensures AllFit(names, labels, a + b) ==>
      forall j :: 0 <= j < |Ops(names, labels, b)| ==> OpOk(Ops(names, labels, b)[j])
  {
    hide Ops, OpOk, AllNamed, AllDefined;
    OpsJoin(names, labels, a, b);
    var all := Ops(names, labels, a + b);
    if AllFit(names, labels, a + b) {
      forall j | 0 <= j < |Ops(names, labels, b)| ensures OpOk(Ops(names, labels, b)[j]) {
        assert all[|Ops(names, labels, a)| + j] == Ops(names, labels, b)[j];
      }
    }
  }
}
