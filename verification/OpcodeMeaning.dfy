/** What the bytes of a program mean to those who read them: the operation a decoded opcode stands for, by its two
    halves, as the disassembler and the interpreter dispatch (byterun/byterun.c:18-232,
    byterun/interpretatorv1_0.cpp:53-137), and that this is what the instructions say. */
module OpcodeMeaning {
  import opened Wrappers
  import opened LamaValues
  import opened StackMachine
  import opened ByteFormat
  import opened Translation
  import RuntimeCalls

  datatype Where = GlobalAt(i: int) | LocalAt(i: int) | ArgumentAt(i: int) | CapturedAt(i: int)

  /** What is done: operators and tests by their signs, places by index, strings as they are, code by offset. */
  datatype Act =
    | Operate(sign: string)
    | Number(n: int)
    | Text(s: string)
    | Build(tag: string, n: int)
    | StoreIndirect
    | StoreIndexed
    | Jump(to: int)
    | Leave
    | Back
    | Discard
    | Double
    | Exchange
    | Item
    | Fetch(place: Where)
    | AddressOf(place: Where)
    | Put(place: Where)
    | JumpIfZero(to: int)
    | JumpIfNotZero(to: int)
    | Enter(arguments: int, locals: int, captures: bool)
    | Enclose(entry: int, places: seq<Where>)
    | CallThrough(n: int)
    | CallAt(entry: int, n: int)
    | Ask(name: string)
    | Gather(n: int)
    | HasTag(tag: string, n: int)
    | HasItems(n: int)
    | Looks(sign: string)
    | GiveUp(line: int, column: int)
    | AtLine(n: int)

  // ---- what the readers make of an operation ----

  const SIGNS: seq<string> := ["+", "-", "*", "/", "%", "<", "<=", ">", ">=", "==", "!=", "&&", "!!"]

  const TESTS: seq<string> := ["=str", "#string", "#array", "#sexp", "#ref", "#val", "#fun"]

  const ASKED: seq<string> := ["read", "write", "length", "string"]

  function PlaceOf(l: int, i: int): Option<Where> {
    if l == 0 then Some(GlobalAt(i))
    else if l == 1 then Some(LocalAt(i))
    else if l == 2 then Some(ArgumentAt(i))
    else if l == 3 then Some(CapturedAt(i))
    else None
  }

  function PlacesRead(ds: seq<Slot>): Option<seq<Where>> {
    if ds == [] then Some([])
    else
      var d :- PlaceOf(ds[0].mode, ds[0].index);
      var rest :- PlacesRead(ds[1..]);
      Some([d] + rest)
  }

  function StringAt(table: seq<Byte>, a: int): Option<string> {
    if a < 0 then None else Some(CString(table, a))
  }

  /** Opcodes without operands. */
  function Short(h: int, l: int): Option<Act> {
    if h == 0 then (if 1 <= l <= 13 then Some(Operate(SIGNS[l - 1])) else None)
    else if h == 6 then (if 0 <= l <= 6 then Some(Looks(TESTS[l])) else None)
    else if h == 7 then (if 0 <= l <= 3 then Some(Ask(ASKED[l])) else None)
    else if h != 1 then None
    else if l == 3 then Some(StoreIndirect)
    else if l == 4 then Some(StoreIndexed)
    else if l == 6 then Some(Leave)
    else if l == 7 then Some(Back)
    else if l == 8 then Some(Discard)
    else if l == 9 then Some(Double)
    else if l == 10 then Some(Exchange)
    else if l == 11 then Some(Item)
    else None
  }

  /** Opcodes with one operand. */
  function Long(table: seq<Byte>, h: int, l: int, a: int): Option<Act> {
    if h == 1 && l == 0 then Some(Number(a))
    else if h == 1 && l == 1 then
      var s :- StringAt(table, a);
      Some(Text(s))
    else if h == 1 && l == 5 then Some(Jump(a))
    else if h == 5 && l == 0 then Some(JumpIfZero(a))
    else if h == 5 && l == 1 then Some(JumpIfNotZero(a))
    else if h == 5 && l == 5 then Some(CallThrough(a))
    else if h == 5 && l == 8 then Some(HasItems(a))
    else if h == 5 && l == 10 then Some(AtLine(a))
    else if h == 7 && l == 4 then Some(Gather(a))
    else None
  }

  /** Opcodes with two operands, the first one read first. */
  function Longer(table: seq<Byte>, h: int, l: int, a: int, b: int): Option<Act> {
    if h == 1 && l == 2 then
      var s :- StringAt(table, a);
      Some(Build(s, b))
    else if h == 5 && l == 2 then Some(Enter(a, b, false))
    else if h == 5 && l == 3 then Some(Enter(a, b, true))
    else if h == 5 && l == 6 then Some(CallAt(a, b))
    else if h == 5 && l == 7 then
      var s :- StringAt(table, a);
      Some(HasTag(s, b))
    else if h == 5 && l == 9 then Some(GiveUp(a, b))
    else None
  }

  function Meaning(table: seq<Byte>, op: ByteFormat.Op): Option<Act> {
    match op
    case Plain(x) => Short(x / 16, x % 16)
    case One(x, a) => Long(table, x / 16, x % 16, a)
    case Two(x, a, b) => Longer(table, x / 16, x % 16, a, b)
    case Access(x, i) =>
      var d :- PlaceOf(x % 16, i);
      if x / 16 == 2 then Some(Fetch(d))
      else if x / 16 == 3 then Some(AddressOf(d))
      else if x / 16 == 4 then Some(Put(d))
      else None
    case Closure(e, ds) =>
      var places :- PlacesRead(ds);
      Some(Enclose(e, places))
  }

  // ---- what the instructions say ----

  function SignOf(op: LamaValues.Op): string {
    match op
    case Add => "+" case Sub => "-" case Mul => "*" case Div => "/" case Mod => "%"
    case Lt => "<" case Le => "<=" case Gt => ">" case Ge => ">=" case Eq => "==" case Ne => "!="
    case And => "&&" case Or => "!!"
  }

  function TestOf(p: Patt): string {
    match p
    case StrCmp => "=str" case StringTag => "#string" case ArrayTag => "#array" case SexpTag => "#sexp"
    case Boxed => "#ref" case UnBoxed => "#val" case ClosureTag => "#fun"
  }

  function Place(names: Names, d: Designation): Where
    requires Known(names, d)
  {
    match d
    case Global(x) => GlobalAt(names.globals[x])
    case Local(i) => LocalAt(i)
    case Arg(i) => ArgumentAt(i)
    case Access(i) => CapturedAt(i)
    case Fun(_) => GlobalAt(-1)
  }

  function Places(names: Names, ds: seq<Designation>): seq<Where>
    requires forall j :: 0 <= j < |ds| ==> Known(names, ds[j])
  {
    if ds == [] then [] else [Place(names, ds[0])] + Places(names, ds[1..])
  }

  /** The instruction with indices for names, the label at offset t, and strings up to their first zeros. */
  function Meant(names: Names, i: Insn, t: int): Act
    requires HasNames(names, i) && !Pseudo(i)
  {
    match i
    case BINOP(op) => Operate(SignOf(op))
    case CONST(n) => Number(n)
    case STRING(s) => Text(RuntimeCalls.Cut(s))
    case SEXP(s, n) => Build(RuntimeCalls.Cut(s), n)
    case STI => StoreIndirect
    case STA => StoreIndexed
    case JMP(_) => Jump(t)
    case END => Leave
    case RET => Back
    case DROP => Discard
    case DUP => Double
    case SWAP => Exchange
    case ELEM => Item
    case LD(d) => assert d == PlacesOf(i)[0]; Fetch(Place(names, d))
    case LDA(d) => assert d == PlacesOf(i)[0]; AddressOf(Place(names, d))
    case ST(d) => assert d == PlacesOf(i)[0]; Put(Place(names, d))
    case CJMP(nonzero, _) => if nonzero then JumpIfNotZero(t) else JumpIfZero(t)
    case BEGIN(_, a, l, c) => Enter(a, l, c != [])
    case CLOSURE(_, ds) => assert ds == PlacesOf(i); Enclose(t, Places(names, ds))
    case CALLC(n) => CallThrough(n)
    case CALL(l, n) =>
      if l.Named? && l.name in ASKED then Ask(l.name)
      else if l == Named(".array") then Gather(n)
      else CallAt(t, n)
    case TAG(s, n) => HasTag(RuntimeCalls.Cut(s), n)
    case ARRAY(n) => HasItems(n)
    case PATT(p) => Looks(TestOf(p))
    case FAIL(l, c) => GiveUp(l, c)
    case LINE(n) => AtLine(n)
  }

  // ---- they agree ----

  /** Strings are read up to their first zeros. */
  lemma {:induction false} StringReads(table: seq<Byte>, pos: nat, s: string)
    requires Holds(table, pos, s)
    ensures CString(table, pos) == RuntimeCalls.Cut(s)
    decreases |s|
  {
    var b := StringBytes(s);
    assert table[pos] == table[pos..pos + |s| + 1][0] == b[0];
    if s != [] && s[0] != 0 as char {
      assert b[1..] == StringBytes(s[1..]);
      assert table[pos + 1..pos + 1 + |s[1..]| + 1] == table[pos..pos + |s| + 1][1..];
      StringReads(table, pos + 1, s[1..]);
      assert s == [s[0]] + s[1..];
    }
  }

  lemma PlaceReads(names: Names, d: Designation)
    requires Known(names, d) && Addressable(d)
    ensures PlaceOf(ModeOf(d), IndexOf(names, d)) == Some(Place(names, d))
  {
  }

  lemma {:induction false} PlacesAgree(names: Names, ds: seq<Designation>)
    requires forall j :: 0 <= j < |ds| ==> Known(names, ds[j]) && Addressable(ds[j])
    ensures PlacesRead(Slots(names, ds)) == Some(Places(names, ds))
  {
    hide Place, PlaceOf, ModeOf, IndexOf;
    var slots := Slots(names, ds);
    if ds != [] {
      PlaceReads(names, ds[0]);
      assert slots[1..] == Slots(names, ds[1..]);
      PlacesAgree(names, ds[1..]);
    }
  }

  lemma SignReads(op: LamaValues.Op)
    ensures 1 <= OpNumber(op) <= 13 && SIGNS[OpNumber(op) - 1] == SignOf(op)
  {
  }

  lemma TestReads(p: Patt)
    ensures 0 <= PattNumber(p) <= 6 && TESTS[PattNumber(p)] == TestOf(p)
  {
  }

  lemma AskedReads(name: string)
    ensures name in ASKED <==> BuiltinCode(name).Some?
    ensures name in ASKED ==>
      var l := BuiltinCode(name).value - 0x70;
      0 <= l <= 3 && ASKED[l] == name
  {
    assert ASKED[0] == "read" && ASKED[1] == "write" && ASKED[2] == "length" && ASKED[3] == "string";
  }

  /** Strings of the instruction are in the table, and its places have addresses. */
  ghost predicate Written(table: seq<Byte>, names: Names, i: Insn)
    requires HasNames(names, i)
  {
    && (StringOf(i).Some? ==> Holds(table, names.strings[StringOf(i).value], StringOf(i).value))
    && forall j :: 0 <= j < |PlacesOf(i)| ==> Addressable(PlacesOf(i)[j])
  }

  /** The operation the assembler writes for an instruction means the instruction. */
  lemma TranslationMeans(table: seq<Byte>, names: Names, i: Insn, t: int)
    requires HasNames(names, i) && !Pseudo(i) && Written(table, names, i)
    ensures Meaning(table, Translate(names, i, t)) == Some(Meant(names, i, t))
  {
    hide CString, Holds, RuntimeCalls.Cut, PlacesRead, Places, Slots, Place, PlaceOf, ModeOf, IndexOf, OpNumber,
      PattNumber, SignOf, TestOf, BuiltinCode, Long, Longer, Short;
    match i
    case BINOP(op) => OperatorMeans(op);
    case PATT(q) => TestMeans(q);
    case LD(d) =>
      assert d == PlacesOf(i)[0];
      AccessMeans(table, names, 2, d);
    case LDA(d) =>
      assert d == PlacesOf(i)[0];
      AccessMeans(table, names, 3, d);
    case ST(d) =>
      assert d == PlacesOf(i)[0];
      AccessMeans(table, names, 4, d);
    case CLOSURE(_, ds) =>
      assert ds == PlacesOf(i);
      PlacesAgree(names, ds);
    case CALL(l, n) => CallMeans(table, names, l, n, t);
    case STRING(s) => TextMeans(table, names.strings[s], s, 0);
    case SEXP(s, n) => TextMeans(table, names.strings[s], s, n);
    case TAG(s, n) => TextMeans(table, names.strings[s], s, n);
    case _ => RestMeans(table, names, i, t);
  }

  lemma OperatorMeans(op: LamaValues.Op)
    ensures Short(OpNumber(op) as int / 16, OpNumber(op) as int % 16) == Some(Operate(SignOf(op)))
  {
    hide OpNumber, SignOf;
    SignReads(op);
  }

  lemma TestMeans(p: Patt)
    ensures PattNumber(p) <= 6
    ensures Short((0x60 + PattNumber(p)) / 16, (0x60 + PattNumber(p)) % 16) == Some(Looks(TestOf(p)))
  {
    hide PattNumber, TestOf;
    TestReads(p);
  }

  lemma AccessMeans(table: seq<Byte>, names: Names, h: int, d: Designation)
    requires Known(names, d) && Addressable(d) && 2 <= h <= 4
    ensures Meaning(table, ByteFormat.Access(16 * h + ModeOf(d), IndexOf(names, d))) ==
      Some(if h == 2 then Fetch(Place(names, d)) else if h == 3 then AddressOf(Place(names, d)) else Put(Place(names,
        d)))
  {
    hide PlaceOf, ModeOf, IndexOf, Place;
    PlaceReads(names, d);
    assert (16 * h + ModeOf(d)) / 16 == h && (16 * h + ModeOf(d)) % 16 == ModeOf(d) as int;
  }

  lemma TextMeans(table: seq<Byte>, a: nat, s: string, n: int)
    requires Holds(table, a, s)
    ensures Long(table, 1, 1, a) == Some(Text(RuntimeCalls.Cut(s)))
    ensures Longer(table, 1, 2, a, n) == Some(Build(RuntimeCalls.Cut(s), n))
    ensures Longer(table, 5, 7, a, n) == Some(HasTag(RuntimeCalls.Cut(s), n))
  {
    hide Holds, CString, RuntimeCalls.Cut;
    StringReads(table, a, s);
  }

  lemma CallMeans(table: seq<Byte>, names: Names, l: Label, n: nat, t: int)
    requires HasNames(names, CALL(l, n))
    ensures Meaning(table, Translate(names, CALL(l, n), t)) == Some(Meant(names, CALL(l, n), t))
  {
    hide BuiltinCode, RuntimeCalls.Cut;
    if l.Named? {
      AskedReads(l.name);
    }
  }

  lemma RestMeans(table: seq<Byte>, names: Names, i: Insn, t: int)
    requires HasNames(names, i) && !Pseudo(i) && StringOf(i).None? && PlacesOf(i) == []
    requires !i.BINOP? && !i.PATT? && !i.CALL? && !i.LD? && !i.LDA? && !i.ST? && !i.CLOSURE?
    ensures Meaning(table, Translate(names, i, t)) == Some(Meant(names, i, t))
  {
    hide BuiltinCode, RuntimeCalls.Cut, OpNumber, PattNumber;
  }

  // ---- programs ----

  /** What the program says, labels and declarations left out. */
  function Acts(names: Names, labels: map<Label, nat>, p: Prog): seq<Act>
    requires AllNamed(names, p) && AllDefined(labels, p)
  {
    if p == [] then []
    else if Pseudo(p[0]) then Acts(names, labels, p[1..])
    else [Meant(names, p[0], TargetAt(labels, p[0]))] + Acts(names, labels, p[1..])
  }

  /** The decoded operations, wherever they lie, mean these acts. */
  ghost predicate Understood(table: seq<Byte>, decoded: seq<(nat, ByteFormat.Op)>, acts: seq<Act>) {
    |decoded| == |acts| && forall k :: 0 <= k < |acts| ==> Meaning(table, decoded[k].1) == Some(acts[k])
  }

  ghost predicate AllWritten(table: seq<Byte>, names: Names, p: Prog)
    requires AllNamed(names, p)
  {
    forall j :: 0 <= j < |p| ==> Written(table, names, p[j])
  }

  lemma {:induction false} ProgramUnderstood(table: seq<Byte>, names: Names, labels: map<Label, nat>, p: Prog, ip: nat)
    requires AllNamed(names, p) && AllDefined(labels, p) && AllWritten(table, names, p)
    ensures Understood(table, Positioned(Ops(names, labels, p), ip), Acts(names, labels, p))
    decreases |p|
  {
    hide HasNames, Written, Translate, Meant, Meaning, TargetOf, Bytes;
    if p != [] {
      if Pseudo(p[0]) {
        ProgramUnderstood(table, names, labels, p[1..], ip);
      } else {
        var op := Translate(names, p[0], TargetAt(labels, p[0]));
        TranslationMeans(table, names, p[0], TargetAt(labels, p[0]));
        ProgramUnderstood(table, names, labels, p[1..], ip + |Bytes(op)|);
      }
    }
  }
}
