/** The byte format of the bytecode (src/SM.ml:171-340, byterun/byterun.c:11-232): 32-bit operands, strings ended by
    a zero, instructions as an opcode byte and operands; and reading them back. */
module ByteFormat {
  import opened Wrappers

  type Byte = x | 0 <= x < 256

  // ---- 32-bit operands ----

  /** add_int32_ne on a little-endian machine; Int32.of_int drops higher bits. */
  function IntBytes(n: int): (b: seq<Byte>)
    ensures |b| == 4
  {
    var u := n % 0x1_0000_0000;
    [u % 256, u / 256 % 256, u / 65536 % 256, u / 16777216 % 256]
  }

  function Unsigned(code: seq<Byte>, ip: nat): nat
    requires ip + 4 <= |code|
  {
    (code[ip] as int) + 256 * (code[ip + 1] as int) + 65536 * (code[ip + 2] as int) + 16777216 * (code[ip + 3] as int)
  }

  /** The signed operand at ip. */
  function ReadInt(code: seq<Byte>, ip: nat): int
    requires ip + 4 <= |code|
  {
    var u := Unsigned(code, ip);
    if u < 0x8000_0000 then u else u - 0x1_0000_0000
  }

  /** Four bytes from ip on hold n, the lowest first; only 32 bits of it. */
  predicate HoldsWord(b: seq<Byte>, ip: nat, n: int)
    requires ip + 4 <= |b|
  {
    var low, high := b[ip] as int + 256 * (b[ip + 1] as int), b[ip + 2] as int + 256 * (b[ip + 3] as int);
    (low + 65536 * high - n) % 0x1_0000_0000 == 0
  }

  predicate Fits32(n: int) { -0x8000_0000 <= n < 0x8000_0000 }

  lemma BytesOf(u: nat)
    requires u < 0x1_0000_0000
    ensures u % 256 + 256 * (u / 256 % 256) + 65536 * (u / 65536 % 256) + 16777216 * (u / 16777216 % 256) == u
  {
    assert u / 65536 == u / 256 / 256;
    assert u / 16777216 == u / 65536 / 256;
    assert u / 16777216 < 256;
  }

  /** Operands are little-endian. */
  lemma OperandBytes(n: int, code: seq<Byte>, ip: nat)
    requires ip + 4 <= |code| && code[ip..ip + 4] == IntBytes(n)
    ensures HoldsWord(code, ip, n)
  {
    hide IntBytes;
    IntParts(n, code, ip);
    BytesOf(n % 0x1_0000_0000);
    Multiple(n);
  }

  lemma Multiple(n: int)
    ensures (n % 0x1_0000_0000 - n) % 0x1_0000_0000 == 0
  {
  }

  lemma WrapAround(n: int)
    ensures
      var u := n % 0x1_0000_0000;
      (if u < 0x8000_0000 then u else u - 0x1_0000_0000) == n <==> Fits32(n)
  {
  }

  /** An operand is read back exactly if it fits. */
  lemma IntRoundTrip(n: int, code: seq<Byte>, ip: nat)
    requires ip + 4 <= |code| && code[ip..ip + 4] == IntBytes(n)
    ensures ReadInt(code, ip) == n <==> Fits32(n)
  {
    hide *;
    IntParts(n, code, ip);
    BytesOf(n % 0x1_0000_0000);
    WrapAround(n);
    ReadParts(code, ip);
  }

  lemma IntParts(n: int, code: seq<Byte>, ip: nat)
    requires ip + 4 <= |code| && code[ip..ip + 4] == IntBytes(n)
    ensures
      var u := n % 0x1_0000_0000;
      code[ip] == u % 256 && code[ip + 1] == u / 256 % 256 && code[ip + 2] == u / 65536 % 256
        && code[ip + 3] == u / 16777216 % 256
  {
    var b := code[ip..ip + 4];
    assert b[0] == code[ip] && b[1] == code[ip + 1] && b[2] == code[ip + 2] && b[3] == code[ip + 3];
  }

  lemma ReadParts(code: seq<Byte>, ip: nat)
    requires ip + 4 <= |code|
    ensures
      var u :=
        (code[ip] as int) + 256 * (code[ip + 1] as int)
        + 65536 * (code[ip + 2] as int) + 16777216 * (code[ip + 3] as int);
      ReadInt(code, ip) == if u < 0x8000_0000 then u else u - 0x1_0000_0000
  {
  }

  // ---- strings ----

  predicate ByteString(s: string) { forall i :: 0 <= i < |s| ==> s[i] as int < 256 }

  predicate NulFree(s: string) { forall i :: 0 <= i < |s| ==> s[i] != 0 as char }

  function StringBytes(s: string): seq<Byte>
    requires ByteString(s)
  {
    seq(|s|, i requires 0 <= i < |s| => s[i] as int) + [0]
  }

  /** get_string: the characters up to the first zero. */
  function CString(table: seq<Byte>, pos: nat): string
    decreases |table| - pos
  {
    if pos >= |table| || table[pos] == 0 then [] else [table[pos] as char] + CString(table, pos + 1)
  }

  ghost predicate Holds(table: seq<Byte>, pos: nat, s: string) {
    ByteString(s) && pos + |s| + 1 <= |table| && table[pos..pos + |s| + 1] == StringBytes(s)
  }

  /** A string without zeros is read back; any other is cut short. */
  lemma {:induction false} StringRoundTrip(table: seq<Byte>, pos: nat, s: string)
    requires Holds(table, pos, s)
    ensures CString(table, pos) == s <==> NulFree(s)
    ensures |CString(table, pos)| <= |s|
    decreases |s|
  {
    var b := StringBytes(s);
    assert table[pos] == table[pos..pos + |s| + 1][0] == b[0];
    if s != [] {
      assert b[1..] == StringBytes(s[1..]);
      assert table[pos + 1..pos + 1 + |s[1..]| + 1] == table[pos..pos + |s| + 1][1..];
      StringRoundTrip(table, pos + 1, s[1..]);
      assert s == [s[0]] + s[1..];
      if table[pos] == 0 {
        assert s[0] == 0 as char;
      }
    }
  }

  // ---- instructions ----

  /** An addressed variable: global, local, argument or captured, and its index. */
  type Mode = x | 0 <= x < 4

  datatype Slot = Slot(mode: Mode, index: int)

  predicate SlotOk(s: Slot) { Fits32(s.index) }

  /** An instruction as the disassembler sees it: offsets and indices in place of names. */
  datatype Op =
    | Plain(byte: Byte)
    | One(byte: Byte, a: int)
    | Two(byte: Byte, a: int, b: int)
    | Access(byte: Byte, index: int)
    | Closure(entry: int, captured: seq<Slot>)

  predicate IsPlain(x: Byte) { 1 <= x <= 13
      || x in {0x13, 0x14, 0x16, 0x17, 0x18, 0x19, 0x1a, 0x1b, 0x70, 0x71, 0x72, 0x73} || 0x60 <= x <= 0x66 }

  predicate IsOne(x: Byte) { x in {0x10, 0x11, 0x15, 0x50, 0x51, 0x55, 0x58, 0x5a, 0x74} }

  predicate IsTwo(x: Byte) { x in {0x12, 0x52, 0x53, 0x56, 0x57, 0x59} }

  predicate IsAccess(x: Byte) { 0x20 <= x <= 0x23 || 0x30 <= x <= 0x33 || 0x40 <= x <= 0x43 }

  predicate OpOk(op: Op) {
    match op
    case Plain(x) => IsPlain(x)
    case One(x, a) => IsOne(x) && Fits32(a)
    case Two(x, a, b) => IsTwo(x) && Fits32(a) && Fits32(b)
    case Access(x, i) => IsAccess(x) && Fits32(i)
    case Closure(e, ds) => Fits32(e) && Fits32(|ds|) && forall i :: 0 <= i < |ds| ==> SlotOk(ds[i])
  }

  function SlotBytes(ds: seq<Slot>): seq<Byte> {
    if ds == [] then [] else [ds[0].mode] + IntBytes(ds[0].index) + SlotBytes(ds[1..])
  }

  function Bytes(op: Op): seq<Byte> {
    match op
    case Plain(x) => [x]
    case One(x, a) => [x] + IntBytes(a)
    case Two(x, a, b) => [x] + IntBytes(a) + IntBytes(b)
    case Access(x, i) => [x] + IntBytes(i)
    case Closure(e, ds) => [0x54] + IntBytes(e) + IntBytes(|ds|) + SlotBytes(ds)
  }

  /** The captured variables of a closure, n of them. */
  function ReadSlots(code: seq<Byte>, ip: nat, n: nat): Option<(seq<Slot>, nat)>
    decreases n
  {
    if n == 0 then Some(([], ip))
    else if ip + 5 > |code| || code[ip] > 3 then None
    else
      var rest :- ReadSlots(code, ip + 5, n - 1);
      Some(([Slot(code[ip], ReadInt(code, ip + 1))] + rest.0, rest.1))
  }

  /** One step of the disassembler: the instruction at ip and where the next one is; None for invalid opcodes. */
  function DecodeAt(code: seq<Byte>, ip: nat): Option<(Op, nat)>
    requires ip < |code|
  {
    var x := code[ip];
    if IsPlain(x) then Some((Plain(x), ip + 1))
    else if IsOne(x) then (if ip + 5 <= |code| then Some((One(x, ReadInt(code, ip + 1)), ip + 5)) else None)
    else if IsTwo(x) then
      (if ip + 9 <= |code| then Some((Two(x, ReadInt(code, ip + 1), ReadInt(code, ip + 5)), ip + 9)) else None)
    else if IsAccess(x) then (if ip + 5 <= |code| then Some((Access(x, ReadInt(code, ip + 1)), ip + 5)) else None)
    else if x == 0x54 then
      if ip + 9 > |code| then None
      else
        var e, n := ReadInt(code, ip + 1), ReadInt(code, ip + 5);
        var slots :- ReadSlots(code, ip + 9, if n < 0 then 0 else n);
        Some((Closure(e, slots.0), slots.1))
    else None
  }

  ghost predicate At(code: seq<Byte>, ip: nat, b: seq<Byte>) {
    ip + |b| <= |code| && code[ip..ip + |b|] == b
  }

  lemma AtSplit(code: seq<Byte>, ip: nat, a: seq<Byte>, b: seq<Byte>)
    requires At(code, ip, a + b)
    ensures At(code, ip, a) && At(code, ip + |a|, b)
  {
    var c := code[ip..ip + |a + b|];
    assert code[ip..ip + |a|] == c[..|a|] == a;
    assert code[ip + |a|..ip + |a| + |b|] == c[|a|..] == b;
  }

  lemma ByteAt(code: seq<Byte>, ip: nat, x: Byte)
    requires At(code, ip, [x])
    ensures ip < |code| && code[ip] == x
  {
    assert code[ip..ip + 1][0] == code[ip];
  }

  lemma IntAt(code: seq<Byte>, ip: nat, n: int)
    requires At(code, ip, IntBytes(n)) && Fits32(n)
    ensures ip + 4 <= |code| && ReadInt(code, ip) == n
  {
    hide ReadInt, Unsigned;
    IntRoundTrip(n, code, ip);
  }

  lemma {:induction false} SlotsRoundTrip(code: seq<Byte>, ip: nat, ds: seq<Slot>)
    requires forall i :: 0 <= i < |ds| ==> SlotOk(ds[i])
    requires At(code, ip, SlotBytes(ds))
    ensures ReadSlots(code, ip, |ds|) == Some((ds, ip + |SlotBytes(ds)|))
    decreases |ds|
  {
    hide ReadInt, IntBytes, At, Fits32;
    if ds != [] {
      AtSplit(code, ip, [ds[0].mode] + IntBytes(ds[0].index), SlotBytes(ds[1..]));
      AtSplit(code, ip, [ds[0].mode], IntBytes(ds[0].index));
      ByteAt(code, ip, ds[0].mode);
      IntAt(code, ip + 1, ds[0].index);
      SlotsRoundTrip(code, ip + 5, ds[1..]);
      assert ds == [Slot(ds[0].mode, ds[0].index)] + ds[1..];
    }
  }

  lemma OperandsAt(code: seq<Byte>, ip: nat, x: Byte, a: int)
    requires At(code, ip, [x] + IntBytes(a)) && Fits32(a)
    ensures ip + 5 <= |code| && code[ip] == x && ReadInt(code, ip + 1) == a
  {
    hide ReadInt, IntBytes, At, Fits32;
    AtSplit(code, ip, [x], IntBytes(a));
    ByteAt(code, ip, x);
    IntAt(code, ip + 1, a);
  }

  lemma OneRoundTrip(code: seq<Byte>, ip: nat, x: Byte, a: int)
    requires (IsOne(x) || IsAccess(x)) && Fits32(a) && At(code, ip, [x] + IntBytes(a))
    ensures ip < |code| && DecodeAt(code, ip) == Some((if IsOne(x) then One(x, a) else Access(x, a), ip + 5))
  {
    hide ReadInt, IntBytes, At, Fits32, ReadSlots;
    OperandsAt(code, ip, x, a);
  }

  lemma TwoRoundTrip(code: seq<Byte>, ip: nat, x: Byte, a: int, b: int)
    requires IsTwo(x) && Fits32(a) && Fits32(b) && At(code, ip, [x] + IntBytes(a) + IntBytes(b))
    ensures ip < |code| && DecodeAt(code, ip) == Some((Two(x, a, b), ip + 9))
  {
    hide ReadInt, IntBytes, At, Fits32, ReadSlots;
    AtSplit(code, ip, [x] + IntBytes(a), IntBytes(b));
    OperandsAt(code, ip, x, a);
    IntAt(code, ip + 5, b);
  }

  lemma ClosureRoundTrip(code: seq<Byte>, ip: nat, e: int, ds: seq<Slot>)
    requires OpOk(Closure(e, ds)) && At(code, ip, Bytes(Closure(e, ds)))
    ensures ip < |code| && DecodeAt(code, ip) == Some((Closure(e, ds), ip + 9 + |SlotBytes(ds)|))
  {
    hide ReadInt, IntBytes, At, Fits32, ReadSlots, SlotBytes, SlotOk;
    AtSplit(code, ip, [0x54] + IntBytes(e) + IntBytes(|ds|), SlotBytes(ds));
    AtSplit(code, ip, [0x54] + IntBytes(e), IntBytes(|ds|));
    OperandsAt(code, ip, 0x54, e);
    IntAt(code, ip + 5, |ds|);
    SlotsRoundTrip(code, ip + 9, ds);
  }

  /** Decoding inverts encoding, wherever the bytes lie. */
  lemma OpRoundTrip(code: seq<Byte>, ip: nat, op: Op)
    requires OpOk(op) && At(code, ip, Bytes(op))
    ensures ip < |code| && DecodeAt(code, ip) == Some((op, ip + |Bytes(op)|))
  {
    hide DecodeAt, At, Fits32, IsPlain, IsOne, IsTwo, IsAccess, SlotOk, SlotBytes;
    match op
    case Plain(x) => PlainRoundTrip(code, ip, x);
    case One(x, a) => OneRoundTrip(code, ip, x, a);
    case Access(x, a) =>
      OpcodesDiffer(x);
      OneRoundTrip(code, ip, x, a);
    case Two(x, a, b) => TwoRoundTrip(code, ip, x, a, b);
    case Closure(e, ds) => ClosureRoundTrip(code, ip, e, ds);
  }

  lemma OpcodesDiffer(x: Byte)
    ensures !(IsOne(x) && IsAccess(x))
  {
  }

  lemma PlainRoundTrip(code: seq<Byte>, ip: nat, x: Byte)
    requires IsPlain(x) && At(code, ip, [x])
    ensures ip < |code| && DecodeAt(code, ip) == Some((Plain(x), ip + 1))
  {
    hide ReadInt, At, ReadSlots;
    ByteAt(code, ip, x);
  }

  /** Opcode, operands in order, for a closure the entry, the number of places and each with its mode. */
  ghost predicate LaidOut(op: Op, b: seq<Byte>) {
    match op
    case Plain(x) => b == [x]
    case One(x, a) => |b| == 5 && b[0] == x && HoldsWord(b, 1, a)
    case Two(x, a, c) => |b| == 9 && b[0] == x && HoldsWord(b, 1, a) && HoldsWord(b, 5, c)
    case Access(x, i) => |b| == 5 && b[0] == x && HoldsWord(b, 1, i)
    case Closure(e, ds) =>
      && |b| == 9 + 5 * |ds| && b[0] == 0x54 && HoldsWord(b, 1, e) && HoldsWord(b, 5, |ds|)
      && forall k :: 0 <= k < |ds| ==> b[9 + 5 * k] == ds[k].mode && HoldsWord(b, 10 + 5 * k, ds[k].index)
  }

  lemma OpLayout(op: Op)
    ensures LaidOut(op, Bytes(op))
  {
    hide IntBytes, HoldsWord;
    var b := Bytes(op);
    match op
    case Plain(_) =>
    case One(_, a) => OperandIn(b, 1, a);
    case Two(x, a, c) =>
      assert b == [x] + IntBytes(a) + IntBytes(c) + [];
      TwoOperands(x, IntBytes(a), IntBytes(c), []);
      OperandIn(b, 1, a);
      OperandIn(b, 5, c);
    case Access(_, i) => OperandIn(b, 1, i);
    case Closure(e, ds) =>
      TwoOperands(0x54, IntBytes(e), IntBytes(|ds|), SlotBytes(ds));
      OperandIn(b, 1, e);
      OperandIn(b, 5, |ds|);
      SlotsLaidOut(b, 9, ds);
  }

  lemma TwoOperands(x: Byte, four: seq<Byte>, more: seq<Byte>, rest: seq<Byte>)
    requires |four| == 4 && |more| == 4
    ensures
      var b := [x] + four + more + rest;
      |b| == 9 + |rest| && b[0] == x && b[1..5] == four && b[5..9] == more && b[9..] == rest
  {
  }

  lemma OperandIn(b: seq<Byte>, ip: nat, n: int)
    requires ip + 4 <= |b| && b[ip..ip + 4] == IntBytes(n)
    ensures HoldsWord(b, ip, n)
  {
    OperandBytes(n, b, ip);
  }

  lemma {:induction false} SlotsLaidOut(b: seq<Byte>, ip: nat, ds: seq<Slot>)
    requires ip <= |b| && b[ip..] == SlotBytes(ds)
    ensures |b| == ip + 5 * |ds|
    ensures forall k :: 0 <= k < |ds| ==>
      b[ip + 5 * k] == ds[k].mode && HoldsWord(b, ip + 1 + 5 * k, ds[k].index)
    decreases |ds|
  {
    hide IntBytes, HoldsWord;
    if ds != [] {
      assert b[ip] == b[ip..][0];
      assert b[ip + 1..ip + 5] == b[ip..][1..5];
      assert b[ip + 5..] == b[ip..][5..];
      OperandIn(b, ip + 1, ds[0].index);
      SlotsLaidOut(b, ip + 5, ds[1..]);
      forall k | 0 <= k < |ds|
        ensures b[ip + 5 * k] == ds[k].mode && HoldsWord(b, ip + 1 + 5 * k, ds[k].index)
      {
        if k > 0 {
          assert ds[1..][k - 1] == ds[k];
          assert ip + 5 + 5 * (k - 1) == ip + 5 * k;
        }
      }
    }
  }

  // ---- whole code ----

  function AllBytes(ops: seq<Op>): seq<Byte> {
    if ops == [] then [] else Bytes(ops[0]) + AllBytes(ops[1..])
  }

  /** The instructions from ip to the end mark, with the position of each. */
  function Decode(code: seq<Byte>, ip: nat): Option<seq<(nat, Op)>>
    decreases |code| - ip
  {
    if ip >= |code| then None
    else if code[ip] >= 0xf0 then Some([])
    else
      match DecodeAt(code, ip)
      case None => None
      case Some((op, next)) =>
        if next <= ip then None
        else
          var rest :- Decode(code, next);
          Some([(ip, op)] + rest)
  }

  /** Each instruction and where it starts. */
  function Positioned(ops: seq<Op>, ip: nat): seq<(nat, Op)> {
    if ops == [] then [] else [(ip, ops[0])] + Positioned(ops[1..], ip + |Bytes(ops[0])|)
  }

  function Onto(done: seq<(nat, Op)>, rest: Option<seq<(nat, Op)>>): Option<seq<(nat, Op)>> {
    match rest
    case None => None
    case Some(more) => Some(done + more)
  }

  lemma DecodeBegins(code: seq<Byte>)
    ensures Onto([], Decode(code, 0)) == Decode(code, 0)
  {
    hide Decode;
    assert Decode(code, 0).Some? ==> [] + Decode(code, 0).value == Decode(code, 0).value;
  }

  lemma DecodeEnds(code: seq<Byte>, ip: nat, done: seq<(nat, Op)>)
    requires ip < |code| ==> code[ip] >= 0xf0
    ensures Onto(done, Decode(code, ip)) == if ip < |code| then Some(done) else None
  {
    hide DecodeAt;
    assert done + [] == done;
  }

  /** What decoding does at an opcode below the end mark. */
  lemma DecodeGoesOn(code: seq<Byte>, ip: nat, done: seq<(nat, Op)>)
    requires ip < |code| && code[ip] < 0xf0
    ensures
      var step := DecodeAt(code, ip);
      if step.None? || step.value.1 <= ip then Decode(code, ip) == None
      else Onto(done, Decode(code, ip)) == Onto(done + [(ip, step.value.0)], Decode(code, step.value.1))
  {
    hide DecodeAt;
    var step := DecodeAt(code, ip);
    if step.Some? && step.value.1 > ip {
      var rest := Decode(code, step.value.1);
      if rest.Some? {
        var here := [(ip, step.value.0)];
        assert done + (here + rest.value) == (done + here) + rest.value;
      }
    }
  }

  /** disassemble: the loop over the opcodes up to the end mark. */
  method Disassemble(code: seq<Byte>) returns (r: Option<seq<(nat, Op)>>)
    ensures r == Decode(code, 0)
  {
    hide DecodeAt, Decode;
    var ip := 0;
    var done: seq<(nat, Op)> := [];
    DecodeBegins(code);
    while ip < |code| && code[ip] < 0xf0
      invariant 0 <= ip
      invariant Decode(code, 0) == Onto(done, Decode(code, ip))
      decreases |code| - ip
    {
      DecodeGoesOn(code, ip, done);
      var step := DecodeAt(code, ip);
      if step.None? || step.value.1 <= ip {
        return None;
      }
      done := done + [(ip, step.value.0)];
      ip := step.value.1;
    }
    DecodeEnds(code, ip, done);
    return if ip < |code| then Some(done) else None;
  }

  lemma {:induction false} CodeRoundTrip(code: seq<Byte>, ip: nat, ops: seq<Op>)
    requires forall i :: 0 <= i < |ops| ==> OpOk(ops[i])
    requires At(code, ip, AllBytes(ops) + [255])
    ensures Decode(code, ip) == Some(Positioned(ops, ip))
    decreases |ops|
  {
    hide At, OpOk, DecodeAt, Bytes;
    if ops == [] {
      assert AllBytes(ops) + [255] == [255];
      ByteAt(code, ip, 255);
    } else {
      var b := Bytes(ops[0]);
      assert AllBytes(ops) + [255] == b + (AllBytes(ops[1..]) + [255]);
      AtSplit(code, ip, b, AllBytes(ops[1..]) + [255]);
      OpRoundTrip(code, ip, ops[0]);
      OpcodeBelowEnd(code, ip, ops[0]);
      CodeRoundTrip(code, ip + |b|, ops[1..]);
    }
  }

  lemma OpcodeBelowEnd(code: seq<Byte>, ip: nat, op: Op)
    requires OpOk(op) && At(code, ip, Bytes(op))
    ensures |Bytes(op)| > 0 && ip < |code| && code[ip] < 0xf0
  {
    hide IntBytes, SlotBytes, Fits32;
    var b := Bytes(op);
    assert code[ip..ip + |b|][0] == code[ip];
  }
}
