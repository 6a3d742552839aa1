/** What the bytecode interpreter asks of the runtime (runtime32/runtime.c): tags as hashes of five characters,
    strings that end at a zero, bytes with a sign, words of 31 bits; and when this is what the stack machine does. */
module RuntimeCalls {
  import opened Wrappers
  import opened LamaValues
  import opened StackMachine
  import ByteFormat

  // ---- strings and tags ----

  const NUL := 0 as char

  /** What strlen, strcmp and strncmp see of a string. */
  function Cut(s: string): string {
    if s == [] || s[0] == NUL then [] else [s[0]] + Cut(s[1..])
  }

  lemma {:induction false} CutNothing(s: string)
    ensures Cut(s) == s <==> ByteFormat.NulFree(s)
    ensures |Cut(s)| <= |s|
  {
    if s != [] {
      CutNothing(s[1..]);
      assert s == [s[0]] + s[1..];
    }
  }

  /** The position of a character in the table of characters for tags. */
  function CharCode(c: char): (r: Option<nat>)
    ensures r.Some? ==> r.value < 64 && TagChar(r.value) == c
    ensures r == Some(0) <==> c == '_'
  {
    if c == '_' then Some(0)
    else if 'a' <= c <= 'z' then Some(1 + (c as int - 'a' as int))
    else if 'A' <= c <= 'Z' then Some(27 + (c as int - 'A' as int))
    else if '0' <= c <= '9' then Some(53 + (c as int - '0' as int))
    else if c == '\'' then Some(63)
    else None
  }

  function TagChar(i: nat): (c: char)
    requires i < 64
    ensures c == '_' <==> i == 0
  {
    if i == 0 then '_'
    else if i < 27 then ('a' as int + (i - 1)) as char
    else if i < 53 then ('A' as int + (i - 27)) as char
    else if i < 63 then ('0' as int + (i - 53)) as char
    else '\''
  }

  const LOWER: string := "abcdefghijklmnopqrstuvwxyz"
  const UPPER: string := "ABCDEFGHIJKLMNOPQRSTUVWXYZ"
  const DIGITS: string := "0123456789"
  const CHARS: string := "_" + LOWER + UPPER + DIGITS + "'"

  /** Codes are positions in this table. */
  lemma CodesAreTable(c: char)
    ensures |CHARS| == 64
    ensures CharCode(c).Some? <==> c in CHARS
    ensures CharCode(c).Some? ==> CHARS[CharCode(c).value] == c
  {
    forall i: nat | i < 64 ensures |CHARS| == 64 && CHARS[i] == TagChar(i) {
      TableEntry(i);
    }
    if c in CHARS {
      var i :| 0 <= i < |CHARS| && CHARS[i] == c;
      assert TagChar(i) == c;
    }
  }

  lemma TableEntry(i: nat)
    requires i < 64
    ensures |CHARS| == 64 && CHARS[i] == TagChar(i)
  {
    if 1 <= i < 27 {
      LowerEntry(i - 1);
    } else if 27 <= i < 53 {
      UpperEntry(i - 27);
    } else if 53 <= i < 63 {
      DigitEntry(i - 53);
    }
  }

  lemma LowerEntry(i: nat)
    requires i < 26
    ensures |LOWER| == 26 && LOWER[i] as int == 'a' as int + i
  {
  }

  lemma UpperEntry(i: nat)
    requires i < 26
    ensures |UPPER| == 26 && UPPER[i] as int == 'A' as int + i
  {
  }

  lemma DigitEntry(i: nat)
    requires i < 10
    ensures |DIGITS| == 10 && DIGITS[i] as int == '0' as int + i
  {
  }

  /** The loop of LtagHash over at most n characters. */
  function HashFrom(s: string, h: nat, n: nat): Option<nat>
    decreases n
  {
    if n == 0 || s == [] || s[0] == NUL then Some(h)
    else
      var pos :- CharCode(s[0]);
      HashFrom(s[1..], 64 * h + pos, n - 1)
  }

  function DeHash(h: nat): string {
    if h == 0 then [] else DeHash(h / 64) + [TagChar(h % 64)]
  }

  function First(n: nat, s: string): string { if |s| <= n then s else s[..n] }

  /** The part of a tag that counts. */
  function Short(tag: string): string { First(5, Cut(tag)) }

  /** LtagHash; None where it fails, on a character without a code or if the code does not give the tag back. */
  function TagHash(tag: string): Option<nat> {
    var h :- HashFrom(tag, 0, 5);
    if Short(tag) == First(5, DeHash(h)) then Some(h) else None
  }

  /** LtagHash as the loop it is. */
  method LtagHash(tag: string) returns (r: Option<nat>)
    ensures r == TagHash(tag)
  {
    hide DeHash, Cut, CharCode;
    var h: nat, i: nat := 0, 0;
    assert tag[0..] == tag;
    while i < |tag| && tag[i] != NUL && i < 5
      invariant 0 <= i <= |tag| && i <= 5
      invariant HashFrom(tag, 0, 5) == HashFrom(tag[i..], h, 5 - i)
    {
      var pos := CharCode(tag[i]);
      if pos == None {
        return None;
      }
      assert tag[i..][1..] == tag[i + 1..];
      h := 64 * h + pos.value;
      i := i + 1;
    }
    assert HashFrom(tag, 0, 5) == Some(h);
    return if Short(tag) == First(5, DeHash(h)) then Some(h) else None;
  }

  lemma {:induction false} HashSees(s: string, t: string, h: nat, n: nat)
    requires First(n, Cut(s)) == First(n, Cut(t))
    ensures HashFrom(s, h, n) == HashFrom(t, h, n)
    decreases n
  {
    if n > 0 && Cut(s) != [] {
      FirstRest(s, n);
      FirstRest(t, n);
      assert First(n, Cut(t)) != [] && Cut(t) != [];
      assert First(n, Cut(s))[1..] == First(n - 1, Cut(s[1..])) && First(n, Cut(t))[1..] == First(n - 1, Cut(t[1..]));
      var pos := CharCode(s[0]);
      if pos.Some? {
        HashSees(s[1..], t[1..], 64 * h + pos.value, n - 1);
      }
    } else if n > 0 {
      assert First(n, Cut(t)) == [];
    }
  }

  lemma FirstRest(s: string, n: nat)
    requires n > 0
    ensures Cut(s) == [] ==> First(n, Cut(s)) == []
    ensures Cut(s) != [] ==> First(n, Cut(s)) == [s[0]] + First(n - 1, Cut(s[1..]))
  {
  }

  /** Hashes tell tags apart exactly by their first five characters. */
  lemma TagsHashAlikeIff(s: string, t: string)
    requires TagHash(s).Some? && TagHash(t).Some?
    ensures TagHash(s) == TagHash(t) <==> Short(s) == Short(t)
  {
    hide HashFrom, DeHash, Cut;
    if Short(s) == Short(t) {
      HashSees(s, t, 0, 5);
    }
  }

  predicate Coded(s: string) { forall i :: 0 <= i < |s| ==> CharCode(s[i]).Some? }

  /** A tag has a hash exactly if its first five characters have codes and it does not begin with the one coded 0. */
  lemma TagHashDefinedIff(tag: string)
    ensures TagHash(tag).Some? <==> Coded(Short(tag)) && (Short(tag) != [] ==> Short(tag)[0] != '_')
  {
    hide HashFrom, DeHash, Cut, CharCode;
    HashOfDefined(tag, 0, 5);
    DeHashZero();
    if HashFrom(tag, 0, 5).Some? {
      var digits := DeHash(HashFrom(tag, 0, 5).value);
      DeHashBegins(HashFrom(tag, 0, 5).value);
      if Short(tag) == [] {
        HashNothing(tag, 0, 5);
      } else if Short(tag)[0] != '_' {
        HashDigits(tag, 0, 5);
        assert digits == Short(tag);
      } else {
        assert digits != [] ==> First(5, digits)[0] == digits[0];
      }
    }
  }

  lemma DeHashZero()
    ensures DeHash(0) == []
  {
  }

  lemma DeHashMore(h: nat)
    ensures h > 0 ==> DeHash(h) != []
  {
  }

  lemma HashNothing(s: string, h: nat, n: nat)
    requires First(n, Cut(s)) == [] && n > 0
    ensures HashFrom(s, h, n) == Some(h)
  {
  }

  lemma {:induction false} HashOfDefined(s: string, h: nat, n: nat)
    ensures HashFrom(s, h, n).Some? <==> Coded(First(n, Cut(s)))
    decreases n
  {
    if n > 0 && Cut(s) != [] {
      FirstRest(s, n);
      var pos := CharCode(s[0]);
      var f := First(n, Cut(s));
      assert f[0] == s[0] && f[1..] == First(n - 1, Cut(s[1..]));
      if pos.Some? {
        HashOfDefined(s[1..], 64 * h + pos.value, n - 1);
        assert Coded(f) <==> Coded(f[1..]);
      }
    }
  }

  /** The digits of a hash do not begin with a zero. */
  lemma {:induction false} DeHashBegins(h: nat)
    ensures DeHash(h) != [] ==> DeHash(h)[0] != '_'
    decreases h
  {
    if h > 0 {
      DeHashBegins(h / 64);
      DeHashZero();
      DeHashMore(h / 64);
    }
  }

  lemma {:induction false} HashDigits(s: string, h: nat, n: nat)
    requires HashFrom(s, h, n).Some? && (h > 0 || (First(n, Cut(s)) != [] && First(n, Cut(s))[0] != '_'))
    ensures DeHash(HashFrom(s, h, n).value) == DeHash(h) + First(n, Cut(s))
    decreases n
  {
    if n > 0 && Cut(s) != [] {
      FirstRest(s, n);
      var pos := CharCode(s[0]).value;
      var next := 64 * h + pos;
      assert next > 0 && next / 64 == h && next % 64 == pos;
      assert DeHash(next) == DeHash(h) + [TagChar(pos)];
      HashDigits(s[1..], next, n - 1);
      assert DeHash(h) + [s[0]] + First(n - 1, Cut(s[1..])) == DeHash(h) + First(n, Cut(s));
    } else {
      assert First(n, Cut(s)) == [];
    }
  }

  lemma {:induction false} HashAppend(s: string, c: char, h: nat, n: nat)
    requires |s| < n && NUL !in s && c != NUL && HashFrom(s, h, n).Some? && CharCode(c).Some?
    ensures HashFrom(s + [c], h, n) == Some(64 * HashFrom(s, h, n).value + CharCode(c).value)
    decreases n
  {
    hide CharCode;
    if s == [] {
      assert [c][1..] == [];
      assert s + [c] == [c];
    } else {
      assert s[0] in s && (s + [c])[0] == s[0] && (s + [c])[1..] == s[1..] + [c];
      HashAppend(s[1..], c, 64 * h + CharCode(s[0]).value, n - 1);
    }
  }

  /** The value of a hash: characters are digits to the base 64, by their places in the table. */
  lemma HashValue(s: string, k: nat)
    requires |s| < 5 && NUL !in s && TagHash(s).Some? && k < |CHARS| && (s == [] ==> k > 0)
    ensures TagHash([]) == Some(0) && TagHash(s + [CHARS[k]]) == Some(64 * TagHash(s).value + k)
  {
    hide HashFrom, CharCode, DeHash, Cut;
    EntryCode(k);
    var t := s + [CHARS[k]];
    WholeTag([]);
    HashNothing([], 0, 5);
    DeHashZero();
    WholeTag(s);
    WholeTag(t);
    TagHashDefinedIff(s);
    TagHashDefinedIff(t);
    HashAppend(s, CHARS[k], 0, 5);
  }

  lemma EntryCode(k: nat)
    requires k < |CHARS|
    ensures |CHARS| == 64 && CharCode(CHARS[k]) == Some(k) && CHARS[k] != NUL
  {
    CodesAreTable('_');
    TableEntry(k);
  }

  lemma WholeTag(s: string)
    requires |s| <= 5 && NUL !in s
    ensures Short(s) == s && Cut([]) == []
  {
    CutNothing(s);
  }

  // ---- words ----

  /** BOX and UNBOX on 32-bit words: the highest bit is lost. */
  function Wrap(n: int): int {
    var u := n % 0x8000_0000;
    if u < 0x4000_0000 then u else u - 0x8000_0000
  }

  predicate Fits31(n: int) { -0x4000_0000 <= n < 0x4000_0000 }

  lemma WrapsIff(n: int)
    ensures Wrap(n) == n <==> Fits31(n)
  {
  }

  /** UNBOX does not look whether a word is a number; the unit value is the word 0. */
  function UnboxWord(address: nat -> int, v: Value): int {
    match v
    case Int(n) => n
    case Ref(a) => address(a) / 2
    case _ => 0
  }

  /** eval_binop; None where it throws. */
  function RuntimeBinop(address: nat -> int, op: Op, x: Value, y: Value): Option<Value> {
    var r :- Operate(op, UnboxWord(address, x), UnboxWord(address, y));
    Some(Int(Wrap(r)))
  }

  /** Operators agree exactly if the result fits 31 bits and no number is taken for half an address. */
  lemma BinopAgreesIff(address: nat -> int, op: Op, x: Value, y: Value)
    requires Compute(op, x, y).Some?
    ensures RuntimeBinop(address, op, x, y) == Compute(op, x, y) <==>
      if x.Int? && y.Int? then Fits31(Compute(op, x, y).value.n) else UnboxWord(address, x) != UnboxWord(address, y)
  {
    if x.Int? && y.Int? {
      WrapsIff(Operate(op, x.n, y.n).value);
    }
  }

  /** A number that is half an address equals the reference. */
  lemma NumberTakenForReference()
    ensures
      var address := (a: nat) => 0x1000;
      RuntimeBinop(address, Eq, Ref(0), Int(0x800)) == Some(Int(1)) && Compute(Eq, Ref(0), Int(0x800)) == Some(Int(0))
  {
  }

  // ---- tests ----

  /** The machine's answer to TAG. */
  predicate HasTag(store: Store, v: Value, tag: string, n: nat) {
    var o := Deref(store, v);
    o.Some? && o.value.SexpObject? && o.value.tag == tag && |o.value.elems| == n
  }

  /** LtagHash and Btag: the words kept for tags are compared. */
  function Btag(store: Store, v: Value, tag: string, n: nat): Option<bool> {
    var h :- TagHash(tag);
    if v.Int? then Some(false)
    else
      var o :- Deref(store, v);
      if !o.SexpObject? then Some(false)
      else
        var g :- TagHash(o.tag);
        Some(g == h && |o.elems| == n)
  }

  /** An s-expression with as many items and another tag with the same five characters in front. */
  predicate TakenForOther(store: Store, v: Value, tag: string, n: nat) {
    var o := Deref(store, v);
    o.Some? && o.value.SexpObject? && |o.value.elems| == n && o.value.tag != tag && Short(o.value.tag) == Short(tag)
  }

  /** All tags in the store and the one asked for have codes. */
  predicate Hashable(store: Store, v: Value) {
    Deref(store, v).Some? && Deref(store, v).value.SexpObject? ==> TagHash(Deref(store, v).value.tag).Some?
  }

  /** Tag tests agree exactly if the tags are equal, differ in the first five characters, or kind or number of
      items decide. */
  lemma TagTestAgreesIff(store: Store, v: Value, tag: string, n: nat)
    requires TagHash(tag).Some? && Inspectable(store, v) && Hashable(store, v)
    ensures Btag(store, v, tag, n) == Some(HasTag(store, v, tag, n)) <==> !TakenForOther(store, v, tag, n)
  {
    hide TagHash, Short;
    if v.Ref? && store[v.address].SexpObject? {
      TagsHashAlikeIff(store[v.address].tag, tag);
    }
  }

  /** Apple1 is taken for Apple2. */
  lemma ApplesTakenForEachOther()
    ensures Btag([SexpObject("Apple1", [])], Ref(0), "Apple2", 0) == Some(true)
    ensures !HasTag([SexpObject("Apple1", [])], Ref(0), "Apple2", 0)
  {
    hide TagHash, Short;
    ApplesShort();
    TagsHashAlikeIff("Apple1", "Apple2");
  }

  lemma ApplesShort()
    ensures Short("Apple1") == Short("Apple2") && TagHash("Apple1").Some? && TagHash("Apple2").Some?
  {
    hide TagHash, CharCode;
    CutNothing("Apple1");
    CutNothing("Apple2");
    assert Short("Apple1") == "Apple" == Short("Apple2");
    AppleCoded();
    TagHashDefinedIff("Apple1");
    TagHashDefinedIff("Apple2");
  }

  lemma AppleCoded()
    ensures Coded("Apple")
  {
  }

  /** Barray_patt. */
  function BarrayPatt(store: Store, v: Value, n: nat): Option<bool> {
    if v.Int? then Some(false)
    else
      var o :- Deref(store, v);
      Some(o.ArrayObject? && |o.elems| == n)
  }

  /** The machine's answer to ARRAY. */
  predicate HasItems(store: Store, v: Value, n: nat) {
    var o := Deref(store, v);
    o.Some? && o.value.ArrayObject? && |o.value.elems| == n
  }

  lemma ArrayTestAgreesIff(store: Store, v: Value, n: nat)
    ensures BarrayPatt(store, v, n) == Some(HasItems(store, v, n)) <==> Inspectable(store, v)
  {
  }

  /** The tests for kinds; two of them the interpreter does not know. */
  function KindTest(store: Store, v: Value, q: Patt): Option<bool> {
    match q
    case UnBoxed => Some(v.Int?)
    case Boxed => None
    case SexpTag => None
    case StrCmp => None
    case _ => if v.Int? then Some(false) else if Deref(store, v).Some? then Some(IsKind(store, v, q)) else None
  }

  lemma KindTestAgreesIff(store: Store, v: Value, q: Patt)
    requires q != StrCmp
    ensures KindTest(store, v, q) == Some(IsKind(store, v, q)) <==>
      q.UnBoxed? || (!q.Boxed? && !q.SexpTag? && Inspectable(store, v))
  {
  }

  // ---- strings ----

  /** createStr copies up to the first zero. */
  function CreateStr(s: string): Object { StringObject(Cut(s)) }

  lemma LiteralAgreesIff(s: string)
    ensures CreateStr(s) == StringObject(s) <==> ByteFormat.NulFree(s)
  {
    CutNothing(s);
  }

  /** The literal ends where the first zero is, or where the text ends. */
  lemma LiteralPrefix(s: string, t: string)
    ensures CreateStr(s) == StringObject(t) <==>
      t <= s && NUL !in t && (|t| == |s| || s[|t|] == NUL)
  {
    CutPrefix(s);
    if t <= s && NUL !in t && (|t| == |s| || s[|t|] == NUL) {
      CutOnly(s, t);
    }
  }

  lemma {:induction false} CutOnly(s: string, t: string)
    requires t <= s && NUL !in t && (|t| == |s| || s[|t|] == NUL)
    ensures Cut(s) == t
  {
    if t != [] {
      assert t[0] in t;
      CutOnly(s[1..], t[1..]);
      assert t == [t[0]] + t[1..];
    }
  }

  lemma {:induction false} CutPrefix(s: string)
    ensures Cut(s) <= s && NUL !in Cut(s) && (|Cut(s)| == |s| || s[|Cut(s)|] == NUL)
  {
    if s != [] && s[0] != NUL {
      CutPrefix(s[1..]);
      assert s == [s[0]] + s[1..];
    }
  }

  lemma LiteralCut()
    ensures CreateStr(['a', NUL, 'b']) != StringObject(['a', NUL, 'b'])
  {
    assert ['a', NUL, 'b'][1] == NUL;
    LiteralAgreesIff(['a', NUL, 'b']);
  }

  /** Bytes are signed. */
  function SignedByte(c: char): int { if c as int < 128 then c as int else c as int - 256 }

  /** Belem. */
  function Belem(store: Store, b: Value, j: Value): Option<Value> {
    var i :- ToInt(j);
    var o :- Deref(store, b);
    match o
    case StringObject(chars) => if 0 <= i < |chars| then Some(Int(SignedByte(chars[i]))) else None
    case ArrayObject(elems) => if 0 <= i < |elems| then Some(elems[i]) else None
    case SexpObject(_, elems) => if 0 <= i < |elems| then Some(elems[i]) else None
    case ClosureObject(_, _) => None
  }

  /** Elements agree exactly if they are no bytes from 128 up. */
  lemma ElementAgreesIff(store: Store, b: Value, j: Value)
    requires Element(store, b, j).Some?
    ensures Belem(store, b, j) == Element(store, b, j) <==>
      (Deref(store, b).value.StringObject? ==> Deref(store, b).value.chars[j.n] as int < 128)
    ensures IsString(store, b) && Deref(store, b).value.chars[j.n] as int < 256 ==>
      Belem(store, b, j).Some? && SignedReading(Deref(store, b).value.chars[j.n] as int, Belem(store, b, j).value)
  {
  }

  /** The number between -128 and 127 with the same eight bits. */
  predicate SignedReading(byte: int, v: Value) { v.Int? && -128 <= v.n < 128 && (byte - v.n) % 256 == 0 }

  lemma ByteWithSign()
    ensures Belem([StringObject([200 as char])], Ref(0), Int(0)) == Some(Int(-56))
    ensures Element([StringObject([200 as char])], Ref(0), Int(0)) == Some(Int(200))
  {
  }

  /** Bsta; a byte takes the lowest eight bits. */
  function Bsta(store: Store, b: Value, i: int, v: Value): Option<Store> {
    var o :- Deref(store, b);
    match o
    case StringObject(chars) =>
      var n :- ToInt(v);
      if 0 <= i < |chars| then Some(store[b.address := StringObject(chars[i := (n % 256) as char])]) else None
    case ArrayObject(elems) =>
      if 0 <= i < |elems| then Some(store[b.address := ArrayObject(elems[i := v])]) else None
    case SexpObject(tag, elems) =>
      if 0 <= i < |elems| then Some(store[b.address := SexpObject(tag, elems[i := v])]) else None
    case ClosureObject(_, _) => None
  }

  lemma AssignmentAgrees(store: Store, b: Value, i: int, v: Value)
    requires UpdateElement(store, b, i, v).Some?
    ensures Bsta(store, b, i, v) == UpdateElement(store, b, i, v)
  {
  }

  /** A number too large for a byte is assigned with its eight lowest bits. */
  lemma ByteTruncated(store: Store, b: Value, i: int, n: int, low: int)
    requires IsString(store, b) && 0 <= low < 256 && (n - low) % 256 == 0
    ensures Bsta(store, b, i, Int(n)) == UpdateElement(store, b, i, Int(low))
  {
    assert n % 256 == low;
  }

  /** The machine's answer to PATT(StrCmp). */
  predicate SameText(store: Store, x: Value, y: Value) { IsString(store, x) && Deref(store, y) == Deref(store, x) }

  /** Bstring_patt on the word popped first and the one popped second: fails if the second is another object, and
      reads memory that is not the heap's if it is a number. */
  function BstringPatt(store: Store, x: Value, y: Value): Option<bool> {
    if !y.Int? && !IsString(store, y) then None
    else if x.Int? then Some(false)
    else if Deref(store, x).None? then None
    else if !IsString(store, x) then Some(false)
    else if y.Int? then None
    else Some(Cut(Deref(store, x).value.chars) == Cut(Deref(store, y).value.chars))
  }

  /** What strcmp sees is equal. */
  predicate TextsAlike(store: Store, x: Value, y: Value)
    requires IsString(store, x) && IsString(store, y)
  {
    Cut(Deref(store, x).value.chars) == Cut(Deref(store, y).value.chars)
  }

  /** String patterns agree exactly if the second word is a string or a number beside a number or another object, and
      two strings are equal as soon as they are up to their first zeros. */
  lemma StringTestAgreesIff(store: Store, x: Value, y: Value)
    ensures BstringPatt(store, x, y) == Some(SameText(store, x, y)) <==>
      && Inspectable(store, x) && (IsString(store, y) || (y.Int? && !IsString(store, x)))
      && (IsString(store, x) && IsString(store, y) && TextsAlike(store, x, y) ==> Deref(store, x) == Deref(store, y))
  {
    hide Cut;
  }

  /** After its first byte has become zero every string matches the empty one. */
  lemma EmptyTextTaken()
    ensures
      var store := [StringObject([]), StringObject([NUL, 'b'])];
      BstringPatt(store, Ref(0), Ref(1)) == Some(true) && !SameText(store, Ref(0), Ref(1))
  {
    assert Cut([NUL, 'b']) == [];
  }

  // ---- builtins ----

  /** The operands a builtin's opcode takes; only for arrays their number is in the code. */
  function Pops(name: string, n: nat): nat {
    if name == "read" then 0 else if name == ".array" then n else 1
  }

  /** The builtin functions on their arguments in order. */
  function RuntimeBuiltin(w: World, args: seq<Value>, name: string): Option<(World, Value)> {
    if name == "read" then
      if w.input == [] then None else Some((w.(input := w.input[1..]), Int(Wrap(w.input[0]))))
    else if name == "write" then
      if args == [] || !args[0].Int? then None else Some((w.(output := w.output + [args[0].n]), Empty))
    else if name == "length" then
      if args == [] then None
      else
        var o :- Deref(w.store, args[0]);
        Some((w, Int(Wrap(LenWord(o)))))
    else if name == ".array" then
      var (store, v) := Allocate(w.store, ArrayObject(args));
      Some((w.(store := store), v))
    else None
  }

  /** LEN; that of a closure counts its code address. */
  function LenWord(o: Object): nat {
    match o
    case StringObject(chars) => |chars|
    case ArrayObject(elems) => |elems|
    case SexpObject(_, elems) => |elems|
    case ClosureObject(_, cells) => |cells| + 1
  }

  /** In the interpreter the length of a closure counts its code; the machine has none. */
  lemma LengthOfClosure(w: World, a: nat)
    requires a < |w.store| && w.store[a].ClosureObject? && |w.store[a].cells| < 0x3fff_ffff
    ensures RuntimeBuiltin(w, [Ref(a)], "length") == Some((w, Int(1 + |w.store[a].cells|)))
    ensures CallBuiltin(w, [Ref(a)], "length") == None
  {
    WrapsIff(1 + |w.store[a].cells|);
  }

  type Answer = Option<(World, List<Value>)>

  /** What the machine makes of a call with n arguments, and what the interpreter makes of its opcode. */
  function MachineCall(w: World, stack: List<Value>, name: string, n: nat): Answer {
    var t :- Take(n, stack);
    var r :- CallBuiltin(w, BottomUp(t.0), name);
    Some((r.0, Cons(r.1, t.1)))
  }

  function RuntimeCall(w: World, stack: List<Value>, name: string, n: nat): Answer {
    var t :- Take(Pops(name, n), stack);
    var r :- RuntimeBuiltin(w, BottomUp(t.0), name);
    Some((r.0, Cons(r.1, t.1)))
  }

  lemma {:induction false} TakeLengths(n: nat, xs: List<Value>)
    requires Take(n, xs).Some?
    ensures Length(Take(n, xs).value.1) + n == Length(xs) && |BottomUp(Take(n, xs).value.0)| == n
    decreases n
  {
    if n > 0 {
      TakeLengths(n - 1, xs.tail);
    }
  }

  /** Results of builtins are words of 31 bits. */
  predicate ResultFits(v: Value) { v.Int? ==> Fits31(v.n) }

  lemma BuiltinSame(w: World, args: seq<Value>, name: string)
    requires Called(name) && CallBuiltin(w, args, name).Some?
    ensures RuntimeBuiltin(w, args, name) == CallBuiltin(w, args, name) <==>
      ResultFits(CallBuiltin(w, args, name).value.1)
  {
    if name == "read" {
      WrapsIff(w.input[0]);
    } else if name == "length" {
      WrapsIff(LenWord(Deref(w.store, args[0]).value));
    }
  }

  /** Calls of builtins agree exactly if they have as many arguments as the opcode takes and the result fits. */
  lemma BuiltinAgreesIff(w: World, stack: List<Value>, name: string, n: nat)
    requires Called(name) && MachineCall(w, stack, name, n).Some?
    ensures RuntimeCall(w, stack, name, n) == MachineCall(w, stack, name, n) <==>
      n == Pops(name, n) && ResultFits(MachineCall(w, stack, name, n).value.1.head)
    ensures n == Pops(name, n) <==>
      (name == "read" ==> n == 0) && (name == "write" || name == "length" ==> n == 1)
  {
    hide CallBuiltin, RuntimeBuiltin, BottomUp, Take, Called;
    TakeLengths(n, stack);
    if Take(Pops(name, n), stack).Some? {
      TakeLengths(Pops(name, n), stack);
    }
    BuiltinSame(w, BottomUp(Take(n, stack).value.0), name);
    KnownBuiltin(w, BottomUp(Take(n, stack).value.0), name);
  }

  lemma KnownBuiltin(w: World, args: seq<Value>, name: string)
    requires Called(name) && CallBuiltin(w, args, name).Some?
    ensures name in ["read", "write", "length", ".array"]
  {
  }

  /** With two arguments the interpreter writes the second and leaves the first behind. */
  lemma WriteOfTwo()
    ensures
      var w, stack := World([], [], []), Cons(Int(2), Cons(Int(1), Nil));
      && MachineCall(w, stack, "write", 2) == Some((World([], [1], []), Cons(Empty, Nil)))
      && RuntimeCall(w, stack, "write", 2) == Some((World([], [2], []), Cons(Empty, Cons(Int(1), Nil))))
  {
    var one: List<Value> := Cons(Int(1), Nil);
    TakeOne(Int(2), one);
    TakeOne(Int(1), Nil);
    assert Take(2, Cons(Int(2), one)) == Some((Cons(Int(2), one), Nil));
    assert BottomUp(one) == [Int(1)];
    assert BottomUp(Cons(Int(2), one)) == [Int(1), Int(2)];
    var two: List<Value> := Cons(Int(2), Nil);
    assert BottomUp(two) == [Int(2)];
    var w := World([], [], []);
    assert w.output + [1] == [1] && w.output + [2] == [2];
  }

  /** An argument of read stays on the stack. */
  lemma ReadOfOne()
    ensures
      var w, stack := World([7], [], []), Cons(Int(5), Nil);
      && MachineCall(w, stack, "read", 1) == Some((World([], [], []), Cons(Int(7), Nil)))
      && RuntimeCall(w, stack, "read", 1) == Some((World([], [], []), Cons(Int(7), Cons(Int(5), Nil))))
  {
    var stack: List<Value> := Cons(Int(5), Nil);
    TakeOne(Int(5), Nil);
    assert Take(0, stack) == Some((Nil, stack));
    var w := World([7], [], []);
    assert w.input[1..] == [];
  }

  lemma TakeOne(x: Value, rest: List<Value>)
    ensures Take(1, Cons(x, rest)) == Some((Cons(x, Nil), rest))
  {
    assert Take(0, rest) == Some((Nil, rest));
  }

  // ---- a step of the machine ----

  /** At this step the runtime does what the machine does. */
  ghost predicate Faithful(address: nat -> int, p: Prog, m: Machine) {
    m.pc < |p| ==>
    match p[m.pc]
    case BINOP(op) =>
      m.stack.Cons? && m.stack.tail.Cons? ==>
        RuntimeBinop(address, op, m.stack.tail.head, m.stack.head) == Compute(op, m.stack.tail.head, m.stack.head)
    case CONST(n) => Wrap(n) == n
    case STRING(s) => CreateStr(s) == StringObject(s)
    case SEXP(tag, _) => TagHash(tag).Some?
    case ELEM =>
      m.stack.Cons? && m.stack.tail.Cons? ==>
        Belem(m.world.store, m.stack.tail.head, m.stack.head) == Element(m.world.store, m.stack.tail.head, m.stack.head)
    case TAG(tag, n) => m.stack.Cons? ==>
      Btag(m.world.store, m.stack.head, tag, n) == Some(HasTag(m.world.store, m.stack.head, tag, n))
    case ARRAY(n) => m.stack.Cons? ==>
      BarrayPatt(m.world.store, m.stack.head, n) == Some(HasItems(m.world.store, m.stack.head, n))
    case PATT(q) =>
      if q == StrCmp then
        m.stack.Cons? && m.stack.tail.Cons? ==>
          BstringPatt(m.world.store, m.stack.head, m.stack.tail.head) ==
          Some(SameText(m.world.store, m.stack.head, m.stack.tail.head))
      else m.stack.Cons? ==> KindTest(m.world.store, m.stack.head, q) == Some(IsKind(m.world.store, m.stack.head, q))
    case CALL(l, n) =>
      l.Named? && FindLabel(p, l).None? && MachineCall(m.world, m.stack, l.name, n).Some? ==>
        RuntimeCall(m.world, m.stack, l.name, n) == MachineCall(m.world, m.stack, l.name, n)
    case _ => true
  }
}
