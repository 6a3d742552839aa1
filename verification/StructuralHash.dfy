/** Structural hashing of values (runtime/runtime.c:561-609): what is fed to the hash, in which order, and when hashes
    differ. */
module StructuralHash {
  import opened Wrappers
  import opened StructuralOrder

  type Hash = x: nat | x < WORDS witness 0

  /** Exchanges the halves of a word. */
  function Swap(u: Hash): Hash { u % HALF * HALF + u / HALF }

  /** HASH_APPEND. */
  function Append(acc: Hash, x: int): Hash { Swap((acc + x) % WORDS) }

  /** The sum, reduced to a word, with its halves exchanged: nothing of it is lost. */
  lemma AppendStep(acc: Hash, x: int)
    ensures
      var sum := (acc + x) % 0x1_0000_0000_0000_0000;
      && Append(acc, x) as int / 0x1_0000_0000 == sum % 0x1_0000_0000
      && Append(acc, x) as int % 0x1_0000_0000 == sum / 0x1_0000_0000
  {
    SwapHalves((acc + x) % WORDS);
  }

  lemma SwapHalves(u: Hash)
    ensures Swap(u) / HALF == u % HALF && Swap(u) % HALF == u / HALF
  {
    var lo, hi := u % HALF, u / HALF;
    assert 0 <= lo < HALF && 0 <= hi < HALF;
    assert (lo * HALF + hi) / HALF == lo && (lo * HALF + hi) % HALF == hi;
  }

  lemma SwapTwice(u: Hash)
    ensures Swap(Swap(u)) == u
  {
    var lo, hi := u % HALF, u / HALF;
    assert 0 <= lo < HALF && 0 <= hi < HALF;
    assert (lo * HALF + hi) / HALF == lo && (lo * HALF + hi) % HALF == hi;
  }

  lemma AppendInjective(acc: Hash, acc': Hash, x: int, x': int)
    ensures Append(acc, x) == Append(acc', x) <==> acc == acc'
    ensures 0 <= x < WORDS && 0 <= x' < WORDS ==> (Append(acc, x) == Append(acc, x') <==> x == x')
  {
    hide Swap;
    SwapTwice((acc + x) % WORDS);
    SwapTwice((acc' + x) % WORDS);
    SwapTwice((acc + x') % WORDS);
  }

  function HashBytes(acc: Hash, s: seq<Byte>): Hash
    decreases |s|
  {
    if s == [] then acc else HashBytes(Append(acc, if s[0] < 128 then s[0] as int else s[0] as int - 256), s[1..])
  }

  const HASH_DEPTH := 3

  /** The length in the header; it counts the code address of a closure. */
  function Len(o: Object): nat {
    match o
    case TextObject(s) => |s|
    case CompoundObject(k, _, items) => if k == 7 then |items| + 1 else |items|
  }

  /** Kind, length and mark. */
  function HashHead(acc: Hash, o: Object): Hash {
    match o
    case TextObject(_) => Append(Append(acc, 1), Len(o))
    case CompoundObject(k, m, _) =>
      var head := Append(Append(acc, k), Len(o));
      if k == 3 then head else Append(head, m)
  }

  /** inner_hash. */
  function HashAt(h: Heap, depth: nat, acc: Hash, w: int): Hash
    decreases HASH_DEPTH + 1 - depth, 0
  {
    if depth > HASH_DEPTH then acc
    else if !Reference(w) then Append(acc, Unbox(w))
    else if w !in h then Append(acc, w)
    else
      match h[w]
      case TextObject(s) => HashBytes(HashHead(acc, h[w]), Cut(s))
      case CompoundObject(_, _, items) => HashItems(h, depth + 1, HashHead(acc, h[w]), items)
  }

  function HashItems(h: Heap, depth: nat, acc: Hash, ws: seq<int>): Hash
    decreases HASH_DEPTH + 1 - depth, |ws| + 1
  {
    if ws == [] then acc else HashItems(h, depth, HashAt(h, depth, acc, ws[0]), ws[1..])
  }

  // ---- what is fed to the hash ----

  /** The numbers a word feeds, in order: a number itself, an address outside the heap, and of an object kind, length,
      tag or code address, and then bytes up to a zero, with signs, or what its items feed one level down, the first
      first; nothing below the third level. */
  function Fed(h: Heap, depth: nat, w: int): seq<int>
    decreases 4 - depth, 0
  {
    if depth > 3 then []
    else if w % 2 == 1 then [(w - 1) / 2]
    else if w !in h then [w]
    else
      match h[w]
      case TextObject(s) => [1, |s|] + Signed(s)
      case CompoundObject(k, m, items) =>
        var head := if k == 3 then [3, |items|] else if k == 7 then [7, |items| + 1, m] else [k, |items|, m];
        head + FedAll(h, depth + 1, items)
  }

  function FedAll(h: Heap, depth: nat, ws: seq<int>): seq<int>
    decreases 4 - depth, |ws| + 1
  {
    if ws == [] then [] else Fed(h, depth, ws[0]) + FedAll(h, depth, ws[1..])
  }

  function Signed(s: seq<Byte>): seq<int> {
    if s == [] || s[0] == 0 then [] else [if s[0] < 128 then s[0] as int else s[0] as int - 256] + Signed(s[1..])
  }

  /** One number after the other. */
  function Fold(acc: Hash, xs: seq<int>): Hash
    decreases |xs|
  {
    if xs == [] then acc else Fold(Append(acc, xs[0]), xs[1..])
  }

  lemma {:induction false} FoldJoin(acc: Hash, a: seq<int>, b: seq<int>)
    ensures Fold(acc, a + b) == Fold(Fold(acc, a), b)
    decreases |a|
  {
    hide Append;
    if a == [] {
      assert a + b == b;
    } else {
      assert (a + b)[1..] == a[1..] + b;
      FoldJoin(Append(acc, a[0]), a[1..], b);
    }
  }

  lemma FoldOne(acc: Hash, x: int)
    ensures Fold(acc, [x]) == Append(acc, x)
  {
    hide Append;
    assert [x][1..] == [];
  }

  lemma FoldTwo(acc: Hash, x: int, y: int)
    ensures Fold(acc, [x, y]) == Append(Append(acc, x), y)
  {
    hide Append;
    assert [x, y][1..] == [y];
    FoldOne(Append(acc, x), y);
  }

  lemma FoldThree(acc: Hash, x: int, y: int, z: int)
    ensures Fold(acc, [x, y, z]) == Append(Append(Append(acc, x), y), z)
  {
    hide Append;
    assert [x, y, z][1..] == [y, z];
    FoldTwo(Append(acc, x), y, z);
  }

  lemma {:induction false} BytesFed(acc: Hash, s: seq<Byte>)
    ensures HashBytes(acc, Cut(s)) == Fold(acc, Signed(s))
    decreases |s|
  {
    hide Append;
    if s != [] && s[0] != 0 {
      var x := if s[0] < 128 then s[0] as int else s[0] as int - 256;
      assert Cut(s)[1..] == Cut(s[1..]) && Signed(s)[1..] == Signed(s[1..]);
      BytesFed(Append(acc, x), s[1..]);
    }
  }

  lemma {:induction false} HashFed(h: Heap, depth: nat, acc: Hash, w: int)
    ensures HashAt(h, depth, acc, w) == Fold(acc, Fed(h, depth, w))
    decreases 4 - depth, 0
  {
    hide Append, HashBytes, Signed, Cut, HashItems, FedAll, Fold;
    if depth > 3 {
      FoldNone(acc);
    } else if w % 2 == 1 {
      FoldOne(acc, Unbox(w));
    } else if w !in h {
      FoldOne(acc, w);
    } else {
      match h[w]
      case TextObject(s) =>
        FoldTwo(acc, 1, |s|);
        BytesFed(Append(Append(acc, 1), |s|), s);
        FoldJoin(acc, [1, |s|], Signed(s));
      case CompoundObject(k, m, items) =>
        var n := Len(h[w]);
        FoldTwo(acc, k, n);
        FoldThree(acc, k, n, m);
        ItemsFed(h, depth + 1, HashHead(acc, h[w]), items);
        FoldJoin(acc, if k == 3 then [3, n] else [k, n, m], FedAll(h, depth + 1, items));
    }
  }

  lemma FoldNone(acc: Hash)
    ensures Fold(acc, []) == acc
  {
  }

  lemma {:induction false} ItemsFed(h: Heap, depth: nat, acc: Hash, ws: seq<int>)
    ensures HashItems(h, depth, acc, ws) == Fold(acc, FedAll(h, depth, ws))
    decreases 4 - depth, |ws| + 1
  {
    hide Append, HashAt, Fed, Fold;
    if ws == [] {
      FoldNone(acc);
    } else {
      HashFed(h, depth, acc, ws[0]);
      ItemsFed(h, depth, HashAt(h, depth, acc, ws[0]), ws[1..]);
      FoldJoin(acc, Fed(h, depth, ws[0]), FedAll(h, depth, ws[1..]));
    }
  }

  /** inner_hash terminates on any heap, cyclic or not: it goes no deeper than three levels. */
  method InnerHash(h: Heap, depth: nat, acc: Hash, p: int) returns (r: Hash)
    ensures r == HashAt(h, depth, acc, p) && r == Fold(acc, Fed(h, depth, p))
    decreases HASH_DEPTH + 1 - depth
  {
    hide Fed, Fold;
    HashFed(h, depth, acc, p);
    if depth > HASH_DEPTH {
      return acc;
    }
    if !Reference(p) {
      return Append(acc, Unbox(p));
    }
    if p !in h {
      return Append(acc, p);
    }
    r := HashHead(acc, h[p]);
    match h[p] {
      case TextObject(bytes) =>
        var i := 0;
        ghost var all := HashBytes(r, Cut(bytes));
        assert bytes[0..] == bytes;
        while i < |bytes| && bytes[i] != 0
          invariant 0 <= i <= |bytes| && HashBytes(r, Cut(bytes[i..])) == all
        {
          assert bytes[i..][1..] == bytes[i + 1..];
          r := Append(r, if bytes[i] < 128 then bytes[i] as int else bytes[i] as int - 256);
          i := i + 1;
        }
      case CompoundObject(_, _, items) =>
        var i := 0;
        ghost var all := HashItems(h, depth + 1, r, items);
        assert items[0..] == items;
        while i < |items|
          invariant 0 <= i <= |items| && HashItems(h, depth + 1, r, items[i..]) == all
        {
          assert items[i..][1..] == items[i + 1..];
          r := InnerHash(h, depth + 1, r, items[i]);
          i := i + 1;
        }
    }
  }

  /** Equal values have equal hashes, to every depth and from every accumulator. */
  lemma {:induction false} EqualHash(h: Heap, rank: map<int, nat>, depth: nat, acc: Hash, p: int, q: int)
    requires Acyclic(h, rank) && HeapFits(h) && ValueAt(h, rank, p) == ValueAt(h, rank, q)
    ensures HashAt(h, depth, acc, p) == HashAt(h, depth, acc, q)
    decreases HASH_DEPTH + 1 - depth, 0
  {
    if depth <= HASH_DEPTH && Reference(p) && p in h {
      assert Reference(q) && q in h;
      if h[p].CompoundObject? {
        var a, b := h[p].items, h[q].items;
        assert ValueAt(h, rank, p).items == ValuesAt(h, rank, a);
        assert ValueAt(h, rank, q).items == ValuesAt(h, rank, b);
        EqualHashItems(h, rank, depth + 1, HashHead(acc, h[p]), a, b);
      }
    }
  }

  lemma {:induction false} EqualHashItems(h: Heap, rank: map<int, nat>, depth: nat, acc: Hash, a: seq<int>, b: seq<int>)
    requires Acyclic(h, rank) && HeapFits(h) && ValuesAt(h, rank, a) == ValuesAt(h, rank, b)
    ensures HashItems(h, depth, acc, a) == HashItems(h, depth, acc, b)
    decreases HASH_DEPTH + 1 - depth, |a| + 1
  {
    hide ValueAt, HashAt, Acyclic, HeapFits;
    assert |a| == |ValuesAt(h, rank, a)| == |b|;
    if a != [] {
      assert ValuesAt(h, rank, a)[0] == ValueAt(h, rank, a[0]) && ValuesAt(h, rank, b)[0] == ValueAt(h, rank, b[0]);
      assert ValuesAt(h, rank, a[1..]) == ValuesAt(h, rank, a)[1..];
      assert ValuesAt(h, rank, b[1..]) == ValuesAt(h, rank, b)[1..];
      EqualHash(h, rank, depth, acc, a[0], b[0]);
      EqualHashItems(h, rank, depth, HashAt(h, depth, acc, a[0]), a[1..], b[1..]);
    }
  }

  /** What compares equal hashes equal, if no string contains a zero. */
  lemma CompareZeroHashes(h: Heap, rank: map<int, nat>, depth: nat, acc: Hash, p: int, q: int)
    requires Acyclic(h, rank) && HeapFits(h) && ZeroFree(ValueAt(h, rank, p)) && ZeroFree(ValueAt(h, rank, q))
    requires Order(ValueAt(h, rank, p), ValueAt(h, rank, q)) == 0
    ensures HashAt(h, depth, acc, p) == HashAt(h, depth, acc, q)
  {
    hide Order, ValueAt, Proper, ZeroFree;
    ValueProper(h, rank, p);
    ValueProper(h, rank, q);
    ZeroIffEqual(ValueAt(h, rank, p), ValueAt(h, rank, q));
    EqualHash(h, rank, depth, acc, p, q);
  }

  lemma {:induction false} HashBytesInjective(acc: Hash, acc': Hash, s: seq<Byte>)
    ensures HashBytes(acc, s) == HashBytes(acc', s) <==> acc == acc'
    decreases |s|
  {
    hide Append;
    if s != [] {
      var x := if s[0] < 128 then s[0] as int else s[0] as int - 256;
      AppendInjective(acc, acc', x, x);
      HashBytesInjective(Append(acc, x), Append(acc', x), s[1..]);
    }
  }

  /** Two strings that compare equal have equal hashes exactly if they have the same length: the comparison stops
      at a zero, the hash begins with the length. */
  lemma StringsHashAlikeIff(h: Heap, depth: nat, acc: Hash, p: int, q: int)
    requires p in h && q in h && Reference(p) && Reference(q) && h[p].TextObject? && h[q].TextObject?
    requires depth <= HASH_DEPTH
    requires StringOrder(Cut(h[p].bytes), Cut(h[q].bytes)) == 0 && |h[p].bytes| < WORDS && |h[q].bytes| < WORDS
    ensures HashAt(h, depth, acc, p) == HashAt(h, depth, acc, q) <==> |h[p].bytes| == |h[q].bytes|
  {
    hide Append, StringOrder, Cut, HashBytes;
    StringZero(Cut(h[p].bytes), Cut(h[q].bytes));
    HashBytesInjective(HashHead(acc, h[p]), HashHead(acc, h[q]), Cut(h[p].bytes));
    AppendInjective(Append(acc, 1), Append(acc, 1), |h[p].bytes|, |h[q].bytes|);
  }

  /** Strings of one zero and of two compare equal and hash differently. */
  lemma ZerosHashDifferently(depth: nat, acc: Hash)
    requires depth <= HASH_DEPTH
    ensures
      var h: Heap := map[0 := TextObject([0]), 8 := TextObject([0, 0])];
      StringOrder(Cut(h[0].bytes), Cut(h[8].bytes)) == 0 && HashAt(h, depth, acc, 0) != HashAt(h, depth, acc, 8)
  {
    hide HashAt;
    var h: Heap := map[0 := TextObject([0]), 8 := TextObject([0, 0])];
    assert Cut(h[0].bytes) == [] == Cut(h[8].bytes);
    StringsHashAlikeIff(h, depth, acc, 0, 8);
  }

  // ---- when hashes differ ----

  /** As many numbers, all but one the same, and that one different as a word. */
  ghost predicate OneOff(a: seq<int>, b: seq<int>) {
    exists k :: OneOffAt(a, b, k)
  }

  ghost predicate OneOffAt(a: seq<int>, b: seq<int>, k: int) {
    && 0 <= k < |a| == |b| && (a[k] - b[k]) % 0x1_0000_0000_0000_0000 != 0
    && forall j :: 0 <= j < |a| && j != k ==> a[j] == b[j]
  }

  lemma {:induction false} FoldInjective(acc: Hash, acc': Hash, xs: seq<int>)
    ensures Fold(acc, xs) == Fold(acc', xs) <==> acc == acc'
    decreases |xs|
  {
    hide Append;
    if xs != [] {
      AppendInjective(acc, acc', xs[0], xs[0]);
      FoldInjective(Append(acc, xs[0]), Append(acc', xs[0]), xs[1..]);
    }
  }

  lemma Residues(a: int, b: int)
    ensures a % WORDS == b % WORDS ==> (a - b) % WORDS == 0
  {
    var u, v := a / WORDS, b / WORDS;
    assert a % WORDS == b % WORDS ==> a - b == WORDS * (u - v);
  }

  lemma AppendApart(acc: Hash, x: int, y: int)
    requires (x - y) % WORDS != 0
    ensures Append(acc, x) != Append(acc, y)
  {
    hide Swap;
    SwapTwice((acc + x) % WORDS);
    SwapTwice((acc + y) % WORDS);
    Residues(acc + x, acc + y);
  }

  /** One number more or less is seen, wherever it stands. */
  lemma {:induction false} OneOffApart(acc: Hash, a: seq<int>, b: seq<int>, k: int)
    requires OneOffAt(a, b, k)
    ensures Fold(acc, a) != Fold(acc, b)
    decreases |a|
  {
    hide Append;
    if k == 0 {
      AppendApart(acc, a[0], b[0]);
      assert a[1..] == b[1..];
      FoldInjective(Append(acc, a[0]), Append(acc, b[0]), a[1..]);
    } else {
      assert OneOffAt(a[1..], b[1..], k - 1);
      OneOffApart(Append(acc, a[0]), a[1..], b[1..], k - 1);
    }
  }

  lemma OneOffWithin(a: seq<int>, x: seq<int>, y: seq<int>, b: seq<int>)
    requires OneOff(x, y)
    ensures OneOff(a + x + b, a + y + b)
  {
    var k :| OneOffAt(x, y, k);
    assert OneOffAt(a + x + b, a + y + b, |a| + k);
  }

  /** Two words of which one, behind the path, is u and v, all else being the same. */
  ghost predicate Twins(h: Heap, p: int, q: int, path: seq<nat>, u: int, v: int)
    decreases |path|
  {
    if path == [] then p == u && q == v
    else
      && p % 2 == 0 && q % 2 == 0 && p in h && q in h && h[p].CompoundObject? && h[q].CompoundObject?
      && h[p].kind == h[q].kind && h[p].mark == h[q].mark && |h[p].items| == |h[q].items| && path[0] < |h[p].items|
      && h[q].items == h[p].items[path[0] := h[q].items[path[0]]]
      && Twins(h, h[p].items[path[0]], h[q].items[path[0]], path[1..], u, v)
  }

  lemma {:induction false} FedJoin(h: Heap, depth: nat, a: seq<int>, b: seq<int>)
    ensures FedAll(h, depth, a + b) == FedAll(h, depth, a) + FedAll(h, depth, b)
    decreases |a|
  {
    hide Fed;
    if a == [] {
      assert a + b == b;
    } else {
      assert (a + b)[1..] == a[1..] + b;
      FedJoin(h, depth, a[1..], b);
    }
  }

  /** What the items feed, taken apart at one of them. */
  lemma FedAround(h: Heap, depth: nat, ws: seq<int>, k: nat)
    requires k < |ws|
    ensures FedAll(h, depth, ws) == FedAll(h, depth, ws[..k]) + Fed(h, depth, ws[k]) + FedAll(h, depth, ws[k + 1..])
  {
    hide Fed;
    assert ws == ws[..k] + ([ws[k]] + ws[k + 1..]);
    FedJoin(h, depth, ws[..k], [ws[k]] + ws[k + 1..]);
    FedJoin(h, depth, [ws[k]], ws[k + 1..]);
    assert FedAll(h, depth, [ws[k]]) == Fed(h, depth, ws[k]) by {
      assert [ws[k]][1..] == [];
      assert FedAll(h, depth, []) == [];
    }
  }

  /** What twins feed differs within the first three levels as their ends do, and does not deeper. */
  lemma {:induction false} TwinsFeed(h: Heap, depth: nat, p: int, q: int, path: seq<nat>, u: int, v: int)
    requires Twins(h, p, q, path, u, v)
    requires (OneOff(Fed(h, depth + |path|, u), Fed(h, depth + |path|, v)) || depth + |path| > 3)
    ensures depth + |path| <= 3 ==> OneOff(Fed(h, depth, p), Fed(h, depth, q))
    ensures depth + |path| > 3 ==> Fed(h, depth, p) == Fed(h, depth, q)
    decreases |path|
  {
    hide FedAll, OneOff, Signed;
    if path != [] && depth <= 3 {
      var k := path[0];
      TwinsFeed(h, depth + 1, h[p].items[k], h[q].items[k], path[1..], u, v);
      ItemsApart(h[p].items, h[q].items, k);
      ObjectsFeed(h, depth, p, q, k);
    }
  }

  lemma ItemsApart(a: seq<int>, b: seq<int>, k: nat)
    requires k < |a| && |a| == |b| && b == a[k := b[k]]
    ensures a[..k] == b[..k] && a[k + 1..] == b[k + 1..]
  {
    var c := a[k := b[k]];
    assert c[..k] == a[..k] && c[k + 1..] == a[k + 1..];
  }

  lemma ObjectsFeed(h: Heap, depth: nat, p: int, q: int, k: nat)
    requires depth <= 3 && p % 2 == 0 && q % 2 == 0 && p in h && q in h && h[p].CompoundObject? && h[q].CompoundObject?
    requires h[p].kind == h[q].kind && h[p].mark == h[q].mark && |h[p].items| == |h[q].items| && k < |h[p].items|
    requires h[p].items[..k] == h[q].items[..k] && h[p].items[k + 1..] == h[q].items[k + 1..]
    ensures
      var x, y := Fed(h, depth + 1, h[p].items[k]), Fed(h, depth + 1, h[q].items[k]);
      && (OneOff(x, y) ==> OneOff(Fed(h, depth, p), Fed(h, depth, q)))
      && (x == y ==> Fed(h, depth, p) == Fed(h, depth, q))
  {
    hide FedAll, OneOff, Fed;
    var a, b := h[p].items, h[q].items;
    var x, y := Fed(h, depth + 1, a[k]), Fed(h, depth + 1, b[k]);
    var front, back := FedAll(h, depth + 1, a[..k]), FedAll(h, depth + 1, a[k + 1..]);
    FedAround(h, depth + 1, a, k);
    FedAround(h, depth + 1, b, k);
    HeadFed(h, depth, p);
    HeadFed(h, depth, q);
    var head := HeadOf(h[p]);
    Regroup(head, front, x, back);
    Regroup(head, front, y, back);
    if OneOff(x, y) {
      OneOffWithin(head + front, x, y, back);
    }
  }

  function HeadOf(o: Object): seq<int>
    requires o.CompoundObject?
  {
    var n := |o.items|;
    if o.kind == 3 then [3, n] else if o.kind == 7 then [7, n + 1, o.mark] else [o.kind, n, o.mark]
  }

  lemma HeadFed(h: Heap, depth: nat, p: int)
    requires depth <= 3 && p % 2 == 0 && p in h && h[p].CompoundObject?
    ensures Fed(h, depth, p) == HeadOf(h[p]) + FedAll(h, depth + 1, h[p].items)
  {
    hide FedAll;
  }

  lemma Regroup(a: seq<int>, b: seq<int>, c: seq<int>, d: seq<int>)
    ensures a + (b + c + d) == a + b + c + d
  {
  }

  /** Two words that differ behind the path in one number fed: their hashes differ exactly within three levels. */
  lemma TwinsHashIff(h: Heap, depth: nat, acc: Hash, p: int, q: int, path: seq<nat>, u: int, v: int)
    requires Twins(h, p, q, path, u, v)
    requires (OneOff(Fed(h, depth + |path|, u), Fed(h, depth + |path|, v)) || depth + |path| > 3)
    ensures HashAt(h, depth, acc, p) != HashAt(h, depth, acc, q) <==> depth + |path| <= 3
  {
    hide Fed, Fold, HashAt, Twins;
    TwinsFeed(h, depth, p, q, path, u, v);
    HashFed(h, depth, acc, p);
    HashFed(h, depth, acc, q);
    if OneOff(Fed(h, depth, p), Fed(h, depth, q)) && depth + |path| <= 3 {
      var k :| OneOffAt(Fed(h, depth, p), Fed(h, depth, q), k);
      OneOffApart(acc, Fed(h, depth, p), Fed(h, depth, q), k);
    }
  }

  /** Words of 64 bits that are not the same. */
  predicate Apart(u: int, v: int) { u != v && -WORDS < u - v < WORDS }

  /** Numbers hash alike exactly if they are equal or lie too deep: at the top with no path, or as items of objects
      that are the same otherwise. */
  lemma NumbersHashIff(h: Heap, depth: nat, acc: Hash, p: int, q: int, path: seq<nat>, u: int, v: int)
    requires Twins(h, p, q, path, u, v) && u % 2 == 1 && v % 2 == 1 && Apart(u, v)
    ensures HashAt(h, depth, acc, p) != HashAt(h, depth, acc, q) <==> depth + |path| <= 3
  {
    hide HashAt, Twins;
    assert OneOffAt([(u - 1) / 2], [(v - 1) / 2], 0);
    TwinsHashIff(h, depth, acc, p, q, path, u, v);
  }

  /** The same for addresses outside the heap. */
  lemma AddressesHashIff(h: Heap, depth: nat, acc: Hash, p: int, q: int, path: seq<nat>, u: int, v: int)
    requires Twins(h, p, q, path, u, v) && u % 2 == 0 && v % 2 == 0 && u !in h && v !in h && Apart(u, v)
    ensures HashAt(h, depth, acc, p) != HashAt(h, depth, acc, q) <==> depth + |path| <= 3
  {
    hide HashAt, Twins;
    assert OneOffAt([u], [v], 0);
    TwinsHashIff(h, depth, acc, p, q, path, u, v);
  }

  /** The same for the tags of s-expressions and the code addresses of closures, their items being the same. */
  lemma MarksHashIff(h: Heap, depth: nat, acc: Hash, p: int, q: int, path: seq<nat>, u: int, v: int)
    requires Twins(h, p, q, path, u, v) && u % 2 == 0 && v % 2 == 0 && u in h && v in h
    requires h[u].CompoundObject? && h[v].CompoundObject? && h[u].kind == h[v].kind != 3 && h[u].items == h[v].items
    requires Apart(h[u].mark, h[v].mark)
    ensures HashAt(h, depth, acc, p) != HashAt(h, depth, acc, q) <==> depth + |path| <= 3
  {
    hide HashAt, Twins, FedAll;
    if depth + |path| <= 3 {
      assert OneOffAt(Fed(h, depth + |path|, u), Fed(h, depth + |path|, v), 2);
    }
    TwinsHashIff(h, depth, acc, p, q, path, u, v);
  }

  /** The same for the lengths of strings that are equal up to their first zeros. */
  lemma LengthsHashIff(h: Heap, depth: nat, acc: Hash, p: int, q: int, path: seq<nat>, u: int, v: int)
    requires Twins(h, p, q, path, u, v) && u % 2 == 0 && v % 2 == 0 && u in h && v in h
    requires h[u].TextObject? && h[v].TextObject? && Cut(h[u].bytes) == Cut(h[v].bytes)
    requires Apart(|h[u].bytes|, |h[v].bytes|)
    ensures HashAt(h, depth, acc, p) != HashAt(h, depth, acc, q) <==> depth + |path| <= 3
  {
    hide HashAt, Twins, Signed, Cut;
    SameSigned(h[u].bytes, h[v].bytes);
    if depth + |path| <= 3 {
      assert OneOffAt(Fed(h, depth + |path|, u), Fed(h, depth + |path|, v), 1);
    }
    TwinsHashIff(h, depth, acc, p, q, path, u, v);
  }

  function Code(b: Byte): int { if b < 128 then b as int else b as int - 256 }

  lemma {:induction false} SignedCut(s: seq<Byte>)
    ensures |Signed(s)| == |Cut(s)| <= |s|
    ensures forall k :: 0 <= k < |Cut(s)| ==> Signed(s)[k] == Code(Cut(s)[k])
  {
    if s != [] && s[0] != 0 {
      SignedCut(s[1..]);
      var c, d := Cut(s), Signed(s);
      assert c[1..] == Cut(s[1..]) && d[1..] == Signed(s[1..]);
      forall k | 0 <= k < |c| ensures d[k] == Code(c[k]) {
        if k > 0 {
          assert d[k] == d[1..][k - 1] && c[k] == c[1..][k - 1];
        }
      }
    }
  }

  /** Strings that are equal up to their first zeros feed the same bytes. */
  lemma SameSigned(s: seq<Byte>, t: seq<Byte>)
    requires Cut(s) == Cut(t)
    ensures Signed(s) == Signed(t)
  {
    hide Cut, Signed;
    SignedCut(s);
    SignedCut(t);
  }

  /** The same for strings of one length that differ in one byte in front of their zeros. */
  lemma BytesHashIff(h: Heap, depth: nat, acc: Hash, p: int, q: int, path: seq<nat>, u: int, v: int, k: nat)
    requires Twins(h, p, q, path, u, v) && u % 2 == 0 && v % 2 == 0 && u in h && v in h
    requires h[u].TextObject? && h[v].TextObject? && |h[v].bytes| == |h[u].bytes|
    requires k < |Cut(h[u].bytes)| == |Cut(h[v].bytes)| && Cut(h[u].bytes)[k] != Cut(h[v].bytes)[k]
    requires forall j :: 0 <= j < |Cut(h[u].bytes)| && j != k ==> Cut(h[v].bytes)[j] == Cut(h[u].bytes)[j]
    ensures HashAt(h, depth, acc, p) != HashAt(h, depth, acc, q) <==> depth + |path| <= 3
  {
    hide HashAt, Twins, Signed, Cut;
    SignedCut(h[u].bytes);
    SignedCut(h[v].bytes);
    if depth + |path| <= 3 {
      assert OneOffAt(Fed(h, depth + |path|, u), Fed(h, depth + |path|, v), 2 + k);
    }
    TwinsHashIff(h, depth, acc, p, q, path, u, v);
  }

  /** The same for kinds: the empty string and the empty array. */
  lemma KindsHashIff(h: Heap, depth: nat, acc: Hash, p: int, q: int, path: seq<nat>, u: int, v: int)
    requires Twins(h, p, q, path, u, v) && u % 2 == 0 && v % 2 == 0 && u in h && v in h
    requires h[u] == TextObject([]) && h[v] == CompoundObject(3, 0, [])
    ensures HashAt(h, depth, acc, p) != HashAt(h, depth, acc, q) <==> depth + |path| <= 3
  {
    hide HashAt, Twins;
    if depth + |path| <= 3 {
      assert Fed(h, depth + |path|, u) == [1, 0];
      assert FedAll(h, depth + |path| + 1, []) == [];
      assert Fed(h, depth + |path|, v) == [3, 0];
      assert OneOffAt([1, 0], [3, 0], 0);
    }
    TwinsHashIff(h, depth, acc, p, q, path, u, v);
  }
}
