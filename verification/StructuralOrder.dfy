/** Structural comparison of values (runtime/runtime.c:618-686): the order that maps and sets of the standard library
    are built on. */
module StructuralOrder {
  import opened Wrappers
  import ByteFormat
  import OrderedTrees

  type Byte = ByteFormat.Byte

  /** What a word stands for, if the structures it refers to are acyclic: a number, an address outside the heap, a
      string, or an array, s-expression or closure with its tag or code address. */
  datatype Value =
    | Num(n: int)
    | Outside(address: int)
    | Text(bytes: seq<Byte>)
    | Compound(kind: int, mark: int, items: seq<Value>)

  /** The C string: what is in front of the first zero. */
  function Cut(s: seq<Byte>): seq<Byte> {
    if s == [] || s[0] == 0 then [] else [s[0]] + Cut(s[1..])
  }

  function Sign(n: int): int { if n < 0 then -1 else if n > 0 then 1 else 0 }

  /** strcmp. */
  function StringOrder(s: seq<Byte>, t: seq<Byte>): int {
    if s == [] then (if t == [] then 0 else -1)
    else if t == [] then 1
    else if s[0] != t[0] then Sign((s[0] as int) - (t[0] as int))
    else StringOrder(s[1..], t[1..])
  }

  /** Numbers first, addresses outside the heap last. */
  function Class(v: Value): int {
    match v
    case Num(_) => 0
    case Text(_) => 1
    case Compound(_, _, _) => 1
    case Outside(_) => 2
  }

  function Kind(v: Value): int {
    match v
    case Compound(k, _, _) => k
    case _ => 1
  }

  function Order(a: Value, b: Value): int
    decreases a, 0
  {
    if Class(a) != Class(b) then Sign(Class(a) - Class(b))
    else match a
      case Num(n) => Sign(n - b.n)
      case Outside(p) => Sign(p - b.address)
      case Text(s) => if b.Text? then StringOrder(Cut(s), Cut(b.bytes)) else Sign(1 - b.kind)
      case Compound(k, m, items) =>
        if b.Text? then Sign(k - 1)
        else if k != b.kind then Sign(k - b.kind)
        else if m != b.mark then Sign(m - b.mark)
        else if |items| != |b.items| then Sign(|items| - |b.items|)
        else OrderAll(items, b.items)
  }

  function OrderAll(a: seq<Value>, b: seq<Value>): int
    requires |a| == |b|
    decreases a, 1
  {
    if a == [] then 0
    else
      var c := Order(a[0], b[0]);
      if c != 0 then c else OrderAll(a[1..], b[1..])
  }

  /** The kinds of compounds are those of arrays, s-expressions and closures. */
  predicate Proper(v: Value)
    decreases v, 0
  {
    match v
    case Compound(k, m, items) => k in {3, 5, 7} && (k == 3 ==> m == 0) && ProperAll(items)
    case _ => true
  }

  predicate ProperAll(vs: seq<Value>)
    decreases vs, 1
  {
    vs == [] || (Proper(vs[0]) && ProperAll(vs[1..]))
  }

  // ---- a total order ----

  lemma {:induction false} StringFlips(s: seq<Byte>, t: seq<Byte>)
    ensures StringOrder(t, s) == -StringOrder(s, t)
  {
    if s != [] && t != [] {
      StringFlips(s[1..], t[1..]);
    }
  }

  lemma {:induction false} StringZero(s: seq<Byte>, t: seq<Byte>)
    ensures StringOrder(s, t) == 0 <==> s == t
  {
    if s != [] && t != [] {
      StringZero(s[1..], t[1..]);
      assert s == [s[0]] + s[1..] && t == [t[0]] + t[1..];
    }
  }

  /** x <= y and y <= z give x <= z, with equality only if both are. */
  predicate Chains(xy: int, yz: int, xz: int) {
    xy <= 0 && yz <= 0 ==> xz <= 0 && (xz == 0 <==> xy == 0 && yz == 0)
  }

  lemma {:induction false} StringChains(s: seq<Byte>, t: seq<Byte>, u: seq<Byte>)
    ensures Chains(StringOrder(s, t), StringOrder(t, u), StringOrder(s, u))
  {
    if s != [] && t != [] && u != [] {
      StringChains(s[1..], t[1..], u[1..]);
    }
  }

  /** The order is antisymmetric in sign. */
  lemma {:induction false} Flips(a: Value, b: Value)
    requires Proper(a) && Proper(b)
    ensures Order(b, a) == -Order(a, b)
    decreases a, 0
  {
    if a.Text? && b.Text? {
      StringFlips(Cut(a.bytes), Cut(b.bytes));
    } else if a.Compound? && b.Compound? && a.kind == b.kind && a.mark == b.mark && |a.items| == |b.items| {
      FlipsAll(a.items, b.items);
    }
  }

  lemma {:induction false} FlipsAll(a: seq<Value>, b: seq<Value>)
    requires |a| == |b| && ProperAll(a) && ProperAll(b)
    ensures OrderAll(b, a) == -OrderAll(a, b)
    decreases a, 1
  {
    if a != [] {
      Flips(a[0], b[0]);
      FlipsAll(a[1..], b[1..]);
    }
  }

  /** The order is transitive. */
  lemma {:induction false} OrderChains(a: Value, b: Value, c: Value)
    requires Proper(a) && Proper(b) && Proper(c)
    ensures Chains(Order(a, b), Order(b, c), Order(a, c))
    decreases a, 0
  {
    if a.Text? && b.Text? && c.Text? {
      StringChains(Cut(a.bytes), Cut(b.bytes), Cut(c.bytes));
    } else if a.Compound? && b.Compound? && c.Compound? && a.kind == b.kind == c.kind && a.mark == b.mark == c.mark
      && |a.items| == |b.items| == |c.items| {
      ChainsAll(a.items, b.items, c.items);
    }
  }

  lemma {:induction false} ChainsAll(a: seq<Value>, b: seq<Value>, c: seq<Value>)
    requires |a| == |b| == |c| && ProperAll(a) && ProperAll(b) && ProperAll(c)
    ensures Chains(OrderAll(a, b), OrderAll(b, c), OrderAll(a, c))
    decreases a, 1
  {
    if a != [] {
      OrderChains(a[0], b[0], c[0]);
      ChainsAll(a[1..], b[1..], c[1..]);
    }
  }

  /** The value with every string cut at its first zero. */
  function Visible(v: Value): Value
    decreases v, 0
  {
    match v
    case Text(s) => Text(Cut(s))
    case Compound(k, m, items) => Compound(k, m, VisibleAll(items))
    case _ => v
  }

  function VisibleAll(vs: seq<Value>): (r: seq<Value>)
    ensures |r| == |vs|
    decreases vs, 1
  {
    if vs == [] then [] else [Visible(vs[0])] + VisibleAll(vs[1..])
  }

  /** Only values that look the same compare equal, and all of those do. */
  lemma {:induction false} ZeroIffSame(a: Value, b: Value)
    requires Proper(a) && Proper(b)
    ensures Order(a, b) == 0 <==> Visible(a) == Visible(b)
    decreases a, 0
  {
    if a.Text? && b.Text? {
      StringZero(Cut(a.bytes), Cut(b.bytes));
    } else if a.Compound? && b.Compound? && |a.items| == |b.items| {
      ZeroIffSameAll(a.items, b.items);
    }
  }

  lemma {:induction false} ZeroIffSameAll(a: seq<Value>, b: seq<Value>)
    requires |a| == |b| && ProperAll(a) && ProperAll(b)
    ensures OrderAll(a, b) == 0 <==> VisibleAll(a) == VisibleAll(b)
    decreases a, 1
  {
    if a != [] {
      ZeroIffSame(a[0], b[0]);
      ZeroIffSameAll(a[1..], b[1..]);
      var x, y := VisibleAll(a), VisibleAll(b);
      assert x[0] == Visible(a[0]) && x[1..] == VisibleAll(a[1..]);
      assert y[0] == Visible(b[0]) && y[1..] == VisibleAll(b[1..]);
      assert x == [x[0]] + x[1..] && y == [y[0]] + y[1..];
    }
  }

  /** Strings without zeros. */
  predicate ZeroFree(v: Value)
    decreases v, 0
  {
    match v
    case Text(s) => 0 !in s
    case Compound(_, _, items) => ZeroFreeAll(items)
    case _ => true
  }

  predicate ZeroFreeAll(vs: seq<Value>)
    decreases vs, 1
  {
    vs == [] || (ZeroFree(vs[0]) && ZeroFreeAll(vs[1..]))
  }

  lemma {:induction false} CutNothing(s: seq<Byte>)
    ensures Cut(s) == s <==> 0 !in s
    ensures |Cut(s)| <= |s|
  {
    if s != [] {
      CutNothing(s[1..]);
      assert s == [s[0]] + s[1..];
      if s[0] == 0 {
        assert 0 in s;
      }
    }
  }

  lemma {:induction false} ZeroFreeVisible(v: Value)
    ensures Visible(v) == v <==> ZeroFree(v)
    decreases v, 0
  {
    match v
    case Text(s) => CutNothing(s);
    case Compound(_, _, items) => ZeroFreeVisibleAll(items);
    case _ =>
  }

  lemma {:induction false} ZeroFreeVisibleAll(vs: seq<Value>)
    ensures VisibleAll(vs) == vs <==> ZeroFreeAll(vs)
    decreases vs, 1
  {
    if vs != [] {
      ZeroFreeVisible(vs[0]);
      ZeroFreeVisibleAll(vs[1..]);
      var r := VisibleAll(vs);
      assert r[0] == Visible(vs[0]) && r[1..] == VisibleAll(vs[1..]);
      assert vs == [vs[0]] + vs[1..] && r == [r[0]] + r[1..];
    }
  }

  /** Without zeros in strings, comparing equal is being equal. */
  lemma ZeroIffEqual(a: Value, b: Value)
    requires Proper(a) && Proper(b) && ZeroFree(a) && ZeroFree(b)
    ensures Order(a, b) == 0 <==> a == b
  {
    hide Order, Proper, ZeroFree, Visible;
    ZeroIffSame(a, b);
    ZeroFreeVisible(a);
    ZeroFreeVisible(b);
  }

  // ---- as the comparison of maps and sets ----

  type Key = v: Value | Proper(v) witness Num(0)

  function CompareKeys(a: Key, b: Key): int { Order(a, b) }

  /** Structural comparison is an order as the collections need it. */
  lemma StructureOrders()
    ensures OrderedTrees.Orders(CompareKeys)
  {
    hide Order, Proper;
    forall x: Key ensures CompareKeys(x, x) == 0 {
      ZeroIffSame(x, x);
    }
    forall x: Key, y: Key ensures CompareKeys(x, y) < 0 <==> CompareKeys(y, x) > 0 {
      Flips(x, y);
    }
    forall x: Key, y: Key, z: Key
      ensures CompareKeys(x, y) < 0 && CompareKeys(y, z) <= 0 ==> CompareKeys(x, z) < 0
      ensures CompareKeys(x, y) <= 0 && CompareKeys(y, z) < 0 ==> CompareKeys(x, z) < 0
      ensures CompareKeys(x, y) == 0 && CompareKeys(y, z) == 0 ==> CompareKeys(x, z) == 0
    {
      OrderChains(x, y, z);
    }
  }

  // ---- machine words ----

  const WORDS := 0x1_0000_0000_0000_0000
  const HALF := 0x1_0000_0000

  function Signed(n: int): int {
    var u := n % WORDS;
    if u < WORDS / 2 then u else u - WORDS
  }

  /** BOX and UNBOX on 64-bit words; the shift drops the highest bit. */
  function Box(n: int): int { Signed(2 * n + 1) }

  function Unbox(w: int): int { w / 2 }

  lemma BoxedFits(n: int)
    requires -WORDS / 4 <= n < WORDS / 4
    ensures Box(n) == 2 * n + 1
  {
    var w := 2 * n + 1;
    assert n >= 0 ==> w % WORDS == w;
    assert n < 0 ==> (w + WORDS) % WORDS == w + WORDS && w % WORDS == (w + WORDS) % WORDS;
  }

  /** References are even. */
  predicate Reference(w: int) { w % 2 == 0 }

  /** A boxed difference has the right sign exactly if it fits 63 bits: comparing numbers far apart is wrong. */
  lemma DifferenceSign(d: int)
    requires -WORDS / 2 <= d < WORDS / 2
    ensures Sign(Unbox(Box(d))) == Sign(d) <==> -WORDS / 4 <= d < WORDS / 4
    ensures -WORDS / 4 <= d < WORDS / 4 ==> Unbox(Box(d)) == d
    ensures !Reference(Box(d))
  {
  }

  /** The largest number compared with the smallest one. */
  lemma FarApart()
    ensures var x, y := WORDS / 4 - 1, -WORDS / 4; x > y && Unbox(Box(x - y)) < 0
  {
  }

  // ---- flatCompare ----

  /** LflatCompare; the guard of its second branch, ~UNBOXED(q), is never zero. */
  function FlatCompare(p: int, q: int): int {
    if !Reference(p) then (if !Reference(q) then Box(Unbox(p) - Unbox(q)) else -1)
    else Box(p - q)
  }

  /** The difference taken fits. */
  predicate Near(p: int, q: int) {
    var d := if Reference(p) || Reference(q) then p - q else Unbox(p) - Unbox(q);
    -WORDS / 4 <= d < WORDS / 4
  }

  /** Comparing a number with a reference and the other way round gives opposite signs only if the word of the
      number is below the address. */
  lemma FlatFlipsIff(p: int, q: int)
    requires Near(p, q) && Near(q, p)
    ensures Sign(Unbox(FlatCompare(p, q))) == -Sign(Unbox(FlatCompare(q, p))) <==>
      (!Reference(p) && Reference(q) ==> p < q) && (Reference(p) && !Reference(q) ==> q < p)
  {
    if Reference(p) || Reference(q) {
      DifferenceSign(p - q);
      DifferenceSign(q - p);
    } else {
      DifferenceSign(Unbox(p) - Unbox(q));
      DifferenceSign(Unbox(q) - Unbox(p));
    }
    assert Unbox(-1) == -1;
  }

  /** The number 2^47 has a word above the address: each of the two is less than the other. */
  lemma NumberAboveAddress()
    ensures
      var p, q := Box(0x8000_0000_0000), 0x7fff_0000_1000;
      && !Reference(p) && Reference(q) && Near(p, q) && Near(q, p) && q < p
      && Unbox(FlatCompare(p, q)) < 0 && Unbox(FlatCompare(q, p)) < 0
  {
    var p, q := 0x1_0000_0000_0001, 0x7fff_0000_1000;
    assert Box(0x8000_0000_0000) == p;
    DifferenceSign(q - p);
  }

  // ---- the heap ----

  /** An object; the mark is the tag of an s-expression or the code address of a closure, the items are the words
      behind it. */
  datatype Object = TextObject(bytes: seq<Byte>) | CompoundObject(kind: int, mark: int, items: seq<int>)

  type Heap = map<int, Object>

  ghost predicate Acyclic(h: Heap, rank: map<int, nat>) {
    forall p :: p in h ==> p in rank && Reference(p) && ItemsBelow(h, rank, p)
  }

  ghost predicate ItemsBelow(h: Heap, rank: map<int, nat>, p: int)
    requires p in h && p in rank
  {
    h[p].CompoundObject? ==>
      forall i :: 0 <= i < |h[p].items| && h[p].items[i] in h ==>
        h[p].items[i] in rank && rank[h[p].items[i]] < rank[p]
  }

  ghost function RankOf(h: Heap, rank: map<int, nat>, w: int): nat {
    if w in h && w in rank then 1 + rank[w] else 0
  }

  ghost function ValueAt(h: Heap, rank: map<int, nat>, w: int): Value
    requires Acyclic(h, rank)
    decreases RankOf(h, rank, w)
  {
    if !Reference(w) then Num(Unbox(w))
    else if w !in h then Outside(w)
    else match h[w]
      case TextObject(s) => Text(s)
      case CompoundObject(k, m, items) =>
        assert ItemsBelow(h, rank, w);
        Compound(k, m, seq(|items|, i requires 0 <= i < |items| => ValueAt(h, rank, items[i])))
  }

  ghost function ValuesAt(h: Heap, rank: map<int, nat>, ws: seq<int>): (r: seq<Value>)
    requires Acyclic(h, rank)
    ensures |r| == |ws|
  {
    seq(|ws|, i requires 0 <= i < |ws| => ValueAt(h, rank, ws[i]))
  }

  /** Words whose differences fit 63 bits; addresses are not negative. */
  predicate Fitting(w: int) { -WORDS / 4 <= w < WORDS / 4 && (Reference(w) ==> 0 <= w) }

  predicate ObjectFits(o: Object) {
    o.CompoundObject? ==>
      && o.kind in {3, 5, 7} && (o.kind == 3 ==> o.mark == 0) && 0 <= o.mark < WORDS / 4 && |o.items| < WORDS / 4
      && forall i :: 0 <= i < |o.items| ==> Fitting(o.items[i])
  }

  ghost predicate HeapFits(h: Heap) {
    forall p :: p in h ==> ObjectFits(h[p])
  }

  lemma {:induction false} ValueProper(h: Heap, rank: map<int, nat>, w: int)
    requires Acyclic(h, rank) && HeapFits(h)
    ensures Proper(ValueAt(h, rank, w))
    decreases RankOf(h, rank, w), 1
  {
    if Reference(w) && w in h && h[w].CompoundObject? {
      assert ItemsBelow(h, rank, w) && ObjectFits(h[w]);
      var items := h[w].items;
      forall i | 0 <= i < |items| ensures Proper(ValueAt(h, rank, items[i])) {
        ValueProper(h, rank, items[i]);
      }
      AllProper(ValueAt(h, rank, w).items);
    }
  }

  lemma {:induction false} AllProper(vs: seq<Value>)
    requires forall i :: 0 <= i < |vs| ==> Proper(vs[i])
    ensures ProperAll(vs)
  {
    if vs != [] {
      AllProper(vs[1..]);
    }
  }

  lemma Reflexive(v: Value)
    requires Proper(v)
    ensures Order(v, v) == 0
  {
    ZeroIffSame(v, v);
  }

  lemma BoxSign(d: int)
    requires -WORDS / 4 <= d < WORDS / 4
    ensures !Reference(Box(d)) && Sign(Unbox(Box(d))) == Sign(d)
  {
    DifferenceSign(d);
  }

  lemma DropBoth(a: seq<Value>, b: seq<Value>, i: nat)
    requires |a| == |b| && i < |a|
    ensures OrderAll(a[i..], b[i..]) == if Order(a[i], b[i]) != 0 then Order(a[i], b[i]) else OrderAll(a[i + 1..],
      b[i + 1..])
  {
    hide Order;
    assert a[i..][1..] == a[i + 1..] && b[i..][1..] == b[i + 1..];
  }

  // ---- the direction ----

  /** The byte of a C string at k, the final zero included. */
  function ByteOf(s: seq<Byte>, k: nat): int { if k < |s| then s[k] as int else 0 }

  /** At the first place where the strings differ, no zero being in front of it, s has the smaller byte. */
  ghost predicate TextBelow(s: seq<Byte>, t: seq<Byte>) {
    exists k :: TextBelowAt(s, t, k)
  }

  ghost predicate TextBelowAt(s: seq<Byte>, t: seq<Byte>, k: int) {
    && 0 <= k <= |s| && k <= |t| && ByteOf(s, k) < ByteOf(t, k)
    && forall j :: 0 <= j < k ==> s[j] == t[j] != 0
  }

  /** Strings, arrays, s-expressions, closures. */
  function KindOf(o: Object): int { if o.TextObject? then 1 else o.kind }

  /** What the word p stands for is less: numbers by size and before references, objects before other addresses and
      these by size; strings as above; other objects by kind, then by tag or code address, then by length, then by
      the first items of which one is less. */
  ghost predicate Below(h: Heap, rank: map<int, nat>, p: int, q: int)
    requires Acyclic(h, rank)
    decreases RankOf(h, rank, p) + RankOf(h, rank, q), 2
  {
    if p % 2 == 1 then q % 2 == 1 ==> p < q
    else if q % 2 == 1 then false
    else if p !in h then q !in h && p < q
    else if q !in h then true
    else if h[p].TextObject? && h[q].TextObject? then TextBelow(h[p].bytes, h[q].bytes)
    else if KindOf(h[p]) != KindOf(h[q]) then KindOf(h[p]) < KindOf(h[q])
    else if h[p].TextObject? || h[q].TextObject? then false
    else if h[p].mark != h[q].mark then h[p].mark < h[q].mark
    else if |h[p].items| != |h[q].items| then |h[p].items| < |h[q].items|
    else FirstBelow(h, rank, p, q)
  }

  /** The first items that are not level say so. */
  ghost predicate FirstBelow(h: Heap, rank: map<int, nat>, p: int, q: int)
    requires Acyclic(h, rank) && p in h && q in h && h[p].CompoundObject? && h[q].CompoundObject?
    requires |h[p].items| == |h[q].items|
    decreases RankOf(h, rank, p) + RankOf(h, rank, q), 1
  {
    assert ItemsBelow(h, rank, p) && ItemsBelow(h, rank, q);
    var a, b := h[p].items, h[q].items;
    exists k :: 0 <= k < |a| && Below(h, rank, a[k], b[k]) && forall j :: 0 <= j < k ==> Level(h, rank, a[j], b[j])
  }

  ghost predicate Level(h: Heap, rank: map<int, nat>, p: int, q: int)
    requires Acyclic(h, rank)
    decreases RankOf(h, rank, p) + RankOf(h, rank, q), 3
  {
    !Below(h, rank, p, q) && !Below(h, rank, q, p)
  }

  lemma {:induction false} StringDirection(s: seq<Byte>, t: seq<Byte>)
    ensures StringOrder(Cut(s), Cut(t)) < 0 <==> TextBelow(s, t)
  {
    if s == [] || t == [] || s[0] == 0 || t[0] == 0 || s[0] != t[0] {
      if TextBelow(s, t) {
        var k :| TextBelowAt(s, t, k);
        if k > 0 {
          assert false;
        }
      }
      assert ByteOf(s, 0) < ByteOf(t, 0) ==> TextBelowAt(s, t, 0);
    } else {
      StringDirection(s[1..], t[1..]);
      if TextBelow(s, t) {
        var k :| TextBelowAt(s, t, k);
        assert TextBelowAt(s[1..], t[1..], k - 1);
      }
      if TextBelow(s[1..], t[1..]) {
        var k :| TextBelowAt(s[1..], t[1..], k);
        assert forall j :: 0 < j < k + 1 ==> s[j] == s[1..][j - 1] && t[j] == t[1..][j - 1];
        assert TextBelowAt(s, t, k + 1);
      }
    }
  }

  /** The first items that are not level decide. */
  lemma {:induction false} FirstDecides(a: seq<Value>, b: seq<Value>)
    requires |a| == |b|
    ensures OrderAll(a, b) < 0 <==> exists k :: Decides(a, b, k)
  {
    hide Order;
    if a != [] {
      FirstDecides(a[1..], b[1..]);
      if k :| Decides(a, b, k) {
        if k > 0 {
          assert Order(a[0], b[0]) == 0;
          assert Decides(a[1..], b[1..], k - 1);
        }
      }
      if k :| Decides(a[1..], b[1..], k) {
        if Order(a[0], b[0]) == 0 {
          forall j | 0 <= j < k + 1 ensures Order(a[j], b[j]) == 0 {
            assert j > 0 ==> a[j] == a[1..][j - 1] && b[j] == b[1..][j - 1];
          }
          assert Decides(a, b, k + 1);
        }
      }
      assert Order(a[0], b[0]) < 0 ==> Decides(a, b, 0);
    }
  }

  ghost predicate Decides(a: seq<Value>, b: seq<Value>, k: int)
    requires |a| == |b|
  {
    0 <= k < |a| && Order(a[k], b[k]) < 0 && forall j :: 0 <= j < k ==> Order(a[j], b[j]) == 0
  }

  /** The order's sign says which word stands for less. */
  lemma {:induction false} OrderDirection(h: Heap, rank: map<int, nat>, p: int, q: int)
    requires Acyclic(h, rank) && HeapFits(h)
    ensures Order(ValueAt(h, rank, p), ValueAt(h, rank, q)) < 0 <==> Below(h, rank, p, q)
    decreases RankOf(h, rank, p) + RankOf(h, rank, q), 1
  {
    hide OrderAll, StringOrder, Cut, TextBelow, FirstBelow;
    if Reference(p) && Reference(q) && p in h && q in h {
      if h[p].TextObject? && h[q].TextObject? {
        StringDirection(h[p].bytes, h[q].bytes);
      } else if h[p].CompoundObject? && h[q].CompoundObject? && h[p].kind == h[q].kind && h[p].mark == h[q].mark
        && |h[p].items| == |h[q].items| {
        ItemsDirection(h, rank, p, q);
        assert ValueAt(h, rank, p).items == ValuesAt(h, rank, h[p].items);
        assert ValueAt(h, rank, q).items == ValuesAt(h, rank, h[q].items);
      } else {
        assert ObjectFits(h[p]) && ObjectFits(h[q]);
      }
    }
  }

  lemma {:induction false} ItemsDirection(h: Heap, rank: map<int, nat>, p: int, q: int)
    requires Acyclic(h, rank) && HeapFits(h) && p in h && q in h && h[p].CompoundObject? && h[q].CompoundObject?
    requires |h[p].items| == |h[q].items|
    ensures
      OrderAll(ValuesAt(h, rank, h[p].items), ValuesAt(h, rank, h[q].items)) < 0 <==> FirstBelow(h, rank, p, q)
    decreases RankOf(h, rank, p) + RankOf(h, rank, q), 0
  {
    hide Order, OrderAll, Below, HeapFits;
    var a, b := h[p].items, h[q].items;
    var x, y := ValuesAt(h, rank, a), ValuesAt(h, rank, b);
    assert ItemsBelow(h, rank, p) && ItemsBelow(h, rank, q);
    forall i | 0 <= i < |a|
      ensures Order(x[i], y[i]) < 0 <==> Below(h, rank, a[i], b[i])
      ensures Order(x[i], y[i]) == 0 <==> Level(h, rank, a[i], b[i])
    {
      OrderDirection(h, rank, a[i], b[i]);
      OrderDirection(h, rank, b[i], a[i]);
      ValueProper(h, rank, a[i]);
      ValueProper(h, rank, b[i]);
      Flips(x[i], y[i]);
    }
    FirstDecides(x, y);
    if k :| Decides(x, y, k) {
      assert Below(h, rank, a[k], b[k]) && forall j :: 0 <= j < k ==> Level(h, rank, a[j], b[j]);
    }
    if FirstBelow(h, rank, p, q) {
      var k :| 0 <= k < |a| && Below(h, rank, a[k], b[k]) && forall j :: 0 <= j < k ==> Level(h, rank, a[j], b[j]);
      assert Decides(x, y, k);
    }
  }

  /** The value r stands for has the sign c. */
  predicate Gives(r: int, c: int) { !Reference(r) && Sign(Unbox(r)) == c }

  /** r is odd, and the number it stands for is negative, zero or positive as p stands for less than q does, neither
      does, or q for less. */
  ghost predicate Directed(h: Heap, rank: map<int, nat>, p: int, q: int, r: int)
    requires Acyclic(h, rank)
  {
    && r % 2 == 1 && ((r - 1) / 2 < 0 <==> Below(h, rank, p, q)) && ((r - 1) / 2 > 0 <==> Below(h, rank, q, p))
    && ((r - 1) / 2 == 0 <==> Level(h, rank, p, q))
  }

  lemma GivesDirection(h: Heap, rank: map<int, nat>, p: int, q: int)
    requires Acyclic(h, rank) && HeapFits(h)
    ensures forall r :: Gives(r, Order(ValueAt(h, rank, p), ValueAt(h, rank, q))) ==> Directed(h, rank, p, q, r)
  {
    hide Order, Below, ValueAt, HeapFits, Acyclic;
    OrderDirection(h, rank, p, q);
    OrderDirection(h, rank, q, p);
    ValueProper(h, rank, p);
    ValueProper(h, rank, q);
    Flips(ValueAt(h, rank, p), ValueAt(h, rank, q));
  }

  /** Lcompare. */
  method Compare(h: Heap, ghost rank: map<int, nat>, p: int, q: int) returns (r: int)
    requires Acyclic(h, rank) && HeapFits(h) && Fitting(p) && Fitting(q)
    ensures Gives(r, Order(ValueAt(h, rank, p), ValueAt(h, rank, q))) && Directed(h, rank, p, q, r)
    decreases RankOf(h, rank, p), 1
  {
    hide Directed;
    GivesDirection(h, rank, p, q);
    BoxSign(0);
    BoxSign(1);
    BoxSign(-1);
    if p == q {
      ValueProper(h, rank, p);
      Reflexive(ValueAt(h, rank, p));
      return Box(0);
    }
    if !Reference(p) {
      if !Reference(q) {
        BoxSign(Unbox(p) - Unbox(q));
        return Box(Unbox(p) - Unbox(q));
      }
      return Box(-1);
    } else if !Reference(q) {
      return Box(1);
    } else if p in h {
      if q in h {
        r := CompareObjects(h, rank, p, q);
      } else {
        return Box(-1);
      }
    } else if q in h {
      return Box(1);
    } else {
      BoxSign(p - q);
      return Box(p - q);
    }
  }

  method CompareObjects(h: Heap, ghost rank: map<int, nat>, p: int, q: int) returns (r: int)
    requires Acyclic(h, rank) && HeapFits(h) && Fitting(p) && Fitting(q) && p in h && q in h
    ensures Gives(r, Order(ValueAt(h, rank, p), ValueAt(h, rank, q)))
    decreases RankOf(h, rank, p), 0
  {
    var a, b := h[p], h[q];
    assert Reference(p) && Reference(q) && ItemsBelow(h, rank, p) && ObjectFits(a) && ObjectFits(b);
    var ta, tb := if a.TextObject? then 1 else a.kind, if b.TextObject? then 1 else b.kind;
    if ta != tb {
      BoxSign(ta - tb);
      return Box(ta - tb);
    }
    if a.TextObject? {
      var c := StringOrder(Cut(a.bytes), Cut(b.bytes));
      StringSmall(Cut(a.bytes), Cut(b.bytes));
      BoxSign(c);
      return Box(c);
    }
    if a.mark != b.mark {
      BoxSign(a.mark - b.mark);
      return Box(a.mark - b.mark);
    }
    if |a.items| != |b.items| {
      BoxSign(|a.items| - |b.items|);
      return Box(|a.items| - |b.items|);
    }
    r := CompareItems(h, rank, a.items, b.items, RankOf(h, rank, p));
    assert ValueAt(h, rank, p).items == ValuesAt(h, rank, a.items);
    assert ValueAt(h, rank, q).items == ValuesAt(h, rank, b.items);
  }

  /** The loop over the fields. */
  method CompareItems(h: Heap, ghost rank: map<int, nat>, a: seq<int>, b: seq<int>, ghost bound: nat) returns (r: int)
    requires Acyclic(h, rank) && HeapFits(h) && |a| == |b|
    requires forall i :: 0 <= i < |a| ==> Fitting(a[i]) && Fitting(b[i]) && RankOf(h, rank, a[i]) < bound
    ensures Gives(r, OrderAll(ValuesAt(h, rank, a), ValuesAt(h, rank, b)))
    decreases bound, 0, 0
  {
    hide Order, Acyclic, HeapFits;
    ghost var x, y := ValuesAt(h, rank, a), ValuesAt(h, rank, b);
    var i := 0;
    assert x[0..] == x && y[0..] == y;
    while i < |a|
      invariant 0 <= i <= |a|
      invariant OrderAll(x, y) == OrderAll(x[i..], y[i..])
    {
      var c := Compare(h, rank, a[i], b[i]);
      DropBoth(x, y, i);
      BoxZero(c);
      if c != Box(0) {
        return c;
      }
      i := i + 1;
    }
    BoxSign(0);
    return Box(0);
  }

  lemma BoxZero(c: int)
    ensures !Reference(c) ==> (c == Box(0) <==> Sign(Unbox(c)) == 0)
  {
  }

  lemma {:induction false} StringSmall(s: seq<Byte>, t: seq<Byte>)
    ensures -1 <= StringOrder(s, t) <= 1
  {
    if s != [] && t != [] {
      StringSmall(s[1..], t[1..]);
    }
  }
}
