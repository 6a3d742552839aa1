/** Words, headers, forward words and objects of the mark-compact heap
    (runtime/gc.c, runtime/gc.h, runtime/runtime_common.h).

    A chunk is a sequence of machine words; word k lies at byte address begin + 8 * k.
    An object is a header word, a forward word and a payload.  A reference is the byte
    address of an object's payload.  Forward words hold an address (a multiple of 4)
    together with the mark bit and the enqueued bit. */
module HeapLayout {
  const HEADER_BYTES: nat := 16
  const STRING_TAG: nat := 1
  const ARRAY_TAG: nat := 3
  const SEXP_TAG: nat := 5
  const CLOSURE_TAG: nat := 7

  // ---- headers ----

  function Tag(header: nat): nat { header % 8 }

  function Len(header: nat): nat { header / 8 }

  predicate Known(header: nat) {
    Tag(header) == STRING_TAG || Tag(header) == ARRAY_TAG || Tag(header) == SEXP_TAG || Tag(header) == CLOSURE_TAG
  }

  function ObjBytes(header: nat): (bytes: nat)
    ensures bytes >= HEADER_BYTES
  {
    if Tag(header) == STRING_TAG then HEADER_BYTES + Len(header) + 1
    else if Tag(header) == SEXP_TAG then HEADER_BYTES + 8 * (Len(header) + 1)
    else HEADER_BYTES + 8 * Len(header)
  }

  function BytesToWords(bytes: nat): nat
    requires bytes > 0
  {
    (bytes - 1) / 8 + 1
  }

  function ObjWords(header: nat): (words: nat)
    ensures words >= 2
  {
    BytesToWords(ObjBytes(header))
  }

  /** Offset, in words from the header, of the first field a collection looks at: strings have
      none, s-expressions skip their tag word and closures their code pointer. */
  function FieldsFrom(header: nat): (offset: nat)
    ensures offset >= 2
  {
    if Tag(header) == STRING_TAG then ObjWords(header)
    else if Tag(header) == ARRAY_TAG then 2
    else 3
  }

  // ---- forward words ----

  predicate MarkBit(x: nat) { x % 2 == 1 }

  predicate EnqueuedBit(x: nat) { x / 2 % 2 == 1 }

  function GetForward(x: nat): nat { x - x % 4 }

  function SetForward(x: nat, address: nat): nat { x % 4 + address }

  function SetMark(x: nat): nat { if MarkBit(x) then x else x + 1 }

  function ResetMark(x: nat): nat { if MarkBit(x) then x - 1 else x }

  function MakeEnqueued(x: nat): nat { if EnqueuedBit(x) then x else x + 2 }

  function MakeDequeued(x: nat): nat { if EnqueuedBit(x) then x - 2 else x }

  // ---- heaps ----

  lemma AddressAligned(begin: nat, k: nat)
    ensures begin % 8 == 0 ==> (begin + 8 * k) % 4 == 0 && (begin + 8 * k) % 2 == 0
  {
    if begin % 8 == 0 {
      var q := begin / 8;
      assert begin + 8 * k == 4 * (2 * q + 2 * k);
      assert begin + 8 * k == 2 * (4 * q + 4 * k);
    }
  }

  /** bounds lists the word offsets of the object headers, in heap order, and ends with the
      offset of the first free word. */
  datatype Heap = Heap(begin: nat, words: seq<nat>, bounds: seq<nat>) {
    function Count(): nat
      requires |bounds| > 0
    {
      |bounds| - 1
    }

    function Current(): nat
      requires |bounds| > 0
    {
      bounds[|bounds| - 1]
    }

    /** The heap can be walked object by object from its first word to the first free one. */
    ghost predicate Parsed(): (b: bool)
      ensures b ==> |bounds| > 0 && Current() <= |words|
    {
      && begin > 0 && begin % 8 == 0
      && |bounds| > 0
      && bounds[0] == 0
      && Current() <= |words|
      && (forall i :: 0 <= i < Count() ==> bounds[i] + 2 <= |words|)
      && (forall i :: 0 <= i < Count() ==> Known(words[bounds[i]]))
      && (forall i :: 0 <= i < Count() ==> bounds[i + 1] == bounds[i] + ObjWords(words[bounds[i]]))
    }

    function Header(i: nat): nat
      requires i < |bounds| && bounds[i] < |words|
    {
      words[bounds[i]]
    }

    function Forward(i: nat): nat
      requires i < |bounds| && bounds[i] + 1 < |words|
    {
      words[bounds[i] + 1]
    }

    /** The reference to object i: the byte address of its payload. */
    function Ptr(i: nat): (p: nat)
      requires i < |bounds|
      ensures begin % 8 == 0 ==> p % 4 == 0 && p % 2 == 0
    {
      AddressAligned(begin, bounds[i] + 2);
      begin + 8 * (bounds[i] + 2)
    }

    predicate Marked(i: nat)
      requires i < |bounds| && bounds[i] + 1 < |words|
    {
      MarkBit(Forward(i))
    }

    predicate Enqueued(i: nat)
      requires i < |bounds| && bounds[i] + 1 < |words|
    {
      EnqueuedBit(Forward(i))
    }

    /** is_valid_heap_pointer: even and between begin and current, both included. */
    predicate InHeap(w: nat)
      requires |bounds| > 0
    {
      w % 2 == 0 && begin <= w <= begin + 8 * Current()
    }

    /** An even word that falls anywhere in the chunk is the reference of an object. */
    ghost predicate WordOk(w: nat)
      requires |bounds| > 0
    {
      w % 2 == 0 && begin <= w <= begin + 8 * |words| ==> exists i :: 0 <= i < Count() && w == Ptr(i)
    }

    /** Word k is a field of object i. */
    predicate IsField(i: nat, k: nat)
      requires Parsed() && i < Count()
    {
      bounds[i] + FieldsFrom(Header(i)) <= k < bounds[i + 1]
    }

    ghost predicate FieldsOk()
      requires Parsed()
    {
      forall i, k :: 0 <= i < Count() && bounds[i] <= k < bounds[i + 1] && IsField(i, k) ==> WordOk(words[k])
    }

    ghost predicate Edge(i: nat, j: nat)
      requires Parsed() && i < Count() && j < Count()
    {
      exists k :: bounds[i] <= k < bounds[i + 1] && IsField(i, k) && words[k] == Ptr(j)
    }

    ghost predicate Path(p: seq<nat>)
      requires Parsed()
    {
      && (forall k :: 0 <= k < |p| ==> p[k] < Count())
      && (forall k :: 0 < k < |p| ==> Edge(p[k - 1], p[k]))
    }

    ghost predicate IsForwardWord(k: nat)
      requires |bounds| > 0
    {
      exists i :: 0 <= i < Count() && k == bounds[i] + 1
    }

    /** h has the same objects at the same places; only forward words may differ. */
    ghost predicate SameObjects(h: Heap)
      requires |bounds| > 0
    {
      && h.begin == begin && h.bounds == bounds && |h.words| == |words|
      && forall k :: 0 <= k < |words| && !IsForwardWord(k) ==> h.words[k] == words[k]
    }

    ghost predicate ReachableFrom(roots: set<nat>, j: nat)
      requires Parsed()
    {
      exists p: seq<nat> :: |p| > 0 && Path(p) && p[0] in roots && p[|p| - 1] == j
    }
  }

  // ---- facts about the layout ----

  /** A word is its address part plus the two flag bits, and no flag operation disturbs the rest. */
  lemma Bits(x: nat)
    ensures x == GetForward(x) + (if MarkBit(x) then 1 else 0) + (if EnqueuedBit(x) then 2 else 0)
    ensures GetForward(x) % 4 == 0
  {
    var q, r := x / 4, x % 4;
    assert x == 4 * q + r;
    assert x / 2 == 2 * q + r / 2;
  }

  lemma BitsUnique(address: nat, mark: nat, enqueued: nat)
    requires address % 4 == 0 && mark < 2 && enqueued < 2
    ensures var x := address + mark + 2 * enqueued;
            GetForward(x) == address && (MarkBit(x) <==> mark == 1) && (EnqueuedBit(x) <==> enqueued == 1)
  {
    var q := address / 4;
    assert (address + mark + 2 * enqueued) / 2 == 2 * q + enqueued;
  }

  lemma AddressBits(x: nat, address: nat)
    requires address % 4 == 0
    ensures GetForward(SetForward(x, address)) == address
    ensures MarkBit(SetForward(x, address)) == MarkBit(x)
    ensures EnqueuedBit(SetForward(x, address)) == EnqueuedBit(x)
  {
    Bits(x);
    BitsUnique(address, if MarkBit(x) then 1 else 0, if EnqueuedBit(x) then 1 else 0);
  }

  lemma MarkBits(x: nat)
    ensures GetForward(SetMark(x)) == GetForward(x) && MarkBit(SetMark(x)) && EnqueuedBit(SetMark(x)) == EnqueuedBit(x)
    ensures GetForward(ResetMark(x)) == GetForward(x) && !MarkBit(ResetMark(x))
            && EnqueuedBit(ResetMark(x)) == EnqueuedBit(x)
  {
    Bits(x);
    var e := if EnqueuedBit(x) then 1 else 0;
    BitsUnique(GetForward(x), 1, e);
    BitsUnique(GetForward(x), 0, e);
    hide GetForward, EnqueuedBit;
  }

  lemma QueueBits(x: nat)
    ensures GetForward(MakeEnqueued(x)) == GetForward(x) && EnqueuedBit(MakeEnqueued(x))
            && MarkBit(MakeEnqueued(x)) == MarkBit(x)
    ensures GetForward(MakeDequeued(x)) == GetForward(x) && !EnqueuedBit(MakeDequeued(x))
            && MarkBit(MakeDequeued(x)) == MarkBit(x)
  {
    Bits(x);
    var m := if MarkBit(x) then 1 else 0;
    BitsUnique(GetForward(x), m, 1);
    BitsUnique(GetForward(x), m, 0);
    hide GetForward, MarkBit, EnqueuedBit;
  }

  lemma FlagBits(x: nat)
    ensures GetForward(SetMark(x)) == GetForward(x) && MarkBit(SetMark(x)) && EnqueuedBit(SetMark(x)) == EnqueuedBit(x)
    ensures GetForward(ResetMark(x)) == GetForward(x) && !MarkBit(ResetMark(x))
            && EnqueuedBit(ResetMark(x)) == EnqueuedBit(x)
    ensures GetForward(MakeEnqueued(x)) == GetForward(x) && EnqueuedBit(MakeEnqueued(x))
            && MarkBit(MakeEnqueued(x)) == MarkBit(x)
    ensures GetForward(MakeDequeued(x)) == GetForward(x) && !EnqueuedBit(MakeDequeued(x))
            && MarkBit(MakeDequeued(x)) == MarkBit(x)
  {
    hide *;
    MarkBits(x);
    QueueBits(x);
  }

  // ---- objects do not overlap ----

  lemma {:induction false} Ordered(h: Heap, i: nat, j: nat)
    requires h.Parsed() && i <= j < |h.bounds|
    ensures if i < j then h.bounds[i] + 2 <= h.bounds[i + 1] <= h.bounds[j] else h.bounds[i] == h.bounds[j]
    decreases j - i
  {
    if i < j {
      assert h.bounds[i + 1] == h.bounds[i] + ObjWords(h.words[h.bounds[i]]);
      Ordered(h, i + 1, j);
    }
  }

  /** Each object lies below heap.current. */
  lemma Inside(h: Heap, i: nat)
    requires h.Parsed() && i < h.Count()
    ensures h.bounds[i] + 2 <= h.bounds[i + 1] <= h.Current() <= |h.words|
  {
    Ordered(h, i, h.Count());
  }

  // ---- only forward words change ----

  lemma NotForward(h: Heap, i: nat, k: nat)
    requires h.Parsed() && i < h.Count()
    requires k == h.bounds[i] || h.bounds[i] + 2 <= k < h.bounds[i + 1]
    ensures !h.IsForwardWord(k)
  {
    forall j | 0 <= j < h.Count()
      ensures k != h.bounds[j] + 1
    {
      if i < j {
        Ordered(h, i, j);
      } else {
        Ordered(h, j, i);
      }
    }
  }

  lemma SameObjectsParsed(h: Heap, h': Heap)
    requires h.Parsed() && h.SameObjects(h')
    ensures h'.Parsed() && h'.SameObjects(h)
    ensures forall i :: 0 <= i < h.Count() ==> h'.Header(i) == h.Header(i)
  {
    forall i | 0 <= i < h.Count()
      ensures h'.words[h.bounds[i]] == h.words[h.bounds[i]]
    {
      NotForward(h, i, h.bounds[i]);
    }
  }

  lemma SamePayload(h: Heap, h': Heap, i: nat, k: nat)
    requires h.Parsed() && h.SameObjects(h') && i < h.Count() && h.bounds[i] + 2 <= k < h.bounds[i + 1]
    ensures h'.words[k] == h.words[k]
  {
    NotForward(h, i, k);
    Inside(h, i);
  }

  lemma SameFieldsOk(h: Heap, h': Heap)
    requires h.Parsed() && h.SameObjects(h') && h'.Parsed() && h.FieldsOk()
    ensures h'.FieldsOk()
  {
    forall i, k | 0 <= i < h'.Count() && h'.bounds[i] <= k < h'.bounds[i + 1] && h'.IsField(i, k)
      ensures h'.WordOk(h'.words[k])
    {
      assert h'.Header(i) == h.Header(i) by {
        NotForward(h, i, h.bounds[i]);
      }
      assert h.IsField(i, k);
      assert h'.words[k] == h.words[k] by {
        SamePayload(h, h', i, k);
      }
      SameWordOk(h, h', h.words[k]);
    }
  }

  lemma SameWordOk(h: Heap, h': Heap, w: nat)
    requires |h.bounds| > 0 && h'.bounds == h.bounds && h'.begin == h.begin && |h'.words| == |h.words|
    ensures h'.WordOk(w) == h.WordOk(w)
  {
    assert forall i :: 0 <= i < h.Count() ==> h.Ptr(i) == h'.Ptr(i);
  }

  lemma SameEdge(h: Heap, h': Heap, i: nat, j: nat)
    requires h.Parsed() && h.SameObjects(h') && h'.Parsed()
    requires i < h.Count() && j < h.Count() && h.Edge(i, j)
    ensures h'.Edge(i, j)
  {
    var k :| h.bounds[i] <= k < h.bounds[i + 1] && h.IsField(i, k) && h.words[k] == h.Ptr(j);
    assert h'.words[k] == h.words[k] by {
      SamePayload(h, h', i, k);
    }
    assert h'.Header(i) == h.Header(i) by {
      NotForward(h, i, h.bounds[i]);
    }
    assert h'.IsField(i, k);
  }

  // ---- reachability ----

  lemma RootReachable(h: Heap, roots: set<nat>, j: nat)
    requires h.Parsed() && j in roots && j < h.Count()
    ensures h.ReachableFrom(roots, j)
  {
    assert h.Path([j]) && [j][0] in roots;
  }

  lemma ReachStep(h: Heap, roots: set<nat>, i: nat, j: nat)
    requires h.Parsed() && i < h.Count() && j < h.Count()
    requires h.ReachableFrom(roots, i) && h.Edge(i, j)
    ensures h.ReachableFrom(roots, j)
  {
    var p: seq<nat> :| |p| > 0 && h.Path(p) && p[0] in roots && p[|p| - 1] == i;
    var q := p + [j];
    assert h.Path(q) by {
      forall k | 0 < k < |q|
        ensures h.Edge(q[k - 1], q[k])
      {
      }
    }
    assert q[0] in roots && q[|q| - 1] == j;
  }

  ghost predicate Closed(h: Heap, s: set<nat>)
    requires h.Parsed()
  {
    forall i, j :: i in s && 0 <= i < h.Count() && 0 <= j < h.Count() && h.Edge(i, j) ==> j in s
  }

  lemma {:induction false} ClosedContainsPath(h: Heap, s: set<nat>, p: seq<nat>)
    requires h.Parsed() && Closed(h, s) && h.Path(p) && |p| > 0 && p[0] in s
    ensures p[|p| - 1] in s
  {
    if |p| > 1 {
      var q := p[..|p| - 1];
      ClosedContainsPath(h, s, q);
      assert h.Edge(p[|p| - 2], p[|p| - 1]);
    }
  }

  /** A set closed under edges that holds the roots holds everything reachable from them. */
  lemma ClosedContainsReachable(h: Heap, s: set<nat>, roots: set<nat>, j: nat)
    requires h.Parsed() && Closed(h, s) && roots <= s && h.ReachableFrom(roots, j)
    ensures j in s
  {
    var p: seq<nat> :| |p| > 0 && h.Path(p) && p[0] in roots && p[|p| - 1] == j;
    ClosedContainsPath(h, s, p);
  }

  /** A header address inside a chunk fits next to the flag bits. */
  lemma HeaderAddressBits(x: nat, begin: nat, k: nat)
    requires begin % 8 == 0
    ensures GetForward(SetForward(x, begin + 8 * k)) == begin + 8 * k
    ensures MarkBit(SetForward(x, begin + 8 * k)) == MarkBit(x)
    ensures EnqueuedBit(SetForward(x, begin + 8 * k)) == EnqueuedBit(x)
  {
    AddressAligned(begin, k);
    AddressBits(x, begin + 8 * k);
  }
}
