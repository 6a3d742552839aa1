/** Where compaction puts the live objects (runtime/gc.c:305-328, 477-499): each live object moves to
    the sum of the sizes of the live objects below it. */
module Sliding {
  import opened HeapLayout
  import opened ThreadedQueue
  import opened MarkPhase

  /** Words taken by the live ones among the first i objects. */
  function Loc(h: Heap, live: seq<bool>, i: nat): nat
    requires h.Parsed() && |live| == h.Count() && i <= h.Count()
  {
    if i == 0 then 0
    else Loc(h, live, i - 1) + if live[i - 1] then ObjWords(h.Header(i - 1)) else 0
  }

  /** Number of live objects among the first i. */
  function Rank(live: seq<bool>, i: nat): nat
    requires i <= |live|
  {
    if i == 0 then 0 else Rank(live, i - 1) + if live[i - 1] then 1 else 0
  }

  function NewBounds(h: Heap, live: seq<bool>, i: nat): seq<nat>
    requires h.Parsed() && |live| == h.Count() && i <= h.Count()
  {
    if i == 0 then [0]
    else NewBounds(h, live, i - 1) + if live[i - 1] then [Loc(h, live, i)] else []
  }

  /** Objects never move up. */
  lemma {:induction false} LocBelow(h: Heap, live: seq<bool>, i: nat)
    requires h.Parsed() && |live| == h.Count() && i <= h.Count()
    ensures Loc(h, live, i) <= h.bounds[i]
  {
    if i > 0 {
      LocBelow(h, live, i - 1);
      assert h.bounds[i - 1 + 1] == h.bounds[i - 1] + ObjWords(h.words[h.bounds[i - 1]]);
    }
  }

  /** Live objects keep their order and do not overlap after the move. */
  lemma {:induction false} LocOrdered(h: Heap, live: seq<bool>, i: nat, j: nat)
    requires h.Parsed() && |live| == h.Count() && i <= j <= h.Count()
    ensures Loc(h, live, i) <= Loc(h, live, j)
    ensures i < j && live[i] ==> Loc(h, live, i) + ObjWords(h.Header(i)) <= Loc(h, live, j)
  {
    if i < j {
      LocOrdered(h, live, i, j - 1);
    }
  }

  lemma {:induction false} RankOrdered(live: seq<bool>, i: nat, j: nat)
    requires i <= j <= |live|
    ensures Rank(live, i) <= Rank(live, j)
    ensures i < j && live[i] ==> Rank(live, i) < Rank(live, j)
  {
    if i < j {
      RankOrdered(live, i, j - 1);
    }
  }

  lemma {:induction false} NewBoundsShape(h: Heap, live: seq<bool>, i: nat)
    requires h.Parsed() && |live| == h.Count() && i <= h.Count()
    ensures |NewBounds(h, live, i)| == Rank(live, i) + 1
    ensures NewBounds(h, live, i)[0] == 0
    ensures NewBounds(h, live, i)[Rank(live, i)] == Loc(h, live, i)
  {
    if i > 0 {
      NewBoundsShape(h, live, i - 1);
    }
  }

  lemma {:induction false} NewBoundsPrefix(h: Heap, live: seq<bool>, i: nat, j: nat)
    requires h.Parsed() && |live| == h.Count() && i <= j <= h.Count()
    ensures NewBounds(h, live, i) <= NewBounds(h, live, j)
  {
    if i < j {
      NewBoundsPrefix(h, live, i, j - 1);
    }
  }

  /** The object of rank Rank(i) starts where object i goes. */
  lemma NewBoundsAt(h: Heap, live: seq<bool>, i: nat)
    requires h.Parsed() && |live| == h.Count() && i <= h.Count()
    ensures Rank(live, i) < |NewBounds(h, live, h.Count())|
    ensures NewBounds(h, live, h.Count())[Rank(live, i)] == Loc(h, live, i)
  {
    NewBoundsShape(h, live, i);
    NewBoundsPrefix(h, live, i, h.Count());
  }

  /** Every object of the compacted heap is the image of a live one. */
  lemma {:induction false} RankOnto(live: seq<bool>, n: nat, r: nat) returns (i: nat)
    requires n <= |live| && r < Rank(live, n)
    ensures i < n && live[i] && Rank(live, i) == r
  {
    if live[n - 1] && r == Rank(live, n - 1) {
      i := n - 1;
    } else {
      i := RankOnto(live, n - 1, r);
    }
  }

  // ---- compute_locations ----

  ghost predicate LiveMarks(h: Heap, live: seq<bool>)
    requires h.Parsed()
  {
    |live| == h.Count() && forall i :: 0 <= i < h.Count() ==> h.Marked(i) == live[i]
  }

  /** The forward words of the live ones among the first n objects name the words they move to. */
  ghost predicate Located(h: Heap, live: seq<bool>, n: nat)
    requires h.Parsed() && |live| == h.Count() && n <= h.Count()
  {
    forall i :: 0 <= i < n && live[i] ==> GetForward(h.Forward(i)) == h.begin + 8 * Loc(h, live, i)
  }

  lemma LocatedNone(h: Heap, live: seq<bool>)
    requires h.Parsed() && LiveMarks(h, live)
    ensures |live| == h.Count() && Located(h, live, 0) && h.SameObjects(h) && h.bounds[0] == 0
    ensures Loc(h, live, 0) == 0
  {
  }

  lemma {:induction false} SameLoc(h0: Heap, h: Heap, live: seq<bool>, i: nat)
    requires h0.Parsed() && h.Parsed() && h0.SameObjects(h) && |live| == h0.Count() && i <= h0.Count()
    ensures Loc(h, live, i) == Loc(h0, live, i)
  {
    if i > 0 {
      NotForward(h0, i - 1, h0.bounds[i - 1]);
      SameLoc(h0, h, live, i - 1);
    }
  }

  lemma LocationsWithin(h0: Heap, h: Heap, live: seq<bool>, i: nat)
    requires h0.Parsed() && h.Parsed() && h0.SameObjects(h) && LiveMarks(h, live) && i <= h.Count()
    requires h.bounds[i] < h.Current()
    ensures i < h.Count() && h.bounds == h0.bounds && h.begin == h0.begin && h.begin % 8 == 0
    ensures h.bounds[i] + 1 < |h.words| && |live| == h.Count()
    ensures MarkBit(h.words[h.bounds[i] + 1]) == live[i]
    ensures h.words[h.bounds[i]] == h0.Header(i)
    ensures h.bounds[i + 1] == h.bounds[i] + ObjWords(h.words[h.bounds[i]])
    ensures Loc(h0, live, i + 1) == Loc(h0, live, i) + if live[i] then ObjWords(h0.Header(i)) else 0
  {
    Ordered(h, i, h.Count());
    NotForward(h0, i, h0.bounds[i]);
    assert h.Marked(i) == MarkBit(h.words[h.bounds[i] + 1]);
  }

  lemma LocateLive(h0: Heap, h: Heap, h': Heap, live: seq<bool>, i: nat)
    requires h0.Parsed() && h.Parsed() && h0.SameObjects(h) && LiveMarks(h, live) && NoneEnqueued(h) && h.begin % 8 == 0
    requires |live| == h.Count() && i < h.Count() && live[i] && Located(h, live, i) && h.bounds == h0.bounds
    requires h'.begin == h.begin && h'.bounds == h.bounds && h.bounds[i] + 1 < |h.words|
    requires h'.words == h.words[h.bounds[i] + 1 := SetForward(h.words[h.bounds[i] + 1],
      h.begin + 8 * Loc(h0, live, i))]
    ensures h0.SameObjects(h') && h'.Parsed() && LiveMarks(h', live) && NoneEnqueued(h') && Located(h', live, i + 1)
  {
    hide SetForward, GetForward, MarkBit, EnqueuedBit, Heap.SameObjects, LiveMarks, Located, Forwards, References,
      Heap.Parsed, NoneEnqueued, Loc;
    var x := SetForward(h.words[h.bounds[i] + 1], h.begin + 8 * Loc(h0, live, i));
    HeaderAddressBits(h.words[h.bounds[i] + 1], h.begin, Loc(h0, live, i));
    ForwardWordUpdate(h, h', i, x);
    SameObjectsTransitive(h0, h, h');
    ForwardsAt(h, i);
    LiveBits(h, live);
    forall a | 0 <= a < h.Count()
      ensures h'.bounds[a] + 1 < |h'.words| && h.bounds[a] + 1 < |h.words|
      ensures h'.Marked(a) == live[a] && !h'.Enqueued(a)
      ensures a != i ==> h'.Forward(a) == h.Forward(a)
    {
      ForwardsAt(h, a);
      ForwardsAt(h', a);
    }
    LiveBitsBack(h', live);
    LocateOne(h0, h, h', live, i);
  }

  lemma LiveBits(h: Heap, live: seq<bool>)
    requires h.Parsed() && LiveMarks(h, live) && NoneEnqueued(h)
    ensures |live| == h.Count()
    ensures forall a :: 0 <= a < h.Count() ==> h.Marked(a) == live[a] && !h.Enqueued(a)
  {
  }

  lemma LiveBitsBack(h: Heap, live: seq<bool>)
    requires h.Parsed() && |live| == h.Count()
    requires forall a :: 0 <= a < h.Count() ==> h.Marked(a) == live[a] && !h.Enqueued(a)
    ensures LiveMarks(h, live) && NoneEnqueued(h)
  {
  }

  lemma LocateOne(h0: Heap, h: Heap, h': Heap, live: seq<bool>, i: nat)
    requires h0.Parsed() && h.Parsed() && h'.Parsed() && h0.SameObjects(h) && h.SameObjects(h')
    requires h.bounds == h0.bounds == h'.bounds && h'.begin == h.begin
    requires |live| == h.Count() && i < h.Count() && Located(h, live, i)
    requires forall a :: 0 <= a < i ==> h'.Forward(a) == h.Forward(a)
    requires GetForward(h'.Forward(i)) == h.begin + 8 * Loc(h0, live, i)
    ensures Located(h', live, i + 1)
  {
    hide GetForward, Heap.SameObjects;
    forall a | 0 <= a < i + 1 && live[a]
      ensures GetForward(h'.Forward(a)) == h'.begin + 8 * Loc(h', live, a)
    {
      SameLoc(h, h', live, a);
      SameLoc(h0, h, live, a);
    }
  }

  lemma LocateDead(h: Heap, live: seq<bool>, i: nat)
    requires h.Parsed() && |live| == h.Count() && i < h.Count() && !live[i] && Located(h, live, i)
    ensures Located(h, live, i + 1)
  {
  }

  lemma LocatedAll(h0: Heap, h: Heap, live: seq<bool>, i: nat)
    requires h0.Parsed() && h.Parsed() && h.bounds == h0.bounds
    requires i <= h.Count() && h.Current() <= h.bounds[i]
    ensures i == h.Count() && h.Count() == h0.Count()
  {
    Ordered(h, i, h.Count());
    hide Heap.Parsed;
  }
}
