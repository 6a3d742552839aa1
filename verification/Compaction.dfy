/** The heap a collection leaves behind, and what the program can still see in it. */
module Compaction {
  import opened Wrappers
  import opened Bytes
  import opened HeapLayout
  import opened MarkPhase
  import opened Sliding
  import opened Redirection
  import opened Relocation

  const MINIMUM_CAPACITY: nat := 64

  /** Words of the chunk that compact_phase asks for. */
  function NextSize(liveSize: nat, additional: nat, size: nat): nat {
    Max(Max(liveSize * 2 + additional, MINIMUM_CAPACITY), size)
  }

  predicate Largest(n: nat, among: seq<nat>) { n in among && forall i :: 0 <= i < |among| ==> among[i] <= n }

  /** At least twice the words in use and the request, 64 words, and what there was. */
  lemma NextSizeLargest(liveSize: nat, additional: nat, size: nat)
    ensures Largest(NextSize(liveSize, additional, size), [64, size, liveSize + liveSize + additional])
  {
    assert [64, size, liveSize + liveSize + additional][0] == 64;
    assert [64, size, liveSize + liveSize + additional][1] == size;
    assert [64, size, liveSize + liveSize + additional][2] == liveSize + liveSize + additional;
  }

  ghost predicate CarriedWord(h: Heap, live: seq<bool>, h1: Heap, i: nat, k: nat)
    requires h.Parsed() && |live| == h.Count() && i < h.Count()
  {
    && h.bounds[i] + k < |h.words| && Loc(h, live, i) + k < |h1.words|
    && h1.words[Loc(h, live, i) + k] == NewWord(h, live, h1.begin, i, h.bounds[i] + k)
  }

  /** Object i of h stands in h1 where Loc says: same header, fields redirected, other words unchanged,
      string bytes unchanged, flag bits clear. */
  ghost predicate ObjectCarried(h: Heap, live: seq<bool>, h1: Heap, i: nat)
    requires h.Parsed() && |live| == h.Count() && i < h.Count()
  {
    var header, from, to := h.Header(i), h.bounds[i], Loc(h, live, i);
    var whole, tail := WholeWords(header), TailBytes(header);
    && to + ObjWords(header) <= |h1.words| && from + ObjWords(header) <= |h.words| && whole <= ObjWords(header)
    && h1.words[to] == header
    && !MarkBit(h1.words[to + 1]) && !EnqueuedBit(h1.words[to + 1])
    && (forall k :: 2 <= k < whole ==> CarriedWord(h, live, h1, i, k))
    && (tail > 0 ==> whole < ObjWords(header) && SameLowBytes(h.words[from + whole], h1.words[to + whole], tail))
  }

  ghost predicate Compacted(h: Heap, live: seq<bool>, h1: Heap)
    requires h.Parsed()
  {
    && |live| == h.Count()
    && h1.begin > 0 && h1.begin % 8 == 0
    && h1.bounds == NewBounds(h, live, h.Count())
    && |h.words| <= |h1.words|
    && (forall i :: 0 <= i < h.Count() && live[i] ==> ObjectCarried(h, live, h1, i))
  }

  // ---- from the phases to the result ----

  lemma UpdatedWord(h: Heap, live: seq<bool>, newBegin: nat, t: seq<nat>, i: nat, k: nat)
    requires h.Parsed() && |live| == h.Count() && i < h.Count()
    requires Updating(h, live, newBegin, t, h.Count(), h.Current()) && h.bounds[i] <= k < h.bounds[i + 1]
    ensures k < |h.words| <= |t| && t[k] == NewWord(h, live, newBegin, i, k)
  {
    hide NewWord;
    Inside(h, i);
    assert ObjectUpdated(h, live, newBegin, t, i);
  }

  lemma ObjectCarries(h: Heap, live: seq<bool>, newBegin: nat, t: seq<nat>, h1: Heap, i: nat)
    requires h.Parsed() && LiveMarks(h, live) && NoneEnqueued(h) && |live| == h.Count() && i < h.Count() && live[i]
    requires Updating(h, live, newBegin, t, h.Count(), h.Current())
    requires h1.begin == newBegin && Moved(h.Header(i), t, h.bounds[i], h1.words, Loc(h, live, i))
    ensures ObjectCarried(h, live, h1, i)
  {
    hide Updating, NewWord, ObjWords, WholeWords, TailBytes, Redirect, LiveMarks, ByteOf, Known, Loc;
    var header, from, to := h.Header(i), h.bounds[i], Loc(h, live, i);
    var whole, tail := WholeWords(header), TailBytes(header);
    Inside(h, i);
    WordsAndTail(header);
    assert h.bounds[i + 1] == from + ObjWords(header);
    HeadsIntact(h, live, newBegin, t, h.Count(), h.Current(), i);
    assert CopiedWord(t, from, h1.words, to, 0);
    assert !h.Enqueued(i);
    FlagBits(t[from + 1]);
    forall k | 2 <= k < whole
      ensures CarriedWord(h, live, h1, i, k)
    {
      UpdatedWord(h, live, newBegin, t, i, from + k);
      assert CopiedWord(t, from, h1.words, to, k);
    }
    if tail > 0 {
      UpdatedWord(h, live, newBegin, t, i, from + whole);
      TailNotField(h, live, newBegin, i);
    }
  }

  lemma TailNotField(h: Heap, live: seq<bool>, newBegin: nat, i: nat)
    requires h.Parsed() && |live| == h.Count() && i < h.Count() && TailBytes(h.Header(i)) > 0
    requires h.bounds[i] + WholeWords(h.Header(i)) < |h.words|
    ensures NewWord(h, live, newBegin, i,
      h.bounds[i] + WholeWords(h.Header(i))) == h.words[h.bounds[i] + WholeWords(h.Header(i))]
  {
    WordsAndTail(h.Header(i));
    hide ObjWords, WholeWords, TailBytes, Redirect;
  }

  lemma AllCarried(h: Heap, live: seq<bool>, t: seq<nat>, h1: Heap)
    requires h.Parsed() && LiveMarks(h, live) && NoneEnqueued(h) && |live| == h.Count()
    requires Updating(h, live, h1.begin, t, h.Count(), h.Current()) && Relocating(h, live, t, h1.words, h.Count())
    requires h1.begin > 0 && h1.begin % 8 == 0 && h1.bounds == NewBounds(h, live, h.Count())
    ensures Compacted(h, live, h1)
  {
    hide ObjectCarried, Updating, Moved, Loc, NewBounds, NoneEnqueued;
    forall i | 0 <= i < h.Count() && live[i]
      ensures ObjectCarried(h, live, h1, i)
    {
      ObjectCarries(h, live, h1.begin, t, h1, i);
    }
  }

  // ---- the compacted heap is a heap ----

  lemma CompactedObject(h: Heap, live: seq<bool>, h1: Heap, i: nat)
    requires h.Parsed() && Compacted(h, live, h1) && i < h.Count() && live[i]
    ensures Rank(live, i) + 1 < |h1.bounds|
    ensures h1.bounds[Rank(live, i)] == Loc(h, live, i)
    ensures h1.bounds[Rank(live, i) + 1] == Loc(h, live, i) + ObjWords(h.Header(i)) <= |h1.words|
    ensures h1.words[Loc(h, live, i)] == h.Header(i)
    ensures !MarkBit(h1.words[Loc(h, live, i) + 1]) && !EnqueuedBit(h1.words[Loc(h, live, i) + 1])
  {
    NewBoundsAt(h, live, i);
    NewBoundsAt(h, live, i + 1);
    assert ObjectCarried(h, live, h1, i);
  }

  lemma CompactedParsed(h: Heap, live: seq<bool>, h1: Heap)
    requires h.Parsed() && Compacted(h, live, h1)
    ensures h1.Parsed() && h1.Current() == Loc(h, live, h.Count()) <= |h.words|
    ensures h1.Count() == Rank(live, h.Count())
    ensures MarkedSet(h1) == {} && NoneEnqueued(h1)
  {
    hide Loc, Rank, NewBounds, ObjWords, MarkBit, EnqueuedBit;
    CompactedBounds(h, live, h1);
    forall r: nat | r < h1.Count()
      ensures h1.bounds[r] + 2 <= |h1.words| && Known(h1.words[h1.bounds[r]])
      ensures h1.bounds[r + 1] == h1.bounds[r] + ObjWords(h1.words[h1.bounds[r]])
      ensures !MarkBit(h1.words[h1.bounds[r] + 1]) && !EnqueuedBit(h1.words[h1.bounds[r] + 1])
    {
      CompactedAt(h, live, h1, r);
    }
  }

  lemma CompactedBounds(h: Heap, live: seq<bool>, h1: Heap)
    requires h.Parsed() && Compacted(h, live, h1)
    ensures |h1.bounds| == Rank(live, h.Count()) + 1 && h1.bounds[0] == 0
    ensures h1.bounds[|h1.bounds| - 1] == Loc(h, live, h.Count()) <= |h.words|
  {
    hide Loc, Rank, ObjWords;
    NewBoundsShape(h, live, h.Count());
    LocBelow(h, live, h.Count());
  }

  lemma CompactedAt(h: Heap, live: seq<bool>, h1: Heap, r: nat)
    requires h.Parsed() && Compacted(h, live, h1) && r + 1 < |h1.bounds| && |h1.bounds| == Rank(live, h.Count()) + 1
    ensures h1.bounds[r] + 2 <= |h1.words| && Known(h1.words[h1.bounds[r]])
    ensures h1.bounds[r + 1] == h1.bounds[r] + ObjWords(h1.words[h1.bounds[r]])
    ensures !MarkBit(h1.words[h1.bounds[r] + 1]) && !EnqueuedBit(h1.words[h1.bounds[r] + 1])
  {
    hide Loc, Rank, NewBounds, MarkBit, EnqueuedBit, ObjectCarried;
    var i := RankOnto(live, h.Count(), r);
    CompactedObject(h, live, h1, i);
  }

  /** References to live objects become references to their images. */
  lemma CompactedPtr(h: Heap, live: seq<bool>, h1: Heap, i: nat)
    requires h.Parsed() && Compacted(h, live, h1) && i < h.Count() && live[i]
    ensures Rank(live, i) < |h1.bounds| - 1
    ensures h1.Ptr(Rank(live, i)) == Redirect(h, live, h1.begin, h.Ptr(i))
  {
    CompactedObject(h, live, h1, i);
    RedirectPtr(h, live, h1.begin, i);
  }

  /** No word is mistaken for a reference into the new chunk. */
  predicate Foreign(newBegin: nat, newSize: nat, w: nat) {
    w % 2 == 0 ==> w < newBegin || newBegin + 8 * newSize < w
  }

  lemma RedirectedOk(h: Heap, live: seq<bool>, h1: Heap, w: nat)
    requires h.Parsed() && Compacted(h, live, h1) && |live| == h.Count() && LiveWord(h, live, w)
    requires Refers(h, w) || Foreign(h1.begin, |h1.words|, w)
    requires |h1.bounds| > 0
    ensures h1.WordOk(Redirect(h, live, h1.begin, w))
  {
    if Refers(h, w) {
      var i :| 0 <= i < h.Count() && w == h.Ptr(i);
      CompactedPtr(h, live, h1, i);
    }
  }

  ghost predicate FieldsForeign(h: Heap, newBegin: nat, newSize: nat)
    requires h.Parsed()
  {
    forall i, k :: 0 <= i < h.Count() && h.bounds[i] <= k < h.bounds[i + 1] && h.IsField(i, k) && k < |h.words|
      ==> Refers(h, h.words[k]) || Foreign(newBegin, newSize, h.words[k])
  }

  lemma CompactedField(h: Heap, live: seq<bool>, h1: Heap, i: nat, k: nat)
    requires h.Parsed() && Compacted(h, live, h1) && i < h.Count() && live[i]
    requires FieldsFrom(h.Header(i)) <= k < ObjWords(h.Header(i))
    ensures h.bounds[i] + k < |h.words| && Loc(h, live, i) + k < |h1.words|
    ensures h.IsField(i, h.bounds[i] + k) && h.bounds[i] + k < h.bounds[i + 1]
    ensures h1.words[Loc(h, live, i) + k] == Redirect(h, live, h1.begin, h.words[h.bounds[i] + k])
  {
    var header := h.Header(i);
    Inside(h, i);
    assert h.bounds[i + 1] == h.bounds[i] + ObjWords(header);
    WordsAndTail(header);
    assert ObjectCarried(h, live, h1, i);
    assert CarriedWord(h, live, h1, i, k);
  }

  lemma LiveField(h: Heap, live: seq<bool>, i: nat, k: nat)
    requires h.Parsed() && h.FieldsOk() && |live| == h.Count() && LiveClosed(h, live)
    requires i < h.Count() && live[i] && h.bounds[i] <= k < h.bounds[i + 1] && h.IsField(i, k) && k < |h.words|
    ensures LiveWord(h, live, h.words[k])
  {
    assert h.WordOk(h.words[k]);
    forall j | 0 <= j < h.Count() && h.words[k] == h.Ptr(j)
      ensures live[j]
    {
      EdgeByField(h, i, k, j);
    }
  }

  lemma CompactedFieldsOk(h: Heap, live: seq<bool>, h1: Heap)
    requires h.Parsed() && h.FieldsOk() && Compacted(h, live, h1) && |live| == h.Count() && LiveClosed(h, live)
    requires FieldsForeign(h, h1.begin, |h1.words|) && h1.Parsed() && h1.Count() == Rank(live, h.Count())
    ensures h1.FieldsOk()
  {
    hide Compacted, Heap.FieldsOk, LiveClosed, Heap.WordOk, Rank, Loc, ObjWords, FieldsFrom, Redirect, LiveWord, Refers,
      Foreign, FieldsForeign;
    forall r: nat, k: nat | r < h1.Count() && h1.bounds[r] <= k < h1.bounds[r + 1] && h1.IsField(r, k)
      ensures h1.WordOk(h1.words[k])
    {
      var i := RankOnto(live, h.Count(), r);
      CompactedObject(h, live, h1, i);
      var d := k - h1.bounds[r];
      CompactedField(h, live, h1, i, d);
      LiveField(h, live, i, h.bounds[i] + d);
      ForeignField(h, h1.begin, |h1.words|, i, h.bounds[i] + d);
      RedirectedOk(h, live, h1, h.words[h.bounds[i] + d]);
    }
    AllFieldsOk(h1);
  }

  lemma AllFieldsOk(h: Heap)
    requires h.Parsed()
    requires forall i: nat, k: nat :: i < h.Count() && h.bounds[i] <= k < h.bounds[i + 1] && h.IsField(i, k) ==>
      h.WordOk(h.words[k])
    ensures h.FieldsOk()
  {
  }

  lemma ForeignField(h: Heap, newBegin: nat, newSize: nat, i: nat, k: nat)
    requires h.Parsed() && FieldsForeign(h, newBegin, newSize)
    requires i < h.Count() && h.bounds[i] <= k < h.bounds[i + 1] && h.IsField(i, k) && k < |h.words|
    ensures Refers(h, h.words[k]) || Foreign(newBegin, newSize, h.words[k])
  {
  }

  // ---- forward words do not matter for the result ----

  lemma {:induction false} SameNewBounds(g: Heap, h: Heap, live: seq<bool>, i: nat)
    requires g.Parsed() && h.Parsed() && g.SameObjects(h) && |live| == g.Count() && i <= g.Count()
    ensures NewBounds(g, live, i) == NewBounds(h, live, i)
  {
    if i > 0 {
      SameNewBounds(g, h, live, i - 1);
      SameLoc(g, h, live, i);
    }
  }

  lemma SameRedirect(g: Heap, h: Heap, live: seq<bool>, newBegin: nat, w: nat)
    requires g.Parsed() && h.Parsed() && g.SameObjects(h) && |live| == g.Count()
    ensures Redirect(g, live, newBegin, w) == Redirect(h, live, newBegin, w)
    ensures Refers(g, w) == Refers(h, w)
  {
    assert g.bounds == h.bounds && g.begin == h.begin;
    assert forall i :: 0 <= i < g.Count() ==> g.Ptr(i) == h.Ptr(i);
    if Refers(g, w) {
      var i :| 0 <= i < g.Count() && w == g.Ptr(i);
      RedirectPtr(g, live, newBegin, i);
      RedirectPtr(h, live, newBegin, i);
      SameLoc(g, h, live, i);
    }
  }

  lemma SameObject(g: Heap, h: Heap, live: seq<bool>, i: nat)
    requires g.Parsed() && h.Parsed() && g.SameObjects(h) && |live| == g.Count() && i < g.Count()
    ensures h.bounds == g.bounds && h.begin == g.begin && |h.words| == |g.words|
    ensures h.Header(i) == g.Header(i) && Loc(h, live, i) == Loc(g, live, i)
    ensures g.bounds[i + 1] == g.bounds[i] + ObjWords(g.Header(i)) <= |g.words|
    ensures ObjWords(g.Header(i)) == WholeWords(g.Header(i)) + if TailBytes(g.Header(i)) > 0 then 1 else 0
  {
    NotForward(g, i, g.bounds[i]);
    Inside(g, i);
    WordsAndTail(g.Header(i));
    SameLoc(g, h, live, i);
    hide ObjWords, WholeWords, TailBytes, Loc, Heap.SameObjects;
  }

  lemma SameCarried(g: Heap, h: Heap, live: seq<bool>, h1: Heap, i: nat)
    requires g.Parsed() && h.Parsed() && g.SameObjects(h) && |live| == g.Count() && i < g.Count() && live[i]
    requires h.bounds == g.bounds && ObjectCarried(h, live, h1, i)
    ensures ObjectCarried(g, live, h1, i)
  {
    hide Heap.SameObjects, Heap.Parsed, Redirect, Loc, ObjWords, WholeWords, TailBytes, FieldsFrom, Refers,
      SameLowBytes;
    SameObject(g, h, live, i);
    var whole, tail := WholeWords(g.Header(i)), TailBytes(g.Header(i));
    forall k | 2 <= k < whole
      ensures CarriedWord(g, live, h1, i, k)
    {
      assert CarriedWord(h, live, h1, i, k);
      SamePayload(g, h, i, g.bounds[i] + k);
      SameRedirect(g, h, live, h1.begin, g.words[g.bounds[i] + k]);
    }
    if tail > 0 {
      SamePayload(g, h, i, g.bounds[i] + whole);
    }
  }

  lemma CompactedFromOriginal(g: Heap, h: Heap, live: seq<bool>, h1: Heap)
    requires g.Parsed() && h.Parsed() && g.SameObjects(h) && Compacted(h, live, h1)
    ensures Compacted(g, live, h1)
  {
    assert h.bounds == g.bounds && |g.words| == |h.words|;
    SameNewBounds(g, h, live, g.Count());
    hide ObjectCarried, NewBounds, Heap.SameObjects, Heap.Parsed;
    forall i | 0 <= i < g.Count() && live[i]
      ensures ObjectCarried(g, live, h1, i)
    {
      SameCarried(g, h, live, h1, i);
    }
  }

  // ---- liveness is reachability ----

  ghost function LiveSeq(g: Heap, roots: set<nat>): (live: seq<bool>)
    requires g.Parsed()
    ensures |live| == g.Count()
    ensures forall i :: 0 <= i < g.Count() ==> live[i] == g.ReachableFrom(roots, i)
  {
    seq(g.Count(), i requires 0 <= i < g.Count() => g.ReachableFrom(roots, i))
  }

  lemma ReachableClosed(g: Heap, h: Heap, roots: set<nat>)
    requires g.Parsed() && h.Parsed() && g.SameObjects(h) && h.SameObjects(g)
    ensures h.bounds == g.bounds && LiveClosed(h, LiveSeq(g, roots))
  {
    assert h.bounds == g.bounds;
    hide Heap.SameObjects, Heap.ReachableFrom, Heap.Edge;
    var live := LiveSeq(g, roots);
    forall i: nat, j: nat | i < h.Count() && j < h.Count() && live[i] && h.Edge(i, j)
      ensures live[j]
    {
      SameEdge(h, g, i, j);
      ReachStep(g, roots, i, j);
    }
  }

  lemma LiveRoot(g: Heap, rm: RootMap, area: seq<nat>, p: nat)
    requires g.Parsed() && RootsOk(g, rm, area) && p < |area| && rm.IsRoot(p)
    ensures LiveWord(g, LiveSeq(g, RootTargets(g, rm, area)), area[p])
  {
    hide Heap.ReachableFrom;
    var roots := RootTargets(g, rm, area);
    forall j: nat | j < g.Count() && area[p] == g.Ptr(j)
      ensures g.ReachableFrom(roots, j)
    {
      RootReachable(g, roots, j);
    }
  }

  // ---- a whole collection ----

  /** Words in use by objects that the roots reach. */
  ghost function LiveWords(g: Heap, rm: RootMap, area: seq<nat>): nat
    requires g.Parsed()
  {
    Loc(g, LiveSeq(g, RootTargets(g, rm, area)), g.Count())
  }

  /** What a chunk obtained from the system must satisfy: aligned, apart from the old one, and not
      hit by any word the program already holds. */
  ghost predicate FreshChunk(g: Heap, rm: RootMap, area: seq<nat>, newBegin: nat, newSize: nat)
    requires g.Parsed()
  {
    && newBegin > 0 && newBegin % 8 == 0 && Apart(g, newBegin, newSize)
    && FieldsForeign(g, newBegin, newSize)
    && forall p :: 0 <= p < |area| && (rm.IsRoot(p) || rm.Fixed(p)) ==>
         Refers(g, area[p]) || Foreign(newBegin, newSize, area[p])
  }

  /** The collection's result: reachable objects carried over, root slots redirected. */
  ghost predicate Collected(g: Heap, rm: RootMap, area: seq<nat>, h1: Heap, area1: seq<nat>)
    requires g.Parsed()
  {
    var live := LiveSeq(g, RootTargets(g, rm, area));
    && Compacted(g, live, h1)
    && |area1| == |area|
    && forall p :: 0 <= p < |area| ==>
         area1[p] == if rm.Fixed(p) then Redirect(g, live, h1.begin, area[p]) else area[p]
  }

  /** What holds between collections. */
  ghost predicate Ready(h: Heap, rm: RootMap, area: seq<nat>) {
    && h.Parsed() && h.FieldsOk() && MarkedSet(h) == {} && NoneEnqueued(h)
    && rm.Fits(|area|) && RootsOk(h, rm, area)
    && (rm.IsRoot(rm.bottom) || (h.WordOk(area[rm.bottom]) && !h.InHeap(area[rm.bottom])))
    && forall p :: 0 <= p < |area| ==> !rm.Overlooked(p)
  }

  lemma ReadyParsed(h: Heap, rm: RootMap, area: seq<nat>)
    requires Ready(h, rm, area)
    ensures h.Parsed() && h.Current() <= |h.words|
  {
  }

  lemma FixedWord(g: Heap, rm: RootMap, area: seq<nat>, p: nat)
    requires Ready(g, rm, area) && p < |area| && (rm.Fixed(p) || rm.IsRoot(p))
    ensures LiveWord(g, LiveSeq(g, RootTargets(g, rm, area)), area[p])
    ensures rm.Fixed(p)
  {
    hide Heap.ReachableFrom, Heap.WordOk;
    assert !rm.Overlooked(p);
    if rm.IsRoot(p) {
      LiveRoot(g, rm, area, p);
    } else {
      assert p == rm.bottom;
      forall j: nat | j < g.Count()
        ensures area[p] != g.Ptr(j)
      {
        PtrInHeap(g, j);
      }
    }
  }

  lemma CollectedRoot(g: Heap, rm: RootMap, area: seq<nat>, h1: Heap, area1: seq<nat>, p: nat)
    requires Ready(g, rm, area) && Collected(g, rm, area, h1, area1) && |h1.bounds| > 0
    requires FreshChunk(g, rm, area, h1.begin, |h1.words|)
    requires p < |area| && (rm.Fixed(p) || rm.IsRoot(p))
    ensures h1.WordOk(area1[p])
  {
    hide Heap.ReachableFrom, Heap.WordOk, Compacted, Redirect, LiveWord, Apart, Refers;
    FixedWord(g, rm, area, p);
    RedirectedOk(g, LiveSeq(g, RootTargets(g, rm, area)), h1, area[p]);
  }

  /** A collection leaves the heap and the roots ready for the next one. */
  lemma CollectedReady(g: Heap, rm: RootMap, area: seq<nat>, h1: Heap, area1: seq<nat>)
    requires Ready(g, rm, area) && Collected(g, rm, area, h1, area1)
    requires FreshChunk(g, rm, area, h1.begin, |h1.words|)
    ensures Ready(h1, rm, area1)
  {
    var roots := RootTargets(g, rm, area);
    var live := LiveSeq(g, roots);
    CompactedParsed(g, live, h1);
    ReachableClosed(g, g, roots);
    CompactedFieldsOk(g, live, h1);
    hide Heap.ReachableFrom, Heap.FieldsOk, Compacted, Redirect, Refers, LiveClosed, FreshChunk, RootTargets, LiveSeq,
      MarkedSet, NoneEnqueued;
    forall p | 0 <= p < |area1| && rm.IsRoot(p)
      ensures h1.WordOk(area1[p])
    {
      CollectedRoot(g, rm, area, h1, area1, p);
    }
    CollectedBottom(g, rm, area, h1, area1);
  }

  lemma CollectedBottom(g: Heap, rm: RootMap, area: seq<nat>, h1: Heap, area1: seq<nat>)
    requires Ready(g, rm, area) && Collected(g, rm, area, h1, area1) && |h1.bounds| > 0
    requires FreshChunk(g, rm, area, h1.begin, |h1.words|) && h1.Current() <= |h1.words|
    ensures rm.bottom < |area1|
    ensures rm.IsRoot(rm.bottom) || (h1.WordOk(area1[rm.bottom]) && !h1.InHeap(area1[rm.bottom]))
  {
    var p := rm.bottom;
    if !rm.IsRoot(p) {
      CollectedRoot(g, rm, area, h1, area1, p);
      UnboxedStays(g, LiveSeq(g, RootTargets(g, rm, area)), h1.begin, area[p]);
      NotReferring(g, area[p]);
      assert Foreign(h1.begin, |h1.words|, area[p]);
    }
  }

  lemma NotReferring(g: Heap, w: nat)
    requires g.Parsed() && !g.InHeap(w)
    ensures !Refers(g, w)
  {
    forall j: nat | j < g.Count()
      ensures w != g.Ptr(j)
    {
      PtrInHeap(g, j);
    }
  }

  /** The collection seen from the heap as it was before marking. */
  lemma CollectedFromPhases(g: Heap, rm: RootMap, area: seq<nat>, h: Heap, h1: Heap, area1: seq<nat>)
    requires g.Parsed() && h.Parsed() && g.SameObjects(h)
    requires Compacted(h, LiveSeq(g, RootTargets(g, rm, area)), h1) && |area1| == |area|
    requires |LiveSeq(g, RootTargets(g, rm, area))| == h.Count()
    requires forall p :: 0 <= p < |area| ==>
               area1[p] == if rm.Fixed(p) then Redirect(h, LiveSeq(g, RootTargets(g, rm, area)), h1.begin,
                 area[p]) else area[p]
    ensures Collected(g, rm, area, h1, area1)
  {
    hide Heap.ReachableFrom, Compacted, Redirect, Refers, RootTargets, Heap.SameObjects, Heap.Parsed;
    var live := LiveSeq(g, RootTargets(g, rm, area));
    CompactedFromOriginal(g, h, live, h1);
    forall p | 0 <= p < |area|
      ensures area1[p] == if rm.Fixed(p) then Redirect(g, live, h1.begin, area[p]) else area[p]
    {
      SameRedirect(g, h, live, h1.begin, area[p]);
    }
  }

  lemma MarkedAreLive(g: Heap, h: Heap, roots: set<nat>)
    requires g.Parsed() && h.Parsed() && g.SameObjects(h) && h.bounds == g.bounds
    requires forall i :: 0 <= i < h.Count() ==> (h.Marked(i) <==> g.ReachableFrom(roots, i))
    ensures LiveMarks(h, LiveSeq(g, roots)) && h.SameObjects(g)
  {
    SameObjectsParsed(g, h);
    hide Heap.ReachableFrom, Heap.SameObjects, MarkBit;
  }

  lemma BeforeCompacting(g: Heap, h: Heap, rm: RootMap, area: seq<nat>)
    requires Ready(g, rm, area) && h.Parsed() && g.SameObjects(h)
    requires h.bounds == g.bounds
    requires forall i :: 0 <= i < h.Count() ==> (h.Marked(i) <==> g.ReachableFrom(RootTargets(g, rm, area), i))
    ensures var live := LiveSeq(g, RootTargets(g, rm, area));
            && LiveMarks(h, live) && |live| == h.Count() && LiveClosed(h, live) && h.FieldsOk()
            && Loc(h, live, h.Count()) == LiveWords(g, rm, area)
            && (forall p :: 0 <= p < |area| && rm.Fixed(p) ==> LiveWord(h, live, area[p]))
    ensures h.begin == g.begin && |h.words| == |g.words|
  {
    hide Heap.ReachableFrom, RootTargets, LiveSeq, LiveMarks, Heap.FieldsOk, LiveWord, LiveClosed, Loc, Heap.Parsed,
      MarkBit;
    var roots := RootTargets(g, rm, area);
    var live := LiveSeq(g, roots);
    MarkedAreLive(g, h, roots);
    ReachableClosed(g, g, roots);
    forall p | 0 <= p < |area| && rm.Fixed(p)
      ensures LiveWord(g, live, area[p])
    {
      FixedWord(g, rm, area, p);
    }
    BeforeSliding(g, h, live, rm, area);
  }

  lemma CollectedCurrent(g: Heap, rm: RootMap, area: seq<nat>, h1: Heap, area1: seq<nat>)
    requires g.Parsed() && Collected(g, rm, area, h1, area1)
    ensures h1.Parsed() && h1.Current() == LiveWords(g, rm, area)
  {
    CompactedParsed(g, LiveSeq(g, RootTargets(g, rm, area)), h1);
  }

  lemma ChunkPlace(g: Heap, rm: RootMap, area: seq<nat>, newBegin: nat, newSize: nat)
    requires g.Parsed() && FreshChunk(g, rm, area, newBegin, newSize)
    ensures newBegin > 0 && newBegin % 8 == 0 && Apart(g, newBegin, newSize)
  {
  }

  lemma BeforeSliding(g: Heap, h: Heap, live: seq<bool>, rm: RootMap, area: seq<nat>)
    requires g.Parsed() && h.Parsed() && g.SameObjects(h) && g.FieldsOk() && |live| == g.Count() && LiveClosed(g, live)
    requires forall p :: 0 <= p < |area| && rm.Fixed(p) ==> LiveWord(g, live, area[p])
    ensures h.bounds == g.bounds && h.begin == g.begin && |h.words| == |g.words|
    ensures h.FieldsOk() && LiveClosed(h, live) && Loc(h, live, h.Count()) == Loc(g, live, g.Count())
    ensures forall p :: 0 <= p < |area| && rm.Fixed(p) ==> LiveWord(h, live, area[p])
  {
    hide Heap.Edge, Heap.FieldsOk, Heap.WordOk, Heap.Parsed, LiveClosed, LiveWord, Loc;
    SameObjectsParsed(g, h);
    SameFieldsOk(g, h);
    SameLoc(g, h, live, g.Count());
    ClosedBeforeSliding(g, h, live);
    forall p | 0 <= p < |area| && rm.Fixed(p)
      ensures LiveWord(h, live, area[p])
    {
      WordBeforeSliding(g, h, live, area[p]);
    }
  }

  lemma ClosedBeforeSliding(g: Heap, h: Heap, live: seq<bool>)
    requires g.Parsed() && h.Parsed() && g.SameObjects(h) && g.FieldsOk() && |live| == g.Count() && LiveClosed(g, live)
    ensures |live| == h.Count() && LiveClosed(h, live)
  {
    hide Heap.Edge, Heap.FieldsOk, Heap.WordOk, Heap.Parsed;
    SameFieldsOk(g, h);
    forall i: nat, j: nat | i < h.Count() && j < h.Count() && live[i] && h.Edge(i, j)
      ensures live[j]
    {
      SameEdge(h, g, i, j);
    }
  }

  lemma WordBeforeSliding(g: Heap, h: Heap, live: seq<bool>, w: nat)
    requires g.Parsed() && h.Parsed() && g.SameObjects(h) && |live| == g.Count() && LiveWord(g, live, w)
    ensures |live| == h.Count() && LiveWord(h, live, w)
  {
    hide Heap.Edge, Heap.FieldsOk, Heap.WordOk, Heap.Parsed;
    SameWordOk(g, h, w);
    assert forall j :: 0 <= j < g.Count() ==> h.Ptr(j) == g.Ptr(j);
  }

  // ---- allocation ----

  /** A fresh object without contents stands at the end of the heap. */
  ghost predicate Extended(h: Heap, header: nat, h': Heap)
    requires h.Parsed()
  {
    var end := h.Current() + ObjWords(header);
    && end <= |h.words| == |h'.words|
    && h'.begin == h.begin && h'.bounds == h.bounds + [end]
    && (forall k :: 0 <= k < |h.words| && !(h.Current() <= k < end) ==> h'.words[k] == h.words[k])
    && h'.words[h.Current()] == header
    && (forall k :: h.Current() < k < end ==> h'.words[k] == 0)
  }

  lemma ExtendedWord(h: Heap, header: nat, h': Heap, i: nat, k: nat)
    requires h.Parsed() && Extended(h, header, h') && i < h.Count() && h.bounds[i] <= k < h.bounds[i + 1]
    ensures k < |h.words| && h'.words[k] == h.words[k]
  {
    hide ObjWords, Known;
    Inside(h, i);
  }

  lemma ExtendedHeader(h: Heap, header: nat, h': Heap, i: nat)
    requires h.Parsed() && Extended(h, header, h') && i < h.Count()
    ensures h.bounds[i] < |h.words| && h'.words[h.bounds[i]] == h.words[h.bounds[i]]
  {
    hide ObjWords, Known;
    Inside(h, i);
  }

  lemma ExtendedParsed(h: Heap, header: nat, h': Heap)
    requires h.Parsed() && Known(header) && Extended(h, header, h')
    ensures h'.Parsed() && h'.Count() == h.Count() + 1
    ensures forall i :: 0 <= i < h.Count() ==> h'.Ptr(i) == h.Ptr(i) && h'.Header(i) == h.Header(i)
    ensures forall i, k :: 0 <= i < h.Count() && h.bounds[i] <= k < h.bounds[i + 1] ==> h'.words[k] == h.words[k]
    ensures h'.Header(h.Count()) == header
  {
    hide ObjWords, Known;
    forall i: nat | i < h.Count()
      ensures h'.words[h.bounds[i]] == h.words[h.bounds[i]]
    {
      ExtendedHeader(h, header, h', i);
    }
    forall i: nat, k: nat | i < h.Count() && h.bounds[i] <= k < h.bounds[i + 1]
      ensures h'.words[k] == h.words[k]
    {
      ExtendedWord(h, header, h', i, k);
    }
  }

  lemma ExtendedWordOk(h: Heap, header: nat, h': Heap, w: nat)
    requires h.Parsed() && Known(header) && Extended(h, header, h') && h'.Parsed() && h.WordOk(w)
    requires forall i :: 0 <= i < h.Count() ==> h'.Ptr(i) == h.Ptr(i)
    ensures h'.WordOk(w) && (!h.InHeap(w) ==> !h'.InHeap(w))
  {
    hide ObjWords;
    if w % 2 == 0 && h.begin <= w <= h.begin + 8 * |h.words| {
      var i :| 0 <= i < h.Count() && w == h.Ptr(i);
      PtrInHeap(h, i);
      assert w == h'.Ptr(i);
    }
  }

  lemma ExtendedFields(h: Heap, header: nat, h': Heap)
    requires h.Parsed() && h.FieldsOk() && Known(header) && Extended(h, header, h')
    ensures h'.Parsed() && h'.FieldsOk()
  {
    ExtendedParsed(h, header, h');
    hide Extended, ObjWords, Heap.WordOk, FieldsFrom;
    forall i: nat, k: nat | i < h'.Count() && h'.bounds[i] <= k < h'.bounds[i + 1] && h'.IsField(i, k)
      ensures h'.WordOk(h'.words[k])
    {
      ExtendedField(h, header, h', i, k);
    }
    AllFieldsOk(h');
  }

  lemma ExtendedField(h: Heap, header: nat, h': Heap, i: nat, k: nat)
    requires h.Parsed() && h.FieldsOk() && Known(header) && Extended(h, header, h') && h'.Parsed()
    requires h'.Count() == h.Count() + 1 && i < h'.Count() && h'.bounds[i] <= k < h'.bounds[i + 1] && h'.IsField(i, k)
    ensures h'.WordOk(h'.words[k])
  {
    ExtendedParsed(h, header, h');
    if i < h.Count() {
      Inside(h, i);
      assert h.IsField(i, k);
      ExtendedWordOk(h, header, h', h.words[k]);
    } else {
      assert h'.words[k] == 0;
    }
  }

  lemma ExtendedBits(h: Heap, header: nat, h': Heap)
    requires h.Parsed() && Known(header) && Extended(h, header, h') && MarkedSet(h) == {} && NoneEnqueued(h)
    ensures h'.Parsed() && MarkedSet(h') == {} && NoneEnqueued(h')
  {
    ExtendedParsed(h, header, h');
    hide ObjWords, Known;
    forall i: nat | i < h'.Count()
      ensures !h'.Marked(i) && !h'.Enqueued(i)
    {
      if i < h.Count() {
        Inside(h, i);
        assert i !in MarkedSet(h) && !h.Enqueued(i);
        assert h'.Forward(i) == h.Forward(i);
      } else {
        assert h'.Forward(i) == 0;
      }
    }
  }

  /** Allocation keeps the heap ready for a collection. */
  lemma ExtendedReady(h: Heap, header: nat, h': Heap, rm: RootMap, area: seq<nat>)
    requires Ready(h, rm, area) && Known(header) && Extended(h, header, h')
    ensures Ready(h', rm, area)
  {
    hide MarkedSet, NoneEnqueued, Heap.FieldsOk, Extended, ObjWords, Heap.WordOk, Heap.InHeap;
    ExtendedParsed(h, header, h');
    ExtendedFields(h, header, h');
    ExtendedBits(h, header, h');
    forall p | 0 <= p < |area| && (rm.IsRoot(p) || p == rm.bottom) && h.WordOk(area[p])
      ensures h'.WordOk(area[p]) && (!h.InHeap(area[p]) ==> !h'.InHeap(area[p]))
    {
      ExtendedWordOk(h, header, h', area[p]);
    }
  }

  /** A program may store unboxed words and references to objects. */
  ghost predicate Storable(h: Heap, w: nat)
    requires h.Parsed()
  {
    w % 2 == 1 || Refers(h, w)
  }

  lemma StorableOk(h: Heap, w: nat)
    requires h.Parsed() && Storable(h, w)
    ensures h.WordOk(w)
  {
  }

  lemma FieldStoreParsed(h: Heap, h': Heap, i: nat, f: nat)
    requires h.Parsed() && i < h.Count() && h.bounds[i] + 2 <= f < h.bounds[i + 1] && f < |h.words|
    requires h'.begin == h.begin && h'.bounds == h.bounds && |h'.words| == |h.words|
    requires forall k :: 0 <= k < |h.words| && k != f ==> h'.words[k] == h.words[k]
    ensures h'.Parsed()
    ensures forall j :: 0 <= j < h.Count() ==>
      f != h.bounds[j] && h'.Header(j) == h.Header(j) && h'.Forward(j) == h.Forward(j)
  {
    hide ObjWords, Known;
    forall j: nat | j < h.Count()
      ensures f != h.bounds[j] && f != h.bounds[j] + 1
    {
      if i < j {
        Ordered(h, i, j);
      } else if j < i {
        Ordered(h, j, i);
      }
    }
  }

  lemma FieldStoreBits(h: Heap, h': Heap)
    requires h.Parsed() && h'.Parsed() && h'.bounds == h.bounds && MarkedSet(h) == {} && NoneEnqueued(h)
    requires forall j :: 0 <= j < h.Count() ==> h'.Forward(j) == h.Forward(j)
    ensures MarkedSet(h') == {} && NoneEnqueued(h')
  {
    hide MarkBit, EnqueuedBit;
    forall j: nat | j < h.Count()
      ensures !h'.Marked(j) && !h'.Enqueued(j)
    {
      assert j !in MarkedSet(h) && !h.Enqueued(j);
      assert h'.Forward(j) == h.Forward(j);
    }
  }

  lemma FieldStoreReady(h: Heap, h': Heap, i: nat, f: nat, w: nat, rm: RootMap, area: seq<nat>)
    requires Ready(h, rm, area) && i < h.Count() && h.bounds[i] <= f < h.bounds[i + 1] && h.IsField(i, f)
    requires f < |h.words|
    requires Storable(h, w) && h' == h.(words := h.words[f := w])
    ensures Ready(h', rm, area)
  {
    hide Heap.WordOk, Heap.InHeap, Heap.FieldsOk, MarkedSet, NoneEnqueued, ObjWords, Known, Storable;
    StorableOk(h, w);
    FieldStoreParsed(h, h', i, f);
    FieldStoreFields(h, h', i, f, w);
    FieldStoreBits(h, h');
    hide Heap.Parsed;
    forall v: nat
      ensures h'.WordOk(v) == h.WordOk(v) && h'.InHeap(v) == h.InHeap(v)
    {
      SameHeapWord(h, h', v);
    }
  }

  lemma SameHeapWord(h: Heap, h': Heap, v: nat)
    requires |h.bounds| > 0 && h'.bounds == h.bounds && h'.begin == h.begin && |h'.words| == |h.words|
    ensures h'.WordOk(v) == h.WordOk(v) && h'.InHeap(v) == h.InHeap(v)
  {
    SameWordOk(h, h', v);
  }

  lemma FieldStoreFields(h: Heap, h': Heap, i: nat, f: nat, w: nat)
    requires h.Parsed() && h.FieldsOk() && h'.Parsed() && f < |h.words| && h' == h.(words := h.words[f := w])
    requires h.WordOk(w) && forall j :: 0 <= j < h.Count() ==> f != h.bounds[j]
    ensures h'.FieldsOk()
  {
    hide Heap.WordOk, ObjWords, FieldsFrom;
    forall a: nat, k: nat | a < h'.Count() && h'.bounds[a] <= k < h'.bounds[a + 1] && h'.IsField(a, k)
      ensures h'.WordOk(h'.words[k])
    {
      assert h'.Header(a) == h.Header(a);
      assert h.IsField(a, k);
      SameHeapWord(h, h', h'.words[k]);
    }
    AllFieldsOk(h');
  }

  lemma RootStoreReady(h: Heap, p: nat, w: nat, rm: RootMap, area: seq<nat>)
    requires Ready(h, rm, area) && p < |area| && Storable(h, w) && (rm.IsRoot(p) || p != rm.bottom)
    ensures Ready(h, rm, area[p := w])
  {
    hide Heap.FieldsOk, Heap.WordOk, Heap.InHeap;
    StorableOk(h, w);
  }
}
