/** A collection is invisible to the program: following any chain of fields from any root gives the same
    outcome before and after, up to the addresses of objects, and keeps shared objects shared. */
module Observation {
  import opened Bytes
  import opened HeapLayout
  import opened MarkPhase
  import opened Sliding
  import opened Redirection
  import opened Relocation
  import opened Compaction

  function FieldCount(header: nat): nat {
    if FieldsFrom(header) <= ObjWords(header) then ObjWords(header) - FieldsFrom(header) else 0
  }

  /** The word a program holds after following a chain of field numbers, unless it gets stuck. */
  datatype View = Stuck | At(word: nat)

  ghost function Walk(h: Heap, w: nat, path: seq<nat>): View
    requires h.Parsed()
    decreases |path|
  {
    if path == [] then At(w)
    else if Refers(h, w) then
      var i :| 0 <= i < h.Count() && w == h.Ptr(i);
      var k := h.bounds[i] + FieldsFrom(h.Header(i)) + path[0];
      if path[0] < FieldCount(h.Header(i)) && k < |h.words| then Walk(h, h.words[k], path[1..]) else Stuck
    else Stuck
  }

  lemma FieldPlace(h: Heap, i: nat, n: nat)
    requires h.Parsed() && i < h.Count() && n < FieldCount(h.Header(i))
    ensures h.bounds[i] + FieldsFrom(h.Header(i)) + n < |h.words|
  {
    Inside(h, i);
    assert h.bounds[i + 1] == h.bounds[i] + ObjWords(h.Header(i));
  }

  lemma WalkStep(h: Heap, i: nat, path: seq<nat>)
    requires h.Parsed() && i < h.Count() && path != []
    ensures path[0] >= FieldCount(h.Header(i)) ==> Walk(h, h.Ptr(i), path) == Stuck
    ensures path[0] < FieldCount(h.Header(i)) ==>
              && h.bounds[i] + FieldsFrom(h.Header(i)) + path[0] < |h.words|
              && Walk(h, h.Ptr(i), path) == Walk(h, h.words[h.bounds[i] + FieldsFrom(h.Header(i)) + path[0]], path[1..])
  {
    hide Heap.Parsed, ObjWords, FieldsFrom, FieldCount, Known;
    Inside(h, i);
    PtrsDiffer(h, i);
    if path[0] < FieldCount(h.Header(i)) {
      FieldPlace(h, i, path[0]);
    }
    assert Refers(h, h.Ptr(i));
  }

  /** Words whose meaning a collection keeps. */
  ghost predicate Kept(g: Heap, live: seq<bool>, newBegin: nat, newSize: nat, w: nat)
    requires g.Parsed() && |live| == g.Count()
  {
    LiveWord(g, live, w) && (Refers(g, w) || Foreign(newBegin, newSize, w))
  }

  lemma KeptField(g: Heap, live: seq<bool>, newBegin: nat, newSize: nat, i: nat, k: nat)
    requires g.Parsed() && g.FieldsOk() && |live| == g.Count() && LiveClosed(g, live)
    requires FieldsForeign(g, newBegin, newSize)
    requires i < g.Count() && live[i] && g.bounds[i] <= k < g.bounds[i + 1] && g.IsField(i, k) && k < |g.words|
    ensures Kept(g, live, newBegin, newSize, g.words[k])
  {
    LiveField(g, live, i, k);
  }

  /** A kept word that is no reference before the collection is the same non-reference afterwards. */
  lemma KeptOutsider(g: Heap, live: seq<bool>, h1: Heap, w: nat)
    requires g.Parsed() && |live| == g.Count() && Compacted(g, live, h1) && h1.Parsed()
    requires Kept(g, live, h1.begin, |h1.words|, w) && !Refers(g, w)
    ensures Redirect(g, live, h1.begin, w) == w && !Refers(h1, w)
  {
    forall j: nat | j < h1.Count()
      ensures w != h1.Ptr(j)
    {
      Inside(h1, j);
    }
  }

  lemma {:induction false} WalkKept(g: Heap, live: seq<bool>, h1: Heap, w: nat, path: seq<nat>)
    requires g.Parsed() && g.FieldsOk() && |live| == g.Count() && LiveClosed(g, live) && Compacted(g, live, h1)
    requires FieldsForeign(g, h1.begin, |h1.words|) && h1.Parsed() && Kept(g, live, h1.begin, |h1.words|, w)
    ensures match Walk(g, w, path)
            case Stuck => Walk(h1, Redirect(g, live, h1.begin, w), path) == Stuck
            case At(v) => Kept(g, live, h1.begin, |h1.words|, v)
                          && Walk(h1, Redirect(g, live, h1.begin, w), path) == At(Redirect(g, live, h1.begin, v))
    decreases |path|
  {
    hide Compacted, Heap.FieldsOk, LiveClosed, FieldsForeign, Redirect, Loc, Rank, FieldsFrom, ObjWords, Foreign,
      Heap.Parsed, Walk, LiveWord;
    WalkNothing(g, w);
    WalkNothing(h1, Redirect(g, live, h1.begin, w));
    if path != [] {
      if Refers(g, w) {
        var i :| 0 <= i < g.Count() && w == g.Ptr(i);
        LiveTarget(g, live, w, i);
        var r := Rank(live, i);
        CompactedPtr(g, live, h1, i);
        CompactedObject(g, live, h1, i);
        WalkStep(g, i, path);
        WalkStep(h1, r, path);
        Inside(g, i);
        if path[0] < FieldCount(g.Header(i)) {
          var d := FieldsFrom(g.Header(i)) + path[0];
          CompactedField(g, live, h1, i, d);
          KeptField(g, live, h1.begin, |h1.words|, i, g.bounds[i] + d);
          WalkKept(g, live, h1, g.words[g.bounds[i] + d], path[1..]);
        }
      } else {
        KeptOutsider(g, live, h1, w);
        WalkOutsider(g, w, path);
        WalkOutsider(h1, w, path);
      }
    }
  }

  lemma LiveTarget(g: Heap, live: seq<bool>, w: nat, i: nat)
    requires g.Parsed() && |live| == g.Count() && LiveWord(g, live, w) && i < g.Count() && w == g.Ptr(i)
    ensures live[i]
  {
  }

  lemma WalkNothing(h: Heap, w: nat)
    requires h.Parsed()
    ensures Walk(h, w, []) == At(w)
  {
  }

  lemma WalkOutsider(h: Heap, w: nat, path: seq<nat>)
    requires h.Parsed() && !Refers(h, w) && path != []
    ensures Walk(h, w, path) == Stuck
  {
  }

  /** Following fields from a root gives redirected outcomes after a collection. */
  lemma CollectionInvisible(g: Heap, rm: RootMap, area: seq<nat>, h1: Heap, area1: seq<nat>, p: nat, path: seq<nat>)
    requires Ready(g, rm, area) && Collected(g, rm, area, h1, area1) && h1.Parsed()
    requires FreshChunk(g, rm, area, h1.begin, |h1.words|) && p < |area| && rm.IsRoot(p)
    ensures var live := LiveSeq(g, RootTargets(g, rm, area));
            match Walk(g, area[p], path)
            case Stuck => Walk(h1, area1[p], path) == Stuck
            case At(v) => Kept(g, live, h1.begin, |h1.words|, v)
                          && Walk(h1, area1[p], path) == At(Redirect(g, live, h1.begin, v))
  {
    hide Heap.ReachableFrom, Compacted, Redirect, Walk, Heap.FieldsOk, LiveWord, FieldsForeign, LiveClosed, Apart;
    var roots := RootTargets(g, rm, area);
    ReachableClosed(g, g, roots);
    FixedWord(g, rm, area, p);
    WalkKept(g, LiveSeq(g, roots), h1, area[p], path);
  }

  /** Two kept words are equal before exactly when they are equal after: sharing is neither lost nor made. */
  lemma RedirectInjective(g: Heap, live: seq<bool>, h1: Heap, v: nat, w: nat)
    requires g.Parsed() && |live| == g.Count() && Compacted(g, live, h1) && h1.Parsed()
    requires Kept(g, live, h1.begin, |h1.words|, v) && Kept(g, live, h1.begin, |h1.words|, w)
    ensures Redirect(g, live, h1.begin, v) == Redirect(g, live, h1.begin, w) <==> v == w
  {
    if Refers(g, v) && Refers(g, w) {
      var i :| 0 <= i < g.Count() && v == g.Ptr(i);
      var j :| 0 <= j < g.Count() && w == g.Ptr(j);
      ImagesDiffer(g, live, h1, i, j);
      ImagesDiffer(g, live, h1, j, i);
    } else if Refers(g, v) {
      ImageNotOutsider(g, live, h1, v, w);
    } else if Refers(g, w) {
      ImageNotOutsider(g, live, h1, w, v);
    } else {
      KeptOutsider(g, live, h1, v);
      KeptOutsider(g, live, h1, w);
    }
  }

  lemma ImageNotOutsider(g: Heap, live: seq<bool>, h1: Heap, v: nat, w: nat)
    requires g.Parsed() && |live| == g.Count() && Compacted(g, live, h1) && h1.Parsed()
    requires Kept(g, live, h1.begin, |h1.words|, v) && Kept(g, live, h1.begin, |h1.words|, w)
    requires Refers(g, v) && !Refers(g, w)
    ensures Redirect(g, live, h1.begin, v) != Redirect(g, live, h1.begin, w) && v != w
  {
    KeptOutsider(g, live, h1, w);
    var i :| 0 <= i < g.Count() && v == g.Ptr(i);
    CompactedPtr(g, live, h1, i);
    assert Refers(h1, Redirect(g, live, h1.begin, v));
  }

  lemma ImagesDiffer(g: Heap, live: seq<bool>, h1: Heap, i: nat, j: nat)
    requires g.Parsed() && |live| == g.Count() && Compacted(g, live, h1)
    requires i < g.Count() && j < g.Count() && live[i] && live[j]
    ensures i < j ==> Redirect(g, live, h1.begin, g.Ptr(i)) < Redirect(g, live, h1.begin, g.Ptr(j))
    ensures i < j ==> g.Ptr(i) < g.Ptr(j)
  {
    hide Compacted, Redirect;
    RedirectPtr(g, live, h1.begin, i);
    RedirectPtr(g, live, h1.begin, j);
    if i < j {
      LocOrdered(g, live, i, j);
      Ordered(g, i, j);
    }
  }

  /** Kind, length, string bytes, constructor tag and code pointer of a live object are those it had. */
  lemma ObjectAlike(g: Heap, live: seq<bool>, h1: Heap, i: nat, k: nat)
    requires g.Parsed() && |live| == g.Count() && Compacted(g, live, h1) && h1.Parsed()
    requires i < g.Count() && live[i] && Rank(live, i) < h1.Count()
    ensures h1.Header(Rank(live, i)) == g.Header(i)
    ensures 2 <= k < FieldsFrom(g.Header(i)) && Tag(g.Header(i)) != STRING_TAG && k < ObjWords(g.Header(i)) ==>
              && g.bounds[i] + k < |g.words| && h1.bounds[Rank(live, i)] + k < |h1.words|
              && h1.words[h1.bounds[Rank(live, i)] + k] == g.words[g.bounds[i] + k]
    ensures Tag(g.Header(i)) == STRING_TAG && k <= Len(g.Header(i)) ==>
              && StringByteDefined(g, i, k) && StringByteDefined(h1, Rank(live, i), k)
              && StringByte(h1, Rank(live, i), k) == StringByte(g, i, k)
  {
    CompactedObject(g, live, h1, i);
    var header := g.Header(i);
    WordsAndTail(header);
    Inside(g, i);
    assert g.bounds[i + 1] == g.bounds[i] + ObjWords(header);
    assert ObjectCarried(g, live, h1, i);
    if 2 <= k < FieldsFrom(header) && Tag(header) != STRING_TAG && k < ObjWords(header) {
      assert CarriedWord(g, live, h1, i, k);
      assert !g.IsField(i, g.bounds[i] + k);
    }
    if Tag(header) == STRING_TAG && k <= Len(header) {
      StringAlike(g, live, h1, i, k);
    }
  }

  predicate StringByteDefined(h: Heap, i: nat, k: nat) {
    i < |h.bounds| && h.bounds[i] + 2 + k / 8 < |h.words|
  }

  /** Byte k of a string's contents, the final NUL included. */
  function StringByte(h: Heap, i: nat, k: nat): nat
    requires StringByteDefined(h, i, k)
  {
    ByteOf(h.words[h.bounds[i] + 2 + k / 8], k % 8)
  }

  lemma StringAlike(g: Heap, live: seq<bool>, h1: Heap, i: nat, k: nat)
    requires g.Parsed() && |live| == g.Count() && Compacted(g, live, h1)
    requires i < g.Count() && live[i] && Rank(live, i) < |h1.bounds|
    requires Tag(g.Header(i)) == STRING_TAG && k <= Len(g.Header(i))
    ensures StringByteDefined(g, i, k) && StringByteDefined(h1, Rank(live, i), k)
    ensures StringByte(h1, Rank(live, i), k) == StringByte(g, i, k)
  {
    var header := g.Header(i);
    CompactedObject(g, live, h1, i);
    Inside(g, i);
    WordsAndTail(header);
    StringPlace(header, k);
    assert g.bounds[i + 1] == g.bounds[i] + ObjWords(header);
    assert ObjectCarried(g, live, h1, i);
    hide Compacted, NewWord, ByteOf, ObjWords, WholeWords, TailBytes, Tag, Len, Loc, Rank;
    if 2 + k / 8 < WholeWords(header) {
      assert CarriedWord(g, live, h1, i, 2 + k / 8);
      StringWordKept(g, live, h1.begin, i, g.bounds[i] + 2 + k / 8);
    }
  }

  lemma StringPlace(header: nat, k: nat)
    requires Tag(header) == STRING_TAG && k <= Len(header)
    ensures 2 + k / 8 < ObjWords(header)
    ensures 2 + k / 8 < WholeWords(header) || (2 + k / 8 == WholeWords(header) && k % 8 < TailBytes(header))
  {
    WordsAndTail(header);
    var q, r := ObjBytes(header) / 8, ObjBytes(header) % 8;
    assert ObjBytes(header) == 8 * q + r;
  }

  lemma StringWordKept(g: Heap, live: seq<bool>, newBegin: nat, i: nat, k: nat)
    requires g.Parsed() && |live| == g.Count() && i < g.Count() && Tag(g.Header(i)) == STRING_TAG
    requires k < g.bounds[i + 1] && k < |g.words|
    ensures NewWord(g, live, newBegin, i, k) == g.words[k]
  {
    assert g.bounds[i + 1] == g.bounds[i] + ObjWords(g.Header(i));
    assert !g.IsField(i, k);
  }

  /** An extra root registered at the top word of the stack, or at the word just past the data, is marked from
      but left alone by update_references: it keeps its old word, which refers to nothing in the new heap.
      All other root slots are redirected. */
  lemma RootRedirectedUnlessOverlooked(g: Heap, rm: RootMap, area: seq<nat>, h1: Heap, area1: seq<nat>, p: nat, i: nat)
    requires g.Parsed() && Collected(g, rm, area, h1, area1) && h1.Parsed() && Apart(g, h1.begin, |h1.words|)
    requires rm.Fits(|area|) && p < |area| && rm.IsRoot(p) && i < g.Count() && area[p] == g.Ptr(i)
    ensures g.ReachableFrom(RootTargets(g, rm, area), i)
    ensures Refers(h1, area1[p]) <==> !rm.Overlooked(p)
  {
    hide Compacted, Heap.ReachableFrom, Redirect, Heap.Parsed, RootTargets, Loc, Rank, Apart;
    var live := LiveSeq(g, RootTargets(g, rm, area));
    RootReached(g, rm, area, p, i);
    if rm.Overlooked(p) {
      OldPtrOutside(g, h1, i);
    } else {
      assert rm.Fixed(p);
      ImageRefers(g, live, h1, i);
    }
  }

  lemma RootReached(g: Heap, rm: RootMap, area: seq<nat>, p: nat, i: nat)
    requires g.Parsed() && p < |area| && rm.IsRoot(p) && i < g.Count() && area[p] == g.Ptr(i)
    ensures g.ReachableFrom(RootTargets(g, rm, area), i)
  {
    RootReachable(g, RootTargets(g, rm, area), i);
  }

  lemma ImageRefers(g: Heap, live: seq<bool>, h1: Heap, i: nat)
    requires g.Parsed() && |live| == g.Count() && Compacted(g, live, h1) && h1.Parsed() && i < g.Count() && live[i]
    ensures Refers(h1, Redirect(g, live, h1.begin, g.Ptr(i)))
  {
    CompactedPtr(g, live, h1, i);
  }

  lemma OldPtrOutside(g: Heap, h1: Heap, i: nat)
    requires g.Parsed() && h1.Parsed() && i < g.Count() && Apart(g, h1.begin, |h1.words|)
    ensures !Refers(h1, g.Ptr(i))
  {
    Inside(g, i);
    forall j: nat | j < h1.Count()
      ensures h1.Ptr(j) != g.Ptr(i)
    {
      Inside(h1, j);
    }
  }

  // ---- an overlooked root ----

  /** A heap with one empty array. */
  function OneArray(begin: nat): Heap { Heap(begin, [ARRAY_TAG, 0], [0, 2]) }

  lemma OneArrayParsed(begin: nat)
    requires begin > 0 && begin % 8 == 0
    ensures OneArray(begin).Parsed() && OneArray(begin).Ptr(0) == begin + 16
  {
    var h := OneArray(begin);
    assert ObjWords(h.Header(0)) == 2;
  }

  lemma OneArrayMoves(begin: nat, newBegin: nat)
    requires begin > 0 && begin % 8 == 0 && newBegin > 0 && newBegin % 8 == 0
    ensures OneArray(begin).Parsed() && Compacted(OneArray(begin), [true], OneArray(newBegin))
  {
    OneArrayParsed(begin);
    var h, h1, live := OneArray(begin), OneArray(newBegin), [true];
    assert ObjWords(h.Header(0)) == 2;
    assert Loc(h, live, 0) == 0;
    assert Loc(h, live, 1) == 2;
    assert NewBounds(h, live, 0) == [0];
    assert NewBounds(h, live, 1) == [0, 2];
    WordsAndTail(h.Header(0));
    assert ObjectCarried(h, live, h1, 0);
  }

  const TOP_ROOT := RootMap(0, 1, 2, 2, [0])

  const TOP_AREA: seq<nat> := [0x1010, 1, 1]

  /** The root is marked from and not redirected. */
  lemma TopRoot()
    ensures TOP_ROOT.Fits(|TOP_AREA|) && TOP_ROOT.IsRoot(0) && TOP_ROOT.Overlooked(0)
    ensures forall p :: TOP_ROOT.Fixed(p) <==> p == 1
  {
    assert TOP_ROOT.extra == [0];
  }

  lemma TopRootCollected(g: Heap, h1: Heap)
    requires g == OneArray(0x1000) && h1 == OneArray(0x2000) && g.Parsed() && Compacted(g, [true], h1)
    ensures Collected(g, TOP_ROOT, TOP_AREA, h1, TOP_AREA)
  {
    hide Compacted, Heap.ReachableFrom, Heap.Parsed, RootTargets, RootMap.Fixed, RootMap.IsRoot, Redirect;
    TopRoot();
    OneArrayParsed(0x1000);
    RootReached(g, TOP_ROOT, TOP_AREA, 0, 0);
    var live := LiveSeq(g, RootTargets(g, TOP_ROOT, TOP_AREA));
    assert live == [true];
    UnboxedStays(g, live, 0x2000, 1);
  }

  /** An extra root registered at the top word of the stack: its object is reached and moves, its slot keeps the old
      word. */
  lemma RootLost()
    ensures
      var g, h1 := OneArray(0x1000), OneArray(0x2000);
      && g.Parsed() && TOP_ROOT.IsRoot(0) && TOP_AREA[0] == g.Ptr(0)
      && Collected(g, TOP_ROOT, TOP_AREA, h1, TOP_AREA) && !Refers(h1, TOP_AREA[0])
  {
    hide Compacted, Heap.ReachableFrom, Heap.Parsed, RootTargets, Collected;
    TopRoot();
    OneArrayParsed(0x1000);
    OneArrayParsed(0x2000);
    OneArrayMoves(0x1000, 0x2000);
    TopRootCollected(OneArray(0x1000), OneArray(0x2000));
    RootRedirectedUnlessOverlooked(OneArray(0x1000), TOP_ROOT, TOP_AREA, OneArray(0x2000), TOP_AREA, 0, 0);
  }
}
