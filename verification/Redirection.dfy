/** What update_references does to fields and roots (runtime/gc.c:330-475): every word that refers to an
    object is replaced by the reference to where the object is about to move, in the new chunk. */
module Redirection {
  import opened HeapLayout
  import opened MarkPhase
  import opened Sliding

  ghost predicate Refers(h: Heap, w: nat)
    requires |h.bounds| > 0
  {
    exists i :: 0 <= i < h.Count() && w == h.Ptr(i)
  }

  /** The word that stands for w in the compacted heap at byte address newBegin. */
  ghost function Redirect(h: Heap, live: seq<bool>, newBegin: nat, w: nat): nat
    requires h.Parsed() && |live| == h.Count()
  {
    if Refers(h, w) then
      var i :| 0 <= i < h.Count() && w == h.Ptr(i);
      newBegin + 8 * (Loc(h, live, i) + 2)
    else w
  }

  lemma RedirectPtr(h: Heap, live: seq<bool>, newBegin: nat, i: nat)
    requires h.Parsed() && |live| == h.Count() && i < h.Count()
    ensures Redirect(h, live, newBegin, h.Ptr(i)) == newBegin + 8 * (Loc(h, live, i) + 2)
  {
    assert Refers(h, h.Ptr(i));
    PtrsDiffer(h, i);
  }

  /** Objects only refer to live objects. */
  ghost predicate LiveClosed(h: Heap, live: seq<bool>)
    requires h.Parsed() && |live| == h.Count()
  {
    forall i, j :: 0 <= i < h.Count() && 0 <= j < h.Count() && live[i] && h.Edge(i, j) ==> live[j]
  }

  /** Either no reference, or one to a live object. */
  ghost predicate LiveWord(h: Heap, live: seq<bool>, w: nat)
    requires h.Parsed() && |live| == h.Count()
  {
    h.WordOk(w) && forall j :: 0 <= j < h.Count() && w == h.Ptr(j) ==> live[j]
  }

  /** The new chunk does not overlap the old one; they may be neighbours. */
  predicate Apart(h: Heap, newBegin: nat, newSize: nat) {
    newBegin >= h.begin + 8 * |h.words| || newBegin + 8 * newSize <= h.begin
  }

  // ---- fields ----

  ghost function NewWord(h: Heap, live: seq<bool>, newBegin: nat, a: nat, k: nat): nat
    requires h.Parsed() && |live| == h.Count() && a < h.Count() && k < |h.words|
  {
    if live[a] && h.IsField(a, k) then Redirect(h, live, newBegin, h.words[k]) else h.words[k]
  }

  ghost predicate ObjectUpdated(h: Heap, live: seq<bool>, newBegin: nat, t: seq<nat>, a: nat)
    requires h.Parsed() && |live| == h.Count() && a < h.Count() && |h.words| <= |t|
  {
    forall k :: h.bounds[a] <= k < h.bounds[a + 1] && k < |h.words| ==> t[k] == NewWord(h, live, newBegin, a, k)
  }

  /** The first i objects are updated, object i up to word f, and nothing else has changed. */
  ghost predicate Updating(h: Heap, live: seq<bool>, newBegin: nat, t: seq<nat>, i: nat, f: nat)
    requires h.Parsed() && |live| == h.Count() && i <= h.Count()
  {
    && |h.words| <= |t| && h.bounds[i] <= f
    && (forall a :: 0 <= a < i ==> ObjectUpdated(h, live, newBegin, t, a))
    && (forall k :: h.bounds[i] <= k < f && k < |h.words| ==> i < h.Count() && t[k] == NewWord(h, live, newBegin, i, k))
    && (forall k :: f <= k < |h.words| ==> t[k] == h.words[k])
  }

  lemma UpdatingStarts(h: Heap, live: seq<bool>, newBegin: nat, t: seq<nat>)
    requires h.Parsed() && |live| == h.Count() && |h.words| <= |t| && t[..|h.words|] == h.words
    ensures Updating(h, live, newBegin, t, 0, 0)
  {
    forall k | 0 <= k < |h.words|
      ensures t[k] == h.words[k]
    {
      assert t[..|h.words|][k] == t[k];
    }
  }

  /** No update touches a header or a forward word. */
  lemma HeadsIntact(h: Heap, live: seq<bool>, newBegin: nat, t: seq<nat>, i: nat, f: nat, j: nat)
    requires h.Parsed() && |live| == h.Count() && i <= h.Count() && Updating(h, live, newBegin, t, i, f)
    requires j < h.Count() && (i < h.Count() ==> f <= h.bounds[i + 1]) && (i == h.Count() ==> f == h.bounds[i])
    ensures h.bounds[j] + 1 < |h.words|
    ensures t[h.bounds[j]] == h.words[h.bounds[j]] && t[h.bounds[j] + 1] == h.words[h.bounds[j] + 1]
  {
    hide Redirect;
    Inside(h, j);
    if j < i {
      assert ObjectUpdated(h, live, newBegin, t, j);
      assert !h.IsField(j, h.bounds[j]) && !h.IsField(j, h.bounds[j] + 1);
    } else if j == i {
      assert !h.IsField(j, h.bounds[j]) && !h.IsField(j, h.bounds[j] + 1);
    } else {
      Ordered(h, i, j);
    }
  }

  /** One field is replaced. */
  lemma UpdateField(h: Heap, live: seq<bool>, newBegin: nat, t: seq<nat>, i: nat, f: nat)
    requires h.Parsed() && |live| == h.Count() && i < h.Count() && Updating(h, live, newBegin, t, i, f)
    requires f < h.bounds[i + 1] && f < |h.words|
    ensures Updating(h, live, newBegin, t[f := NewWord(h, live, newBegin, i, f)], i, f + 1)
  {
    hide NewWord;
    var t' := t[f := NewWord(h, live, newBegin, i, f)];
    forall a | 0 <= a < i
      ensures ObjectUpdated(h, live, newBegin, t', a)
    {
      assert ObjectUpdated(h, live, newBegin, t, a);
      Ordered(h, a, i);
    }
  }

  /** Words that need no update are passed over. */
  lemma {:induction false} SkipFields(h: Heap, live: seq<bool>, newBegin: nat, t: seq<nat>, i: nat, f: nat, g: nat)
    requires h.Parsed() && |live| == h.Count() && i < h.Count() && Updating(h, live, newBegin, t, i, f)
    requires f <= g <= h.bounds[i + 1] <= |h.words|
    requires forall k :: f <= k < g ==> NewWord(h, live, newBegin, i, k) == h.words[k]
    ensures Updating(h, live, newBegin, t, i, g)
    decreases g - f
  {
    if f < g {
      UpdateField(h, live, newBegin, t, i, f);
      assert t[f := NewWord(h, live, newBegin, i, f)] == t;
      SkipFields(h, live, newBegin, t, i, f + 1, g);
    }
  }

  lemma NextObject(h: Heap, live: seq<bool>, newBegin: nat, t: seq<nat>, i: nat)
    requires h.Parsed() && |live| == h.Count() && i < h.Count()
    requires Updating(h, live, newBegin, t, i, h.bounds[i + 1])
    ensures Updating(h, live, newBegin, t, i + 1, h.bounds[i + 1])
  {
    hide NewWord;
    assert ObjectUpdated(h, live, newBegin, t, i);
  }

  lemma UnboxedStays(h: Heap, live: seq<bool>, newBegin: nat, w: nat)
    requires h.Parsed() && |live| == h.Count() && !h.InHeap(w)
    ensures Redirect(h, live, newBegin, w) == w
  {
    if Refers(h, w) {
      var i :| 0 <= i < h.Count() && w == h.Ptr(i);
      PtrInHeap(h, i);
    }
  }

  lemma FieldRedirect(h: Heap, live: seq<bool>, newBegin: nat, i: nat, f: nat) returns (j: nat)
    requires h.Parsed() && h.FieldsOk() && |live| == h.Count() && LiveClosed(h, live)
    requires i < h.Count() && live[i] && h.bounds[i] <= f < h.bounds[i + 1] && h.IsField(i, f)
    requires f < |h.words| && h.InHeap(h.words[f])
    ensures j < h.Count() && live[j] && h.words[f] == h.Ptr(j)
    ensures NewWord(h, live, newBegin, i, f) == newBegin + 8 * (Loc(h, live, j) + 2)
  {
    j := FieldTarget(h, i, f);
    EdgeByField(h, i, f, j);
    RedirectPtr(h, live, newBegin, j);
  }

  lemma NotRedirected(h: Heap, live: seq<bool>, newBegin: nat, i: nat, f: nat)
    requires h.Parsed() && |live| == h.Count() && i < h.Count() && f < |h.words| && !h.InHeap(h.words[f])
    ensures NewWord(h, live, newBegin, i, f) == h.words[f]
  {
    UnboxedStays(h, live, newBegin, h.words[f]);
  }

  lemma SkipUnboxedWords(h: Heap, live: seq<bool>, newBegin: nat, t: seq<nat>, i: nat, f: nat, g: nat)
    requires h.Parsed() && |live| == h.Count() && i < h.Count() && Updating(h, live, newBegin, t, i, f)
    requires f <= g <= h.bounds[i + 1] <= |h.words|
    requires forall k :: f <= k < g ==> t[k] % 2 == 1
    ensures Updating(h, live, newBegin, t, i, g)
  {
    forall k | f <= k < g
      ensures NewWord(h, live, newBegin, i, k) == h.words[k]
    {
      assert t[k] == h.words[k];
      UnboxedStays(h, live, newBegin, h.words[k]);
    }
    SkipFields(h, live, newBegin, t, i, f, g);
  }

  /** The words of an object before its first field. */
  lemma SkipHead(h: Heap, live: seq<bool>, newBegin: nat, t: seq<nat>, i: nat, g: nat)
    requires h.Parsed() && |live| == h.Count() && i < h.Count() && Updating(h, live, newBegin, t, i, h.bounds[i])
    requires h.bounds[i] <= g <= h.bounds[i] + FieldsFrom(h.Header(i)) && g <= h.bounds[i + 1] <= |h.words|
    ensures Updating(h, live, newBegin, t, i, g)
  {
    hide Redirect;
    SkipFields(h, live, newBegin, t, i, h.bounds[i], g);
  }

  /** An object that is not live is passed over. */
  lemma SkipDead(h: Heap, live: seq<bool>, newBegin: nat, t: seq<nat>, i: nat)
    requires h.Parsed() && |live| == h.Count() && i < h.Count() && !live[i]
    requires Updating(h, live, newBegin, t, i, h.bounds[i])
    ensures Updating(h, live, newBegin, t, i, h.bounds[i + 1])
  {
    hide Redirect;
    Inside(h, i);
    SkipFields(h, live, newBegin, t, i, h.bounds[i], h.bounds[i + 1]);
  }

  lemma UpdatingReads(h: Heap, live: seq<bool>, newBegin: nat, t: seq<nat>, i: nat, f: nat)
    requires h.Parsed() && |live| == h.Count() && i < h.Count() && Updating(h, live, newBegin, t, i, f)
    requires f < |h.words|
    ensures |h.words| <= |t| && t[f] == h.words[f]
  {
  }

  lemma LocatedAt(h: Heap, live: seq<bool>, j: nat)
    requires h.Parsed() && |live| == h.Count() && Located(h, live, h.Count()) && j < h.Count() && live[j]
    ensures h.bounds[j] + 1 < |h.words|
    ensures GetForward(h.words[h.bounds[j] + 1]) == h.begin + 8 * Loc(h, live, j)
  {
    hide GetForward, Loc, ObjWords, Known;
    Inside(h, j);
  }

  // ---- roots ----

  /** The slots in fixed hold redirected words, all others their original ones. */
  ghost predicate AreaFixed(h: Heap, live: seq<bool>, newBegin: nat, area0: seq<nat>, area: seq<nat>, fixed: set<nat>)
    requires h.Parsed() && |live| == h.Count()
  {
    && |area| == |area0|
    && forall p :: 0 <= p < |area| ==>
         area[p] == if p in fixed then Redirect(h, live, newBegin, area0[p]) else area0[p]
  }

  /** A redirected word is no reference into the old chunk, so fixing a slot twice is harmless.  The chunk in front of
      the old one ends behind the last live object. */
  lemma RedirectedIsOutside(h: Heap, live: seq<bool>, newBegin: nat, newSize: nat, w: nat)
    requires h.Parsed() && |live| == h.Count() && LiveWord(h, live, w)
    requires Apart(h, newBegin, newSize) && Loc(h, live, h.Count()) < newSize
    ensures !h.InHeap(Redirect(h, live, newBegin, w))
  {
    if Refers(h, w) {
      var i :| 0 <= i < h.Count() && w == h.Ptr(i);
      RedirectPtr(h, live, newBegin, i);
      LocOrdered(h, live, i, h.Count());
      Inside(h, i);
    }
  }

  lemma FixReference(h: Heap, live: seq<bool>, newBegin: nat, newSize: nat, area0: seq<nat>, area: seq<nat>,
      fixed: set<nat>, p: nat)
    returns (j: nat)
    requires h.Parsed() && |live| == h.Count() && AreaFixed(h, live, newBegin, area0, area, fixed) && p < |area|
    requires LiveWord(h, live, area0[p]) && h.InHeap(area[p])
    requires Apart(h, newBegin, newSize) && Loc(h, live, h.Count()) < newSize
    ensures j < h.Count() && live[j] && area[p] == h.Ptr(j)
    ensures AreaFixed(h, live, newBegin, area0, area[p := newBegin + 8 * (Loc(h, live, j) + 2)], fixed + {p})
  {
    hide Redirect, Refers, Loc;
    RedirectedIsOutside(h, live, newBegin, newSize, area0[p]);
    assert area[p] == area0[p];
    j := TargetOf(h, area[p]);
    RedirectPtr(h, live, newBegin, j);
  }

  lemma FixOutsider(h: Heap, live: seq<bool>, newBegin: nat, area0: seq<nat>, area: seq<nat>, fixed: set<nat>, p: nat)
    requires h.Parsed() && |live| == h.Count() && AreaFixed(h, live, newBegin, area0, area, fixed) && p < |area|
    requires !h.InHeap(area[p])
    ensures AreaFixed(h, live, newBegin, area0, area, fixed + {p})
  {
    UnboxedStays(h, live, newBegin, area[p]);
    hide Redirect, Heap.InHeap;
  }

  lemma ForwardRead(h: Heap, live: seq<bool>, newBegin: nat, t: seq<nat>, j: nat)
    requires h.Parsed() && |live| == h.Count() && Updating(h, live, newBegin, t, h.Count(), h.Current())
    requires Located(h, live, h.Count()) && j < h.Count() && live[j]
    ensures h.bounds[j] + 1 < |t|
    ensures GetForward(t[h.bounds[j] + 1]) == h.begin + 8 * Loc(h, live, j)
  {
    hide GetForward, Loc;
    HeadsIntact(h, live, newBegin, t, h.Count(), h.Current(), j);
    LocatedAt(h, live, j);
  }
}
