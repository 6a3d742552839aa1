/** What a collection follows and where objects end, in terms of header bits alone (runtime/gc.c:763-864,
    runtime/runtime_common.h), and what this makes of a whole collection: survivors are what items lead to. */
module ObjectFormat {
  import opened HeapLayout
  import opened MarkPhase
  import opened Sliding
  import opened Redirection
  import opened Relocation
  import opened Compaction

  /** Word k behind the start of an object with this header is an item: all words behind the two of the header in an
      array, those behind the tag in an s-expression, those behind the code pointer, which the length counts, in a
      closure, and none in a string. */
  predicate ItemAt(header: nat, k: nat) {
    var n := header / 8;
    || (header % 8 == 3 && 2 <= k < 2 + n)
    || (header % 8 == 5 && 3 <= k < 3 + n)
    || (header % 8 == 7 && 3 <= k < 2 + n)
  }

  /** The words of an object: two, then items, tag and code pointer included, or bytes with a final zero. */
  function WordsOf(header: nat): nat {
    var n := header / 8;
    if header % 8 == 1 then 2 + n / 8 + 1 else if header % 8 == 5 then 3 + n else 2 + n
  }

  lemma WordsAre(header: nat)
    ensures ObjWords(header) == WordsOf(header)
  {
    var n := Len(header);
    assert (16 + n + 1 - 1) / 8 + 1 == 2 + n / 8 + 1;
    assert (16 + 8 * n - 1) / 8 + 1 == 2 + n;
    assert (16 + 8 * (n + 1) - 1) / 8 + 1 == 3 + n;
  }

  /** Objects end where their headers say. */
  lemma ObjectEnds(h: Heap, i: nat)
    requires h.Parsed() && i < h.Count()
    ensures h.bounds[i] < |h.words| && h.words[h.bounds[i]] % 8 in {1, 3, 5, 7}
    ensures h.bounds[i + 1] == h.bounds[i] + WordsOf(h.words[h.bounds[i]])
  {
    WordsAre(h.words[h.bounds[i]]);
  }

  /** The words a collection follows are the items. */
  lemma FieldsAreItems(h: Heap, i: nat, k: nat)
    requires h.Parsed() && i < h.Count()
    ensures h.IsField(i, h.bounds[i] + k) <==> ItemAt(h.words[h.bounds[i]], k)
    ensures ItemAt(h.words[h.bounds[i]], k) ==> h.bounds[i] + k < h.bounds[i + 1] <= |h.words|
  {
    hide ObjWords;
    ObjectEnds(h, i);
    Inside(h, i);
  }

  // ---- references ----

  /** w is the address of the contents of object m. */
  predicate RefersTo(h: Heap, w: nat, m: nat)
    requires m < |h.bounds|
  {
    w == h.begin + 8 * h.bounds[m] + 16
  }

  /** An item of object i refers to object m. */
  ghost predicate Leads(h: Heap, i: nat, m: nat)
    requires h.Parsed() && i < h.Count() && m < h.Count()
  {
    exists k :: LeadsAt(h, i, k, m)
  }

  ghost predicate LeadsAt(h: Heap, i: nat, k: nat, m: nat)
    requires h.Parsed() && i < h.Count() && m < h.Count()
  {
    ItemAt(h.words[h.bounds[i]], k) && h.bounds[i] + k < |h.words| && RefersTo(h, h.words[h.bounds[i] + k], m)
  }

  lemma LeadsIsEdge(h: Heap, i: nat, m: nat)
    requires h.Parsed() && i < h.Count() && m < h.Count()
    ensures Leads(h, i, m) <==> h.Edge(i, m)
  {
    hide ItemAt, Heap.IsField;
    Inside(h, i);
    if Leads(h, i, m) {
      var k :| LeadsAt(h, i, k, m);
      FieldsAreItems(h, i, k);
      var at := h.bounds[i] + k;
      assert h.IsField(i, at) && h.words[at] == h.Ptr(m);
    }
    if h.Edge(i, m) {
      var at :| h.bounds[i] <= at < h.bounds[i + 1] && h.IsField(i, at) && h.words[at] == h.Ptr(m);
      FieldsAreItems(h, i, at - h.bounds[i]);
      assert LeadsAt(h, i, at - h.bounds[i], m);
    }
  }

  // ---- survivors ----

  ghost function Survivors(h: Heap, rm: RootMap, area: seq<nat>): set<nat>
    requires h.Parsed()
  {
    set i | 0 <= i < h.Count() && h.ReachableFrom(RootTargets(h, rm, area), i)
  }

  /** s holds what roots refer to and what items of its members refer to. */
  ghost predicate HoldsAll(h: Heap, rm: RootMap, area: seq<nat>, s: set<nat>)
    requires h.Parsed()
  {
    && (forall p, i :: 0 <= p < |area| && rm.IsRoot(p) && 0 <= i < h.Count() && RefersTo(h, area[p], i) ==> i in s)
    && (forall i, m :: i in s && 0 <= i < h.Count() && 0 <= m < h.Count() && Leads(h, i, m) ==> m in s)
  }

  /** The survivors are the least such set. */
  lemma SurvivorsLeast(h: Heap, rm: RootMap, area: seq<nat>)
    requires h.Parsed()
    ensures HoldsAll(h, rm, area, Survivors(h, rm, area))
    ensures forall s :: HoldsAll(h, rm, area, s) ==> Survivors(h, rm, area) <= s
  {
    hide Heap.ReachableFrom, Heap.Edge, Leads, Heap.Parsed;
    var roots, all := RootTargets(h, rm, area), Survivors(h, rm, area);
    forall p, i: nat | 0 <= p < |area| && rm.IsRoot(p) && i < h.Count() && RefersTo(h, area[p], i) ensures i in all {
      assert area[p] == h.Ptr(i);
      RootReachable(h, roots, i);
    }
    forall i, m | i in all && 0 <= i < h.Count() && 0 <= m < h.Count() && Leads(h, i, m) ensures m in all {
      LeadsIsEdge(h, i, m);
      ReachStep(h, roots, i, m);
    }
    forall s | HoldsAll(h, rm, area, s) ensures all <= s {
      LeastAmong(h, rm, area, s);
    }
  }

  lemma LeastAmong(h: Heap, rm: RootMap, area: seq<nat>, s: set<nat>)
    requires h.Parsed() && HoldsAll(h, rm, area, s)
    ensures Survivors(h, rm, area) <= s
  {
    hide Heap.ReachableFrom, Heap.Edge, Leads, Heap.Parsed;
    var roots := RootTargets(h, rm, area);
    assert Closed(h, s) by {
      forall i, j | i in s && 0 <= i < h.Count() && 0 <= j < h.Count() && h.Edge(i, j) ensures j in s {
        LeadsIsEdge(h, i, j);
      }
    }
    forall i | i in roots ensures i in s {
      var p :| 0 <= p < |area| && rm.IsRoot(p) && area[p] == h.Ptr(i);
      assert RefersTo(h, area[p], i);
    }
    forall j | j in Survivors(h, rm, area) ensures j in s {
      ClosedContainsReachable(h, s, roots, j);
    }
  }

  // ---- a collection ----

  /** Where the survivors go: their places in the order of the new heap. */
  ghost function Places(live: seq<bool>): map<nat, nat> { map i | 0 <= i < |live| && live[i] :: Rank(live, i) }

  /** The item is the new address of the survivor it referred to, or the word it was. */
  ghost predicate ItemKept(g: Heap, to: map<nat, nat>, h1: Heap, i: nat, k: nat)
    requires g.Parsed() && h1.Parsed() && i in to && i < g.Count() && to[i] < h1.Count()
  {
    && g.bounds[i] + k < |g.words| && h1.bounds[to[i]] + k < |h1.words|
    && var w, w' := g.words[g.bounds[i] + k], h1.words[h1.bounds[to[i]] + k];
    && (forall m :: 0 <= m < g.Count() && RefersTo(g, w, m) ==>
          m in to && to[m] < h1.Count() && RefersTo(h1, w', to[m]))
    && ((forall m :: 0 <= m < g.Count() ==> !RefersTo(g, w, m)) ==> w' == w)
  }

  ghost predicate ItemsKept(g: Heap, to: map<nat, nat>, h1: Heap, i: nat)
    requires g.Parsed() && h1.Parsed() && i in to && i < g.Count() && to[i] < h1.Count()
  {
    && h1.bounds[to[i]] < |h1.words| && g.bounds[i] < |g.words|
    && h1.words[h1.bounds[to[i]]] == g.words[g.bounds[i]]
    && forall k :: 0 <= k && ItemAt(g.words[g.bounds[i]], k) ==> ItemKept(g, to, h1, i, k)
  }

  /** The objects of the new heap are the survivors, in their order, with their headers, items and roots. */
  ghost predicate Kept(g: Heap, rm: RootMap, area: seq<nat>, h1: Heap, area1: seq<nat>, to: map<nat, nat>)
    requires g.Parsed()
  {
    && h1.Parsed() && to.Keys == Survivors(g, rm, area) && |area1| == |area|
    && (forall i :: i in to ==> to[i] < h1.Count() && ItemsKept(g, to, h1, i))
    && (forall i, j :: i in to && j in to && i < j ==> to[i] < to[j])
    && (forall r :: 0 <= r < h1.Count() ==> Taken(to, r))
    && (forall p :: 0 <= p < |area| && rm.IsRoot(p) ==> RootKept(g, area[p], h1, area1[p], to))
  }

  /** A root refers to where its survivor has gone, or holds the word it held. */
  ghost predicate RootKept(g: Heap, w: nat, h1: Heap, w': nat, to: map<nat, nat>)
    requires g.Parsed() && h1.Parsed()
  {
    && (forall m :: 0 <= m < g.Count() && RefersTo(g, w, m) ==>
          m in to && to[m] < h1.Count() && RefersTo(h1, w', to[m]))
    && ((forall m :: 0 <= m < g.Count() ==> !RefersTo(g, w, m)) ==> w' == w)
  }

  ghost predicate Taken(to: map<nat, nat>, r: nat) { exists i :: i in to && to[i] == r }

  lemma CollectionKeeps(g: Heap, rm: RootMap, area: seq<nat>, h1: Heap, area1: seq<nat>)
    requires Ready(g, rm, area) && Collected(g, rm, area, h1, area1)
    ensures Kept(g, rm, area, h1, area1, Places(LiveSeq(g, RootTargets(g, rm, area))))
  {
    hide Heap.ReachableFrom, Heap.Parsed, Heap.FieldsOk, Compacted, Redirect, RootTargets, Rank, ItemsKept, RootKept;
    var live := LiveSeq(g, RootTargets(g, rm, area));
    var to := Places(live);
    CompactedParsed(g, live, h1);
    SurvivorsLeast(g, rm, area);
    forall i | i in to ensures to[i] < h1.Count() && ItemsKept(g, to, h1, i) {
      CompactedPtr(g, live, h1, i);
      ItemsSurvive(g, rm, area, h1, i);
    }
    forall i, j | i in to && j in to && i < j ensures to[i] < to[j] {
      RankOrdered(live, i, j);
    }
    forall r: nat | r < h1.Count() ensures Taken(to, r) {
      var i := RankOnto(live, g.Count(), r);
      assert i in to && to[i] == r;
    }
    forall p | 0 <= p < |area| && rm.IsRoot(p) ensures RootKept(g, area[p], h1, area1[p], to) {
      RootSurvives(g, rm, area, h1, area1, p);
    }
  }

  lemma RootSurvives(g: Heap, rm: RootMap, area: seq<nat>, h1: Heap, area1: seq<nat>, p: nat)
    requires Ready(g, rm, area) && Collected(g, rm, area, h1, area1) && h1.Parsed() && p < |area| && rm.IsRoot(p)
    ensures |area1| == |area|
    ensures RootKept(g, area[p], h1, area1[p], Places(LiveSeq(g, RootTargets(g, rm, area))))
  {
    hide Heap.ReachableFrom, Heap.Parsed, Heap.FieldsOk, Compacted, Redirect, RootTargets, Rank, Ready;
    ReadyParsed(g, rm, area);
    var live := LiveSeq(g, RootTargets(g, rm, area));
    FixedWord(g, rm, area, p);
    var w := area[p];
    if m: nat :| m < g.Count() && RefersTo(g, w, m) {
      OnlyOne(g, w, m);
      CompactedPtr(g, live, h1, m);
    } else {
      NoReference(g, live, h1.begin, w);
    }
  }

  lemma ItemsSurvive(g: Heap, rm: RootMap, area: seq<nat>, h1: Heap, i: nat)
    requires g.Parsed() && g.FieldsOk() && i < g.Count() && h1.Parsed()
    requires
      var live := LiveSeq(g, RootTargets(g, rm, area));
      Compacted(g, live, h1) && live[i] && Rank(live, i) < h1.Count()
    ensures ItemsKept(g, Places(LiveSeq(g, RootTargets(g, rm, area))), h1, i)
  {
    hide Heap.ReachableFrom, Heap.Parsed, Heap.FieldsOk, Compacted, Redirect, RootTargets, Rank, ItemKept, ItemAt, Loc;
    var roots := RootTargets(g, rm, area);
    var live := LiveSeq(g, roots);
    ReachableClosed(g, g, roots);
    CompactedObject(g, live, h1, i);
    ObjectEnds(g, i);
    forall k: nat | ItemAt(g.words[g.bounds[i]], k) ensures ItemKept(g, Places(live), h1, i, k) {
      ItemSurvives(g, live, h1, i, k);
    }
  }

  lemma ItemSurvives(g: Heap, live: seq<bool>, h1: Heap, i: nat, k: nat)
    requires g.Parsed() && g.FieldsOk() && i < g.Count() && h1.Parsed() && |live| == g.Count() && LiveClosed(g, live)
    requires Compacted(g, live, h1) && live[i] && Rank(live, i) < h1.Count()
    requires g.bounds[i] < |g.words| && ItemAt(g.words[g.bounds[i]], k)
    ensures ItemKept(g, Places(live), h1, i, k)
  {
    hide Heap.Parsed, Heap.FieldsOk, Compacted, Redirect, Rank, ItemAt, LiveClosed, Loc;
    FieldsAreItems(g, i, k);
    CompactedObject(g, live, h1, i);
    ItemCarried(g, live, h1, i, k);
    var w := g.words[g.bounds[i] + k];
    if m: nat :| m < g.Count() && RefersTo(g, w, m) {
      assert LeadsAt(g, i, k, m);
      LeadsIsEdge(g, i, m);
      LiveEdge(g, live, i, m);
      CompactedPtr(g, live, h1, m);
      OnlyOne(g, w, m);
    } else {
      NoReference(g, live, h1.begin, w);
    }
  }

  lemma LiveEdge(g: Heap, live: seq<bool>, i: nat, m: nat)
    requires g.Parsed() && |live| == g.Count() && LiveClosed(g, live) && i < g.Count() && m < g.Count()
    requires live[i] && g.Edge(i, m)
    ensures live[m]
  {
  }

  lemma OnlyOne(g: Heap, w: nat, m: nat)
    requires g.Parsed() && m < g.Count() && RefersTo(g, w, m)
    ensures w == g.Ptr(m) && forall j :: 0 <= j < g.Count() && RefersTo(g, w, j) ==> j == m
  {
    PtrsDiffer(g, m);
    forall j | 0 <= j < g.Count() && RefersTo(g, w, j) ensures j == m {
      assert w == g.Ptr(j);
    }
  }

  lemma NoReference(g: Heap, live: seq<bool>, newBegin: nat, w: nat)
    requires g.Parsed() && |live| == g.Count() && forall m :: 0 <= m < g.Count() ==> !RefersTo(g, w, m)
    ensures Redirect(g, live, newBegin, w) == w
  {
    if Refers(g, w) {
      var m :| 0 <= m < g.Count() && w == g.Ptr(m);
      assert RefersTo(g, w, m);
    }
  }

  /** The word of an item in the new heap. */
  lemma ItemCarried(g: Heap, live: seq<bool>, h1: Heap, i: nat, k: nat)
    requires g.Parsed() && |live| == g.Count() && Compacted(g, live, h1) && i < g.Count() && live[i]
    requires Rank(live, i) < |h1.bounds| && h1.bounds[Rank(live, i)] == Loc(g, live, i)
    requires ItemAt(g.words[g.bounds[i]], k) && g.IsField(i, g.bounds[i] + k)
    ensures g.bounds[i] + k < |g.words| && h1.bounds[Rank(live, i)] + k < |h1.words|
    ensures h1.words[h1.bounds[Rank(live, i)] + k] == Redirect(g, live, h1.begin, g.words[g.bounds[i] + k])
  {
    hide Redirect, Loc, Rank;
    var header := g.Header(i);
    WordsAndTail(header);
    Inside(g, i);
    assert g.bounds[i + 1] == g.bounds[i] + ObjWords(header);
    assert ObjectCarried(g, live, h1, i);
    hide ObjWords, WholeWords, TailBytes, FieldsFrom;
    assert CarriedWord(g, live, h1, i, k);
  }
}
