/** What mark_phase keeps at each of its steps (runtime/gc.c:243-274, 507-571): the marked objects are
    closed under references and reachable, up to the objects still waiting in the threaded queue. */
module MarkPhase {
  import opened HeapLayout
  import opened ThreadedQueue

  function Forwards(h: Heap): (r: seq<nat>)
    requires h.Parsed()
    ensures |r| == h.Count()
  {
    seq(h.Count(), i requires 0 <= i < h.Count() => h.Forward(i))
  }

  function References(h: Heap): (r: seq<nat>)
    requires h.Parsed()
    ensures |r| == h.Count()
  {
    seq(h.Count(), i requires 0 <= i < h.Count() => h.Ptr(i))
  }

  ghost function MarkedSet(h: Heap): (r: set<nat>)
    requires h.Parsed()
  {
    set i | 0 <= i < h.Count() && h.Marked(i)
  }

  ghost predicate NoneEnqueued(h: Heap)
    requires h.Parsed()
  {
    forall i :: 0 <= i < h.Count() ==> !h.Enqueued(i)
  }

  lemma ForwardWordUpdate(h: Heap, h': Heap, i: nat, x: nat)
    requires h.Parsed() && i < h.Count()
    requires h'.begin == h.begin && h'.bounds == h.bounds && h'.words == h.words[h.bounds[i] + 1 := x]
    ensures h.SameObjects(h') && h'.Parsed()
    ensures Forwards(h') == Forwards(h)[i := x]
    ensures References(h') == References(h)
  {
    assert h.SameObjects(h') && h'.Parsed() by {
      assert h.IsForwardWord(h.bounds[i] + 1);
      SameObjectsParsed(h, h');
    }
    assert Forwards(h') == Forwards(h)[i := x] by {
      forall a: nat | a < h.Count() && a != i
        ensures h.bounds[a] != h.bounds[i]
      {
        if a < i {
          Ordered(h, a, i);
        } else {
          Ordered(h, i, a);
        }
      }
    }
    assert References(h') == References(h) by {
      assert forall a :: 0 <= a < h.Count() ==> h'.Ptr(a) == h.Ptr(a);
    }
  }

  lemma SameObjectsTransitive(h: Heap, h': Heap, h'': Heap)
    requires |h.bounds| > 0 && h.SameObjects(h') && h'.SameObjects(h'')
    ensures h.SameObjects(h'')
  {
    assert forall k :: h.IsForwardWord(k) ==> h'.IsForwardWord(k);
    assert forall k :: h'.IsForwardWord(k) ==> h.IsForwardWord(k);
  }

  // ---- what one run of mark keeps ----

  /** All references among the fields of object i before word f are already marked or enqueued. */
  ghost predicate Scanned(h: Heap, seen: set<nat>, q: seq<nat>, i: nat, f: nat)
    requires h.Parsed() && i < h.Count()
  {
    forall k, j :: h.bounds[i] <= k < h.bounds[i + 1] && k < f && h.IsField(i, k) && 0 <= j < h.Count()
      && h.words[k] == h.Ptr(j)
      ==> j in seen || j in q
  }

  ghost predicate Explored(h: Heap, seen: set<nat>, q: seq<nat>, i: nat)
    requires h.Parsed() && i < h.Count()
  {
    Scanned(h, seen, q, i, h.bounds[i + 1])
  }

  /** The state of mark between two dequeues. */
  ghost predicate Marking(h0: Heap, h: Heap, seen: set<nat>, q: seq<nat>, done: nat)
    requires h0.Parsed()
  {
    && h0.SameObjects(h) && h.Parsed() && |q| <= h0.Count()
    && QueueInv(Forwards(h), References(h0), seen, q, done)
  }

  lemma ForwardsAt(h: Heap, j: nat)
    requires h.Parsed() && j < h.Count()
    ensures h.bounds[j] + 1 < |h.words|
    ensures Forwards(h)[j] == h.Forward(j) == h.words[h.bounds[j] + 1]
    ensures h.Marked(j) == MarkBit(Forwards(h)[j]) && h.Enqueued(j) == EnqueuedBit(Forwards(h)[j])
  {
  }

  lemma MarkingReads(h0: Heap, h: Heap, seen: set<nat>, q: seq<nat>, done: nat, j: nat)
    requires h0.Parsed() && Marking(h0, h, seen, q, done) && j < h0.Count()
    ensures h0.bounds[j] + 1 < |h.words| && h.bounds == h0.bounds
    ensures h.Marked(j) <==> j in seen || j in q[..done]
    ensures h.Enqueued(j) <==> j in q[done..]
    ensures (!MarkBit(h.words[h0.bounds[j] + 1]) && !EnqueuedBit(h.words[h0.bounds[j] + 1])) <==> j !in seen && j !in q
    ensures j !in q ==> |q| < h0.Count()
  {
    assert h.bounds == h0.bounds && h.begin == h0.begin;
    hide MarkBit, EnqueuedBit, QueueInv, Heap.SameObjects;
    ForwardsAt(h, j);
    hide Forwards, Heap.Parsed;
    QueueReads(Forwards(h), References(h0), seen, q, done, j);
  }

  lemma SameReferences(h0: Heap, h: Heap)
    requires h0.Parsed() && h0.SameObjects(h) && h.Parsed()
    ensures References(h) == References(h0)
    ensures Refs(References(h0))
  {
    assert forall i :: 0 <= i < h0.Count() ==> h.Ptr(i) == h0.Ptr(i);
  }

  lemma TargetOf(h: Heap, w: nat) returns (j: nat)
    requires h.Parsed() && h.WordOk(w) && h.InHeap(w)
    ensures j < h.Count() && w == h.Ptr(j)
  {
    j :| 0 <= j < h.Count() && w == h.Ptr(j);
  }

  lemma FieldTarget(h: Heap, c: nat, f: nat) returns (j: nat)
    requires h.Parsed() && h.FieldsOk() && c < h.Count() && h.bounds[c] <= f < h.bounds[c + 1] && h.IsField(c, f)
    requires f < |h.words| && h.InHeap(h.words[f])
    ensures j < h.Count() && h.words[f] == h.Ptr(j)
  {
    assert h.WordOk(h.words[f]);
    j := TargetOf(h, h.words[f]);
  }

  lemma EdgeByField(h: Heap, c: nat, f: nat, j: nat)
    requires h.Parsed() && c < h.Count() && h.bounds[c] <= f < h.bounds[c + 1] && h.IsField(c, f)
    requires f < |h.words| && j < h.Count() && h.words[f] == h.Ptr(j)
    ensures h.Edge(c, j)
  {
  }

  lemma SkipUnboxedFields(h0: Heap, h: Heap, seen: set<nat>, q: seq<nat>, c: nat, f: nat, g: nat)
    requires h0.Parsed() && h0.SameObjects(h) && c < h0.Count() && h0.bounds[c] + 2 <= f <= g
    requires Scanned(h0, seen, q, c, f)
    requires forall k :: f <= k < g && k < h0.bounds[c + 1] ==> h.words[k] % 2 == 1
    ensures Scanned(h0, seen, q, c, g)
  {
    forall k, j | h0.bounds[c] <= k < h0.bounds[c + 1] && k < g && h0.IsField(c, k) && 0 <= j < h0.Count()
      && h0.words[k] == h0.Ptr(j)
      ensures j in seen || j in q
    {
      assert h0.Ptr(j) % 2 == 0;
      assert f <= k ==> h.words[k] == h0.words[k] by {
        if f <= k {
          SamePayload(h0, h, c, k);
        }
      }
    }
  }

  lemma ScanOneField(h: Heap, seen: set<nat>, q: seq<nat>, q': seq<nat>, c: nat, f: nat)
    requires h.Parsed() && c < h.Count() && q <= q' && Scanned(h, seen, q, c, f) && f < |h.words|
    requires forall j :: 0 <= j < h.Count() && h.words[f] == h.Ptr(j) ==> j in seen || j in q'
    ensures Scanned(h, seen, q', c, f + 1)
  {
    forall k, j | h.bounds[c] <= k < h.bounds[c + 1] && k < f + 1 && h.IsField(c, k) && 0 <= j < h.Count()
      && h.words[k] == h.Ptr(j)
      ensures j in seen || j in q'
    {
      if k < f {
        assert j in seen || j in q;
      }
    }
  }

  lemma PtrsDiffer(h: Heap, j: nat)
    requires h.Parsed() && j < h.Count()
    ensures forall i :: 0 <= i < h.Count() && h.Ptr(i) == h.Ptr(j) ==> i == j
  {
    forall i: nat | i < h.Count() && h.Ptr(i) == h.Ptr(j)
      ensures i == j
    {
      if i < j {
        Ordered(h, i, j);
      } else {
        Ordered(h, j, i);
      }
    }
  }

  /** Field f refers to object j, which is marked or enqueued by now. */
  lemma ScanReference(h: Heap, seen: set<nat>, q: seq<nat>, q': seq<nat>, c: nat, f: nat, j: nat)
    requires h.Parsed() && c < h.Count() && q <= q' && Scanned(h, seen, q, c, f) && f < |h.words|
    requires j < h.Count() && h.words[f] == h.Ptr(j) && (j in seen || j in q')
    ensures Scanned(h, seen, q', c, f + 1)
  {
    PtrsDiffer(h, j);
    ScanOneField(h, seen, q, q', c, f);
  }

  /** Field f holds no reference to the heap. */
  lemma ScanOutsider(h: Heap, seen: set<nat>, q: seq<nat>, c: nat, f: nat)
    requires h.Parsed() && c < h.Count() && Scanned(h, seen, q, c, f) && f < |h.words|
    requires !h.InHeap(h.words[f])
    ensures Scanned(h, seen, q, c, f + 1)
  {
    forall i | 0 <= i < h.Count()
      ensures h.InHeap(h.Ptr(i))
    {
      PtrInHeap(h, i);
    }
    ScanOneField(h, seen, q, q, c, f);
  }

  lemma PtrInHeap(h: Heap, i: nat)
    requires h.Parsed() && i < h.Count()
    ensures h.InHeap(h.Ptr(i))
  {
    Inside(h, i);
  }

  /** Enqueuing at the tail keeps the marking state. */
  lemma MarkingEnqueue(h0: Heap, h: Heap, h': Heap, seen: set<nat>, q: seq<nat>, done: nat, j: nat)
    requires h0.Parsed() && Marking(h0, h, seen, q, done)
    requires j < h0.Count() && j !in q && j !in seen
    requires h.SameObjects(h') && h'.Parsed()
    requires |q| < |Forwards(h)| ==> Forwards(h') == Enqueue(Forwards(h), References(h0), |q|, j)
    ensures |q| < h0.Count() && Marking(h0, h', seen, q + [j], done)
  {
    EnqueueKeeps(Forwards(h), References(h0), seen, q, done, j);
    SameObjectsTransitive(h0, h, h');
  }

  /** The state of mark while it looks at the fields of object c: those before word f are done, and
      every object enqueued since q0 is the target of one of them. */
  ghost predicate Scanning(h0: Heap, h: Heap, seen: set<nat>, q0: seq<nat>, q: seq<nat>, done: nat, c: nat, f: nat)
    requires h0.Parsed() && c < h0.Count()
  {
    && Marking(h0, h, seen, q, done)
    && q0 <= q
    && Scanned(h0, seen, q, c, f)
    && (forall a :: |q0| <= a < |q| ==> q[a] < h0.Count() && h0.Edge(c, q[a]))
  }

  lemma ScanningHeap(h0: Heap, h: Heap, seen: set<nat>, q0: seq<nat>, q: seq<nat>, done: nat, c: nat, f: nat)
    requires h0.Parsed() && c < h0.Count() && Scanning(h0, h, seen, q0, q, done, c, f)
    ensures h.Parsed() && h.begin == h0.begin && h.bounds == h0.bounds && |h.words| == |h0.words|
    ensures h0.SameObjects(h) && |q| <= h0.Count() && References(h) == References(h0)
    ensures h0.bounds[c] + 2 <= h0.bounds[c + 1] <= h0.Current() <= |h0.words|
    ensures h.words[h0.bounds[c]] == h0.Header(c)
    ensures h0.bounds[c + 1] == h0.bounds[c] + ObjWords(h0.Header(c))
  {
    Inside(h0, c);
    SameObjectsParsed(h0, h);
    SameReferences(h0, h);
  }

  lemma ScanningReads(h0: Heap, h: Heap, seen: set<nat>, q0: seq<nat>, q: seq<nat>, done: nat, c: nat, f: nat)
    returns (j: nat)
    requires h0.Parsed() && h0.FieldsOk() && c < h0.Count() && Scanning(h0, h, seen, q0, q, done, c, f)
    requires h0.bounds[c] <= f < h0.bounds[c + 1] && h0.IsField(c, f) && f < |h0.words|
    requires h0.InHeap(h0.words[f])
    ensures j < h0.Count() && h0.words[f] == h0.Ptr(j)
    ensures h0.bounds[j] + 1 < |h.words|
    ensures (!MarkBit(h.words[h0.bounds[j] + 1]) && !EnqueuedBit(h.words[h0.bounds[j] + 1])) <==> j !in seen && j !in q
    ensures j !in q ==> |q| < h0.Count()
  {
    j := FieldTarget(h0, c, f);
    MarkingReads(h0, h, seen, q, done, j);
  }

  lemma ScanningKnown(h0: Heap, h: Heap, seen: set<nat>, q0: seq<nat>, q: seq<nat>, done: nat, c: nat, f: nat, j: nat)
    requires h0.Parsed() && c < h0.Count() && Scanning(h0, h, seen, q0, q, done, c, f) && f < |h0.words|
    requires j < h0.Count() && h0.words[f] == h0.Ptr(j) && (j in seen || j in q)
    ensures Scanning(h0, h, seen, q0, q, done, c, f + 1)
  {
    ScanReference(h0, seen, q, q, c, f, j);
  }

  lemma ScanningOutsider(h0: Heap, h: Heap, seen: set<nat>, q0: seq<nat>, q: seq<nat>, done: nat, c: nat, f: nat)
    requires h0.Parsed() && c < h0.Count() && Scanning(h0, h, seen, q0, q, done, c, f) && f < |h0.words|
    requires !h0.InHeap(h0.words[f])
    ensures Scanning(h0, h, seen, q0, q, done, c, f + 1)
  {
    ScanOutsider(h0, seen, q, c, f);
  }

  lemma ScanningEnqueued(h0: Heap, h: Heap, h': Heap, seen: set<nat>, q0: seq<nat>, q: seq<nat>, done: nat, c: nat,
      f: nat, j: nat)
    requires h0.Parsed() && c < h0.Count() && Scanning(h0, h, seen, q0, q, done, c, f)
    requires h0.bounds[c] <= f < h0.bounds[c + 1] && h0.IsField(c, f) && f < |h0.words|
    requires j < h0.Count() && h0.words[f] == h0.Ptr(j) && j !in seen && j !in q
    requires h.SameObjects(h') && h'.Parsed()
    requires |q| < |Forwards(h)| == |References(h0)| && Forwards(h') == Enqueue(Forwards(h), References(h0), |q|, j)
    ensures Scanning(h0, h', seen, q0, q + [j], done, c, f + 1)
  {
    hide QueueInv, Enqueue, Forwards, References, Heap.SameObjects;
    MarkingEnqueue(h0, h, h', seen, q, done, j);
    EdgeByField(h0, c, f, j);
    ScanReference(h0, seen, q, q + [j], c, f, j);
  }

  lemma ScanningSkips(h0: Heap, h: Heap, seen: set<nat>, q0: seq<nat>, q: seq<nat>, done: nat, c: nat, f: nat, g: nat)
    requires h0.Parsed() && c < h0.Count() && Scanning(h0, h, seen, q0, q, done, c, f) && h0.bounds[c] + 2 <= f <= g
    requires h0.bounds[c + 1] <= |h.words|
    requires forall k :: f <= k < g && k < h0.bounds[c + 1] ==> h.words[k] % 2 == 1
    ensures Scanning(h0, h, seen, q0, q, done, c, g)
  {
    SkipUnboxedFields(h0, h, seen, q, c, f, g);
  }

  lemma ScanningStarts(h0: Heap, h: Heap, seen: set<nat>, q: seq<nat>, done: nat, c: nat)
    requires h0.Parsed() && c < h0.Count() && Marking(h0, h, seen, q, done)
    ensures h0.bounds[c] < |h0.words| == |h.words| && h0.bounds[c + 1] <= |h.words|
    ensures h.words[h0.bounds[c]] == h0.Header(c)
    ensures h0.bounds[c + 1] == h0.bounds[c] + ObjWords(h0.Header(c))
    ensures |q| < |h0.bounds| && h.bounds == h0.bounds
    ensures Scanning(h0, h, seen, q, q, done, c, h0.bounds[c] + FieldsFrom(h0.Header(c)))
  {
    assert Scanning(h0, h, seen, q, q, done, c, h0.bounds[c]);
    ScanningHeap(h0, h, seen, q, q, done, c, h0.bounds[c]);
  }

  lemma ScanningEnds(h0: Heap, h: Heap, seen: set<nat>, q0: seq<nat>, q: seq<nat>, done: nat, c: nat, f: nat)
    requires h0.Parsed() && c < h0.Count() && Scanning(h0, h, seen, q0, q, done, c, f) && h0.bounds[c + 1] <= f
    ensures Scanning(h0, h, seen, q0, q, done, c, h0.bounds[c + 1])
  {
  }

  // ---- the state of a mark phase ----

  /** h has the objects of h0, the marked ones are closed under references and reachable from the
      roots, and the queue is empty. */
  ghost predicate MarkState(h0: Heap, h: Heap, roots: set<nat>)
    requires h0.Parsed()
  {
    && h0.SameObjects(h) && h.Parsed()
    && NoneEnqueued(h)
    && Closed(h0, MarkedSet(h))
    && (forall i :: i in MarkedSet(h) ==> h0.ReachableFrom(roots, i))
  }

  /** Between two dequeues of a run of mark: everything dequeued has been explored. */
  ghost predicate Run(h0: Heap, h: Heap, roots: set<nat>, seen: set<nat>, q: seq<nat>, done: nat)
    requires h0.Parsed()
  {
    && Marking(h0, h, seen, q, done)
    && Closed(h0, seen) && (forall i :: i in seen ==> h0.ReachableFrom(roots, i))
    && done <= |q|
    && (forall a :: 0 <= a < |q| ==> q[a] < h0.Count() && h0.ReachableFrom(roots, q[a]))
    && (forall a :: 0 <= a < done ==> Explored(h0, seen, q, q[a]))
  }

  lemma QueueEmpty(h0: Heap, h: Heap, roots: set<nat>)
    requires h0.Parsed() && MarkState(h0, h, roots) && h.Parsed()
    ensures Marking(h0, h, MarkedSet(h), [], 0)
  {
    SameReferences(h0, h);
    hide MarkBit, EnqueuedBit, Heap.SameObjects;
    forall i | 0 <= i < h.Count()
      ensures MarkBit(Forwards(h)[i]) == (i in MarkedSet(h)) && !EnqueuedBit(Forwards(h)[i])
    {
      assert Forwards(h)[i] == h.Forward(i) && h.Marked(i) == MarkBit(h.Forward(i));
      assert !h.Enqueued(i);
    }
  }

  lemma RunStarts(h0: Heap, h: Heap, h': Heap, roots: set<nat>, j: nat)
    requires h0.Parsed() && MarkState(h0, h, roots) && h.Parsed() && j < h0.Count()
    requires j in roots && j !in MarkedSet(h)
    requires h.SameObjects(h') && h'.Parsed() && 0 < |Forwards(h)| == |References(h0)|
    requires Forwards(h') == Enqueue(Forwards(h), References(h0), 0, j)
    ensures Run(h0, h', roots, MarkedSet(h), [j], 0)
  {
    QueueEmpty(h0, h, roots);
    hide Marking, MarkedSet, Enqueue, Heap.SameObjects, Heap.Parsed;
    RootReachable(h0, roots, j);
    MarkingEnqueue(h0, h, h', MarkedSet(h), [], 0, j);
    assert [] + [j] == [j];
  }

  lemma RunDequeues(h0: Heap, h: Heap, h': Heap, roots: set<nat>, seen: set<nat>, q: seq<nat>, done: nat)
    requires h0.Parsed() && Run(h0, h, roots, seen, q, done) && done < |q|
    requires h.SameObjects(h') && h'.Parsed() && h.Parsed() && q[done] < |Forwards(h)|
    requires Forwards(h') == DequeueAndMark(Forwards(h), q[done])
    ensures Marking(h0, h', seen, q, done + 1)
  {
    hide QueueInv, DequeueAndMark, Heap.SameObjects, Heap.Parsed;
    DequeueKeeps(Forwards(h), References(h0), seen, q, done);
    SameObjectsTransitive(h0, h, h');
  }

  lemma ExploredMore(h: Heap, seen: set<nat>, q: seq<nat>, q': seq<nat>, i: nat)
    requires h.Parsed() && i < h.Count() && q <= q' && Explored(h, seen, q, i)
    ensures Explored(h, seen, q', i)
  {
    assert forall j :: j in q ==> j in q';
  }

  lemma RunScanned(h0: Heap, h: Heap, h': Heap, roots: set<nat>, seen: set<nat>, q: seq<nat>, q': seq<nat>, done: nat)
    requires h0.Parsed() && Run(h0, h, roots, seen, q, done) && done < |q|
    requires Scanning(h0, h', seen, q, q', done + 1, q[done], h0.bounds[q[done] + 1])
    ensures q <= q' && Run(h0, h', roots, seen, q', done + 1)
  {
    hide Marking, Scanned, Heap.Edge, Heap.Parsed, Heap.ReachableFrom;
    forall a | 0 <= a < |q'|
      ensures q'[a] < h0.Count() && h0.ReachableFrom(roots, q'[a])
    {
      if a < |q| {
        assert q'[a] == q[a];
      } else {
        ReachStep(h0, roots, q[done], q'[a]);
      }
    }
    forall a | 0 <= a < done + 1
      ensures Explored(h0, seen, q', q'[a])
    {
      assert q'[a] == q[a];
      if a < done {
        ExploredMore(h0, seen, q, q', q[a]);
      }
    }
  }

  lemma ExploredTargets(h: Heap, seen: set<nat>, q: seq<nat>, i: nat, j: nat)
    requires h.Parsed() && i < h.Count() && j < h.Count() && Explored(h, seen, q, i) && h.Edge(i, j)
    ensures j in seen || j in q
  {
  }

  lemma RunMarks(h0: Heap, h: Heap, roots: set<nat>, seen: set<nat>, q: seq<nat>, i: nat)
    requires h0.Parsed() && h.Parsed() && Run(h0, h, roots, seen, q, |q|) && i < h0.Count()
    ensures h.bounds == h0.bounds
    ensures i in MarkedSet(h) <==> i in seen || i in q
    ensures !h.Enqueued(i)
  {
    MarkingReads(h0, h, seen, q, |q|, i);
    assert q[..|q|] == q;
  }

  /** The queue has run empty: the marks are closed again and cover all that was enqueued. */
  lemma RunEnds(h0: Heap, h: Heap, roots: set<nat>, seen: set<nat>, q: seq<nat>)
    requires h0.Parsed() && h.Parsed() && Run(h0, h, roots, seen, q, |q|)
    ensures MarkState(h0, h, roots)
    ensures seen <= MarkedSet(h) && forall a :: 0 <= a < |q| ==> q[a] in MarkedSet(h)
  {
    assert h0.SameObjects(h) && h.Count() == h0.Count();
    forall i: nat | i < h0.Count()
      ensures i in MarkedSet(h) <==> i in seen || i in q
      ensures !h.Enqueued(i)
    {
      RunMarks(h0, h, roots, seen, q, i);
    }
    assert forall i :: i in MarkedSet(h) ==> i < h0.Count();
    RunWithin(h0, h, roots, seen, q, |q|);
    hide Marking, MarkedSet, Heap.Edge, Heap.SameObjects, Heap.ReachableFrom, Heap.Enqueued;
    forall i, j | i in MarkedSet(h) && 0 <= i < h0.Count() && 0 <= j < h0.Count() && h0.Edge(i, j)
      ensures j in MarkedSet(h)
    {
      if i !in seen {
        var a :| 0 <= a < |q| && q[a] == i;
        ExploredTargets(h0, seen, q, i, j);
      }
    }
  }

  lemma RunWithin(h0: Heap, h: Heap, roots: set<nat>, seen: set<nat>, q: seq<nat>, done: nat)
    requires h0.Parsed() && Run(h0, h, roots, seen, q, done)
    ensures h.Parsed() && h.begin == h0.begin && h.bounds == h0.bounds && |h.words| == |h0.words|
    ensures done <= |q| < |h0.bounds| && References(h) == References(h0)
    ensures forall i :: i in seen ==> i < h0.Count()
    ensures forall a :: 0 <= a < |q| ==> q[a] < h0.Count()
    ensures done < |q| ==> GetForward(h.Forward(done)) == h.Ptr(q[done])
  {
    SameReferences(h0, h);
    forall i | i in seen
      ensures i < h0.Count()
    {
      var p: seq<nat> :| |p| > 0 && h0.Path(p) && p[0] in roots && p[|p| - 1] == i;
    }
    if done < |q| {
      ForwardsAt(h, done);
    }
  }

  /** Head and tail have met: the queue has run empty. */
  lemma RunOver(h0: Heap, h: Heap, roots: set<nat>, seen: set<nat>, q: seq<nat>, done: nat)
    requires h0.Parsed() && Run(h0, h, roots, seen, q, done) && done <= |q| < |h0.bounds|
    requires h0.bounds[done] == h0.bounds[|q|]
    ensures h.Parsed() && MarkState(h0, h, roots)
    ensures seen <= MarkedSet(h) && forall a :: 0 <= a < |q| ==> q[a] in MarkedSet(h)
  {
    hide Run, Heap.Parsed, MarkState, MarkedSet;
    RunWithin(h0, h, roots, seen, q, done);
    if done < |q| {
      Ordered(h0, done, |q|);
    }
    RunEnds(h0, h, roots, seen, q);
  }

  lemma MarkStateWithin(h0: Heap, h: Heap, roots: set<nat>)
    requires h0.Parsed() && MarkState(h0, h, roots)
    ensures h.Parsed() && h.begin == h0.begin && h.bounds == h0.bounds && |h.words| == |h0.words|
    ensures References(h) == References(h0)
  {
    SameReferences(h0, h);
  }

  lemma InMarkedSet(h: Heap, j: nat)
    requires h.Parsed() && j < h.Count()
    ensures h.bounds[j] + 1 < |h.words|
    ensures MarkBit(h.words[h.bounds[j] + 1]) == (j in MarkedSet(h))
  {
  }

  // ---- roots ----

  /** Where the collector looks for roots in the root area: the program stack strictly between its top
      word and its bottom, the static data of the program, and the registered extra roots. */
  datatype RootMap = RootMap(top: nat, bottom: nat, dataStart: nat, dataStop: nat, extra: seq<nat>) {
    predicate IsRoot(p: nat) {
      top < p < bottom || dataStart <= p < dataStop || p in extra
    }

    /** Extra roots that update_references leaves alone, taking them for stack or data slots. */
    predicate Skipped(p: nat) {
      top <= p < bottom || dataStart <= p <= dataStop
    }

    /** The slots that update_references redirects: one word more of the stack than was marked from. */
    predicate Fixed(p: nat) {
      top < p <= bottom || dataStart <= p < dataStop || (p in extra && !Skipped(p))
    }

    /** An extra root at the top word of the stack or just past the data is marked from but not redirected. */
    predicate Overlooked(p: nat) {
      p in extra && !(top < p <= bottom) && !(dataStart <= p < dataStop) && (p == top || p == dataStop)
    }

    predicate Fits(size: nat) {
      && top < bottom < size && dataStart <= dataStop < size
      && forall x :: 0 <= x < |extra| ==> extra[x] < size
    }
  }

  ghost predicate RootsOk(h: Heap, rm: RootMap, area: seq<nat>)
    requires |h.bounds| > 0
  {
    forall p :: 0 <= p < |area| && rm.IsRoot(p) ==> h.WordOk(area[p])
  }

  ghost function RootTargets(h: Heap, rm: RootMap, area: seq<nat>): set<nat>
    requires |h.bounds| > 0
  {
    set i | 0 <= i < h.Count() && exists p :: 0 <= p < |area| && rm.IsRoot(p) && area[p] == h.Ptr(i)
  }

  /** If w refers to an object, the object is marked. */
  ghost predicate TargetMarked(h0: Heap, h: Heap, w: nat)
    requires h0.Parsed() && h.Parsed()
  {
    forall i :: 0 <= i < h0.Count() && w == h0.Ptr(i) ==> i in MarkedSet(h)
  }

  /** Marking started from a heap without marks, and every root's target is marked by now: the
      marked objects are exactly the reachable ones. */
  lemma MarkedIsReachable(h0: Heap, h: Heap, rm: RootMap, area: seq<nat>)
    requires h0.Parsed() && h.Parsed() && MarkState(h0, h, RootTargets(h0, rm, area))
    requires forall p :: 0 <= p < |area| && rm.IsRoot(p) ==> TargetMarked(h0, h, area[p])
    ensures h.bounds == h0.bounds && h0.SameObjects(h) && NoneEnqueued(h)
    ensures forall i :: 0 <= i < h0.Count() ==>
              (h.Marked(i) <==> h0.ReachableFrom(RootTargets(h0, rm, area), i))
  {
    var roots := RootTargets(h0, rm, area);
    assert h.bounds == h0.bounds;
    hide Heap.SameObjects, Heap.Edge, MarkBit, Heap.Path;
    assert roots <= MarkedSet(h) by {
      forall i | i in roots
        ensures i in MarkedSet(h)
      {
        var p :| 0 <= p < |area| && rm.IsRoot(p) && area[p] == h0.Ptr(i);
        assert TargetMarked(h0, h, area[p]);
      }
    }
    forall i: nat | i < h0.Count()
      ensures h.Marked(i) <==> h0.ReachableFrom(roots, i)
    {
      assert h.Marked(i) <==> i in MarkedSet(h);
      if h0.ReachableFrom(roots, i) {
        ClosedContainsReachable(h0, MarkedSet(h), roots, i);
      }
    }
  }

  lemma MarkStarts(h0: Heap, roots: set<nat>)
    requires h0.Parsed() && MarkedSet(h0) == {} && NoneEnqueued(h0)
    ensures MarkState(h0, h0, roots)
  {
  }

  ghost predicate GoodRoot(h: Heap, roots: set<nat>, w: nat)
    requires h.Parsed()
  {
    h.WordOk(w) && forall i :: 0 <= i < h.Count() && w == h.Ptr(i) ==> i in roots
  }

  lemma RootWords(h: Heap, rm: RootMap, area: seq<nat>)
    requires h.Parsed() && RootsOk(h, rm, area)
    ensures forall p :: 0 <= p < |area| && rm.IsRoot(p) ==> GoodRoot(h, RootTargets(h, rm, area), area[p])
  {
    hide Heap.WordOk;
  }
}
