/** The mark-compact collector of runtime/gc.c: mark_phase, compact_phase and allocation. */
module MarkCompact {
  import opened HeapLayout
  import opened ThreadedQueue
  import opened MarkPhase
  import opened Sliding
  import opened Redirection
  import opened Bytes
  import opened Relocation
  import opened Compaction
  import opened ObjectFormat

  function Min(a: nat, b: nat): nat {
    if a < b then a else b
  }

  ghost function Slots(from: nat, to: nat): (r: set<nat>)
    ensures forall p :: p in r <==> from <= p < to
  {
    if to <= from then {} else Slots(from, to - 1) + {to - 1 as nat}
  }

  lemma LiveCount(h: Heap, live: seq<bool>)
    requires h.Parsed() && LiveMarks(h, live)
    ensures |live| == h.Count()
  {
  }

  class Collector {
    var mem: array<nat>       // the words of the chunk, heap.begin up to heap.end
    var begin: nat            // byte address of the first word
    var current: nat          // heap.current, as a word offset
    var area: array<nat>      // the words outside the heap that may hold roots
    var rootMap: RootMap
    ghost var bounds: seq<nat>

    ghost function H(): Heap
      reads this, mem
    {
      Heap(begin, mem[..], bounds)
    }

    /** Where the forward word of the object with this payload address lies. */
    function ForwardIndex(obj: nat): (k: int)
      reads this
    {
      (obj - begin) / 8 - 1
    }

    function HeaderIndex(obj: nat): (k: int)
      reads this
    {
      (obj - begin) / 8 - 2
    }

    predicate IsValidHeapPointer(p: nat)
      reads this
    {
      p % 2 == 0 && begin <= p <= begin + 8 * current
    }

    method QueueEnqueue(tail: nat, obj: nat, ghost t: nat, ghost j: nat) returns (tail': nat)
      requires H().Parsed() && t < H().Count() && j < H().Count()
      requires tail == bounds[t] && obj == H().Ptr(j)
      modifies mem
      ensures old(H()).SameObjects(H()) && H().Parsed() && References(H()) == old(References(H()))
      ensures Forwards(H()) == Enqueue(old(Forwards(H())), References(H()), t, j)
      ensures tail' == bounds[t + 1]
    {
      hide SetForward, MakeEnqueued, Heap.SameObjects;
      ghost var h := H();
      mem[tail + 1] := SetForward(mem[tail + 1], obj);
      ghost var h1 := H();
      ForwardWordUpdate(h, h1, t, SetForward(h.Forward(t), obj));
      var k := ForwardIndex(obj);
      assert k == bounds[j] + 1;
      mem[k] := MakeEnqueued(mem[k]);
      ForwardWordUpdate(h1, H(), j, MakeEnqueued(h1.Forward(j)));
      SameObjectsTransitive(h, h1, H());
      tail' := tail + ObjWords(mem[tail]);
    }

    method QueueDequeue(head: nat, ghost d: nat, ghost j: nat) returns (obj: nat, head': nat)
      requires H().Parsed() && d < H().Count() && j < H().Count()
      requires head == bounds[d] && GetForward(H().Forward(d)) == H().Ptr(j)
      modifies mem
      ensures old(H()).SameObjects(H()) && H().Parsed() && References(H()) == old(References(H()))
      ensures Forwards(H()) == old(Forwards(H()))[j := MakeDequeued(old(H().Forward(j)))]
      ensures obj == H().Ptr(j) && head' == bounds[d + 1]
    {
      ghost var h := H();
      obj := GetForward(mem[head + 1]);
      var k := ForwardIndex(obj);
      assert k == bounds[j] + 1;
      mem[k] := MakeDequeued(mem[k]);
      ForwardWordUpdate(h, H(), j, MakeDequeued(h.Forward(j)));
      head' := head + ObjWords(mem[head]);
    }

    method MarkObject(obj: nat, ghost j: nat)
      requires H().Parsed() && j < H().Count() && obj == H().Ptr(j)
      modifies mem
      ensures old(H()).SameObjects(H()) && H().Parsed() && References(H()) == old(References(H()))
      ensures Forwards(H()) == old(Forwards(H()))[j := SetMark(old(H().Forward(j)))]
    {
      ghost var h := H();
      var k := ForwardIndex(obj);
      assert k == bounds[j] + 1;
      mem[k] := SetMark(mem[k]);
      ForwardWordUpdate(h, H(), j, SetMark(h.Forward(j)));
    }

    /** ptr_field_begin_iterator and obj_next_ptr_field_iterator: the first even field word at or after f. */
    method SkipUnboxed(f: nat, end: nat) returns (f': nat)
      requires end <= mem.Length
      ensures f <= f' && (f' < end ==> mem[f'] % 2 == 0)
      ensures forall k :: f <= k < f' && k < end ==> mem[k] % 2 == 1
    {
      f' := f;
      while f' < end && mem[f'] % 2 == 1
        invariant f <= f' && forall k :: f <= k < f' ==> k < end && mem[k] % 2 == 1
      {
        f' := f' + 1;
      }
    }

    /** The loop of mark over the fields of one dequeued object. */
    method ScanObject(hdr: nat, tail: nat, ghost h0: Heap, ghost seen: set<nat>, ghost q0: seq<nat>, ghost done: nat,
        ghost c: nat)
      returns (tail': nat, ghost q: seq<nat>)
      requires h0.Parsed() && h0.FieldsOk() && c < h0.Count() && h0.Current() == current
      requires Marking(h0, H(), seen, q0, done)
      requires hdr == bounds[c] && tail == bounds[|q0|]
      modifies mem
      ensures Scanning(h0, H(), seen, q0, q, done, c, h0.bounds[c + 1])
      ensures |q| < |bounds| && tail' == bounds[|q|]
    {
      hide Scanning, Marking, Heap.Parsed, Heap.FieldsOk, Heap.SameObjects, ObjWords, FieldsFrom, Tag, Len, Known,
        References, Forwards, MarkBit, EnqueuedBit, Enqueue, QueueInv;
      tail', q := tail, q0;
      ScanningStarts(h0, H(), seen, q0, done, c);
      var end := hdr + ObjWords(mem[hdr]);
      var f := SkipUnboxed(hdr + FieldsFrom(mem[hdr]), end);
      ScanningSkips(h0, H(), seen, q0, q, done, c, hdr + FieldsFrom(mem[hdr]), f);
      while f < end
        invariant Scanning(h0, H(), seen, q0, q, done, c, f)
        invariant |q| < |bounds| && tail' == bounds[|q|]
        invariant hdr + 2 <= hdr + FieldsFrom(h0.Header(c)) <= f && (f < end <= mem.Length ==> mem[f] % 2 == 0)
        decreases end - f
      {
        ScanningHeap(h0, H(), seen, q0, q, done, c, f);
        tail', q := ScanField(mem[f], f, tail', h0, seen, q0, q, done, c);
        ScanningHeap(h0, H(), seen, q0, q, done, c, f + 1);
        var g := SkipUnboxed(f + 1, end);
        ScanningSkips(h0, H(), seen, q0, q, done, c, f + 1, g);
        f := g;
      }
      ScanningEnds(h0, H(), seen, q0, q, done, c, f);
    }

    /** One turn of that loop. */
    method ScanField(v: nat, f: nat, tail: nat, ghost h0: Heap, ghost seen: set<nat>, ghost q0: seq<nat>,
        ghost q: seq<nat>, ghost done: nat, ghost c: nat)
      returns (tail': nat, ghost q': seq<nat>)
      requires h0.Parsed() && h0.FieldsOk() && c < h0.Count() && h0.Current() == current
      requires Scanning(h0, H(), seen, q0, q, done, c, f)
      requires h0.bounds[c] <= f < h0.bounds[c + 1] && h0.IsField(c, f) && h0.bounds[c] + 2 <= f < mem.Length
      requires v == mem[f]
      requires |q| < |bounds| && tail == bounds[|q|]
      modifies mem
      ensures Scanning(h0, H(), seen, q0, q', done, c, f + 1)
      ensures |q'| < |bounds| && tail' == bounds[|q'|]
    {
      hide Scanning, Marking, QueueInv, Forwards, References, Enqueue, Heap.FieldsOk, Heap.Parsed, Heap.SameObjects,
        MarkBit, EnqueuedBit;
      ghost var h := H();
      ScanningHeap(h0, h, seen, q0, q, done, c, f);
      SamePayload(h0, h, c, f);
      assert h0.words[f] == v;
      tail', q' := tail, q;
      if IsValidHeapPointer(v) {
        ghost var j := ScanningReads(h0, h, seen, q0, q, done, c, f);
        var k := ForwardIndex(v);
        assert k == bounds[j] + 1;
        if !MarkBit(mem[k]) && !EnqueuedBit(mem[k]) {
          tail' := QueueEnqueue(tail, v, |q|, j);
          q' := q + [j];
          ScanningEnqueued(h0, h, H(), seen, q0, q, done, c, f, j);
        } else {
          ScanningKnown(h0, h, seen, q0, q, done, c, f, j);
        }
      } else {
        ScanningOutsider(h0, h, seen, q0, q, done, c, f);
      }
    }

    /** mark: everything reachable from obj gets its mark bit. */
    method Mark(obj: nat, ghost h0: Heap, ghost roots: set<nat>)
      requires h0.Parsed() && h0.FieldsOk() && h0.Current() == current && H().Parsed()
      requires MarkState(h0, H(), roots) && h0.WordOk(obj)
      requires forall i :: 0 <= i < h0.Count() && obj == h0.Ptr(i) ==> i in roots
      modifies mem
      ensures H().Parsed() && MarkState(h0, H(), roots)
      ensures MarkedSet(old(H())) <= MarkedSet(H())
      ensures forall i :: 0 <= i < h0.Count() && obj == h0.Ptr(i) ==> i in MarkedSet(H())
    {
      hide Heap.SameObjects, Heap.Parsed, Heap.FieldsOk, MarkState, MarkedSet;
      ghost var h := H();
      MarkStateWithin(h0, h, roots);
      if !IsValidHeapPointer(obj) {
        forall i: nat | i < h0.Count()
          ensures obj != h0.Ptr(i)
        {
          PtrInHeap(h0, i);
        }
        return;
      }
      ghost var j := TargetOf(h0, obj);
      PtrsDiffer(h0, j);
      var k := ForwardIndex(obj);
      assert k == bounds[j] + 1;
      InMarkedSet(h, j);
      if MarkBit(mem[k]) { return; }
      Traverse(obj, h0, roots, j);
    }

    /** The queue of mark with object j alone. */
    method StartQueue(obj: nat, ghost h0: Heap, ghost roots: set<nat>, ghost j: nat) returns (tail: nat)
      requires h0.Parsed() && H().Parsed() && MarkState(h0, H(), roots)
      requires j < h0.Count() && j in roots && j !in MarkedSet(H()) && obj == h0.Ptr(j)
      modifies mem
      ensures Run(h0, H(), roots, old(MarkedSet(H())), [j], 0) && 1 < |bounds| && tail == bounds[1]
    {
      hide Run, Marking, Heap.SameObjects, Heap.Parsed, MarkState, Forwards, References, MarkedSet, Enqueue;
      ghost var h := H();
      MarkStateWithin(h0, h, roots);
      tail := QueueEnqueue(0, obj, 0, j);
      RunStarts(h0, h, H(), roots, j);
      RunWithin(h0, H(), roots, MarkedSet(h), [j], 0);
    }

    /** The queue of mark, from object j on. */
    method Traverse(obj: nat, ghost h0: Heap, ghost roots: set<nat>, ghost j: nat)
      requires h0.Parsed() && h0.FieldsOk() && h0.Current() == current && H().Parsed() && MarkState(h0, H(), roots)
      requires j < h0.Count() && j in roots && j !in MarkedSet(H()) && obj == h0.Ptr(j)
      modifies mem
      ensures H().Parsed() && MarkState(h0, H(), roots)
      ensures MarkedSet(old(H())) <= MarkedSet(H()) && j in MarkedSet(H())
    {
      hide Run, Heap.Parsed, Heap.FieldsOk, MarkState, MarkedSet, Heap.Header, Heap.Forward;
      ghost var seen, q, done := MarkedSet(H()), [j], 0;
      var head, tail := 0, 0;
      MarkStateWithin(h0, H(), roots);
      tail := StartQueue(obj, h0, roots, j);
      while head != tail
        invariant Run(h0, H(), roots, seen, q, done)
        invariant done <= |q| < |bounds| && head == bounds[done] && tail == bounds[|q|]
        invariant |q| > 0 && q[0] == j
        decreases |bounds| - done
      {
        RunWithin(h0, H(), roots, seen, q, done);
        head, tail, q := MarkNext(head, tail, h0, roots, seen, q, done);
        done := done + 1;
      }
      RunWithin(h0, H(), roots, seen, q, done);
      RunOver(h0, H(), roots, seen, q, done);
    }

    /** One turn of the loop of mark: dequeue, mark, scan. */
    method MarkNext(head: nat, tail: nat, ghost h0: Heap, ghost roots: set<nat>, ghost seen: set<nat>,
        ghost q: seq<nat>, ghost done: nat)
      returns (head': nat, tail': nat, ghost q': seq<nat>)
      requires h0.Parsed() && h0.FieldsOk() && h0.Current() == current && Run(h0, H(), roots, seen, q, done)
      requires done < |q| < |bounds| && head == bounds[done] && tail == bounds[|q|]
      modifies mem
      ensures Run(h0, H(), roots, seen, q', done + 1)
      ensures q <= q' && |q'| < |bounds| && head' == bounds[done + 1] && tail' == bounds[|q'|]
    {
      hide Run, Marking, Scanning, Heap.SameObjects, Heap.Parsed, Heap.FieldsOk, References, GetForward, SetMark,
        MakeDequeued;
      ghost var h, c := H(), q[done];
      var obj;
      RunWithin(h0, h, roots, seen, q, done);
      obj, head' := QueueDequeue(head, done, c);
      ghost var h1 := H();
      ForwardsAt(h, c);
      ForwardsAt(h1, c);
      MarkObject(obj, c);
      SameObjectsTransitive(h, h1, H());
      hide Forwards;
      RunDequeues(h0, h, H(), roots, seen, q, done);
      var hdr := HeaderIndex(obj);
      tail', q' := ScanObject(hdr, tail, h0, seen, q, done + 1, c);
      RunScanned(h0, h, H(), roots, seen, q, q', done);
    }

    /** gc_root_scan_stack and scan_global_area: mark from each word of a region. */
    method MarkRegion(from: nat, to: nat, ghost h0: Heap, ghost roots: set<nat>)
      requires h0.Parsed() && h0.FieldsOk() && h0.Current() == current && H().Parsed() && mem != area
      requires MarkState(h0, H(), roots) && to <= area.Length
      requires forall p :: from <= p < to ==> GoodRoot(h0, roots, area[p])
      modifies mem
      ensures H().Parsed() && MarkState(h0, H(), roots)
      ensures MarkedSet(old(H())) <= MarkedSet(H())
      ensures forall p :: from <= p < to ==> TargetMarked(h0, H(), area[p])
    {
      hide MarkState, Heap.Parsed, Heap.FieldsOk, MarkedSet, Heap.WordOk;
      hide Heap.SameObjects;
      var p := from;
      while p < to
        invariant H().Parsed() && MarkState(h0, H(), roots)
        invariant MarkedSet(old(H())) <= MarkedSet(H())
        invariant forall k :: from <= k < p && k < to ==> TargetMarked(h0, H(), area[k])
      {
        Mark(area[p], h0, roots);
        p := p + 1;
      }
    }

    method MarkExtraRoots(ghost h0: Heap, ghost roots: set<nat>)
      requires h0.Parsed() && h0.FieldsOk() && h0.Current() == current && H().Parsed() && mem != area
      requires MarkState(h0, H(), roots)
      requires forall x :: 0 <= x < |rootMap.extra| ==>
                 rootMap.extra[x] < area.Length && GoodRoot(h0, roots, area[rootMap.extra[x]])
      modifies mem
      ensures H().Parsed() && MarkState(h0, H(), roots)
      ensures MarkedSet(old(H())) <= MarkedSet(H())
      ensures forall x :: 0 <= x < |rootMap.extra| ==> TargetMarked(h0, H(), area[rootMap.extra[x]])
    {
      hide MarkState, Heap.Parsed, Heap.FieldsOk, MarkedSet, Heap.WordOk;
      hide Heap.SameObjects;
      var k := 0;
      while k < |rootMap.extra|
        invariant k <= |rootMap.extra|
        invariant H().Parsed() && MarkState(h0, H(), roots)
        invariant MarkedSet(old(H())) <= MarkedSet(H())
        invariant forall x :: 0 <= x < k ==> TargetMarked(h0, H(), area[rootMap.extra[x]])
      {
        Mark(area[rootMap.extra[k]], h0, roots);
        k := k + 1;
      }
    }

    /** mark_phase: afterwards the marked objects are exactly those reachable from the roots. */
    method MarkPhase()
      requires H().Parsed() && H().FieldsOk() && H().Current() == current && mem != area
      requires MarkedSet(H()) == {} && NoneEnqueued(H())
      requires rootMap.Fits(area.Length) && RootsOk(H(), rootMap, area[..])
      modifies mem
      ensures H().Parsed() && old(H()).SameObjects(H()) && NoneEnqueued(H())
      ensures forall i :: 0 <= i < H().Count() ==>
                (H().Marked(i) <==> old(H()).ReachableFrom(old(RootTargets(H(), rootMap, area[..])), i))
    {
      hide Heap.Parsed, Heap.FieldsOk, MarkedSet, GoodRoot, RootTargets, RootsOk, Heap.SameObjects, MarkState,
        Heap.ReachableFrom, NoneEnqueued;
      ghost var h0 := H();
      ghost var roots := RootTargets(h0, rootMap, area[..]);
      MarkStarts(h0, roots);
      RootWords(h0, rootMap, area[..]);
      hide TargetMarked;
      MarkRegion(rootMap.top + 1, rootMap.bottom, h0, roots);
      MarkExtraRoots(h0, roots);
      MarkRegion(rootMap.dataStart, rootMap.dataStop, h0, roots);
      MarkedIsReachable(h0, H(), rootMap, area[..]);
    }

    // ---- compact_phase ----

    /** compute_locations: forward words of live objects receive the header addresses to move to. */
    method ComputeLocations(ghost live: seq<bool>) returns (liveSize: nat)
      requires H().Parsed() && H().Current() == current && LiveMarks(H(), live) && NoneEnqueued(H())
      modifies mem
      ensures old(H()).SameObjects(H()) && H().Parsed()
      ensures LiveMarks(H(), live) && Located(H(), live, H().Count()) && NoneEnqueued(H())
      ensures liveSize == Loc(old(H()), live, old(H().Count()))
    {
      hide Heap.Parsed, Heap.SameObjects, Located, LiveMarks, NoneEnqueued, SetForward, GetForward, MarkBit, ObjWords,
        Loc;
      ghost var h0 := H();
      ghost var i := 0;
      var scan, free := 0, 0;
      LocatedNone(h0, live);
      while scan < current
        invariant h0.SameObjects(H()) && H().Parsed() && i <= h0.Count() && bounds == h0.bounds && scan == bounds[i]
        invariant LiveMarks(H(), live) && |live| == h0.Count() && Located(H(), live, i) && NoneEnqueued(H())
        invariant free == Loc(h0, live, i)
        decreases h0.Count() - i
      {
        ghost var h := H();
        LocationsWithin(h0, h, live, i);
        if MarkBit(mem[scan + 1]) {
          mem[scan + 1] := SetForward(mem[scan + 1], begin + 8 * free);
          LocateLive(h0, h, H(), live, i);
          free := free + ObjWords(mem[scan]);
        } else {
          LocateDead(h, live, i);
        }
        scan := scan + ObjWords(mem[scan]);
        i := i + 1;
      }
      LocatedAll(h0, H(), live, i);
      liveSize := free;
    }

    /** The new reference for v, read off the forward word of the object in the new chunk's copy. */
    method NewAddress(v: nat, oldBegin: nat, ghost h: Heap, ghost live: seq<bool>, ghost j: nat) returns (w: nat)
      requires h.Parsed() && |live| == h.Count() && j < h.Count() && v == h.Ptr(j) && oldBegin == h.begin
      requires h.bounds[j] + 1 < mem.Length
      requires GetForward(mem[h.bounds[j] + 1]) == h.begin + 8 * Loc(h, live, j)
      ensures w == begin + 8 * (Loc(h, live, j) + 2)
    {
      var obj := begin + (v - oldBegin);
      var k := ForwardIndex(obj);
      assert k == h.bounds[j] + 1;
      var target := begin + (GetForward(mem[k]) - oldBegin);
      w := target + HEADER_BYTES;
    }

    /** One turn of the field loop of update_references. */
    method UpdateOneField(f: nat, oldBegin: nat, oldCurrent: nat, ghost h: Heap, ghost live: seq<bool>, ghost i: nat)
      requires h.Parsed() && h.FieldsOk() && |live| == h.Count() && LiveClosed(h, live) && Located(h, live, h.Count())
      requires oldBegin == h.begin && oldCurrent == h.Current()
      requires i < h.Count() && live[i] && h.bounds[i] <= f < h.bounds[i + 1] <= |h.words| && h.IsField(i, f)
      requires Updating(h, live, begin, mem[..], i, f) && f < mem.Length && mem[f] % 2 == 0
      modifies mem
      ensures Updating(h, live, begin, mem[..], i, f + 1)
    {
      hide Updating, NewWord, Heap.FieldsOk, Heap.Parsed, Located, LiveClosed, GetForward;
      UpdateField(h, live, begin, mem[..], i, f);
      UpdatingReads(h, live, begin, mem[..], i, f);
      var v: nat := mem[f];
      ghost var t: seq<nat> := mem[..];
      if oldBegin <= v <= oldBegin + 8 * oldCurrent {
        ghost var j := FieldRedirect(h, live, begin, i, f);
        HeadsIntact(h, live, begin, mem[..], i, f, j);
        LocatedAt(h, live, j);
        var w := NewAddress(v, oldBegin, h, live, j);
        mem[f] := w;
      } else {
        NotRedirected(h, live, begin, i, f);
        assert t[f := v] == t;
      }
      assert mem[..] == t[f := NewWord(h, live, begin, i, f)];
    }

    method UpdateObject(hdr: nat, oldBegin: nat, oldCurrent: nat, ghost h: Heap, ghost live: seq<bool>, ghost i: nat)
      requires h.Parsed() && h.FieldsOk() && |live| == h.Count() && LiveClosed(h, live) && Located(h, live, h.Count())
      requires oldBegin == h.begin && oldCurrent == h.Current()
      requires i < h.Count() && live[i] && hdr == h.bounds[i] && Updating(h, live, begin, mem[..], i, hdr)
      modifies mem
      ensures Updating(h, live, begin, mem[..], i, h.bounds[i + 1])
    {
      hide Updating, NewWord, Heap.FieldsOk, Located, LiveClosed, ObjWords, FieldsFrom;
      Inside(h, i);
      HeadsIntact(h, live, begin, mem[..], i, hdr, i);
      UpdatingReads(h, live, begin, mem[..], i, hdr);
      var end := hdr + ObjWords(mem[hdr]);
      var first := hdr + FieldsFrom(mem[hdr]);
      var f := SkipUnboxed(first, end);
      SkipHead(h, live, begin, mem[..], i, Min(first, end));
      SkipUnboxedWords(h, live, begin, mem[..], i, Min(first, end), Min(f, end));
      while f < end
        invariant Updating(h, live, begin, mem[..], i, Min(f, end)) && first <= f
        invariant f < end ==> end <= mem.Length && mem[f] % 2 == 0
        decreases end - f
      {
        UpdateOneField(f, oldBegin, oldCurrent, h, live, i);
        var g := SkipUnboxed(f + 1, end);
        SkipUnboxedWords(h, live, begin, mem[..], i, f + 1, Min(g, end));
        f := g;
      }
    }

    /** The heap part of update_references. */
    method UpdateFields(oldBegin: nat, oldCurrent: nat, ghost h: Heap, ghost live: seq<bool>)
      requires h.Parsed() && h.FieldsOk() && LiveMarks(h, live) && LiveClosed(h, live) && Located(h, live, h.Count())
      requires oldBegin == h.begin && oldCurrent == h.Current() == current
      requires |h.words| <= mem.Length && mem[..|h.words|] == h.words
      modifies mem
      ensures Updating(h, live, begin, mem[..], h.Count(), h.Current())
    {
      hide Updating, NewWord, Heap.FieldsOk, Located, LiveClosed, ObjWords, FieldsFrom;
      UpdatingStarts(h, live, begin, mem[..]);
      var scan := 0;
      ghost var i := 0;
      while scan < current
        invariant i <= h.Count() && scan == h.bounds[i] && Updating(h, live, begin, mem[..], i, scan)
        decreases h.Count() - i
      {
        assert i < h.Count();
        Inside(h, i);
        HeadsIntact(h, live, begin, mem[..], i, scan, i);
        UpdatingReads(h, live, begin, mem[..], i, scan);
        assert MarkBit(mem[scan + 1]) == live[i];
        if MarkBit(mem[scan + 1]) {
          UpdateObject(scan, oldBegin, oldCurrent, h, live, i);
        } else {
          SkipDead(h, live, begin, mem[..], i);
        }
        HeadsIntact(h, live, begin, mem[..], i, h.bounds[i + 1], i);
        NextObject(h, live, begin, mem[..], i);
        scan := scan + ObjWords(mem[scan]);
        i := i + 1;
      }
      LocatedAll(h, h, live, i);
    }

    /** One slot of scan_and_fix_region and scan_and_fix_region_roots. */
    method FixSlot(p: nat, oldBegin: nat, oldCurrent: nat, ghost h: Heap, ghost live: seq<bool>, ghost area0: seq<nat>,
        ghost fixed: set<nat>)
      requires h.Parsed() && |live| == h.Count() && Located(h, live, h.Count()) && mem != area
      requires oldBegin == h.begin && oldCurrent == h.Current()
      requires Updating(h, live, begin, mem[..], h.Count(), h.Current())
      requires Apart(h, begin, mem.Length) && |h.words| <= mem.Length && Loc(h, live, h.Count()) < mem.Length
      requires AreaFixed(h, live, begin, area0, area[..], fixed) && p < area.Length == |area0|
      requires LiveWord(h, live, area0[p])
      modifies area
      ensures AreaFixed(h, live, begin, area0, area[..], fixed + {p})
    {
      hide AreaFixed, Updating, Located, LiveWord, Heap.Parsed, Loc, GetForward;
      var v: nat := area[p];
      ghost var a: seq<nat> := area[..];
      if v % 2 == 0 && oldBegin <= v <= oldBegin + 8 * oldCurrent {
        ghost var j := FixReference(h, live, begin, mem.Length, area0, a, fixed, p);
        ForwardRead(h, live, begin, mem[..], j);
        var w := NewAddress(v, oldBegin, h, live, j);
        area[p] := w;
        assert area[..] == a[p := w];
      } else {
        FixOutsider(h, live, begin, area0, a, fixed, p);
      }
    }

    method ScanAndFixRegion(from: nat, to: nat, oldBegin: nat, oldCurrent: nat, ghost h: Heap, ghost live: seq<bool>,
        ghost area0: seq<nat>, ghost fixed: set<nat>)
      requires h.Parsed() && |live| == h.Count() && Located(h, live, h.Count()) && mem != area
      requires oldBegin == h.begin && oldCurrent == h.Current()
      requires Updating(h, live, begin, mem[..], h.Count(), h.Current())
      requires Apart(h, begin, mem.Length) && |h.words| <= mem.Length && Loc(h, live, h.Count()) < mem.Length
      requires AreaFixed(h, live, begin, area0, area[..], fixed) && from <= to <= area.Length == |area0|
      requires forall p :: from <= p < to ==> LiveWord(h, live, area0[p])
      modifies area
      ensures AreaFixed(h, live, begin, area0, area[..], fixed + Slots(from, to))
    {
      hide AreaFixed, Updating, Located, LiveWord, Heap.Parsed, Loc;
      var p := from;
      ghost var f := fixed;
      while p < to
        invariant from <= p <= to && f == fixed + Slots(from, p)
        invariant AreaFixed(h, live, begin, area0, area[..], f)
      {
        FixSlot(p, oldBegin, oldCurrent, h, live, area0, f);
        f := f + {p};
        p := p + 1;
      }
    }

    method ScanAndFixRoots(oldBegin: nat, oldCurrent: nat, ghost h: Heap, ghost live: seq<bool>, ghost area0: seq<nat>,
        ghost fixed: set<nat>)
      requires h.Parsed() && |live| == h.Count() && Located(h, live, h.Count()) && mem != area
      requires oldBegin == h.begin && oldCurrent == h.Current()
      requires Updating(h, live, begin, mem[..], h.Count(), h.Current())
      requires Apart(h, begin, mem.Length) && |h.words| <= mem.Length && Loc(h, live, h.Count()) < mem.Length
      requires AreaFixed(h, live, begin, area0, area[..], fixed) && area.Length == |area0| && rootMap.Fits(area.Length)
      requires forall p :: 0 <= p < |area0| && rootMap.Fixed(p) ==> LiveWord(h, live, area0[p])
      modifies area
      ensures AreaFixed(h, live, begin, area0, area[..], fixed + set e | e in rootMap.extra && !rootMap.Skipped(e))
    {
      hide AreaFixed, Updating, Located, LiveWord, Heap.Parsed, Loc;
      var x := 0;
      ghost var f := fixed;
      while x < |rootMap.extra|
        invariant x <= |rootMap.extra| && f == fixed + set e | e in rootMap.extra[..x] && !rootMap.Skipped(e)
        invariant AreaFixed(h, live, begin, area0, area[..], f)
      {
        var e := rootMap.extra[x];
        assert rootMap.extra[..x + 1] == rootMap.extra[..x] + [e];
        if rootMap.Skipped(e) {
        } else {
          assert e in rootMap.extra;
          FixSlot(e, oldBegin, oldCurrent, h, live, area0, f);
          f := f + {e};
        }
        x := x + 1;
      }
      assert rootMap.extra[..x] == rootMap.extra;
    }

    /** update_references: all fields of live objects, then all root slots. */
    method UpdateReferences(oldBegin: nat, oldCurrent: nat, ghost h: Heap, ghost live: seq<bool>)
      requires h.Parsed() && h.FieldsOk() && LiveMarks(h, live) && LiveClosed(h, live) && Located(h, live, h.Count())
      requires oldBegin == h.begin && oldCurrent == h.Current() == current && mem != area
      requires |h.words| <= mem.Length && mem[..|h.words|] == h.words && Apart(h, begin, mem.Length)
      requires |live| == h.Count() && Loc(h, live, h.Count()) < mem.Length
      requires rootMap.Fits(area.Length)
      requires forall p :: 0 <= p < area.Length && rootMap.Fixed(p) ==> LiveWord(h, live, area[p])
      modifies mem, area
      ensures Updating(h, live, begin, mem[..], h.Count(), h.Current())
      ensures |area[..]| == |old(area[..])|
      ensures forall p :: 0 <= p < area.Length ==>
                area[p] == if rootMap.Fixed(p) then Redirect(h, live, begin, old(area[p])) else old(area[p])
    {
      hide Updating, Located, LiveWord, Heap.Parsed, Heap.FieldsOk, LiveClosed, Loc, Redirect;
      ghost var area0: seq<nat> := area[..];
      LiveCount(h, live);
      UpdateFields(oldBegin, oldCurrent, h, live);
      assert AreaFixed(h, live, begin, area0, area[..], {});
      ScanAndFixRegion(rootMap.top + 1, rootMap.bottom + 1, oldBegin, oldCurrent, h, live, area0, {});
      ghost var f1 := {} + Slots(rootMap.top + 1, rootMap.bottom + 1);
      ScanAndFixRoots(oldBegin, oldCurrent, h, live, area0, f1);
      ghost var f2 := f1 + set e | e in rootMap.extra && !rootMap.Skipped(e);
      ScanAndFixRegion(rootMap.dataStart, rootMap.dataStop, oldBegin, oldCurrent, h, live, area0, f2);
      ghost var f3 := f2 + Slots(rootMap.dataStart, rootMap.dataStop);
      assert forall p :: p in f3 <==> rootMap.Fixed(p);
    }

    /** memmove of one object of ObjBytes bytes to a place not above it, then unmark_object. */
    method MoveObject(from: nat, to: nat)
      requires to <= from < mem.Length && from + ObjWords(mem[from]) <= mem.Length
      modifies mem
      ensures Moved(old(mem[from]), old(mem[..]), from, mem[..], to)
      ensures ChangedOnlyIn(old(mem[..]), mem[..], to, to + ObjWords(old(mem[from])))
    {
      var header := mem[from];
      WordsAndTail(header);
      var whole, tail := WholeWords(header), TailBytes(header);
      hide ObjWords, WholeWords, TailBytes;
      ghost var t: seq<nat> := mem[..];
      forall k | 0 <= k < whole {
        mem[to + k] := mem[from + k];
      }
      if tail > 0 {
        MergedTail(mem[to + whole], mem[from + whole], tail);
        mem[to + whole] := MergeLow(mem[to + whole], mem[from + whole], tail);
      }
      mem[to + 1] := ResetMark(mem[to + 1]);
      forall k | 0 <= k < whole && k != 1
        ensures CopiedWord(t, from, mem[..], to, k)
      {
        assert mem[to + k] == t[from + k];
      }
    }

    method PhysicallyRelocate(oldBegin: nat, ghost h: Heap, ghost live: seq<bool>)
      requires h.Parsed() && LiveMarks(h, live) && Located(h, live, h.Count())
      requires oldBegin == h.begin && current == h.Current() && |h.words| <= mem.Length
      requires Updating(h, live, begin, mem[..], h.Count(), h.Current())
      modifies mem
      ensures Relocating(h, live, old(mem[..]), mem[..], h.Count())
    {
      hide Updating, Located, LiveMarks, Heap.Parsed, Loc, Relocating, Moved, ChangedOnlyIn, GetForward, ObjWords;
      LiveCount(h, live);
      ghost var t: seq<nat> := mem[..];
      RelocatingStarts(h, live, t);
      var scan := 0;
      ghost var i := 0;
      while scan < current
        invariant i <= h.Count() && scan == h.bounds[i] && Relocating(h, live, t, mem[..], i)
        decreases h.Count() - i
      {
        ghost var s: seq<nat> := mem[..];
        RelocatingReads(h, live, begin, t, s, i);
        var next := scan + ObjWords(mem[scan]);
        if MarkBit(mem[scan + 1]) {
          var to := (GetForward(mem[scan + 1]) - oldBegin) / 8;
          assert to == Loc(h, live, i);
          MoveObject(scan, to);
          RelocateLive(h, live, t, s, mem[..], i);
        } else {
          RelocateDead(h, live, t, s, i);
        }
        scan := next;
        i := i + 1;
      }
      LocatedAll(h, h, live, i);
    }

    /** mmap of a zeroed chunk followed by memcpy of the old one. */
    method CopyChunk(size: nat) returns (chunk: array<nat>)
      requires mem.Length <= size
      ensures fresh(chunk) && chunk.Length == size && chunk[..mem.Length] == mem[..]
    {
      chunk := new nat[size];
      forall k | 0 <= k < size {
        chunk[k] := if k < mem.Length then mem[k] else 0;
      }
    }

    /** update_references and physically_relocate in the new chunk. */
    method Slide(oldBegin: nat, liveSize: nat, ghost h: Heap, ghost live: seq<bool>)
      requires h.Parsed() && h.FieldsOk() && LiveMarks(h, live) && LiveClosed(h, live) && Located(h, live, h.Count())
      requires NoneEnqueued(h) && oldBegin == h.begin && current == h.Current() && mem != area
      requires begin > 0 && begin % 8 == 0 && |h.words| <= mem.Length && mem[..|h.words|] == h.words
      requires Apart(h, begin, mem.Length)
      requires |live| == h.Count() && liveSize == Loc(h, live, h.Count()) < mem.Length && rootMap.Fits(area.Length)
      requires forall p :: 0 <= p < area.Length && rootMap.Fixed(p) ==> LiveWord(h, live, area[p])
      modifies this`current, this`bounds, mem, area
      ensures Compacted(h, live, H()) && current == liveSize
      ensures forall p :: 0 <= p < area.Length ==>
                area[p] == if rootMap.Fixed(p) then Redirect(h, live, begin, old(area[p])) else old(area[p])
    {
      hide Heap.Parsed, Heap.FieldsOk, LiveMarks, LiveClosed, Located, NoneEnqueued, LiveWord, Loc, Redirect, Updating,
        Relocating, Compacted;
      UpdateReferences(oldBegin, current, h, live);
      ghost var t: seq<nat> := mem[..];
      ghost var fixedArea: seq<nat> := area[..];
      PhysicallyRelocate(oldBegin, h, live);
      assert area[..] == fixedArea;
      current := liveSize;
      bounds := NewBounds(h, live, h.Count());
      AllCarried(h, live, t, H());
    }

    /** compact_phase, given the address newBegin of the chunk the system hands out. */
    method CompactPhase(additional: nat, newBegin: nat, ghost live: seq<bool>)
      requires H().Parsed() && H().FieldsOk() && H().Current() == current && mem != area
      requires LiveMarks(H(), live) && |live| == H().Count() && LiveClosed(H(), live) && NoneEnqueued(H())
      requires rootMap.Fits(area.Length)
      requires forall p :: 0 <= p < area.Length && rootMap.Fixed(p) ==> LiveWord(H(), live, area[p])
      requires newBegin > 0 && newBegin % 8 == 0
      requires Apart(H(), newBegin, NextSize(Loc(H(), live, H().Count()), additional, mem.Length))
      modifies this`mem, this`begin, this`current, this`bounds, mem, area
      ensures fresh(mem) && begin == newBegin
      ensures current == Loc(old(H()), live, old(H().Count()))
      ensures Largest(mem.Length, [64, old(mem.Length), current + current + additional])
      ensures mem.Length == NextSize(current, additional, old(mem.Length))
      ensures Compacted(old(H()), live, H())
      ensures forall p :: 0 <= p < area.Length ==>
                area[p] == if rootMap.Fixed(p) then Redirect(old(H()), live, newBegin, old(area[p])) else old(area[p])
    {
      hide Heap.Parsed, Heap.FieldsOk, Heap.SameObjects, LiveMarks, LiveClosed, Located, NoneEnqueued, LiveWord, Loc,
        Redirect, Compacted;
      ghost var g := H();
      var liveSize := ComputeLocations(live);
      ghost var h := H();
      BeforeSliding(g, h, live, rootMap, area[..]);
      var chunk := CopyChunk(NextSize(liveSize, additional, mem.Length));
      var oldBegin := begin;
      assert chunk[..|h.words|] == h.words;
      mem, begin := chunk, newBegin;
      Slide(oldBegin, liveSize, h, live);
      CompactedFromOriginal(g, h, live, H());
      NextSizeLargest(liveSize, additional, old(mem.Length));
      forall p | 0 <= p < area.Length
        ensures Redirect(h, live, newBegin, old(area[p])) == Redirect(g, live, newBegin, old(area[p]))
      {
        SameRedirect(g, h, live, newBegin, old(area[p]));
      }
    }

    // ---- allocation ----

    ghost predicate Valid()
      reads this, mem, area
    {
      mem != area && H().Parsed() && H().Current() == current && Ready(H(), rootMap, area[..])
    }

    /** A whole cycle: mark, compact, and the room that the request needs is there. */
    method Collect(size: nat, newBegin: nat)
      requires Valid()
      requires FreshChunk(H(), rootMap, area[..], newBegin,
        NextSize(LiveWords(H(), rootMap, area[..]), size, mem.Length))
      modifies this`mem, this`begin, this`current, this`bounds, mem, area
      ensures Valid() && Collected(old(H()), rootMap, old(area[..]), H(), area[..]) && fresh(mem)
      ensures begin == newBegin && current == LiveWords(old(H()), rootMap, old(area[..]))
      ensures mem.Length == NextSize(current, size, old(mem.Length)) && current + size <= mem.Length
      ensures Largest(mem.Length, [64, old(mem.Length), current + current + size])
      ensures exists to :: Kept(old(H()), rootMap, old(area[..]), H(), area[..], to)
    {
      hide Kept, Heap.Parsed, Heap.FieldsOk, Heap.SameObjects, LiveMarks, LiveClosed, NoneEnqueued, MarkedSet, LiveWord,
        Loc, Redirect, Compacted, Heap.ReachableFrom, RootsOk, Collected, FreshChunk;
      ghost var g, area0 := H(), area[..];
      ghost var roots := RootTargets(g, rootMap, area0);
      ghost var live := LiveSeq(g, roots);
      MarkPhase();
      ghost var h := H();
      BeforeCompacting(g, h, rootMap, area0);
      ChunkPlace(g, rootMap, area0, newBegin, NextSize(LiveWords(g, rootMap, area0), size, mem.Length));
      CompactPhase(size, newBegin, live);
      CollectedFromPhases(g, rootMap, area0, h, H(), area[..]);
      CollectedReady(g, rootMap, area0, H(), area[..]);
      CollectedCurrent(g, rootMap, area0, H(), area[..]);
      CollectionKeeps(g, rootMap, area0, H(), area[..]);
    }

    /** __init: an empty heap of the minimum capacity at the address the system hands out. */
    constructor (newBegin: nat, rm: RootMap, slots: array<nat>)
      requires newBegin > 0 && newBegin % 8 == 0 && rm.Fits(slots.Length)
      requires forall p :: 0 <= p < slots.Length ==> !rm.Overlooked(p)
      requires forall p :: 0 <= p < slots.Length ==> Foreign(newBegin, MINIMUM_CAPACITY, slots[p])
      ensures Valid() && fresh(mem) && area == slots && rootMap == rm && begin == newBegin
      ensures mem.Length == MINIMUM_CAPACITY && current == 0 && bounds == [0]
    {
      mem := new nat[MINIMUM_CAPACITY](_ => 0);
      begin, current, area, rootMap, bounds := newBegin, 0, slots, rm, [0];
    }

    /** gc_alloc_on_existing_heap, followed by the caller's store of the header (alloc_string, alloc_array,
        alloc_sexp, alloc_closure). */
    method Bump(header: nat) returns (p: nat)
      requires Valid() && Known(header) && current + ObjWords(header) <= mem.Length
      modifies this`current, this`bounds, mem
      ensures Valid() && Extended(old(H()), header, H())
      ensures p == begin + 8 * old(current)
    {
      hide ObjWords, Known, Ready, Heap.Parsed;
      ghost var h := H();
      var first, size := current, ObjWords(header);
      p := begin + 8 * first;
      current := current + size;
      forall k | first <= k < current {
        mem[k] := 0;
      }
      mem[first] := header;
      bounds := bounds + [current];
      assert Extended(h, header, H());
      assert area[..] == old(area[..]);
      ExtendedReady(h, header, H(), rootMap, area[..]);
      ReadyParsed(H(), rootMap, area[..]);
    }

    /** alloc: bump if the request fits, otherwise collect and bump; it never fails. */
    method Alloc(header: nat, newBegin: nat) returns (p: nat, ghost mid: Heap)
      requires Valid() && Known(header)
      requires current + ObjWords(header) > mem.Length ==>
                 FreshChunk(H(), rootMap, area[..], newBegin,
                   NextSize(LiveWords(H(), rootMap, area[..]), ObjWords(header), mem.Length))
      modifies this`mem, this`begin, this`current, this`bounds, mem, area
      ensures Valid() && mem.Length >= old(mem.Length) && mid.Parsed() && Extended(mid, header, H())
      ensures p == begin + 8 * mid.Current()
      ensures if old(current) + ObjWords(header) <= old(mem.Length)
              then mid == old(H()) && area[..] == old(area[..])
              else Collected(old(H()), rootMap, old(area[..]), mid, area[..])
    {
      hide ObjWords, Known, Ready, Heap.Parsed, Extended, Collected, FreshChunk;
      ReadyParsed(H(), rootMap, area[..]);
      if current + ObjWords(header) <= mem.Length {
        mid := H();
        p := Bump(header);
      } else {
        Collect(ObjWords(header), newBegin);
        ReadyParsed(H(), rootMap, area[..]);
        mid := H();
        p := Bump(header);
      }
    }

    /** The program stores a word into a field of an object. */
    method StoreField(k: nat, w: nat, ghost i: nat)
      requires Valid() && i < H().Count() && bounds[i] <= k < bounds[i + 1] && k < mem.Length && H().IsField(i, k)
      requires Storable(H(), w)
      modifies mem
      ensures Valid() && mem[..] == old(mem[..])[k := w]
    {
      hide Ready, Heap.Parsed, Storable;
      ghost var h := H();
      mem[k] := w;
      assert H() == h.(words := h.words[k := w]);
      FieldStoreReady(h, H(), i, k, w, rootMap, area[..]);
      ReadyParsed(H(), rootMap, area[..]);
    }

    /** The program stores a word into a root slot. */
    method StoreRoot(p: nat, w: nat)
      requires Valid() && p < area.Length && Storable(H(), w) && (rootMap.IsRoot(p) || p != rootMap.bottom)
      modifies area
      ensures Valid() && area[..] == old(area[..])[p := w]
    {
      hide Ready, Heap.Parsed, Storable;
      ghost var a: seq<nat> := area[..];
      area[p] := w;
      assert area[..] == a[p := w];
      RootStoreReady(H(), p, w, rootMap, a);
    }
  }
}
