/** The queue of mark, threaded through the forward words of the heap's own objects
    (runtime/gc.c:507-522): the object in heap position k holds, in its address bits, the k-th
    reference ever enqueued, while the enqueued bit sits in the object that is enqueued.
    words lists the forward words and refs the references of all objects, in heap order. */
module ThreadedQueue {
  import opened Wrappers
  import opened HeapLayout

  ghost predicate Refs(refs: seq<nat>) {
    forall i :: 0 <= i < |refs| ==> refs[i] % 4 == 0
  }

  /** q lists all objects enqueued so far, and the first done of them have been dequeued and marked;
      seen is the set of objects that were already marked. */
  ghost predicate QueueInv(words: seq<nat>, refs: seq<nat>, seen: set<nat>, q: seq<nat>, done: nat) {
    && |words| == |refs| && Refs(refs)
    && done <= |q| <= |refs|
    && Distinct(q)
    && (forall a :: 0 <= a < |q| ==> q[a] < |refs| && q[a] !in seen)
    && (forall a :: done <= a < |q| ==> GetForward(words[a]) == refs[q[a]])
    && (forall i :: 0 <= i < |refs| ==> (MarkBit(words[i]) <==> i in seen || i in q[..done]))
    && (forall i :: 0 <= i < |refs| ==> (EnqueuedBit(words[i]) <==> i in q[done..]))
  }

  /** queue_enqueue: the reference goes into the forward word at the tail, the bit into the object. */
  function Enqueue(words: seq<nat>, refs: seq<nat>, tail: nat, j: nat): (r: seq<nat>)
    requires tail < |words| == |refs| && j < |words|
  {
    var words' := words[tail := SetForward(words[tail], refs[j])];
    words'[j := MakeEnqueued(words'[j])]
  }

  /** queue_dequeue of the object j that the head names, followed by mark_object. */
  function DequeueAndMark(words: seq<nat>, j: nat): (r: seq<nat>)
    requires j < |words|
  {
    var words' := words[j := MakeDequeued(words[j])];
    words'[j := SetMark(words'[j])]
  }

  lemma {:induction false} Pigeonhole(q: seq<nat>, n: nat)
    requires Distinct(q) && forall a :: 0 <= a < |q| ==> q[a] < n
    ensures |q| <= n
  {
    if |q| > 0 {
      assert q[0] < n;
      if k :| 0 <= k < |q| && q[k] == n - 1 {
        Pigeonhole(q[..k] + q[k + 1..], n - 1);
      } else {
        Pigeonhole(q, n - 1);
      }
    }
  }

  /** Enqueuing never runs out of heap positions: an object still outside q leaves one free. */
  lemma QueueHasRoom(words: seq<nat>, refs: seq<nat>, seen: set<nat>, q: seq<nat>, done: nat, j: nat)
    requires QueueInv(words, refs, seen, q, done) && j < |refs| && j !in q
    ensures |q| < |refs|
  {
    Pigeonhole(q + [j], |refs|);
  }

  lemma EnqueueWords(words: seq<nat>, refs: seq<nat>, tail: nat, j: nat)
    requires Refs(refs) && tail < |words| == |refs| && j < |words|
    ensures var w := Enqueue(words, refs, tail, j);
            && |w| == |words|
            && forall i :: 0 <= i < |w| ==>
                 && GetForward(w[i]) == (if i == tail then refs[j] else GetForward(words[i]))
                 && MarkBit(w[i]) == MarkBit(words[i])
                 && EnqueuedBit(w[i]) == (i == j || EnqueuedBit(words[i]))
  {
    AddressBits(words[tail], refs[j]);
    FlagBits(words[tail := SetForward(words[tail], refs[j])][j]);
    hide MarkBit, EnqueuedBit, GetForward, SetForward, MakeEnqueued;
  }

  lemma DequeueWords(words: seq<nat>, j: nat)
    requires j < |words|
    ensures var w := DequeueAndMark(words, j);
            && |w| == |words|
            && forall i :: 0 <= i < |w| ==>
                 && GetForward(w[i]) == GetForward(words[i])
                 && MarkBit(w[i]) == (i == j || MarkBit(words[i]))
                 && EnqueuedBit(w[i]) == (i != j && EnqueuedBit(words[i]))
  {
    FlagBits(words[j]);
    FlagBits(MakeDequeued(words[j]));
    hide MarkBit, EnqueuedBit, GetForward, SetMark, MakeDequeued;
  }

  lemma EnqueueKeeps(words: seq<nat>, refs: seq<nat>, seen: set<nat>, q: seq<nat>, done: nat, j: nat)
    requires QueueInv(words, refs, seen, q, done)
    requires j < |refs| && j !in q && j !in seen
    ensures |q| < |refs| && QueueInv(Enqueue(words, refs, |q|, j), refs, seen, q + [j], done)
  {
    QueueHasRoom(words, refs, seen, q, done, j);
    EnqueueWords(words, refs, |q|, j);
    hide MarkBit, EnqueuedBit, GetForward, Enqueue;
    assert (q + [j])[..done] == q[..done];
    assert (q + [j])[done..] == q[done..] + [j];
  }

  /** The queue's head moves from the back to the front. */
  lemma HeadMoves(q: seq<nat>, done: nat)
    requires Distinct(q) && done < |q|
    ensures forall i :: i in q[..done + 1] <==> i in q[..done] || i == q[done]
    ensures forall i :: i in q[done + 1..] <==> i in q[done..] && i != q[done]
  {
    var j, front, back := q[done], q[..done], q[done + 1..];
    assert q[..done + 1] == front + [j];
    assert q[done..] == [j] + back;
    assert j !in back;
  }

  lemma DequeueKeeps(words: seq<nat>, refs: seq<nat>, seen: set<nat>, q: seq<nat>, done: nat)
    requires QueueInv(words, refs, seen, q, done) && done < |q|
    ensures QueueInv(DequeueAndMark(words, q[done]), refs, seen, q, done + 1)
  {
    hide MarkBit, EnqueuedBit, GetForward, DequeueAndMark, Distinct;
    DequeueWords(words, q[done]);
    HeadMoves(q, done);
  }

  lemma QueueReads(words: seq<nat>, refs: seq<nat>, seen: set<nat>, q: seq<nat>, done: nat, j: nat)
    requires QueueInv(words, refs, seen, q, done) && j < |refs|
    ensures MarkBit(words[j]) <==> j in seen || j in q[..done]
    ensures EnqueuedBit(words[j]) <==> j in q[done..]
    ensures (!MarkBit(words[j]) && !EnqueuedBit(words[j])) <==> j !in seen && j !in q
    ensures j !in q ==> |q| < |refs|
  {
    hide MarkBit, EnqueuedBit, GetForward;
    assert q == q[..done] + q[done..];
    if j !in q {
      QueueHasRoom(words, refs, seen, q, done, j);
    }
  }
}
