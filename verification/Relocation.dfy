/** physically_relocate (runtime/gc.c:477-499): live objects slide down inside the chunk, each with one
    memmove of exactly its bytes, so the padding after a string keeps whatever was there. */
module Relocation {
  import opened Bytes
  import opened HeapLayout
  import opened MarkPhase
  import opened Sliding
  import opened Redirection

  function WholeWords(header: nat): (w: nat)
    ensures w >= 2
  {
    ObjBytes(header) / 8
  }

  function TailBytes(header: nat): (r: nat)
    ensures r < 8
  {
    ObjBytes(header) % 8
  }

  lemma WordsAndTail(header: nat)
    ensures ObjWords(header) == WholeWords(header) + if TailBytes(header) > 0 then 1 else 0
    ensures Tag(header) != STRING_TAG ==> TailBytes(header) == 0
  {
    var q, r := ObjBytes(header) / 8, ObjBytes(header) % 8;
    assert ObjBytes(header) == 8 * q + r;
    if r == 0 {
      assert ObjBytes(header) - 1 == 8 * (q - 1) + 7;
      assert (ObjBytes(header) - 1) / 8 == q - 1;
    } else {
      assert ObjBytes(header) - 1 == 8 * q + (r - 1);
      assert (ObjBytes(header) - 1) / 8 == q;
    }
  }

  predicate CopiedWord(t: seq<nat>, from: nat, s: seq<nat>, to: nat, k: nat) {
    from + k < |t| && to + k < |s| && s[to + k] == t[from + k]
  }

  predicate SameLowBytes(x: nat, y: nat, n: nat) {
    forall b :: 0 <= b < n ==> ByteOf(y, b) == ByteOf(x, b)
  }

  lemma MergedTail(dst: nat, src: nat, n: nat)
    ensures SameLowBytes(src, MergeLow(dst, src, n), n)
  {
    forall b | 0 <= b < n
      ensures ByteOf(MergeLow(dst, src, n), b) == ByteOf(src, b)
    {
      MergedByte(dst, src, n, b);
    }
  }

  /** The object at from in t has been moved to to in s and unmarked. */
  ghost predicate Moved(header: nat, t: seq<nat>, from: nat, s: seq<nat>, to: nat) {
    var whole, tail := WholeWords(header), TailBytes(header);
    && from + ObjWords(header) <= |t| && to + ObjWords(header) <= |s| && whole <= ObjWords(header)
    && (forall k :: 0 <= k < whole && k != 1 ==> CopiedWord(t, from, s, to, k))
    && s[to + 1] == ResetMark(t[from + 1])
    && (tail > 0 ==> whole < ObjWords(header) && SameLowBytes(t[from + whole], s[to + whole], tail))
  }

  ghost predicate ChangedOnlyIn(s: seq<nat>, s': seq<nat>, from: nat, to: nat) {
    |s'| == |s| && forall k :: 0 <= k < |s| && !(from <= k < to) ==> s'[k] == s[k]
  }

  /** The live ones among the first i objects have been moved; from object i on nothing has changed. */
  ghost predicate Relocating(h: Heap, live: seq<bool>, t: seq<nat>, s: seq<nat>, i: nat)
    requires h.Parsed() && |live| == h.Count() && i <= h.Count()
  {
    && |s| == |t| && |h.words| <= |t|
    && (forall k :: h.bounds[i] <= k < |t| ==> s[k] == t[k])
    && (forall a :: 0 <= a < i && live[a] ==> Moved(h.Header(a), t, h.bounds[a], s, Loc(h, live, a)))
  }

  lemma RelocatingStarts(h: Heap, live: seq<bool>, t: seq<nat>)
    requires h.Parsed() && |live| == h.Count() && |h.words| <= |t|
    ensures Relocating(h, live, t, t, 0) && h.bounds[0] == 0
  {
  }

  lemma MovedStays(header: nat, t: seq<nat>, from: nat, s: seq<nat>, s': seq<nat>, to: nat, lo: nat, hi: nat)
    requires Moved(header, t, from, s, to) && ChangedOnlyIn(s, s', lo, hi) && to + ObjWords(header) <= lo
    ensures Moved(header, t, from, s', to)
  {
    forall k | 0 <= k < WholeWords(header) && k != 1
      ensures CopiedWord(t, from, s', to, k)
    {
      assert CopiedWord(t, from, s, to, k);
    }
  }

  lemma MovedFrom(header: nat, t: seq<nat>, s: seq<nat>, from: nat, s': seq<nat>, to: nat)
    requires Moved(header, s, from, s', to) && |s| == |t|
    requires forall k :: from <= k < |t| ==> s[k] == t[k]
    ensures Moved(header, t, from, s', to)
  {
    forall k | 0 <= k < WholeWords(header) && k != 1
      ensures CopiedWord(t, from, s', to, k)
    {
      assert CopiedWord(s, from, s', to, k);
    }
  }

  /** Moving one more object overwrites neither a moved object nor one still to come. */
  lemma RelocateLive(h: Heap, live: seq<bool>, t: seq<nat>, s: seq<nat>, s': seq<nat>, i: nat)
    requires h.Parsed() && |live| == h.Count() && i < h.Count() && live[i] && Relocating(h, live, t, s, i)
    requires Moved(h.Header(i), s, h.bounds[i], s', Loc(h, live, i))
    requires ChangedOnlyIn(s, s', Loc(h, live, i), Loc(h, live, i) + ObjWords(h.Header(i)))
    ensures Relocating(h, live, t, s', i + 1)
  {
    LocBelow(h, live, i);
    Inside(h, i);
    assert h.bounds[i + 1] == h.bounds[i] + ObjWords(h.Header(i));
    hide Moved, Loc, ObjWords;
    forall a | 0 <= a < i + 1 && live[a]
      ensures Moved(h.Header(a), t, h.bounds[a], s', Loc(h, live, a))
    {
      if a < i {
        LocOrdered(h, live, a, i);
        MovedStays(h.Header(a), t, h.bounds[a], s, s', Loc(h, live, a), Loc(h, live, i),
          Loc(h, live, i) + ObjWords(h.Header(i)));
      } else {
        MovedFrom(h.Header(i), t, s, h.bounds[i], s', Loc(h, live, i));
      }
    }
  }

  lemma RelocateDead(h: Heap, live: seq<bool>, t: seq<nat>, s: seq<nat>, i: nat)
    requires h.Parsed() && |live| == h.Count() && i < h.Count() && !live[i] && Relocating(h, live, t, s, i)
    ensures Relocating(h, live, t, s, i + 1)
  {
    hide Moved;
    Inside(h, i);
  }

  /** What physically_relocate reads at object i. */
  lemma RelocatingReads(h: Heap, live: seq<bool>, newBegin: nat, t: seq<nat>, s: seq<nat>, i: nat)
    requires h.Parsed() && LiveMarks(h, live) && Located(h, live, h.Count()) && i <= h.Count()
    requires |live| == h.Count() && h.bounds[i] < h.Current()
    requires Updating(h, live, newBegin, t, h.Count(), h.Current()) && Relocating(h, live, t, s, i)
    ensures i < h.Count() && h.bounds[i] + 1 < |s|
    ensures s[h.bounds[i]] == h.Header(i) && h.bounds[i] + ObjWords(h.Header(i)) == h.bounds[i + 1] <= |s|
    ensures MarkBit(s[h.bounds[i] + 1]) == live[i]
    ensures live[i] ==> GetForward(s[h.bounds[i] + 1]) == h.begin + 8 * Loc(h, live, i)
    ensures Loc(h, live, i) <= h.bounds[i]
  {
    hide Redirect, Moved, GetForward;
    Ordered(h, i, h.Count());
    HeadsIntact(h, live, newBegin, t, h.Count(), h.Current(), i);
    LocBelow(h, live, i);
    assert h.Marked(i) == MarkBit(h.words[h.bounds[i] + 1]);
    if live[i] {
      LocatedAt(h, live, i);
    }
  }
}
