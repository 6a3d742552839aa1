/** A copying pass over from-space (runtime32/runtime.c:1621-1819): which objects have been copied where, what both
    spaces then hold, and the steps that keep this so. */
module CopyingPass {
  import opened CopyingHeap

  /** The heap before the pass: from-space, its objects, where to-space lies, the even words that are no
      references, and the words of the roots. */
  datatype Scene = Scene(base: int, mem: Words, objs: seq<nat>, used: nat, tbase: int, tsize: nat, outsiders: iset<int>,
      roots: set<int>)

  predicate IsRef(p: Scene, w: int) { InSpace(p.base, |p.mem|, w) }

  function Of(p: Scene, w: int): int { Target(p.base, w) }

  ghost predicate WordOk(p: Scene, w: int) {
    if IsRef(p, w) then Of(p, w) in p.objs && w == Address(p.base, Of(p, w)) else w % 2 == 0 ==> w in p.outsiders
  }

  /** The words behind the header that may be references. */
  function FieldsEnd(mem: Words, c: int): int {
    if Kind(Header(mem, c)) == STRING then c else Back(mem, c)
  }

  ghost predicate FieldsOk(p: Scene) {
    forall c, k :: c in p.objs && c <= k < FieldsEnd(p.mem, c) && k < |p.mem| ==> WordOk(p, p.mem[k])
  }

  ghost predicate Terminated(mem: Words, c: nat) {
    Kind(Header(mem, c)) == STRING ==> exists k :: c <= k < Back(mem, c) && k < |mem| && HasZero(mem[k])
  }

  /** Every word that may be a reference is one or is harmless, and there is room for one word more. */
  ghost predicate HeapOk(p: Scene) {
    && Parsed(p.mem, p.objs, p.used) && p.used < |p.mem| && p.base % 4 == 0
    && FieldsOk(p) && (forall c :: c in p.objs ==> Terminated(p.mem, c))
    && (forall w :: w in p.roots ==> WordOk(p, w))
  }

  /** To-space lies elsewhere and is not smaller. */
  ghost predicate SceneOk(p: Scene) {
    && HeapOk(p) && |p.mem| <= p.tsize && p.tbase % 4 == 0
    && (p.base + 4 * |p.mem| <= p.tbase || p.tbase + 4 * p.tsize <= p.base)
    && (forall w :: w in p.outsiders ==> !InSpace(p.tbase, p.tsize, w))
  }

  // ---- reachability ----

  /** A set that holds what the roots and its members refer to. */
  ghost predicate Closed(p: Scene, s: set<int>) {
    && (forall w :: w in p.roots && IsRef(p, w) ==> Of(p, w) in s)
    && (forall c, k :: c in s && c in p.objs && c <= k < FieldsEnd(p.mem, c) && k < |p.mem| && IsRef(p, p.mem[k]) ==>
          Of(p, p.mem[k]) in s)
  }

  /** Reachable from the roots: in every closed set. */
  ghost predicate Reached(p: Scene, c: int) {
    forall s: set<int> :: Closed(p, s) ==> c in s
  }

  lemma RootReached(p: Scene, w: int)
    requires w in p.roots && IsRef(p, w)
    ensures Reached(p, Of(p, w))
  {
  }

  lemma FieldReached(p: Scene, c: int, k: int)
    requires Reached(p, c) && c in p.objs && c <= k < FieldsEnd(p.mem, c) && 0 <= k < |p.mem| && IsRef(p, p.mem[k])
    ensures Reached(p, Of(p, p.mem[k]))
  {
    forall s: set<int> | Closed(p, s) ensures Of(p, p.mem[k]) in s {
      assert c in s;
    }
  }

  // ---- progress ----

  /** The copied objects in order, and where each has gone. */
  datatype Progress = Progress(order: seq<nat>, fwd: map<int, nat>)

  ghost predicate Listed(p: Scene, s: Progress) {
    && (forall c :: c in s.fwd <==> c in s.order)
    && (forall i :: 0 <= i < |s.order| ==> s.order[i] in s.fwd && s.order[i] in p.objs && Reached(p, s.order[i]))
    && (forall i, j :: 0 <= i < j < |s.order| ==> s.order[i] != s.order[j])
  }

  ghost function News(p: Scene, s: Progress): (r: seq<nat>)
    requires Listed(p, s)
    ensures |r| == |s.order|
  {
    seq(|s.order|, i requires 0 <= i < |s.order| => s.fwd[s.order[i]])
  }

  ghost predicate FromState(p: Scene, s: Progress, a: Words) {
    |a| == |p.mem|
      && forall i :: 0 <= i < |a| ==> a[i] == if i + 1 in s.fwd then Address(p.tbase, s.fwd[i + 1]) else p.mem[i]
  }

  /** The copy has the header, and the tag if any. */
  ghost predicate SameHead(p: Scene, b: Words, c: int, d: int) {
    && Header(b, d) == Header(p.mem, c)
    && (Head(Header(p.mem, c)) == 2 ==> 2 <= c <= |p.mem| && 2 <= d <= |b| && b[d - 2] == p.mem[c - 2])
  }

  ghost predicate ToState(p: Scene, s: Progress, b: Words, cur: int) {
    && |b| == p.tsize && Listed(p, s) && Parsed(b, News(p, s), cur)
    && (forall c :: c in s.fwd ==> SameHead(p, b, c, s.fwd[c]))
    && (forall i :: cur <= i < |b| && 0 <= i ==> b[i] == 0)
    && cur == Total(p.mem, p.objs, |p.objs|, s.fwd.Keys)
  }

  ghost predicate Copying(p: Scene, s: Progress, a: Words, b: Words, cur: int) {
    FromState(p, s, a) && ToState(p, s, b, cur)
  }

  /** The word a copied field holds. */
  ghost predicate Redirected(p: Scene, s: Progress, w: int, w': int) {
    if IsRef(p, w) then Of(p, w) in s.fwd && w' == Address(p.tbase, s.fwd[Of(p, w)]) else w' == w
  }

  ghost predicate FieldDone(p: Scene, s: Progress, b: Words, c: int, k: int) {
    c in s.fwd && 0 <= c + k < |p.mem| && 0 <= s.fwd[c] + k < |b| && Redirected(p, s, p.mem[c + k], b[s.fwd[c] + k])
  }

  /** The first n fields of c are copied. */
  ghost predicate FieldsDone(p: Scene, s: Progress, b: Words, c: int, n: int) {
    c in s.fwd && forall k :: 0 <= k < n ==> FieldDone(p, s, b, c, k)
  }

  ghost predicate StringDone(p: Scene, s: Progress, b: Words, c: int) {
    && c in s.fwd && 0 <= c && Back(p.mem, c) <= |p.mem| && s.fwd[c] + (Back(p.mem, c) - c) <= |b|
    && b[s.fwd[c]..s.fwd[c] + (Back(p.mem, c) - c)] == CutBody(p.mem[c..Back(p.mem, c)])
  }

  ghost predicate Done(p: Scene, s: Progress, b: Words, c: int) {
    if Kind(Header(p.mem, c)) == STRING then StringDone(p, s, b, c) else FieldsDone(p, s, b, c, Back(p.mem, c) - c)
  }

  /** Copied later than the first n, and done. */
  ghost predicate DoneFrom(p: Scene, s: Progress, b: Words, n: nat) {
    forall i :: n <= i < |s.order| ==> Done(p, s, b, s.order[i])
  }

  ghost predicate Further(s: Progress, s': Progress) {
    s.order <= s'.order && forall c :: c in s.fwd ==> c in s'.fwd && s'.fwd[c] == s.fwd[c]
  }

  /** What a call of gc_copy does: nothing below cur changes, and all it copies is done. */
  ghost predicate Grown(p: Scene, s: Progress, b: Words, cur: int, s': Progress, b': Words, cur': int) {
    && Further(s, s') && cur <= cur' && |b'| == |b| && 0 <= cur <= |b| && b'[..cur] == b[..cur]
      && DoneFrom(p, s', b', |s.order|)
  }

  // ---- space ----

  /** The words of those of the first n objects that are in s. */
  ghost function Total(mem: Words, objs: seq<nat>, n: nat, s: set<int>): int
    requires n <= |objs|
  {
    if n == 0 then 0
    else Total(mem, objs, n - 1, s) + (if objs[n - 1] in s then Back(mem, objs[n - 1]) - Front(mem, objs[n - 1]) else 0)
  }

  lemma {:induction false} TotalBelow(mem: Words, objs: seq<nat>, used: int, n: nat, s: set<int>)
    requires Parsed(mem, objs, used) && n <= |objs|
    ensures Total(mem, objs, n, s) <= Start(mem, objs, n)
    decreases n
  {
    hide Front, Back, HeaderOk;
    if n > 0 {
      TotalBelow(mem, objs, used, n - 1, s);
      assert ObjectAt(mem, objs, n - 1);
      FrontBack(mem, objs[n - 1]);
    }
  }

  lemma {:induction false} TotalAdd(mem: Words, objs: seq<nat>, used: int, n: nat, s: set<int>, i: nat)
    requires Parsed(mem, objs, used) && n <= |objs| && i < |objs| && objs[i] !in s
    ensures Total(mem, objs, n, s + {objs[i]}) == Total(mem, objs, n, s) + if i < n then Back(mem, objs[i]) - Front(mem,
      objs[i]) else 0
    decreases n
  {
    hide Front, Back, HeaderOk, Parsed;
    if n > 0 {
      TotalAdd(mem, objs, used, n - 1, s, i);
      if i < n - 1 {
        Ascending(mem, objs, used, i, n - 1);
      } else if n - 1 < i {
        Ascending(mem, objs, used, n - 1, i);
      }
    }
  }

  /** An object not copied yet fits in what from-space has in use. */
  lemma RoomFor(p: Scene, s: set<int>, c: int)
    requires Parsed(p.mem, p.objs, p.used) && c in p.objs && c !in s
    ensures Total(p.mem, p.objs, |p.objs|, s + {c}) == Total(p.mem, p.objs, |p.objs|, s) + Back(p.mem, c) - Front(p.mem,
      c)
    ensures Total(p.mem, p.objs, |p.objs|, s + {c}) <= p.used
  {
    hide Front, Back, Total;
    var i :| 0 <= i < |p.objs| && p.objs[i] == c;
    TotalAdd(p.mem, p.objs, p.used, |p.objs|, s, i);
    TotalBelow(p.mem, p.objs, p.used, |p.objs|, s + {c});
  }

  // ---- reading ----

  /** Where a copied object lies. */
  lemma CopyPlace(p: Scene, s: Progress, b: Words, cur: int, c: int)
    requires ToState(p, s, b, cur) && c in s.fwd
    ensures c in p.objs && s.fwd[c] in News(p, s) && Header(b, s.fwd[c]) == Header(p.mem, c)
    ensures HeaderOk(Header(p.mem, c))
    ensures 0 <= Front(b, s.fwd[c]) && Back(b, s.fwd[c]) <= cur <= |b| && 1 <= s.fwd[c] <= |b|
    ensures Back(b, s.fwd[c]) - s.fwd[c] == Back(p.mem, c) - c
  {
    hide HeaderOk, Total, Reached;
    var i :| 0 <= i < |s.order| && s.order[i] == c;
    assert News(p, s)[i] == s.fwd[c];
    assert SameHead(p, b, c, s.fwd[c]);
    Within(b, News(p, s), cur, i);
  }

  lemma ObjectPlace(p: Scene, c: int)
    requires Parsed(p.mem, p.objs, p.used) && c in p.objs
    ensures 1 <= c <= |p.mem| && HeaderOk(Header(p.mem, c))
    ensures 0 <= Front(p.mem, c) < c <= Back(p.mem, c) <= p.used <= |p.mem|
  {
    hide HeaderOk, Front, Back;
    var i :| 0 <= i < |p.objs| && p.objs[i] == c;
    Within(p.mem, p.objs, p.used, i);
    FrontBack(p.mem, c);
  }

  lemma OddRest(q: int, h: int, w: int)
    requires w == 8 * q + 2 * h + 1
    ensures w % 2 == 1
  {
    assert w == 2 * (4 * q + h) + 1;
  }

  lemma HeadersOdd(w: int)
    requires HeaderOk(w)
    ensures w % 2 == 1
  {
    OddRest(w / 8, w % 8 / 2, w);
  }

  /** IS_FORWARD_PTR tells the copied objects. */
  lemma Forwarded(p: Scene, s: Progress, a: Words, b: Words, cur: int, c: int)
    requires SceneOk(p) && Copying(p, s, a, b, cur) && c in p.objs && cur <= p.used
    ensures 1 <= c <= |a| && (InSpace(p.tbase, p.tsize, a[c - 1]) <==> c in s.fwd)
    ensures a[c - 1] == if c in s.fwd then Address(p.tbase, s.fwd[c]) else Header(p.mem, c)
  {
    hide HeaderOk, Total, Reached, Front, FieldsOk, Terminated, Body, ToState;
    ObjectPlace(p, c);
    if c in s.fwd {
      CopyPlace(p, s, b, cur, c);
      FrontBack(b, s.fwd[c]);
      AddressIn(p.tbase, p.tsize, s.fwd[c]);
    } else {
      HeadersOdd(Header(p.mem, c));
    }
  }

  /** Contents and tags of from-space are not touched. */
  lemma Untouched(p: Scene, s: Progress, a: Words, b: Words, cur: int, c: int, k: int)
    requires Parsed(p.mem, p.objs, p.used) && Copying(p, s, a, b, cur) && c in p.objs
    requires c <= k < Back(p.mem, c) || Front(p.mem, c) <= k < c - 1
    ensures 0 <= k < |a| && a[k] == p.mem[k]
  {
    hide HeaderOk, Total, Reached, Front, Back, Parsed;
    ObjectPlace(p, c);
    if k + 1 in s.fwd {
      assert k + 1 in p.objs;
      NoHeaderInside(p.mem, p.objs, p.used, c, k + 1, k);
    }
  }

  // ---- steps ----

  /** The head of c has been written at d; nothing below cur and behind the head has changed. */
  ghost predicate Headed(p: Scene, b: Words, cur: int, c: int, d: int, b': Words) {
    && |b'| == |b| && Header(b', d) == Header(p.mem, c)
      && (forall i :: 0 <= i < |b| && (i < cur || i >= d) ==> b'[i] == b[i])
    && (Head(Header(p.mem, c)) == 2 ==> 2 <= c <= |p.mem| && 2 <= d <= |b| && b'[d - 2] == p.mem[c - 2])
  }

  /** Space for c is taken, its header moves, and its new address takes the header's place. */
  lemma Taken(p: Scene, s: Progress, a: Words, b: Words, cur: nat, c: nat, s': Progress, a': Words, b': Words, d: nat)
    requires SceneOk(p) && Copying(p, s, a, b, cur) && c in p.objs && c !in s.fwd && Reached(p, c) && 1 <= c <= |a|
    requires d == cur + Head(Header(p.mem, c)) && s' == Progress(s.order + [c], s.fwd[c := d])
    requires a' == a[c - 1 := Address(p.tbase, d)] && Headed(p, b, cur, c, d, b')
    ensures Copying(p, s', a', b', d + Body(Header(p.mem, c))) && d + Body(Header(p.mem, c)) <= p.used
  {
    hide HeaderOk, Total, Reached, FieldsOk, Terminated, Body, Kind, Address, Header, Parsed, Head;
    ObjectPlace(p, c);
    RoomFor(p, s.fwd.Keys, c);
    assert s'.fwd.Keys == s.fwd.Keys + {c};
    TakenListed(p, s, c, d);
    TakenParsed(p, s, b, cur, c, d, b');
    TakenHeads(p, s, b, cur, c, d, b', s'.fwd);
  }

  lemma TakenListed(p: Scene, s: Progress, c: int, d: nat)
    requires Listed(p, s) && c in p.objs && c !in s.fwd && Reached(p, c) && c >= 0
    ensures Listed(p, Progress(s.order + [c], s.fwd[c := d]))
    ensures News(p, Progress(s.order + [c], s.fwd[c := d])) == News(p, s) + [d]
  {
    hide Reached;
    var s' := Progress(s.order + [c], s.fwd[c := d]);
    forall x ensures x in s'.fwd <==> x in s'.order {
    }
    assert forall i :: 0 <= i < |s.order| ==> s.order[i] != c;
  }

  lemma TakenParsed(p: Scene, s: Progress, b: Words, cur: int, c: int, d: nat, b': Words)
    requires Listed(p, s) && Parsed(b, News(p, s), cur) && d == cur + Head(Header(p.mem, c)) && 1 <= d
    requires Headed(p, b, cur, c, d, b') && HeaderOk(Header(p.mem, c)) && d + Body(Header(p.mem, c)) <= |b|
    ensures Parsed(b', News(p, s) + [d], d + Body(Header(p.mem, c)))
  {
    hide HeaderOk, Listed, Head, Body;
    var objs, objs' := News(p, s), News(p, s) + [d];
    forall i | 0 <= i < |objs| ensures Header(b', objs[i]) == Header(b, objs[i]) {
      Within(b, objs, cur, i);
      FrontBack(b, objs[i]);
    }
    forall i | 0 <= i < |objs'| ensures ObjectAt(b', objs', i) {
      if i < |objs| {
        assert ObjectAt(b, objs, i);
      }
    }
  }

  lemma TakenHeads(p: Scene, s: Progress, b: Words, cur: int, c: int, d: nat, b': Words, fwd': map<int, nat>)
    requires ToState(p, s, b, cur) && c !in s.fwd && d > cur
    requires Headed(p, b, cur, c, d, b') && fwd' == s.fwd[c := d]
    ensures forall x :: x in fwd' ==> SameHead(p, b', x, fwd'[x])
  {
    hide HeaderOk, Body, Kind, Total;
    forall x | x in fwd' ensures SameHead(p, b', x, fwd'[x]) {
      if x != c {
        CopyPlace(p, s, b, cur, x);
        FrontBack(b, s.fwd[x]);
        assert SameHead(p, b, x, s.fwd[x]);
      }
    }
  }

  /** Only the contents of the copy of c have changed. */
  ghost predicate BodyOnly(s: Progress, b: Words, c: int, b': Words)
    requires c in s.fwd
  {
    |b'| == |b| && forall i :: 0 <= i < |b| && !(s.fwd[c] <= i < Back(b, s.fwd[c])) ==> b'[i] == b[i]
  }

  lemma HeadsKept(p: Scene, s: Progress, b: Words, cur: int, c: int, b': Words, x: int)
    requires ToState(p, s, b, cur) && c in s.fwd && x in s.fwd && BodyOnly(s, b, c, b')
    ensures Header(b', s.fwd[x]) == Header(b, s.fwd[x]) && SameHead(p, b', x, s.fwd[x])
  {
    hide HeaderOk, Body, Kind, Total, Reached;
    CopyPlace(p, s, b, cur, x);
    CopyPlace(p, s, b, cur, c);
    assert SameHead(p, b, x, s.fwd[x]);
    FrontBack(b, s.fwd[c]);
    FrontBack(b, s.fwd[x]);
    if c != x {
      TagApart(p, s, b, cur, c, x);
    }
  }

  /** Different copies do not overlap. */
  lemma TagApart(p: Scene, s: Progress, b: Words, cur: int, c: int, x: int)
    requires ToState(p, s, b, cur) && c in s.fwd && x in s.fwd && c != x
    ensures Back(b, s.fwd[c]) <= Front(b, s.fwd[x]) || Back(b, s.fwd[x]) <= Front(b, s.fwd[c])
  {
    hide HeaderOk, Body, Kind, Total, Reached, Front, Back;
    var i :| 0 <= i < |s.order| && s.order[i] == c;
    var j :| 0 <= j < |s.order| && s.order[j] == x;
    var objs := News(p, s);
    assert objs[i] == s.fwd[c] && objs[j] == s.fwd[x];
    if i < j {
      Apart(b, objs, cur, i, j);
    } else {
      Apart(b, objs, cur, j, i);
    }
  }

  lemma BodyWritten(p: Scene, s: Progress, b: Words, cur: int, c: int, b': Words)
    requires ToState(p, s, b, cur) && c in s.fwd && BodyOnly(s, b, c, b')
    ensures ToState(p, s, b', cur)
  {
    hide HeaderOk, Body, Kind, Total, Reached, SameHead;
    var objs := News(p, s);
    forall x | x in s.fwd ensures Header(b', s.fwd[x]) == Header(b, s.fwd[x]) && SameHead(p, b', x, s.fwd[x]) {
      HeadsKept(p, s, b, cur, c, b', x);
    }
    forall i | 0 <= i < |objs| ensures ObjectAt(b', objs, i) {
      assert ObjectAt(b, objs, i);
    }
    CopyPlace(p, s, b, cur, c);
  }

  /** What is done stays done as long as the copy stays as it is. */
  lemma DoneStays(p: Scene, s: Progress, b: Words, s': Progress, b': Words, x: int, end: int)
    requires Done(p, s, b, x) && x in s.fwd && Further(s, s') && |b'| == |b|
    requires end == s.fwd[x] + (Back(p.mem, x) - x) && forall i :: s.fwd[x] <= i < end && 0 <= i < |b| ==> b'[i] == b[i]
    ensures Done(p, s', b', x)
  {
    hide HeaderOk, Body, Kind, Header;
    if Kind(Header(p.mem, x)) == STRING {
      assert b'[s.fwd[x]..end] == b[s.fwd[x]..end];
    } else {
      forall k | 0 <= k < Back(p.mem, x) - x ensures FieldDone(p, s', b', x, k) {
        assert FieldDone(p, s, b, x, k);
      }
    }
  }

  lemma FieldStays(p: Scene, s: Progress, b: Words, s': Progress, b': Words, x: int, k: int)
    requires FieldDone(p, s, b, x, k) && Further(s, s') && |b'| == |b| && b'[s.fwd[x] + k] == b[s.fwd[x] + k]
    ensures FieldDone(p, s', b', x, k)
  {
  }

  /** A growing pass leaves everything done, and every field copied, as it is. */
  lemma DoneGrows(p: Scene, s: Progress, b: Words, cur: int, s': Progress, b': Words, cur': int, n: nat)
    requires ToState(p, s, b, cur) && Grown(p, s, b, cur, s', b', cur') && DoneFrom(p, s, b, n)
    ensures DoneFrom(p, s', b', n)
  {
    hide HeaderOk, Body, Kind, Total, Reached, SameHead, Done, Front, Back;
    forall i | n <= i < |s'.order| ensures Done(p, s', b', s'.order[i]) {
      if i < |s.order| {
        var x := s.order[i];
        assert s'.order[i] == x;
        CopyPlace(p, s, b, cur, x);
        FrontBack(b, s.fwd[x]);
        assert forall j :: 0 <= j < cur ==> b'[j] == b'[..cur][j] == b[..cur][j] == b[j];
        DoneStays(p, s, b, s', b', x, Back(b, s.fwd[x]));
      }
    }
  }

  lemma FieldsGrow(p: Scene, s: Progress, b: Words, cur: int, s': Progress, b': Words, cur': int, c: int, n: int)
    requires ToState(p, s, b, cur) && Grown(p, s, b, cur, s', b', cur') && FieldsDone(p, s, b, c, n)
    requires n <= Back(p.mem, c) - c
    ensures FieldsDone(p, s', b', c, n)
  {
    hide HeaderOk, Body, Kind, Total, Reached, SameHead, Front, Back, DoneFrom, Redirected;
    CopyPlace(p, s, b, cur, c);
    assert forall j :: 0 <= j < cur ==> b'[j] == b'[..cur][j] == b[..cur][j] == b[j];
    forall k | 0 <= k < n ensures FieldDone(p, s', b', c, k) {
      assert FieldDone(p, s, b, c, k);
      FieldStays(p, s, b, s', b', c, k);
    }
  }

  lemma GrownNothing(p: Scene, s: Progress, b: Words, cur: int)
    requires 0 <= cur <= |b|
    ensures Grown(p, s, b, cur, s, b, cur)
  {
  }

  /** The others stay done when the contents of c are written. */
  lemma OthersStay(p: Scene, s: Progress, b: Words, cur: int, c: int, b': Words, n: nat)
    requires ToState(p, s, b, cur) && c in s.fwd && BodyOnly(s, b, c, b') && DoneFrom(p, s, b, n)
    requires forall i :: n <= i < |s.order| ==> s.order[i] != c
    ensures DoneFrom(p, s, b', n)
  {
    hide HeaderOk, Body, Kind, Total, Reached, SameHead, Done, Front, Back, Parsed;
    forall i | n <= i < |s.order| ensures Done(p, s, b', s.order[i]) {
      var x := s.order[i];
      CopyPlace(p, s, b, cur, x);
      FrontBack(b, s.fwd[x]);
      FrontBack(b, s.fwd[c]);
      TagApart(p, s, b, cur, c, x);
      DoneStays(p, s, b, s, b', x, Back(b, s.fwd[x]));
    }
  }

  /** One field of c is written. */
  lemma FieldWritten(p: Scene, s: Progress, b: Words, cur: int, c: int, i: nat, r: int, b': Words, n: nat)
    requires ToState(p, s, b, cur) && c in s.fwd && i < Back(p.mem, c) - c && 0 <= s.fwd[c] + i < |b|
    requires b' == b[s.fwd[c] + i := r]
    requires 0 <= c && c + i < |p.mem| && Redirected(p, s, p.mem[c + i], r)
    requires FieldsDone(p, s, b, c, i) && DoneFrom(p, s, b, n) && forall j :: n <= j < |s.order| ==> s.order[j] != c
    ensures ToState(p, s, b', cur) && FieldsDone(p, s, b', c, i + 1) && DoneFrom(p, s, b', n)
    ensures b'[..s.fwd[c]] == b[..s.fwd[c]]
  {
    hide HeaderOk, Body, Kind, Total, Reached, SameHead, Done, Front, Back, Parsed, Redirected, ToState, DoneFrom;
    CopyPlace(p, s, b, cur, c);
    assert BodyOnly(s, b, c, b');
    BodyWritten(p, s, b, cur, c, b');
    OthersStay(p, s, b, cur, c, b', n);
    forall k | 0 <= k < i + 1 ensures FieldDone(p, s, b', c, k) {
      if k < i {
        assert FieldDone(p, s, b, c, k);
        FieldStays(p, s, b, s, b', c, k);
      }
    }
  }

  lemma {:induction false} CutAt(ws: Words, i: nat)
    requires i < |ws| && HasZero(ws[i]) && forall j :: 0 <= j < i ==> !HasZero(ws[j])
    ensures CutBody(ws) == ws[..i] + [CutWord(ws[i])] + seq(|ws| - i - 1, _ => 0)
    decreases i
  {
    hide HasZero, CutWord;
    if i > 0 {
      CutAt(ws[1..], i - 1);
      assert ws[..i] == [ws[0]] + ws[1..][..i - 1];
    }
  }

  lemma SceneRoom(p: Scene)
    requires SceneOk(p)
    ensures Parsed(p.mem, p.objs, p.used) && p.used < |p.mem| <= p.tsize
    ensures forall c :: c in p.objs ==> Terminated(p.mem, c)
  {
    hide Parsed, Terminated, FieldsOk;
  }

  // ---- what a collection keeps ----

  /** A word before and after. */
  ghost predicate WordCarried(p: Scene, f: map<int, nat>, base: int, size: nat, w: int, w': int) {
    if IsRef(p, w) then Of(p, w) in f && w' == Address(base, f[Of(p, w)]) else w' == w && !InSpace(base, size, w)
  }

  ghost predicate FieldCarried(p: Scene, f: map<int, nat>, base: int, mem: Words, c: int, k: int)
    requires c in f
  {
    0 <= c + k < |p.mem| && 0 <= f[c] + k < |mem| && WordCarried(p, f, base, |mem|, p.mem[c + k], mem[f[c] + k])
  }

  /** The object c is the object f[c] of the new heap: same kind, length and tag; strings up to their first zero,
      and fields word for word with references following f. */
  ghost predicate ObjectCarried(p: Scene, f: map<int, nat>, base: int, mem: Words, c: int)
    requires c in f
  {
    var n := Back(p.mem, c) - c;
    && 1 <= c <= Back(p.mem, c) <= |p.mem| && 1 <= f[c] <= f[c] + n <= |mem| && SameHead(p, mem, c, f[c])
    && if Kind(Header(p.mem, c)) == STRING then mem[f[c]..f[c] + n] == CutBody(p.mem[c..Back(p.mem, c)])
       else forall k :: 0 <= k < n ==> FieldCarried(p, f, base, mem, c, k)
  }

  ghost predicate Hit(f: map<int, nat>, d: nat) { exists c :: c in f && f[c] == d }

  /** f takes the objects it is defined on, one to one, to all those of the new heap. */
  ghost predicate Carried(p: Scene, f: map<int, nat>, base: int, mem: Words, objs: seq<nat>) {
    && (forall c :: c in f ==> c in p.objs && f[c] in objs && ObjectCarried(p, f, base, mem, c))
    && (forall c, d :: c in f && d in f && c != d ==> f[c] != f[d])
    && (forall i :: 0 <= i < |objs| ==> Hit(f, objs[i]))
  }

  /** Everything copied is reachable; when all is done and the roots are redirected, everything reachable is copied. */
  lemma ExactlyReached(p: Scene, s: Progress, b: Words, cur: int)
    requires ToState(p, s, b, cur) && DoneFrom(p, s, b, 0)
    requires forall w :: w in p.roots && IsRef(p, w) ==> Of(p, w) in s.fwd
    ensures forall c :: c in s.fwd <==> Reached(p, c)
  {
    hide Total, Parsed, SameHead, Body, HeaderOk, Kind, Header;
    var all := s.fwd.Keys;
    forall c, k | c in all && c in p.objs && c <= k < FieldsEnd(p.mem, c) && k < |p.mem|
      && IsRef(p, p.mem[k]) ensures Of(p, p.mem[k]) in all {
      var i :| 0 <= i < |s.order| && s.order[i] == c;
      assert Done(p, s, b, s.order[i]);
      assert FieldDone(p, s, b, c, k - c);
    }
    assert Closed(p, all);
    forall c | Reached(p, c) ensures c in s.fwd {
      assert c in all;
    }
    forall c | c in s.fwd ensures Reached(p, c) {
      var i :| 0 <= i < |s.order| && s.order[i] == c;
    }
  }

  lemma FieldWordOk(p: Scene, c: int, k: int)
    requires HeapOk(p) && c in p.objs && Kind(Header(p.mem, c)) != STRING && 0 <= k < Back(p.mem, c) - c
    requires 0 <= c + k < |p.mem|
    ensures WordOk(p, p.mem[c + k])
  {
    hide Parsed, Terminated, WordOk, Back, Header;
    assert c <= c + k < FieldsEnd(p.mem, c);
  }

  lemma OutsiderStays(p: Scene, size: nat, w: int)
    requires WordOk(p, w) && !IsRef(p, w) && forall x :: x in p.outsiders ==> !InSpace(p.tbase, size, x)
    ensures !InSpace(p.tbase, size, w)
  {
  }

  /** A finished pass carries every copied object; mem is to-space, possibly extended. */
  lemma CopyCarried(p: Scene, s: Progress, b: Words, cur: int, mem: Words, c: int)
    requires HeapOk(p) && ToState(p, s, b, cur) && DoneFrom(p, s, b, 0) && b <= mem && c in s.fwd
    requires forall x :: x in p.outsiders ==> !InSpace(p.tbase, |mem|, x)
    ensures ObjectCarried(p, s.fwd, p.tbase, mem, c)
  {
    hide Total, Body, HeaderOk, Kind, Reached, FieldsOk, Terminated, WordOk, IsRef, InSpace;
    CopyPlace(p, s, b, cur, c);
    ObjectPlace(p, c);
    FrontBack(b, s.fwd[c]);
    assert SameHead(p, b, c, s.fwd[c]);
    var i :| 0 <= i < |s.order| && s.order[i] == c;
    assert Done(p, s, b, s.order[i]);
    var n := Back(p.mem, c) - c;
    if Kind(Header(p.mem, c)) == STRING {
      assert mem[s.fwd[c]..s.fwd[c] + n] == b[s.fwd[c]..s.fwd[c] + n];
    } else {
      forall k | 0 <= k < n ensures FieldCarried(p, s.fwd, p.tbase, mem, c, k) {
        assert FieldDone(p, s, b, c, k);
        FieldWordOk(p, c, k);
        if !IsRef(p, p.mem[c + k]) {
          OutsiderStays(p, |mem|, p.mem[c + k]);
        }
      }
    }
  }

  lemma PassCarries(p: Scene, s: Progress, b: Words, cur: int, mem: Words)
    requires HeapOk(p) && ToState(p, s, b, cur) && DoneFrom(p, s, b, 0) && b <= mem
    requires forall x :: x in p.outsiders ==> !InSpace(p.tbase, |mem|, x)
    ensures Carried(p, s.fwd, p.tbase, mem, News(p, s))
  {
    hide Total, SameHead, Body, HeaderOk, Kind, Reached, FieldsOk, Terminated, WordOk, IsRef, InSpace, ObjectCarried;
    var objs := News(p, s);
    forall c | c in s.fwd ensures c in p.objs && s.fwd[c] in objs && ObjectCarried(p, s.fwd, p.tbase, mem, c) {
      CopyPlace(p, s, b, cur, c);
      CopyCarried(p, s, b, cur, mem, c);
    }
    forall c, d | c in s.fwd && d in s.fwd && c != d ensures s.fwd[c] != s.fwd[d] {
      TagApart(p, s, b, cur, c, d);
      FrontBack(b, s.fwd[c]);
      FrontBack(b, s.fwd[d]);
    }
    forall i | 0 <= i < |objs| ensures Hit(s.fwd, objs[i]) {
      assert s.order[i] in s.fwd && s.fwd[s.order[i]] == objs[i];
    }
  }
}
