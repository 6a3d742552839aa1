/** The semi-space collector (runtime32/runtime.c:1567-1949, 2041-2077) on two arrays of words: a recursive copy that
    leaves the new address in the old header, the scan of the roots, growing spaces, and allocation. */
module CopyingCollector {
  import opened CopyingHeap
  import opened CopyingPass
  import opened CopyingOutcome
  import opened CopyingFormat

  predicate Clear(base: int, size: nat, w: int) { !InSpace(base, size, w) }

  /** The operating system: mremap grows a space in place, or refuses; mmap finds a place for m words away from the
      n words at b.  Neither gives out addresses the program holds for something else. */
  ghost predicate Os(grant: (int, nat) -> bool, place: (int, nat, nat) -> int, outsiders: iset<int>) {
    && (forall b: int, n: nat, w: int :: grant(b, n) && w in outsiders ==> Clear(b, 2 * n, w))
    && (forall b: int, n: nat, m: nat, w: int :: w in outsiders ==> Clear(place(b, n, m), m, w))
    && (forall b: int, n: nat, m: nat ::
          place(b, n, m) % 4 == 0 && (b + 4 * n <= place(b, n, m) || place(b, n, m) + 4 * m <= b))
  }

  class Spaces {
    var from: array<int>
    var base: int
    var to: array<int>
    var tbase: int
    /** current, and from_space.current between collections. */
    var current: nat
    ghost var scene: Scene
    ghost var done: Progress

    /** A pass over the scene has come this far. */
    ghost predicate Pass()
      reads this, from, to
    {
      && from != to && scene.base == base && scene.tbase == tbase && from.Length == |scene.mem|
        && to.Length == scene.tsize
      && SceneOk(scene) && Copying(scene, done, from[..], to[..], current) && current <= scene.used
    }

    /** The uncopied objects. */
    ghost function Left(): set<int>
      reads this
    {
      (set c | c in scene.objs) - done.fwd.Keys
    }

    /** strcpy into zeroed words: whole words up to the one with a zero byte, of which the bytes before it. */
    method Strcpy(copy: nat, c: nat)
      requires Pass() && c in done.fwd && done.fwd[c] == copy && Kind(Header(scene.mem, c)) == STRING
      requires forall i :: copy <= i < copy + (Back(scene.mem, c) - c) && i < to.Length ==> to[i] == 0
      modifies to
      ensures Pass() && to[..copy] == old(to[..copy]) && BodyOnly(done, old(to[..]), c, to[..])
      ensures Done(scene, done, to[..], c)
    {
      hide SceneOk, CutBody, HasZero, CutWord, Kind, Header, Back, ToState, FromState, Listed;
      SceneRoom(scene);
      CopyPlace(scene, done, to[..], current, c);
      ObjectPlace(scene, c);
      ghost var end := Back(scene.mem, c);
      ghost var words, b0 := scene.mem[c..end], to[..];
      forall k | c <= k < end ensures from[k] == scene.mem[k] {
        Untouched(scene, done, from[..], to[..], current, c, k);
      }
      ZeroAhead(scene.mem, c, end);
      var i := 0;
      while !HasZero(from[c + i])
        invariant c + i < end && (exists k :: i <= k < |words| && HasZero(words[k]))
        invariant (forall j :: 0 <= j < i ==> !HasZero(words[j]))
        invariant forall j :: 0 <= j < |b0| ==> to[j] == if copy <= j < copy + i then words[j - copy] else b0[j]
        decreases end - c - i
      {
        to[copy + i] := from[c + i];
        i := i + 1;
      }
      to[copy + i] := CutWord(from[c + i]);
      CutAt(words, i);
      assert BodyOnly(done, b0, c, to[..]);
      BodyWritten(scene, done, b0, current, c, to[..]);
      assert to[copy..copy + (end - c)] == CutBody(words);
      StringIsDone(scene, done, to[..], c);
    }

    /** The first half of gc_copy: space is taken, the head copied, the new address left behind. */
    method Take(c: nat) returns (copy: nat)
      requires Pass() && c in scene.objs && c !in done.fwd && Reached(scene, c)
      requires 1 <= c <= from.Length && from[c - 1] == Header(scene.mem, c)
      modifies from, to, this`current, this`done
      ensures Pass() && done == Progress(old(done).order + [c], old(done).fwd[c := copy])
      ensures old(current) < copy <= to.Length && copy <= current
      ensures to[..old(current)] == old(to[..current])
      ensures forall i :: copy <= i < copy + (Back(scene.mem, c) - c) && i < to.Length ==> to[i] == 0
    {
      hide SceneOk, Kind, Header, ToState, FromState, Listed, Size, HeaderOk, Reached, Body, Address;
      SceneRoom(scene);
      ObjectPlace(scene, c);
      RoomFor(scene, done.fwd.Keys, c);
      CurrentIs(scene, done, to[..], current);
      ghost var a0, b0, cur0 := from[..], to[..], current;
      var tag := from[c - 1];
      SizeSplits(tag);
      copy := current + Head(tag);
      if Kind(tag) == SEXP {
        Untouched(scene, done, from[..], to[..], current, c, c - 2);
        to[copy - 2] := from[c - 2];
      }
      to[copy - 1] := tag;
      from[c - 1] := Address(tbase, copy);
      current := current + Size(tag);
      done := Progress(done.order + [c], done.fwd[c := copy]);
      HeadedNow(scene, b0, cur0, c, copy, to[..]);
      Taken(scene, old(done), a0, b0, cur0, c, done, from[..], to[..], copy);
      ZeroBehind(scene, old(done), b0, cur0);
    }

    /** gc_copy: the copy of the object obj refers to.  It ends on cyclic structures, as each call that goes on has
        one more object copied, and never runs out of space. */
    method GcCopy(obj: int) returns (r: int)
      requires Pass() && WordOk(scene, obj) && (IsRef(scene, obj) ==> Reached(scene, Of(scene, obj)))
      modifies from, to, this`current, this`done
      ensures Pass() && Grown(scene, old(done), old(to[..]), old(current), done, to[..], current)
      ensures Redirected(scene, done, obj, r)
      decreases Left(), 0
    {
      hide SceneOk, Kind, Header, ToState, FromState, Listed, Reached, Address, Back, HeaderOk, Head, Body, DoneFrom,
        Done, InSpace, Target;
      SceneRoom(scene);
      if !InSpace(base, from.Length, obj) {
        GrownNothing(scene, done, to[..], current);
        return obj;
      }
      if current > to.Length {
        // the out-of-space exit
        assert false;
      }
      var c := Target(base, obj);
      ghost var s0, b0, cur0, left := done, to[..], current, Left();
      Forwarded(scene, done, from[..], to[..], current, c);
      var tag := from[c - 1];
      if InSpace(tbase, to.Length, tag) {
        GrownNothing(scene, done, to[..], current);
        return tag;
      }
      var copy := Take(c);
      LeftLess(scene, s0, done, c);
      ghost var s1, b1, cur1 := done, to[..], current;
      TakenFurther(scene, s0, s1, b1, c, copy);
      KindKept(scene, done, to[..], current, c, tag);
      if Kind(tag) == STRING {
        Strcpy(copy, c);
        NoneLater(scene, done, to[..], |s0.order| + 1);
      } else {
        NoneLater(scene, done, to[..], |s0.order| + 1);
        FieldsOfKind(scene, c, tag);
        CopyElements(copy, c, Len(tag), |s0.order| + 1);
      }
      CopiedGrown(scene, s0, b0, cur0, s1, b1, done, to[..], current, c, copy);
      return Address(tbase, copy);
    }

    /** copy_elements. */
    method CopyElements(copy: nat, c: nat, len: nat, ghost n: nat)
      requires Pass() && c in done.fwd && done.fwd[c] == copy <= to.Length && Kind(Header(scene.mem, c)) != STRING
      requires len == Back(scene.mem, c) - c
      requires Reached(scene, c) && n <= |done.order| && DoneFrom(scene, done, to[..], n)
      requires forall j :: n <= j < |done.order| ==> done.order[j] != c
      modifies from, to, this`current, this`done
      ensures Pass() && Further(old(done), done) && old(current) <= current && to[..copy] == old(to[..copy])
      ensures DoneFrom(scene, done, to[..], n) && Done(scene, done, to[..], c)
      decreases Left(), 2
    {
      hide SceneOk, Kind, Header, ToState, FromState, Listed, Reached, Address, Back, HeaderOk, Head, Body, DoneFrom,
        FieldsDone, Pass, Done;
      ghost var left := Left();
      var i := 0;
      NoFields(scene, done, to[..], c);
      while i < len
        invariant 0 <= i <= len && Pass() && Further(old(done), done) && old(current) <= current
        invariant to[..copy] == old(to[..copy])
        invariant done.fwd[c] == copy && n <= |done.order| && forall j :: n <= j < |done.order| ==> done.order[j] != c
        invariant DoneFrom(scene, done, to[..], n) && FieldsDone(scene, done, to[..], c, i) && Left() <= left
      {
        CopyElement(copy, c, i, len, n, left);
        i := i + 1;
      }
      AllFields(scene, done, to[..], c);
    }

    /** One round of copy_elements. */
    method CopyElement(copy: nat, c: nat, i: nat, len: nat, ghost n: nat, ghost left: set<int>)
      requires Pass() && c in done.fwd && done.fwd[c] == copy <= to.Length && Kind(Header(scene.mem, c)) != STRING
      requires i < len == Back(scene.mem, c) - c
      requires Reached(scene, c) && n <= |done.order| && DoneFrom(scene, done, to[..], n)
      requires forall j :: n <= j < |done.order| ==> done.order[j] != c
      requires FieldsDone(scene, done, to[..], c, i) && Left() <= left
      modifies from, to, this`current, this`done
      ensures Pass() && Further(old(done), done) && old(current) <= current && to[..copy] == old(to[..copy])
      ensures n <= |done.order| && forall j :: n <= j < |done.order| ==> done.order[j] != c
      ensures DoneFrom(scene, done, to[..], n) && FieldsDone(scene, done, to[..], c, i + 1) && Left() <= left
      decreases left, 1
    {
      hide SceneOk, Kind, Header, ToState, FromState, Listed, Reached, Address, Back, HeaderOk, Head, Body, DoneFrom,
        FieldsDone, Done, InSpace, Redirected, WordOk;
      CopyPlace(scene, done, to[..], current, c);
      SceneRoom(scene);
      ObjectPlace(scene, c);
      Untouched(scene, done, from[..], to[..], current, c, c + i);
      FieldFacts(scene, c, c + i);
      ghost var s0, b0, cur0 := done, to[..], current;
      IsListed(scene, s0, b0, cur0);
      var elem := from[c + i];
      var r := elem;
      if !InSpace(base, from.Length, elem) {
        GrownNothing(scene, done, to[..], current);
        SameWord(scene, done, elem);
      } else {
        r := GcCopy(elem);
      }
      ghost var b1 := to[..];
      DoneGrows(scene, s0, b0, cur0, done, b1, current, n);
      FieldsGrow(scene, s0, b0, cur0, done, b1, current, c, i);
      CopyPlace(scene, done, to[..], current, c);
      IsListed(scene, done, b1, current);
      StillNotLater(scene, s0, done, c, n);
      LeftFurther(scene, s0, done);
      to[copy + i] := r;
      FieldWritten(scene, done, b1, current, c, i, r, to[..], n);
      PrefixKept(b0, b1, to[..], cur0, copy);
    }

    /** gc_test_and_copy_root on each slot in turn; a slot may come up more than once. */
    method ScanRoots(roots: array<int>, visits: seq<nat>)
      requires Pass() && roots != from && roots != to && DoneFrom(scene, done, to[..], 0)
      requires (forall j :: 0 <= j < |visits| ==> visits[j] < roots.Length)
      requires scene.roots == RootWords(roots[..], visits)
      modifies roots, from, to, this`current, this`done
      ensures Pass() && DoneFrom(scene, done, to[..], 0)
      ensures forall v :: 0 <= v < roots.Length ==>
        if v in visits then Redirected(scene, done, old(roots[v]), roots[v]) else roots[v] == old(roots[v])
    {
      hide SceneOk, ToState, FromState, DoneFrom, Reached, Redirected, RootWords, IsRef, InSpace, WordOk;
      ghost var rs := roots[..];
      var k := 0;
      while k < |visits|
        invariant 0 <= k <= |visits| && Pass() && DoneFrom(scene, done, to[..], 0)
        invariant forall v :: 0 <= v < roots.Length ==>
          if v in visits[..k] then Redirected(scene, done, rs[v], roots[v]) else roots[v] == rs[v]
      {
        var v := visits[k];
        ghost var s0, b0, cur0, before := done, to[..], current, roots[..];
        RootFacts(scene, rs, visits, k);
        if v in visits[..k] {
          RedirectedOutside(scene, done, to[..], current, rs[v], roots[v]);
        }
        var root := roots[v];
        ScansSame(scene, base, from.Length, root);
        if InSpace(base, from.Length, root) {
          root := GcCopy(root);
          DoneAll(scene, s0, b0, cur0, done, to[..], current);
          roots[v] := root;
        } else {
          SameStays(scene, done, rs[v], root, v in visits[..k]);
        }
        forall u | 0 <= u < roots.Length
          ensures if u in visits[..k + 1] then Redirected(scene, done, rs[u], roots[u]) else roots[u] == rs[u]
        {
          InNext(visits, k, u);
          if u in visits[..k] && u != v {
            RedirectedStays(scene, s0, done, rs[u], roots[u]);
          }
        }
        k := k + 1;
      }
      assert visits[..k] == visits;
    }

    /** From-space is the heap p, to-space is empty and ready for it. */
    ghost predicate Ready(p: Scene, roots: array<int>, visits: seq<nat>)
      reads this, from, to, roots
    {
      && from != to && roots != from && roots != to && p.base == base && p.mem == from[..]
      && SceneOk(p.(tbase := tbase, tsize := to.Length)) && (forall i :: 0 <= i < to.Length ==> to[i] == 0)
      && (forall j :: 0 <= j < |visits| ==> visits[j] < roots.Length) && p.roots == RootWords(roots[..], visits)
    }

    /** The reachable objects of p, and only they, make up the heap in front of at; size words are reserved behind. */
    ghost predicate Collected(p: Scene, f: map<int, nat>, objs: seq<nat>, at: nat, size: nat, rs: seq<int>,
        roots: array<int>, visits: seq<nat>)
      reads this, from, roots
    {
      && roots != from && (forall c :: c in f <==> Reached(p, c))
      && Carried(p, f, base, from[..], objs) && RootsCarried(p, f, base, from.Length, rs, roots[..], visits)
      && HeapOk(After(p, base, from[..], objs, at, RootWords(roots[..], visits)))
      && current == at + size && current < from.Length && forall i :: at <= i < from.Length ==> from[i] == 0
    }

    /** The pass of a collection: everything reachable is copied and all roots are redirected. */
    method CopyAll(roots: array<int>, visits: seq<nat>, ghost p: Scene)
      requires Ready(p, roots, visits)
      modifies roots, from, to, this`current, this`done, this`scene
      ensures Pass() && DoneFrom(scene, done, to[..], 0) && scene == p.(tbase := tbase, tsize := to.Length)
      ensures forall v :: 0 <= v < roots.Length ==>
        if v in visits then Redirected(scene, done, old(roots[v]), roots[v]) else roots[v] == old(roots[v])
    {
      hide SceneOk, Reached, RootWords, WordOk, DoneFrom, Redirected;
      scene, done, current := p.(tbase := tbase, tsize := to.Length), Progress([], map[]), 0;
      NothingCopied(scene, done, from[..], to[..]);
      ScanRoots(roots, visits);
    }

    /** The pass over p is over; to-space may have grown since. */
    ghost predicate Over(p: Scene, rs: seq<int>, roots: array<int>, visits: seq<nat>)
      reads this, to, roots
    {
      && roots != to && HeapOk(p) && scene == p.(tbase := tbase, tsize := scene.tsize) && tbase % 4 == 0
      && 0 < scene.tsize <= to.Length && current < to.Length && current <= p.used
      && ToState(scene, done, to[..scene.tsize], current) && DoneFrom(scene, done, to[..scene.tsize], 0)
      && (forall i :: current <= i < to.Length ==> to[i] == 0)
        && (forall w :: w in p.outsiders ==> Clear(tbase, to.Length, w))
      && roots.Length == |rs| && (forall j :: 0 <= j < |visits| ==> visits[j] < |rs|)
        && p.roots == RootWords(rs, visits)
      && forall v :: 0 <= v < |rs| ==>
        if v in visits then Redirected(scene, done, rs[v], roots[v]) else roots[v] == rs[v]
    }

    /** extend_spaces, granted. */
    method Extend(ghost p: Scene, ghost rs: seq<int>, roots: array<int>, visits: seq<nat>)
      requires Over(p, rs, roots, visits) && forall w :: w in p.outsiders ==> Clear(tbase, 2 * to.Length, w)
      modifies this`to
      ensures Over(p, rs, roots, visits) && fresh(to) && to.Length == 2 * old(to.Length)
    {
      hide ToState, DoneFrom, Redirected, RootWords, Clear, HeapOk;
      ghost var b := to[..scene.tsize];
      var n, was := to.Length, to;
      var longer := new int[2 * n](i requires 0 <= i reads was => if i < was.Length then was[i] else 0);
      assert longer[..scene.tsize] == b;
      to := longer;
    }

    /** gc: a collection that makes room for size words.  If to-space cannot grow in place, it becomes from-space and
        everything is copied again, into twice the space. */
    method Gc(size: nat, roots: array<int>, visits: seq<nat>, grant: (int, nat) -> bool, place: (int, nat, nat) -> int,
        ghost p: Scene)
      returns (at: nat, ghost f: map<int, nat>, ghost objs: seq<nat>)
      requires Ready(p, roots, visits) && Os(grant, place, p.outsiders)
      modifies this, roots, from, to
      ensures Collected(p, f, objs, at, size, old(roots[..]), roots, visits) && at <= p.used
      ensures from.Length >= old(to.Length)
      ensures from == old(to) || fresh(from)
      decreases p.used + size - to.Length, 1
    {
      hide SceneOk, ToState, DoneFrom, Reached, Redirected, RootWords, Clear, HeapOk, Carried, RootsCarried, Parsed,
        FromState;
      ghost var rs := roots[..];
      ReadyFacts(p, tbase, to.Length);
      CopyAll(roots, visits, p);
      assert to[..scene.tsize] == to[..];
      ZeroBehind(scene, done, to[..], current);
      if current >= to.Length {
        // the second out-of-space exit
        assert false;
      }
      while current + size >= to.Length
        invariant Over(p, rs, roots, visits) && to.Length >= old(to.Length) && (to == old(to) || fresh(to))
        decreases current + size + 1 - to.Length
      {
        if !grant(tbase, to.Length) {
          at, f, objs := Again(size, roots, visits, grant, place, p, rs);
          return;
        }
        Extend(p, rs, roots, visits);
      }
      Finished(p, scene, done, to[..scene.tsize], current, to[..], rs, roots[..], visits);
      f, objs := done.fwd, News(scene, done);
      at := current;
      from, base := to, tbase;
      current := current + size;
    }

    /** The spaces change places, and the collection starts again. */
    method Again(size: nat, roots: array<int>, visits: seq<nat>, grant: (int, nat) -> bool,
        place: (int, nat, nat) -> int, ghost p: Scene, ghost rs: seq<int>)
      returns (at: nat, ghost f: map<int, nat>, ghost objs: seq<nat>)
      requires Over(p, rs, roots, visits) && Os(grant, place, p.outsiders) && current + size >= to.Length
      modifies this, roots, to
      ensures Collected(p, f, objs, at, size, rs, roots, visits) && at <= p.used && from.Length >= old(to.Length)
      ensures fresh(from)
      decreases current + size - to.Length, 0
    {
      hide SceneOk, ToState, DoneFrom, Reached, Redirected, RootWords, Clear, HeapOk, Carried, RootsCarried, Parsed,
        FromState;
      ghost var rs1 := roots[..];
      Finished(p, scene, done, to[..scene.tsize], current, to[..], rs, rs1, visits);
      ghost var f1 := done.fwd;
      ghost var q := After(p, tbase, to[..], News(scene, done), current, RootWords(rs1, visits));
      from, base := to, tbase;
      var n := from.Length;
      to := new int[2 * n](_ => 0);
      tbase := place(base, n, 2 * n);
      NextScene(q, grant, place, n);
      ghost var g;
      at, g, objs := Gc(size, roots, visits, grant, place, q);
      f := Then(f1, g);
      Composed(p, f1, q, g, base, from[..], objs, rs, rs1, roots[..], visits, at);
    }

    /** alloc: size words at the end of the heap, after a collection if they do not fit. */
    method Alloc(size: nat, roots: array<int>, visits: seq<nat>, grant: (int, nat) -> bool,
        place: (int, nat, nat) -> int, ghost p: Scene)
      returns (at: nat, ghost f: map<int, nat>, ghost objs: seq<nat>)
      requires HeapOk(p) && p.base == base && p.mem == from[..] && p.used == current && roots != from
      requires Os(grant, place, p.outsiders)
      requires (forall j :: 0 <= j < |visits| ==> visits[j] < roots.Length) && p.roots == RootWords(roots[..], visits)
      modifies this, roots, from
      ensures current == at + size && current < from.Length && roots != from
      ensures old(current) + size < old(from.Length) ==>
        from == old(from) && from[..] == p.mem && base == p.base && roots[..] == old(roots[..]) && at == old(current)
      ensures old(current) + size >= old(from.Length) ==>
        Collected(p, f, objs, at, size, old(roots[..]), roots, visits) && at <= p.used && Kept(p, f, base, from[..])
    {
      hide HeapOk, SceneOk, Collected, RootWords, Clear, Kept;
      f, objs := map[], [];
      if current + size < from.Length {
        at := current;
        current := current + size;
        return;
      }
      var n := from.Length;
      to := new int[n](_ => 0);
      tbase := place(base, n, n);
      FirstScene(p, grant, place, n);
      at, f, objs := Gc(size, roots, visits, grant, place, p);
      CollectedRoom(p, f, objs, at, size, old(roots[..]), roots, visits);
      CollectedKeeps(p, f, objs, at, size, old(roots[..]), roots, visits);
    }

    lemma CollectedKeeps(p: Scene, f: map<int, nat>, objs: seq<nat>, at: nat, size: nat, rs: seq<int>,
        roots: array<int>, visits: seq<nat>)
      requires HeapOk(p) && Collected(p, f, objs, at, size, rs, roots, visits)
      ensures Kept(p, f, base, from[..])
    {
      hide HeapOk, Carried, RootsCarried, Reached, Kept;
      CollectionKeeps(p, f, base, from[..], objs);
    }

    lemma CollectedRoom(p: Scene, f: map<int, nat>, objs: seq<nat>, at: nat, size: nat, rs: seq<int>, roots: array<int>,
        visits: seq<nat>)
      requires Collected(p, f, objs, at, size, rs, roots, visits)
      ensures current == at + size && current < from.Length && roots != from
    {
      hide HeapOk, Carried, RootsCarried, Reached;
    }
  }

  lemma FirstScene(p: Scene, grant: (int, nat) -> bool, place: (int, nat, nat) -> int, n: nat)
    requires HeapOk(p) && Os(grant, place, p.outsiders) && n == |p.mem|
    ensures SceneOk(p.(tbase := place(p.base, n, n), tsize := n))
  {
    hide HeapOk;
    var r := p.(tbase := place(p.base, n, n), tsize := n);
    Elsewhere(p, r.tbase, r.tsize, map[], 0, [], []);
    forall w | w in r.outsiders ensures !InSpace(r.tbase, r.tsize, w) {
      assert Clear(r.tbase, r.tsize, w);
    }
  }

  lemma ReadyFacts(p: Scene, tbase: int, tsize: nat)
    requires SceneOk(p.(tbase := tbase, tsize := tsize))
    ensures HeapOk(p) && p.used < |p.mem| <= tsize && tbase % 4 == 0
    ensures forall w :: w in p.outsiders ==> Clear(tbase, tsize, w)
  {
    hide HeapOk;
    Elsewhere(p, tbase, tsize, map[], 0, [], []);
    UsedBelow(p);
  }

  lemma UsedBelow(p: Scene)
    requires HeapOk(p)
    ensures p.used < |p.mem|
  {
    hide Parsed, Terminated, FieldsOk, WordOk;
  }

  lemma Finished(p: Scene, q: Scene, s: Progress, b: Words, cur: nat, mem: Words, rs: seq<int>, rs': seq<int>,
      visits: seq<nat>)
    requires HeapOk(p) && q == p.(tbase := q.tbase, tsize := q.tsize) && q.tbase % 4 == 0
    requires ToState(q, s, b, cur) && DoneFrom(q, s, b, 0) && |b| <= |mem| && mem[..|b|] == b && cur < |mem|
    requires forall w :: w in p.outsiders ==> Clear(q.tbase, |mem|, w)
    requires |rs'| == |rs| && (forall j :: 0 <= j < |visits| ==> visits[j] < |rs|) && p.roots == RootWords(rs, visits)
    requires forall v :: 0 <= v < |rs| ==> if v in visits then Redirected(q, s, rs[v], rs'[v]) else rs'[v] == rs[v]
    ensures Listed(q, s) && Carried(p, s.fwd, q.tbase, mem, News(q, s))
    ensures RootsCarried(p, s.fwd, q.tbase, |mem|, rs, rs', visits)
    ensures (forall c :: c in s.fwd <==> Reached(p, c))
    ensures HeapOk(After(p, q.tbase, mem, News(q, s), cur, RootWords(rs', visits)))
  {
    hide HeapOk, ToState, DoneFrom, Reached, Redirected, RootWords, Carried, RootsCarried, Listed, InSpace;
    IsListed(q, s, b, cur);
    forall w | w in p.outsiders ensures !InSpace(q.tbase, |mem|, w) {
      assert Clear(q.tbase, |mem|, w);
    }
    PassOutcome(p, q, s, b, cur, mem, rs, rs', visits);
  }

  lemma NextScene(q: Scene, grant: (int, nat) -> bool, place: (int, nat, nat) -> int, n: nat)
    requires HeapOk(q) && Os(grant, place, q.outsiders) && n == |q.mem|
    ensures SceneOk(q.(tbase := place(q.base, n, 2 * n), tsize := 2 * n))
  {
    hide HeapOk;
    var r := q.(tbase := place(q.base, n, 2 * n), tsize := 2 * n);
    Elsewhere(q, r.tbase, r.tsize, map[], 0, [], []);
    forall w | w in r.outsiders ensures !InSpace(r.tbase, r.tsize, w) {
      assert Clear(r.tbase, r.tsize, w);
    }
  }

  lemma Composed(p: Scene, f: map<int, nat>, q: Scene, g: map<int, nat>, base: int, mem: Words, objs: seq<nat>,
      rs: seq<int>, rs1: seq<int>, rs2: seq<int>, visits: seq<nat>, at: nat)
    requires HeapOk(p) && HeapOk(q) && (forall j :: 0 <= j < |visits| ==> visits[j] < |rs| == |rs1|)
    requires q == After(p, q.base, q.mem, q.objs, q.used, RootWords(rs1, visits))
    requires Carried(p, f, q.base, q.mem, q.objs) && RootsCarried(p, f, q.base, |q.mem|, rs, rs1, visits)
    requires p.roots == RootWords(rs, visits)
    requires (forall c :: c in f <==> Reached(p, c)) && (forall c :: c in g <==> Reached(q, c))
    requires Carried(q, g, base, mem, objs) && RootsCarried(q, g, base, |mem|, rs1, rs2, visits)
    requires HeapOk(After(q, base, mem, objs, at, RootWords(rs2, visits)))
    ensures Carried(p, Then(f, g), base, mem, objs) && RootsCarried(p, Then(f, g), base, |mem|, rs, rs2, visits)
    ensures (forall c :: c in Then(f, g) <==> Reached(p, c))
    ensures HeapOk(After(p, base, mem, objs, at, RootWords(rs2, visits)))
  {
    hide Parsed, Terminated, FieldsOk, WordOk, Reached, Carried, RootsCarried, RootWords, Then;
    forall c | c in f ensures f[c] in g {
      ImageReached(p, f, q.base, q.mem, q.objs, q.used, rs, rs1, visits, c);
    }
    CarriedTwice(p, f, q, g, base, mem, objs);
    RootsTwice(p, f, q, g, base, |mem|, rs, rs1, rs2, visits);
    assert forall c :: c in Then(f, g).Keys <==> c in f.Keys;
  }

  lemma {:induction false} NothingTotal(mem: Words, objs: seq<nat>, n: nat)
    requires n <= |objs|
    ensures Total(mem, objs, n, {}) == 0
  {
    if n > 0 {
      NothingTotal(mem, objs, n - 1);
    }
  }

  lemma NothingCopied(p: Scene, s: Progress, a: Words, b: Words)
    requires SceneOk(p) && s == Progress([], map[]) && a == p.mem && |b| == p.tsize
    requires forall i :: 0 <= i < |b| ==> b[i] == 0
    ensures Copying(p, s, a, b, 0) && DoneFrom(p, s, b, 0) && 0 <= p.used
  {
    hide HeaderOk, FieldsOk, Terminated, WordOk;
    NothingTotal(p.mem, p.objs, |p.objs|);
    assert s.fwd.Keys == {};
    assert p.used >= 0;
  }

  lemma InNext(visits: seq<nat>, k: nat, u: nat)
    requires k < |visits|
    ensures u in visits[..k + 1] <==> u in visits[..k] || u == visits[k]
  {
    assert visits[..k + 1] == visits[..k] + [visits[k]];
  }

  lemma RootFacts(p: Scene, rs: seq<int>, visits: seq<nat>, k: nat)
    requires SceneOk(p) && (forall j :: 0 <= j < |visits| ==> visits[j] < |rs|) && p.roots == RootWords(rs, visits)
    requires k < |visits|
    ensures var w := rs[visits[k]]; WordOk(p, w) && (IsRef(p, w) ==> Reached(p, Of(p, w)))
  {
    hide WordOk, Reached, Parsed, Terminated, IsRef, FieldsOk;
    var w := rs[visits[k]];
    assert w in p.roots;
    if IsRef(p, w) {
      RootReached(p, w);
    }
  }

  lemma ScansSame(p: Scene, base: int, size: nat, w: int)
    requires base == p.base && size == |p.mem|
    ensures InSpace(base, size, w) <==> IsRef(p, w)
  {
  }

  /** A redirected root refers to to-space or to nothing. */
  lemma RedirectedOutside(p: Scene, s: Progress, b: Words, cur: int, w: int, w': int)
    requires SceneOk(p) && ToState(p, s, b, cur) && cur <= p.used && Redirected(p, s, w, w')
    ensures !IsRef(p, w')
  {
    hide Parsed, Terminated, FieldsOk, Reached, Total, SameHead, WordOk;
    if IsRef(p, w) {
      CopyPlace(p, s, b, cur, Of(p, w));
      FrontBack(b, s.fwd[Of(p, w)]);
    }
  }

  lemma RedirectedStays(p: Scene, s: Progress, s': Progress, w: int, w': int)
    requires Redirected(p, s, w, w') && Further(s, s')
    ensures Redirected(p, s', w, w')
  {
  }

  lemma SameStays(p: Scene, s: Progress, w: int, w': int, seen: bool)
    requires if seen then Redirected(p, s, w, w') else w' == w && !IsRef(p, w)
    ensures Redirected(p, s, w, w') && Further(s, s)
  {
  }

  lemma DoneAll(p: Scene, s: Progress, b: Words, cur: int, s': Progress, b': Words, cur': int)
    requires ToState(p, s, b, cur) && Grown(p, s, b, cur, s', b', cur') && DoneFrom(p, s, b, 0)
    ensures DoneFrom(p, s', b', 0) && Further(s, s')
  {
    hide ToState, DoneFrom;
    DoneGrows(p, s, b, cur, s', b', cur', 0);
  }

  lemma LeftLess(p: Scene, s: Progress, s': Progress, c: int)
    requires c in p.objs && c !in s.fwd && s'.fwd.Keys == s.fwd.Keys + {c}
    ensures (set x | x in p.objs) - s'.fwd.Keys < (set x | x in p.objs) - s.fwd.Keys
  {
    var all: set<int> := set x | x in p.objs;
    assert c in all - s.fwd.Keys;
  }

  lemma LeftFurther(p: Scene, s: Progress, s': Progress)
    requires Further(s, s')
    ensures (set x: int | x in p.objs) - s'.fwd.Keys <= (set x: int | x in p.objs) - s.fwd.Keys
  {
  }

  lemma TakenFurther(p: Scene, s: Progress, s': Progress, b: Words, c: nat, d: nat)
    requires s' == Progress(s.order + [c], s.fwd[c := d]) && c !in s.fwd
    ensures Further(s, s') && DoneFrom(p, s', b, |s'.order|)
  {
  }

  lemma KindKept(p: Scene, s: Progress, b: Words, cur: int, c: int, tag: int)
    requires ToState(p, s, b, cur) && c in s.fwd && tag == Header(p.mem, c)
    ensures HeaderOk(tag) && tag >= 0
  {
    CopyPlace(p, s, b, cur, c);
  }

  lemma FieldsOfKind(p: Scene, c: int, tag: int)
    requires tag == Header(p.mem, c) && HeaderOk(tag) && Kind(tag) != STRING
    ensures Len(tag) >= 0 && Len(tag) == Back(p.mem, c) - c
  {
  }

  /** The object taken first is done, and so are all that came after it. */
  lemma CopiedGrown(p: Scene, s0: Progress, b0: Words, cur0: nat, s1: Progress, b1: Words, s2: Progress, b2: Words,
      cur2: int, c: nat, copy: nat)
    requires s1 == Progress(s0.order + [c], s0.fwd[c := copy]) && c !in s0.fwd && cur0 < copy <= |b1|
    requires |b0| == |b1| == |b2|
    requires b1[..cur0] == b0[..cur0] && b2[..copy] == b1[..copy] && Further(s1, s2) && cur0 <= cur2
    requires Done(p, s2, b2, c) && DoneFrom(p, s2, b2, |s0.order| + 1)
    ensures Grown(p, s0, b0, cur0, s2, b2, cur2) && c in s2.fwd && s2.fwd[c] == copy
  {
    hide Done;
    assert b2[..cur0] == b2[..copy][..cur0] == b1[..copy][..cur0] == b1[..cur0];
    assert s0.order <= s1.order <= s2.order;
    assert s2.order[|s0.order|] == s1.order[|s0.order|] == c;
    forall x | x in s0.fwd ensures x in s2.fwd && s2.fwd[x] == s0.fwd[x] {
      assert x in s1.fwd;
    }
  }

  lemma NoneLater(p: Scene, s: Progress, b: Words, n: nat)
    requires n >= |s.order|
    ensures DoneFrom(p, s, b, n)
  {
  }

  lemma IsListed(p: Scene, s: Progress, b: Words, cur: int)
    requires ToState(p, s, b, cur)
    ensures Listed(p, s)
  {
    hide Listed, Total, Parsed, SameHead;
  }

  lemma NoFields(p: Scene, s: Progress, b: Words, c: int)
    requires c in s.fwd
    ensures FieldsDone(p, s, b, c, 0) && Further(s, s)
  {
  }

  lemma AllFields(p: Scene, s: Progress, b: Words, c: int)
    requires Kind(Header(p.mem, c)) != STRING && FieldsDone(p, s, b, c, Back(p.mem, c) - c)
    ensures Done(p, s, b, c)
  {
    hide FieldsDone, Kind, Header, Back;
  }

  /** A field is a proper word, and reachable if its object is. */
  lemma FieldFacts(p: Scene, c: int, k: int)
    requires SceneOk(p) && c in p.objs && c <= k < Back(p.mem, c) && Kind(Header(p.mem, c)) != STRING
    requires 0 <= k < |p.mem| && Reached(p, c)
    ensures WordOk(p, p.mem[k]) && (IsRef(p, p.mem[k]) ==> Reached(p, Of(p, p.mem[k])))
  {
    hide WordOk, Reached, Parsed, Terminated, IsRef;
    assert k < FieldsEnd(p.mem, c);
    if IsRef(p, p.mem[k]) {
      FieldReached(p, c, k);
    }
  }

  lemma SameWord(p: Scene, s: Progress, w: int)
    requires !IsRef(p, w)
    ensures Redirected(p, s, w, w)
  {
  }

  lemma StillNotLater(p: Scene, s: Progress, s': Progress, c: int, n: nat)
    requires Listed(p, s) && Listed(p, s') && Further(s, s') && c in s.fwd && n <= |s.order|
    requires forall j :: n <= j < |s.order| ==> s.order[j] != c
    ensures n <= |s'.order| && forall j :: n <= j < |s'.order| ==> s'.order[j] != c
  {
    hide Reached;
    var i :| 0 <= i < |s.order| && s.order[i] == c;
    assert s'.order[i] == c;
  }

  lemma PrefixKept(b0: Words, b1: Words, b2: Words, cur0: int, copy: nat)
    requires |b0| == |b1| == |b2| && 0 <= cur0 <= |b0| && b1[..cur0] == b0[..cur0] && copy <= cur0
    requires b2[..copy] == b1[..copy]
    ensures b2[..copy] == b0[..copy]
  {
    assert b1[..copy] == b1[..cur0][..copy];
    assert b0[..copy] == b0[..cur0][..copy];
  }

  lemma CurrentIs(p: Scene, s: Progress, b: Words, cur: int)
    requires ToState(p, s, b, cur)
    ensures cur == Total(p.mem, p.objs, |p.objs|, s.fwd.Keys) && |b| == p.tsize
  {
    hide Total, Listed, Parsed, SameHead;
  }

  lemma ZeroBehind(p: Scene, s: Progress, b: Words, cur: int)
    requires ToState(p, s, b, cur)
    ensures forall i :: cur <= i < |b| && 0 <= i ==> b[i] == 0
  {
    hide Total, Listed, Parsed, SameHead;
  }

  lemma HeadedNow(p: Scene, b: Words, cur: nat, c: nat, d: nat, b': Words)
    requires |b'| == |b| && 1 <= c <= |p.mem| && d == cur + Head(Header(p.mem, c)) && d <= |b|
    requires b'[d - 1] == Header(p.mem, c) && (Head(Header(p.mem, c)) == 2 ==> 2 <= c && b'[d - 2] == p.mem[c - 2])
    requires forall i :: 0 <= i < |b| && !(cur <= i < d) ==> b'[i] == b[i]
    ensures Headed(p, b, cur, c, d, b')
  {
  }

  lemma ZeroAhead(mem: Words, c: nat, end: nat)
    requires Terminated(mem, c) && Kind(Header(mem, c)) == STRING && end == Back(mem, c) <= |mem|
    ensures c < end && exists k :: 0 <= k < |mem[c..end]| && HasZero(mem[c..end][k])
  {
    hide HasZero;
    var k :| c <= k < Back(mem, c) && k < |mem| && HasZero(mem[k]);
    assert mem[c..end][k - c] == mem[k];
  }

  lemma StringIsDone(p: Scene, s: Progress, b: Words, c: int)
    requires StringDone(p, s, b, c) && Kind(Header(p.mem, c)) == STRING
    ensures Done(p, s, b, c)
  {
    hide StringDone;
  }
}
