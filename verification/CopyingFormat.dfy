/** What the copying collector follows and where its objects end, in terms of header bits alone
    (runtime32/runtime.c:23-35, 1621-1819), and what this makes of a whole collection. */
module CopyingFormat {
  import opened CopyingHeap
  import opened CopyingPass

  /** How many words from the start of the contents on are items: the length the header gives, in which the code
      pointer of a closure counts; none in a string. */
  function Items(header: int): int { if header % 8 == 1 then 0 else header / 8 }

  /** Words of the contents, and words in front of them. */
  function WordsOf(header: int): int { if header % 8 == 1 then (header / 8 + 4) / 4 else header / 8 }

  function WordsBefore(header: int): int { if header % 8 == 5 then 2 else 1 }

  /** Each object begins where the one before it ends. */
  lemma ObjectsFollow(p: Scene, i: nat)
    requires HeapOk(p) && i + 1 < |p.objs|
    ensures 1 <= p.objs[i] <= |p.mem| && 1 <= p.objs[i + 1] <= |p.mem| && p.mem[p.objs[i] - 1] % 8 in {1, 3, 5, 7}
    ensures p.objs[i + 1] - WordsBefore(p.mem[p.objs[i + 1] - 1]) == p.objs[i] + WordsOf(p.mem[p.objs[i] - 1])
  {
    hide FieldsOk, Terminated;
    assert ObjectAt(p.mem, p.objs, i) && ObjectAt(p.mem, p.objs, i + 1);
  }

  /** The items are the words a collection follows. */
  lemma ItemsEnd(p: Scene, c: int)
    requires HeapOk(p) && c in p.objs
    ensures 1 <= c <= FieldsEnd(p.mem, c) <= p.used < |p.mem| && FieldsEnd(p.mem, c) == c + Items(p.mem[c - 1])
  {
    hide FieldsOk, Terminated, Parsed;
    var i :| 0 <= i < |p.objs| && p.objs[i] == c;
    Within(p.mem, p.objs, p.used, i);
  }

  // ---- references ----

  /** w is the address of the contents of the object d. */
  predicate Names(p: Scene, w: int, d: int) { w == p.base + 4 * d && d in p.objs }

  lemma NamesIsRef(p: Scene, w: int, d: int)
    requires HeapOk(p)
    ensures Names(p, w, d) ==> IsRef(p, w) && Of(p, w) == d
    ensures WordOk(p, w) && IsRef(p, w) ==> Names(p, w, Of(p, w))
  {
    if Names(p, w, d) {
      ItemsEnd(p, d);
      AddressIn(p.base, |p.mem|, d);
    }
  }

  /** s holds what roots refer to and what items of its members refer to. */
  ghost predicate HoldsAll(p: Scene, s: set<int>) {
    && (forall w, d :: w in p.roots && Names(p, w, d) ==> d in s)
    && (forall c, j, d :: c in s && c in p.objs && LeadsAt(p, c, j, d) ==> d in s)
  }

  ghost predicate LeadsAt(p: Scene, c: int, j: int, d: int) {
    && 1 <= c <= |p.mem| && 0 <= j < Items(p.mem[c - 1]) && c + j < |p.mem| && Names(p, p.mem[c + j], d)
  }

  lemma RootOk(p: Scene, w: int)
    requires HeapOk(p) && w in p.roots
    ensures WordOk(p, w)
  {
    hide FieldsOk, Terminated, Parsed;
  }

  lemma ItemOk(p: Scene, c: int, k: int)
    requires HeapOk(p) && c in p.objs && c <= k < FieldsEnd(p.mem, c) && 0 <= k < |p.mem|
    ensures WordOk(p, p.mem[k])
  {
    hide Terminated, Parsed;
  }

  lemma HoldsIsClosed(p: Scene, s: set<int>)
    requires HeapOk(p)
    ensures HoldsAll(p, s) <==> Closed(p, s)
  {
    hide HeapOk, Names, IsRef, Of, WordOk, FieldsEnd, Items;
    if HoldsAll(p, s) {
      forall w | w in p.roots && IsRef(p, w) ensures Of(p, w) in s {
        RootOk(p, w);
        NamesIsRef(p, w, Of(p, w));
      }
      forall c, k | c in s && c in p.objs && c <= k < FieldsEnd(p.mem, c) && k < |p.mem| && IsRef(p, p.mem[k])
        ensures Of(p, p.mem[k]) in s
      {
        ItemsEnd(p, c);
        ItemOk(p, c, k);
        NamesIsRef(p, p.mem[k], Of(p, p.mem[k]));
        assert LeadsAt(p, c, k - c, Of(p, p.mem[k]));
      }
    }
    if Closed(p, s) {
      forall w, d | w in p.roots && Names(p, w, d) ensures d in s {
        NamesIsRef(p, w, d);
      }
      forall c, j, d | c in s && c in p.objs && LeadsAt(p, c, j, d) ensures d in s {
        ItemsEnd(p, c);
        NamesIsRef(p, p.mem[c + j], d);
      }
    }
  }

  // ---- a collection ----

  /** The item is the new address of the object it referred to, or the word it was. */
  ghost predicate ItemKept(p: Scene, f: map<int, nat>, base: int, w: int, w': int) {
    && (forall d :: Names(p, w, d) ==> d in f && w' == base + 4 * f[d])
    && ((forall d :: !Names(p, w, d)) ==> w' == w)
  }

  ghost predicate ItemsKept(p: Scene, f: map<int, nat>, base: int, mem: Words, c: int)
    requires c in f
  {
    && 1 <= c <= |p.mem| && 1 <= f[c] <= |mem| && mem[f[c] - 1] == p.mem[c - 1]
    && (p.mem[c - 1] % 8 == 5 ==> 2 <= c && 2 <= f[c] && mem[f[c] - 2] == p.mem[c - 2])
    && forall j :: 0 <= j < Items(p.mem[c - 1]) ==> ItemKeptAt(p, f, base, mem, c, j)
  }

  ghost predicate ItemKeptAt(p: Scene, f: map<int, nat>, base: int, mem: Words, c: int, j: nat)
    requires c in f && c >= 0
  {
    c + j < |p.mem| && f[c] + j < |mem| && ItemKept(p, f, base, p.mem[c + j], mem[f[c] + j])
  }

  /** The copied objects are the least set that holds what roots and items lead to; their copies have their headers,
      tags and items. */
  ghost predicate Kept(p: Scene, f: map<int, nat>, base: int, mem: Words) {
    && HoldsAll(p, f.Keys) && (forall s :: HoldsAll(p, s) ==> f.Keys <= s)
    && (forall c :: c in f ==> ItemsKept(p, f, base, mem, c))
    && (forall c, d :: c in f && d in f && c != d ==> f[c] != f[d])
  }

  lemma CarriedItem(p: Scene, f: map<int, nat>, base: int, size: nat, w: int, w': int)
    requires HeapOk(p) && WordOk(p, w) && WordCarried(p, f, base, size, w, w')
    ensures ItemKept(p, f, base, w, w')
  {
    hide HeapOk, Names, IsRef, Of;
    forall d ensures Names(p, w, d) ==> IsRef(p, w) && Of(p, w) == d {
      NamesIsRef(p, w, d);
    }
    if IsRef(p, w) {
      NamesIsRef(p, w, Of(p, w));
    }
  }

  lemma CarriedItems(p: Scene, f: map<int, nat>, base: int, mem: Words, c: int)
    requires HeapOk(p) && c in f && c in p.objs && ObjectCarried(p, f, base, mem, c)
    ensures ItemsKept(p, f, base, mem, c)
  {
    hide HeapOk, WordOk, WordCarried, ItemKept, CutBody;
    ItemsEnd(p, c);
    ContentsEnd(p, c);
    assert SameHead(p, mem, c, f[c]);
    forall j: nat | j < Items(p.mem[c - 1]) ensures ItemKeptAt(p, f, base, mem, c, j) {
      assert FieldCarried(p, f, base, mem, c, j);
      ItemOk(p, c, c + j);
      CarriedItem(p, f, base, |mem|, p.mem[c + j], mem[f[c] + j]);
    }
  }

  lemma ContentsEnd(p: Scene, c: int)
    requires HeapOk(p) && c in p.objs
    ensures 1 <= c <= |p.mem| && p.mem[c - 1] % 8 in {1, 3, 5, 7} && Header(p.mem, c) == p.mem[c - 1]
    ensures p.mem[c - 1] % 8 != 1 ==> FieldsEnd(p.mem, c) == Back(p.mem, c)
  {
    hide FieldsOk, Terminated, Parsed;
    var i :| 0 <= i < |p.objs| && p.objs[i] == c;
    Within(p.mem, p.objs, p.used, i);
  }

  lemma CollectionKeeps(p: Scene, f: map<int, nat>, base: int, mem: Words, objs: seq<nat>)
    requires HeapOk(p) && Carried(p, f, base, mem, objs) && forall c :: c in f <==> Reached(p, c)
    ensures Kept(p, f, base, mem)
  {
    hide HeapOk, HoldsAll, ItemsKept, ObjectCarried, Closed;
    ReachedClosed(p, f.Keys);
    HoldsIsClosed(p, f.Keys);
    forall s | HoldsAll(p, s) ensures f.Keys <= s {
      HoldsIsClosed(p, s);
      forall c | c in f ensures c in s {
        InClosed(p, c, s);
      }
    }
    forall c | c in f ensures ItemsKept(p, f, base, mem, c) {
      CarriedItems(p, f, base, mem, c);
    }
  }

  lemma InClosed(p: Scene, c: int, s: set<int>)
    requires Reached(p, c) && Closed(p, s)
    ensures c in s
  {
    hide Closed;
  }

  lemma ReachedClosed(p: Scene, s: set<int>)
    requires forall c :: c in s <==> Reached(p, c)
    ensures Closed(p, s)
  {
    hide Reached;
    forall w | w in p.roots && IsRef(p, w) ensures Of(p, w) in s {
      RootReached(p, w);
    }
    forall c, k | c in s && c in p.objs && c <= k < FieldsEnd(p.mem, c) && k < |p.mem| && IsRef(p, p.mem[k])
      ensures Of(p, p.mem[k]) in s
    {
      assert c >= 0;
      FieldReached(p, c, k);
    }
  }
}
