/** Maps and sets over balanced trees (stdlib/Collection.lama:216-301).  A map keeps all values added for a key and
    shows the latest; removal exposes the one before. */
module Collections {
  import opened Wrappers
  import opened OrderedTrees

  ghost predicate Valid<K(!new), W>(cmp: Compare<K>, t: Tree<K, W>) {
    Orders(cmp) && Balanced(t) && Ordered(cmp, t)
  }

  // ---- maps ----

  function AddMap<K, V>(cmp: Compare<K>, m: Tree<K, seq<V>>, k: K, v: V): (r: Tree<K, seq<V>>)
    requires Balanced(m)
    ensures Balanced(r)
  {
    Insert(cmp, m, k, [], vs => [v] + vs).1
  }

  function FindMap<K, V>(cmp: Compare<K>, m: Tree<K, seq<V>>, k: K): Option<V> {
    match m
    case Leaf => None
    case Node(kk, vv, _, l, r) =>
      var c := cmp(k, kk);
      if c == 0 then (if vv == [] then None else Some(vv[0])) else FindMap(cmp, if c < 0 then l else r, k)
  }

  function RemoveMap<K, V>(cmp: Compare<K>, m: Tree<K, seq<V>>, k: K): Tree<K, seq<V>> {
    Remove(cmp, m, k, vs => if vs == [] then [] else vs[1..])
  }

  /** bindings: the keys with values, each with its latest. */
  function Bindings<K, V>(m: Tree<K, seq<V>>): seq<(K, seq<V>)> {
    Contents(m, vs => vs != [], [])
  }

  datatype MapOp<K, V> = Add(key: K, value: V) | Delete(key: K)

  /** The map after a sequence of operations. */
  function MapAfter<K, V>(cmp: Compare<K>, ops: seq<MapOp<K, V>>): (m: Tree<K, seq<V>>)
    ensures Balanced(m)
  {
    if ops == [] then Leaf
    else
      var m := MapAfter(cmp, ops[..|ops| - 1]);
      match ops[|ops| - 1]
      case Add(k, v) => AddMap(cmp, m, k, v)
      case Delete(k) =>
        RemoveBalanced(cmp, m, k);
        RemoveMap(cmp, m, k)
  }

  lemma RemoveBalanced<K, V>(cmp: Compare<K>, m: Tree<K, seq<V>>, k: K)
    requires Balanced(m)
    ensures Balanced(RemoveMap(cmp, m, k))
  {
    RemoveShape(cmp, m, k, vs => if vs == [] then [] else vs[1..]);
  }

  lemma {:induction false} RemoveShape<K, W>(cmp: Compare<K>, t: Tree<K, W>, pk: K, delete: W -> W)
    ensures Height(Remove(cmp, t, pk, delete)) == Height(t)
    ensures Balanced(t) ==> Balanced(Remove(cmp, t, pk, delete))
  {
    match t
    case Leaf =>
    case Node(_, _, _, l, r) =>
      RemoveShape(cmp, l, pk, delete);
      RemoveShape(cmp, r, pk, delete);
  }

  /** What the operations leave for a key: the values added and not yet removed, the latest first. */
  function StackOf<K, V>(cmp: Compare<K>, ops: seq<MapOp<K, V>>, x: K): seq<V> {
    if ops == [] then []
    else
      var before := StackOf(cmp, ops[..|ops| - 1], x);
      match ops[|ops| - 1]
      case Add(k, v) => if cmp(x, k) == 0 then [v] + before else before
      case Delete(k) => if cmp(x, k) == 0 && before != [] then before[1..] else before
  }

  lemma {:induction false} MapHolds<K(!new), V>(cmp: Compare<K>, ops: seq<MapOp<K, V>>, x: K)
    requires Orders(cmp)
    ensures Valid(cmp, MapAfter(cmp, ops)) && At(cmp, MapAfter(cmp, ops), x, []) == StackOf(cmp, ops, x)
  {
    hide Orders;
    if ops != [] {
      var m := MapAfter(cmp, ops[..|ops| - 1]);
      MapHolds(cmp, ops[..|ops| - 1], x);
      match ops[|ops| - 1]
      case Add(k, v) =>
        var put := (vs: seq<V>) => [v] + vs;
        InsertOrdered(cmp, m, k, [], put);
        InsertAt(cmp, m, k, [], put, x);
      case Delete(k) =>
        var delete := (vs: seq<V>) => if vs == [] then [] else vs[1..];
        RemoveKeeps(cmp, m, k, delete);
        RemoveAt(cmp, m, k, [], delete, x);
    }
  }

  lemma {:induction false} FindIsAt<K, V>(cmp: Compare<K>, m: Tree<K, seq<V>>, k: K)
    ensures FindMap(cmp, m, k) == var vs := At(cmp, m, k, []); if vs == [] then None else Some(vs[0])
  {
    match m
    case Leaf =>
    case Node(kk, vv, _, l, r) =>
      FindIsAt(cmp, l, k);
      FindIsAt(cmp, r, k);
  }

  /** After any operations, a lookup finds the latest value not removed, and the bindings are the keys with such
      values, strictly ascending, each with its own. */
  lemma MapCorrect<K(!new), V(!new)>(cmp: Compare<K>, ops: seq<MapOp<K, V>>, x: K)
    requires Orders(cmp)
    ensures
      var m, vs := MapAfter(cmp, ops), StackOf(cmp, ops, x);
      && Valid(cmp, m) && Ascending(cmp, Bindings(m))
      && FindMap(cmp, m, x) == (if vs == [] then None else Some(vs[0]))
      && (Mentions(cmp, Bindings(m), x) <==> vs != [])
      && (vs != [] ==> Lists(cmp, Bindings(m), x, vs))
  {
    hide Orders, Contents, At;
    var m := MapAfter(cmp, ops);
    var shown := (vs: seq<V>) => vs != [];
    MapHolds(cmp, ops, x);
    FindIsAt(cmp, m, x);
    ContentsAscending(cmp, m, shown);
    ContentsExact(cmp, m, shown, [], x);
  }

  // ---- maps whose comparison orders the keys in use only ----

  ghost predicate KeysWithin<K, V>(ops: seq<MapOp<K, V>>, dom: set<K>) {
    forall i :: 0 <= i < |ops| ==> ops[i].key in dom
  }

  lemma {:induction false} MapWithin<K, V>(cmp: Compare<K>, dom: set<K>, ops: seq<MapOp<K, V>>)
    requires KeysWithin(ops, dom)
    ensures MapAfter(Extend(cmp, dom), ops) == MapAfter(cmp, ops) && Within(MapAfter(cmp, ops), dom)
  {
    hide Extend;
    if ops != [] {
      MapWithin(cmp, dom, ops[..|ops| - 1]);
      var m := MapAfter(cmp, ops[..|ops| - 1]);
      match ops[|ops| - 1]
      case Add(k, v) => InsertWithin(cmp, dom, m, k, [], vs => [v] + vs);
      case Delete(k) => RemoveWithin(cmp, dom, m, k, vs => if vs == [] then [] else vs[1..]);
    }
  }

  lemma {:induction false} FindWithin<K, V>(cmp: Compare<K>, dom: set<K>, m: Tree<K, seq<V>>, x: K)
    requires Within(m, dom) && x in dom
    ensures FindMap(Extend(cmp, dom), m, x) == FindMap(cmp, m, x)
  {
    match m
    case Leaf =>
    case Node(k, _, _, l, r) =>
      assert Extend(cmp, dom)(x, k) == cmp(x, k);
      FindWithin(cmp, dom, l, x);
      FindWithin(cmp, dom, r, x);
  }

  lemma {:induction false} StackWithin<K, V>(cmp: Compare<K>, dom: set<K>, ops: seq<MapOp<K, V>>, x: K)
    requires KeysWithin(ops, dom) && x in dom
    ensures StackOf(Extend(cmp, dom), ops, x) == StackOf(cmp, ops, x)
  {
    if ops != [] {
      StackWithin(cmp, dom, ops[..|ops| - 1], x);
      assert Extend(cmp, dom)(x, ops[|ops| - 1].key) == cmp(x, ops[|ops| - 1].key);
    }
  }

  lemma AfterAdd<K, V>(cmp: Compare<K>, ops: seq<MapOp<K, V>>, k: K, v: V)
    ensures MapAfter(cmp, ops + [Add(k, v)]) == AddMap(cmp, MapAfter(cmp, ops), k, v)
    ensures forall x ::
              StackOf(cmp, ops + [Add(k, v)], x) ==
              (if cmp(x, k) == 0 then [v] + StackOf(cmp, ops, x) else StackOf(cmp, ops, x))
  {
    hide AddMap;
    var more := ops + [Add(k, v)];
    assert more[..|more| - 1] == ops;
  }

  /** A map works as soon as its comparison orders the keys it is used with. */
  lemma MapCorrectOn<K(!new), V(!new)>(cmp: Compare<K>, dom: set<K>, ops: seq<MapOp<K, V>>, x: K)
    requires OrdersOn(cmp, dom) && KeysWithin(ops, dom) && x in dom
    ensures
      var vs := StackOf(cmp, ops, x);
      FindMap(cmp, MapAfter(cmp, ops), x) == (if vs == [] then None else Some(vs[0]))
  {
    hide Extend, OrdersOn, Orders, FindMap, MapAfter, StackOf;
    ExtendOrders(cmp, dom);
    MapCorrect(Extend(cmp, dom), ops, x);
    MapWithin(cmp, dom, ops);
    FindWithin(cmp, dom, MapAfter(cmp, ops), x);
    StackWithin(cmp, dom, ops, x);
  }

  // ---- sets ----

  function AddSet<K>(cmp: Compare<K>, s: Tree<K, bool>, k: K): (r: Tree<K, bool>)
    requires Balanced(s)
    ensures Balanced(r)
  {
    Insert(cmp, s, k, false, _ => true).1
  }

  function MemSet<K>(cmp: Compare<K>, s: Tree<K, bool>, k: K): bool {
    At(cmp, s, k, false)
  }

  function RemoveSet<K>(cmp: Compare<K>, s: Tree<K, bool>, k: K): (r: Tree<K, bool>)
    requires Balanced(s)
    ensures Balanced(r)
  {
    RemoveShape(cmp, s, k, _ => false);
    Remove(cmp, s, k, _ => false)
  }

  function Elements<K>(s: Tree<K, bool>): seq<(K, bool)> {
    Contents(s, b => b, [])
  }

  /** foldl (addSet, s, es). */
  function AddAll<K>(cmp: Compare<K>, s: Tree<K, bool>, es: seq<(K, bool)>): (r: Tree<K, bool>)
    requires Balanced(s)
    ensures Balanced(r)
    decreases |es|
  {
    if es == [] then s else AddAll(cmp, AddSet(cmp, s, es[0].0), es[1..])
  }

  function RemoveAll<K>(cmp: Compare<K>, s: Tree<K, bool>, es: seq<(K, bool)>): (r: Tree<K, bool>)
    requires Balanced(s)
    ensures Balanced(r)
    decreases |es|
  {
    if es == [] then s else RemoveAll(cmp, RemoveSet(cmp, s, es[0].0), es[1..])
  }

  function Union<K>(cmp: Compare<K>, a: Tree<K, bool>, b: Tree<K, bool>): Tree<K, bool>
    requires Balanced(a)
  {
    AddAll(cmp, a, Elements(b))
  }

  function Diff<K>(cmp: Compare<K>, a: Tree<K, bool>, b: Tree<K, bool>): Tree<K, bool>
    requires Balanced(a)
  {
    RemoveAll(cmp, a, Elements(b))
  }

  lemma AddSetMem<K(!new)>(cmp: Compare<K>, s: Tree<K, bool>, k: K, x: K)
    requires Valid(cmp, s)
    ensures Valid(cmp, AddSet(cmp, s, k)) && MemSet(cmp, AddSet(cmp, s, k), x) == (cmp(x, k) == 0 || MemSet(cmp, s, x))
  {
    hide Orders, At, Insert;
    InsertOrdered(cmp, s, k, false, _ => true);
    InsertAt(cmp, s, k, false, _ => true, x);
  }

  lemma RemoveSetMem<K(!new)>(cmp: Compare<K>, s: Tree<K, bool>, k: K, x: K)
    requires Valid(cmp, s)
    ensures Valid(cmp, RemoveSet(cmp, s, k))
    ensures MemSet(cmp, RemoveSet(cmp, s, k), x) == (cmp(x, k) != 0 && MemSet(cmp, s, x))
  {
    hide Orders, At, Remove;
    RemoveKeeps(cmp, s, k, _ => false);
    RemoveAt(cmp, s, k, false, _ => false, x);
  }

  lemma MentionsTail<K(!new)>(cmp: Compare<K>, es: seq<(K, bool)>, x: K)
    requires es != []
    ensures Mentions(cmp, es, x) <==> cmp(x, es[0].0) == 0 || Mentions(cmp, es[1..], x)
  {
    ListsJoin(cmp, [es[0]], es[1..], x, true);
    assert es == [es[0]] + es[1..];
    if cmp(x, es[0].0) == 0 {
      assert [es[0]][0] == es[0];
    }
  }

  lemma {:induction false} AddAllMem<K(!new)>(cmp: Compare<K>, s: Tree<K, bool>, es: seq<(K, bool)>, x: K)
    requires Valid(cmp, s)
    ensures Valid(cmp, AddAll(cmp, s, es))
    ensures MemSet(cmp, AddAll(cmp, s, es), x) == (Mentions(cmp, es, x) || MemSet(cmp, s, x))
    decreases |es|
  {
    hide Orders, MemSet;
    if es != [] {
      AddSetMem(cmp, s, es[0].0, x);
      MentionsTail(cmp, es, x);
      AddAllMem(cmp, AddSet(cmp, s, es[0].0), es[1..], x);
    }
  }

  lemma {:induction false} RemoveAllMem<K(!new)>(cmp: Compare<K>, s: Tree<K, bool>, es: seq<(K, bool)>, x: K)
    requires Valid(cmp, s)
    ensures Valid(cmp, RemoveAll(cmp, s, es))
    ensures MemSet(cmp, RemoveAll(cmp, s, es), x) == (!Mentions(cmp, es, x) && MemSet(cmp, s, x))
    decreases |es|
  {
    hide Orders, MemSet;
    if es != [] {
      RemoveSetMem(cmp, s, es[0].0, x);
      MentionsTail(cmp, es, x);
      RemoveAllMem(cmp, RemoveSet(cmp, s, es[0].0), es[1..], x);
    }
  }

  /** The elements are the members, strictly ascending; union and diff are the set operations. */
  lemma SetsCorrect<K(!new)>(cmp: Compare<K>, a: Tree<K, bool>, b: Tree<K, bool>, x: K)
    requires Valid(cmp, a) && Valid(cmp, b)
    ensures Ascending(cmp, Elements(a)) && (Mentions(cmp, Elements(a), x) <==> MemSet(cmp, a, x))
    ensures Valid(cmp, Union(cmp, a, b)) && MemSet(cmp, Union(cmp, a, b), x) == (MemSet(cmp, a, x) || MemSet(cmp, b, x))
    ensures Valid(cmp, Diff(cmp, a, b)) && MemSet(cmp, Diff(cmp, a, b), x) == (MemSet(cmp, a, x) && !MemSet(cmp, b, x))
  {
    hide Orders, Contents, At;
    ContentsAscending(cmp, a, b => b);
    ContentsExact(cmp, a, b => b, false, x);
    ContentsExact(cmp, b, b => b, false, x);
    AddAllMem(cmp, a, Elements(b), x);
    RemoveAllMem(cmp, a, Elements(b), x);
  }
}
