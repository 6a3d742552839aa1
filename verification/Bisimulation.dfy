/** Graphs of shared, possibly cyclic data, when two of their nodes are the same tree unfolded, and partitions of
    nodes kept in a forest of cells (stdlib/Data.lama:39-84). */
module Bisimulation {
  import opened Wrappers
  import StructuralOrder

  /** A value: an integer or an object of the graph. */
  datatype Node = Num(n: int) | Ref(address: nat)

  /** Closures hold their entry as field 0.  Of a string counts what is in front of its first zero. */
  datatype Object =
    | Chars(bytes: seq<StructuralOrder.Byte>)
    | Items(elems: seq<Node>)
    | Tagged(tag: int, elems: seq<Node>)
    | Closure(entry: int, captured: seq<Node>)

  type Graph = seq<Object>

  predicate In(g: Graph, a: Node) { a.Ref? ==> a.address < |g| }

  function Fields(o: Object): seq<Node> {
    match o
    case Chars(_) => []
    case Items(elems) => elems
    case Tagged(_, elems) => elems
    case Closure(entry, captured) => [Num(entry)] + captured
  }

  predicate Closed(g: Graph) {
    forall a, i :: 0 <= a < |g| && 0 <= i < |Fields(g[a])| ==> In(g, Fields(g[a])[i])
  }

  type Relation = iset<(Node, Node)>

  ghost predicate FieldsRelated(r: Relation, xs: seq<Node>, ys: seq<Node>) {
    |xs| == |ys| && forall i :: 0 <= i < |xs| ==> (xs[i], ys[i]) in r
  }

  predicate SameText(s: seq<StructuralOrder.Byte>, t: seq<StructuralOrder.Byte>) {
    StructuralOrder.Cut(s) == StructuralOrder.Cut(t)
  }

  ghost predicate ObjectsRelated(r: Relation, o: Object, o': Object) {
    match o
    case Chars(s) => o'.Chars? && SameText(s, o'.bytes)
    case Items(elems) => o'.Items? && FieldsRelated(r, elems, o'.elems)
    case Tagged(tag, elems) => o'.Tagged? && o'.tag == tag && FieldsRelated(r, elems, o'.elems)
    case Closure(entry, captured) => o'.Closure? && o'.entry == entry && FieldsRelated(r, captured, o'.captured)
  }

  /** The nodes look alike and their fields are related. */
  ghost predicate Local(g: Graph, r: Relation, a: Node, b: Node) {
    match a
    case Num(_) => b == a
    case Ref(i) => b.Ref? && i < |g| && b.address < |g| && ObjectsRelated(r, g[i], g[b.address])
  }

  ghost predicate IsBisimulation(g: Graph, r: Relation) {
    forall p :: p in r ==> Local(g, r, p.0, p.1)
  }

  /** Two nodes unfold to the same tree. */
  ghost predicate Bisimilar(g: Graph, a: Node, b: Node) {
    exists r: Relation :: IsBisimulation(g, r) && (a, b) in r
  }

  ghost function Bisimilarity(g: Graph): Relation { iset p: (Node, Node) | Bisimilar(g, p.0, p.1) }

  lemma LocalGrows(g: Graph, r: Relation, r': Relation, a: Node, b: Node)
    requires Local(g, r, a, b) && r <= r'
    ensures Local(g, r', a, b)
  {
  }

  /** Bisimilarity is a bisimulation. */
  lemma BisimilarLocal(g: Graph, a: Node, b: Node)
    requires Bisimilar(g, a, b)
    ensures Local(g, Bisimilarity(g), a, b)
  {
    hide Local;
    var r: Relation :| IsBisimulation(g, r) && (a, b) in r;
    assert Local(g, r, (a, b).0, (a, b).1);
    forall p | p in r ensures p in Bisimilarity(g) {
      assert (p.0, p.1) == p;
    }
    LocalGrows(g, r, Bisimilarity(g), a, b);
  }

  // ---- partitions ----

  /** A cell is a root with the weight of its class, or a link towards the root. */
  datatype Cell = Weight(weight: int) | Link(next: nat)

  /** The map from nodes to cells, the cells, and for each cell its root and a number links go up with. */
  datatype Partition = Partition(m: map<Node, nat>, cells: seq<Cell>, root: seq<nat>, rank: seq<nat>)

  ghost predicate CellOk(u: Partition, i: nat)
    requires i < |u.cells| && |u.root| == |u.cells| == |u.rank|
  {
    match u.cells[i]
    case Weight(_) => u.root[i] == i
    case Link(j) => j < |u.cells| && u.rank[i] < u.rank[j] && u.root[j] == u.root[i]
  }

  ghost predicate Forest(u: Partition) {
    && |u.root| == |u.cells| == |u.rank|
    && (forall i :: 0 <= i < |u.cells| ==> CellOk(u, i))
    && (forall i :: 0 <= i < |u.cells| ==> u.root[i] < |u.cells| && u.cells[u.root[i]].Weight?)
    && (forall a :: a in u.m ==> u.m[a] < |u.cells|)
  }

  /** The nodes are known to be equal. */
  ghost predicate Same(u: Partition, a: Node, b: Node)
    requires Forest(u)
  {
    a == b || (a in u.m && b in u.m && u.root[u.m[a]] == u.root[u.m[b]])
  }

  ghost function SameAs(u: Partition): Relation
    requires Forest(u)
  {
    iset p: (Node, Node) | Same(u, p.0, p.1)
  }

  /** Every equivalence that relates the pairs relates all nodes of a class. */
  ghost predicate Equivalence(e: Relation) {
    && (forall a :: (a, a) in e)
    && (forall a, b :: (a, b) in e ==> (b, a) in e)
    && (forall a, b, c :: (a, b) in e && (b, c) in e ==> (a, c) in e)
  }

  ghost predicate Generated(u: Partition, pairs: set<(Node, Node)>)
    requires Forest(u)
  {
    forall e: Relation, a, b :: Equivalence(e) && (forall p :: p in pairs ==> p in e) && Same(u, a, b) ==> (a, b) in e
  }

  ghost predicate Relates(u: Partition, pairs: set<(Node, Node)>)
    requires Forest(u)
  {
    forall p :: p in pairs ==> Same(u, p.0, p.1)
  }

  /** The partition is the least one that puts the pairs together. */
  ghost predicate Spanned(u: Partition, pairs: set<(Node, Node)>)
    requires Forest(u)
  {
    Generated(u, pairs) && Relates(u, pairs)
  }

  /** Local likeness up to the partition is an equivalence. */
  ghost function Alike(g: Graph, u: Partition): Relation
    requires Forest(u)
  {
    iset p: (Node, Node) | p.0 == p.1 || Local(g, SameAs(u), p.0, p.1)
  }

  lemma LocalSymmetric(g: Graph, u: Partition, a: Node, b: Node)
    requires Forest(u) && Local(g, SameAs(u), a, b)
    ensures Local(g, SameAs(u), b, a)
  {
  }

  lemma LocalTransitive(g: Graph, u: Partition, a: Node, b: Node, c: Node)
    requires Forest(u) && Local(g, SameAs(u), a, b) && Local(g, SameAs(u), b, c)
    ensures Local(g, SameAs(u), a, c)
  {
  }

  lemma AlikeEquivalence(g: Graph, u: Partition)
    requires Forest(u)
    ensures Equivalence(Alike(g, u))
  {
    hide Local;
    forall a, b | (a, b) in Alike(g, u) ensures (b, a) in Alike(g, u) {
      if a != b {
        LocalSymmetric(g, u, a, b);
      }
    }
    forall a, b, c | (a, b) in Alike(g, u) && (b, c) in Alike(g, u) ensures (a, c) in Alike(g, u) {
      if a != b && b != c {
        LocalTransitive(g, u, a, b, c);
      }
    }
  }

  ghost predicate KeysIn(g: Graph, u: Partition) {
    forall a :: a in u.m ==> In(g, a)
  }

  lemma LocalReflexive(g: Graph, u: Partition, a: Node)
    requires Forest(u) && In(g, a)
    ensures Local(g, SameAs(u), a, a)
  {
  }

  /** If every pair that spans the partition has been found alike, the partition is a bisimulation. */
  lemma PartitionBisimulates(g: Graph, u: Partition, pairs: set<(Node, Node)>, x: Node, y: Node)
    requires Forest(u) && Spanned(u, pairs) && Same(u, x, y) && In(g, x) && Closed(g) && KeysIn(g, u)
    requires forall p :: p in pairs ==> Local(g, SameAs(u), p.0, p.1)
    ensures Bisimilar(g, x, y)
  {
    hide Local, Forest, Same;
    AlikeEquivalence(g, u);
    var r: Relation := iset p: (Node, Node) | Same(u, p.0, p.1) && In(g, p.0);
    forall p | p in r ensures Local(g, r, p.0, p.1) {
      assert (p.0, p.1) in Alike(g, u);
      if p.0 == p.1 {
        LocalReflexive(g, u, p.0);
      }
      LocalWithin(g, u, r, p.0, p.1);
    }
    assert IsBisimulation(g, r) && (x, y) in r;
  }

  lemma LocalWithin(g: Graph, u: Partition, r: Relation, a: Node, b: Node)
    requires Forest(u) && Closed(g) && Local(g, SameAs(u), a, b)
    requires r == iset p: (Node, Node) | Same(u, p.0, p.1) && In(g, p.0)
    ensures Local(g, r, a, b)
  {
    hide Forest, Same, In;
    if a.Ref? {
      var o, o' := g[a.address], g[b.address];
      match o
      case Chars(_) =>
      case Items(elems) => FieldsWithin(g, u, r, a.address, 0, elems, o'.elems);
      case Tagged(_, elems) => FieldsWithin(g, u, r, a.address, 0, elems, o'.elems);
      case Closure(_, captured) => FieldsWithin(g, u, r, a.address, 1, captured, o'.captured);
    }
  }

  lemma FieldsWithin(g: Graph, u: Partition, r: Relation, a: nat, from: nat, xs: seq<Node>, ys: seq<Node>)
    requires Forest(u) && Closed(g) && a < |g| && from <= |Fields(g[a])| && xs == Fields(g[a])[from..]
    requires r == (iset p: (Node, Node) | Same(u, p.0, p.1) && In(g, p.0)) && FieldsRelated(SameAs(u), xs, ys)
    ensures FieldsRelated(r, xs, ys)
  {
    hide Forest, Same, In, Fields;
    forall i | 0 <= i < |xs| ensures (xs[i], ys[i]) in r {
      assert In(g, Fields(g[a])[from + i]);
    }
  }

  // ---- updates of partitions ----

  /** A new class of the nodes x and y. */
  function NewClass(u: Partition, x: Node, y: Node): Partition {
    Partition(u.m[x := |u.cells|][y := |u.cells|], u.cells + [Weight(1)], u.root + [|u.cells|], u.rank + [0])
  }

  /** x joins the class of the root cell r. */
  function Joined(u: Partition, x: Node, r: nat): Partition {
    u.(m := u.m[x := r])
  }

  /** The class of the root cell from comes under the root cell to. */
  function Merged(u: Partition, from: nat, to: nat, weight: int): Partition
    requires from < |u.cells| && to < |u.cells| && |u.root| == |u.cells| == |u.rank|
  {
    var top := if u.rank[from] >= u.rank[to] then u.rank[from] + 1 else u.rank[to];
    Partition(u.m, u.cells[to := Weight(weight)][from := Link(to)],
      seq(|u.root|, i requires 0 <= i < |u.root| => if u.root[i] == from then to else u.root[i]), u.rank[to := top])
  }

  lemma NewClassForest(u: Partition, x: Node, y: Node)
    requires Forest(u) && x !in u.m && y !in u.m
    ensures Forest(NewClass(u, x, y))
    ensures forall a, b :: Same(NewClass(u, x, y), a, b) <==>
      Same(u, a, b) || (a in {x, y} && b in {x, y})
  {
    var v := NewClass(u, x, y);
    forall i | 0 <= i < |v.cells| ensures CellOk(v, i) {
      if i < |u.cells| {
        assert CellOk(u, i);
      }
    }
  }

  lemma JoinedForest(u: Partition, x: Node, y: Node)
    requires Forest(u) && x !in u.m && y in u.m
    ensures Forest(Joined(u, x, u.root[u.m[y]]))
    ensures forall a, b :: Same(Joined(u, x, u.root[u.m[y]]), a, b) <==>
      Same(u, a, b) || (a == x && Same(u, y, b)) || (b == x && Same(u, a, y))
  {
    var v := Joined(u, x, u.root[u.m[y]]);
    forall i | 0 <= i < |v.cells| ensures CellOk(v, i) {
      assert CellOk(u, i);
    }
    assert CellOk(u, u.root[u.m[y]]);
  }

  lemma MergedForest(u: Partition, x: Node, y: Node, from: nat, to: nat, weight: int)
    requires Forest(u) && x in u.m && y in u.m && from == u.root[u.m[x]] && to == u.root[u.m[y]] && from != to
    ensures Forest(Merged(u, from, to, weight))
  {
    var v := Merged(u, from, to, weight);
    assert CellOk(u, from) && CellOk(u, to);
    forall i | 0 <= i < |v.cells| ensures CellOk(v, i) {
      assert CellOk(u, i);
      if u.cells[i].Link? {
        assert CellOk(u, u.cells[i].next);
      }
    }
  }

  lemma MergedSame(u: Partition, x: Node, y: Node, from: nat, to: nat, weight: int)
    requires Forest(u) && x in u.m && y in u.m && from == u.root[u.m[x]] && to == u.root[u.m[y]] && from != to
    requires Forest(Merged(u, from, to, weight))
    ensures forall a, b :: Same(Merged(u, from, to, weight), a, b) <==>
      Same(u, a, b) || (Same(u, a, x) && Same(u, y, b)) || (Same(u, a, y) && Same(u, x, b))
  {
  }

  /** The classes of x and y are one now, all else is as it was. */
  ghost predicate Unites(u: Partition, v: Partition, x: Node, y: Node)
    requires Forest(u) && Forest(v)
  {
    forall a, b :: Same(v, a, b) <==>
      Same(u, a, b) || (Same(u, a, x) && Same(u, y, b)) || (Same(u, a, y) && Same(u, x, b))
  }

  lemma UnitedSpanned(u: Partition, v: Partition, pairs: set<(Node, Node)>, x: Node, y: Node)
    requires Forest(u) && Forest(v) && Spanned(u, pairs) && Unites(u, v, x, y)
    ensures Spanned(v, pairs + {(x, y)})
    ensures SameAs(u) <= SameAs(v)
  {
    hide Forest, Same;
    var pairs' := pairs + {(x, y)};
    assert Same(u, x, x) && Same(u, y, y) by {
      SameReflexive(u, x);
      SameReflexive(u, y);
    }
    forall e: Relation, a, b | Equivalence(e) && (forall p :: p in pairs' ==> p in e)
      && Same(v, a, b) ensures (a, b) in e {
      assert (x, y) in pairs';
      if Same(u, a, b) {
      } else if Same(u, a, x) && Same(u, y, b) {
        assert (a, x) in e && (x, y) in e && (y, b) in e;
      } else {
        assert (a, y) in e && (y, x) in e && (x, b) in e;
      }
    }
  }

  lemma SameReflexive(u: Partition, a: Node)
    requires Forest(u)
    ensures Same(u, a, a)
  {
  }

  lemma NewClassUnites(u: Partition, x: Node, y: Node)
    requires Forest(u) && x !in u.m && y !in u.m
    ensures Forest(NewClass(u, x, y)) && Unites(u, NewClass(u, x, y), x, y)
  {
    NewClassForest(u, x, y);
  }

  lemma JoinedUnites(u: Partition, x: Node, y: Node)
    requires Forest(u) && x !in u.m && y in u.m
    ensures
      var v := Joined(u, x, u.root[u.m[y]]);
      Forest(v) && Unites(u, v, x, y) && Unites(u, v, y, x)
  {
    JoinedForest(u, x, y);
  }

  lemma MergedUnites(u: Partition, x: Node, y: Node, from: nat, to: nat, weight: int)
    requires Forest(u) && x in u.m && y in u.m && from == u.root[u.m[x]] && to == u.root[u.m[y]] && from != to
    ensures
      var v := Merged(u, from, to, weight);
      Forest(v) && Unites(u, v, x, y) && Unites(u, v, y, x)
  {
    MergedForest(u, x, y, from, to, weight);
    MergedSame(u, x, y, from, to, weight);
  }

  /** Shortening a path: a cell that is no root is linked further up. */
  lemma ShortenedForest(u: Partition, i: nat, r: nat)
    requires Forest(u) && i < |u.cells| && r < |u.cells| && u.cells[i].Link? && u.rank[i] < u.rank[r]
    requires u.root[i] == u.root[r]
    ensures Forest(u.(cells := u.cells[i := Link(r)]))
    ensures forall a, b :: Same(u.(cells := u.cells[i := Link(r)]), a, b) <==> Same(u, a, b)
  {
    var v := u.(cells := u.cells[i := Link(r)]);
    forall j | 0 <= j < |v.cells| ensures CellOk(v, j) {
      assert CellOk(u, j);
    }
  }

  // ---- the measure ----

  function Roots(cells: seq<Cell>): nat {
    if cells == [] then 0 else Roots(cells[..|cells| - 1]) + (if cells[|cells| - 1].Weight? then 1 else 0)
  }

  /** How much there is to do: nodes without a class count twice, classes once. */
  ghost function Measure(u: Partition, all: set<Node>): nat {
    2 * |all - u.m.Keys| + Roots(u.cells)
  }

  lemma {:induction false} RootsUpdate(cells: seq<Cell>, i: nat, c: Cell)
    requires i < |cells|
    ensures Roots(cells[i := c]) == Roots(cells) + (if c.Weight? then 1 else 0) - (if cells[i].Weight? then 1 else 0)
  {
    var n := |cells| - 1;
    if i < n {
      RootsUpdate(cells[..n], i, c);
      assert cells[i := c][..n] == cells[..n][i := c];
    } else {
      assert cells[i := c][..n] == cells[..n];
    }
  }

  lemma NewClassMeasure(u: Partition, x: Node, y: Node, all: set<Node>)
    requires x in all && y in all && x !in u.m && y !in u.m
    ensures Measure(NewClass(u, x, y), all) < Measure(u, all)
  {
    var cells := u.cells + [Weight(1)];
    assert cells[..|u.cells|] == u.cells;
    var rest := all - NewClass(u, x, y).m.Keys;
    Fewer(rest, all - u.m.Keys, x);
  }

  lemma JoinedMeasure(u: Partition, x: Node, r: nat, all: set<Node>)
    requires x in all && x !in u.m
    ensures Measure(Joined(u, x, r), all) < Measure(u, all)
  {
    Fewer(all - Joined(u, x, r).m.Keys, all - u.m.Keys, x);
  }

  lemma MergedMeasure(u: Partition, from: nat, to: nat, weight: int, all: set<Node>)
    requires from < |u.cells| && to < |u.cells| && from != to && |u.root| == |u.cells| == |u.rank|
    requires u.cells[from].Weight? && u.cells[to].Weight?
    ensures Measure(Merged(u, from, to, weight), all) < Measure(u, all)
  {
    RootsUpdate(u.cells, to, Weight(weight));
    RootsUpdate(u.cells[to := Weight(weight)], from, Link(to));
  }

  lemma Fewer<T>(a: set<T>, b: set<T>, x: T)
    requires a <= b && x in b && x !in a
    ensures |a| < |b|
  {
    Smaller(a, b - {x});
  }

  lemma {:induction false} Smaller<T>(a: set<T>, b: set<T>)
    requires a <= b
    ensures |a| <= |b|
    decreases |a|
  {
    if a != {} {
      var x :| x in a;
      Smaller(a - {x}, b - {x});
    }
  }
}
