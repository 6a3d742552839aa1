/** The comparison of shared and cyclic data (stdlib/Data.lama:37-144): nodes met are put into classes of a
    union-find forest, so that every pair is looked at once. */
module GraphEquality {
  import opened Wrappers
  import opened Bisimulation
  import opened GraphDirection
  import OrderedTrees
  import opened Collections
  import StructuralOrder
  import opened FlatKeys

  /** kindOf. */
  function Kind(g: Graph, a: Node): int
    requires In(g, a)
  {
    match a
    case Num(_) => 9
    case Ref(i) =>
      match g[i]
      case Chars(_) => 1
      case Items(_) => 3
      case Tagged(_, _) => 5
      case Closure(_, _) => 7
  }

  /** strcmp. */
  function CompareChars(s: seq<StructuralOrder.Byte>, t: seq<StructuralOrder.Byte>): (d: int)
    ensures d == StructuralOrder.StringOrder(StructuralOrder.Cut(s), StructuralOrder.Cut(t))
    ensures d == 0 <==> SameText(s, t)
  {
    StructuralOrder.StringZero(StructuralOrder.Cut(s), StructuralOrder.Cut(t));
    StructuralOrder.StringOrder(StructuralOrder.Cut(s), StructuralOrder.Cut(t))
  }

  // ---- the map from nodes to cells ----

  /** The words nodes are kept in, given the addresses of objects. */
  function Words(address: nat -> int): Node -> int {
    (a: Node) => match a case Num(n) => StructuralOrder.Box(n) case Ref(i) => address(i)
  }

  /** A number fits a word, an address is even. */
  predicate Kept(address: nat -> int, a: Node) {
    match a
    case Num(n) => -StructuralOrder.WORDS / 4 <= n < StructuralOrder.WORDS / 4
    case Ref(i) => StructuralOrder.Reference(address(i))
  }

  /** flatCompare tells the nodes apart and orders them: objects have different addresses, differences fit, and the
      words of numbers lie below all addresses. */
  ghost predicate Comparable(address: nat -> int, all: set<Node>) {
    && AllNear(Words(address), all) && NumbersBelow(Words(address), all)
    && (forall a :: a in all ==> Kept(address, a))
    && (forall a, b :: a in all && b in all && a.Ref? && b.Ref? && address(a.address) == address(b.address) ==> a == b)
  }

  lemma WordsDiffer(address: nat -> int, all: set<Node>, x: Node, y: Node)
    requires Comparable(address, all) && x in all && y in all
    ensures FlatBy(Words(address))(x, y) == 0 <==> x == y
  {
    hide AllNear, NumbersBelow;
    FlatZeroIff(Words(address), all, x, y);
    WordsOdd(address, x);
    WordsOdd(address, y);
  }

  lemma WordsOdd(address: nat -> int, x: Node)
    requires Kept(address, x)
    ensures x.Num? ==> Words(address)(x) == 2 * x.n + 1
    ensures x.Ref? ==> Words(address)(x) == address(x.address) && address(x.address) % 2 == 0
  {
    hide StructuralOrder.Box;
    if x.Num? {
      StructuralOrder.BoxedFits(x.n);
    }
  }

  function Newest(vs: seq<nat>): Option<nat> { if vs == [] then None else Some(vs[0]) }

  ghost function Entry(m: map<Node, nat>, x: Node): Option<nat> { if x in m then Some(m[x]) else None }

  type Index = OrderedTrees.Tree<Node, seq<nat>>

  /** The tree is what the operations leave, and they say what m says. */
  ghost predicate Indexes(address: nat -> int, all: set<Node>, tree: Index, ops: seq<MapOp<Node, nat>>,
      m: map<Node, nat>)
  {
    && Comparable(address, all) && KeysWithin(ops, all) && tree == MapAfter(FlatBy(Words(address)), ops)
    && forall x :: x in all ==> Newest(StackOf(FlatBy(Words(address)), ops, x)) == Entry(m, x)
  }

  lemma IndexFinds(address: nat -> int, all: set<Node>, tree: Index, ops: seq<MapOp<Node, nat>>, m: map<Node, nat>,
      x: Node)
    requires Indexes(address, all, tree, ops, m) && x in all
    ensures FindMap(FlatBy(Words(address)), tree, x) == Entry(m, x)
  {
    hide Words, Kept, FindMap, StackOf, MapAfter, FlatBy;
    FlatOrdersIff(Words(address), all);
    MapCorrectOn(FlatBy(Words(address)), all, ops, x);
  }

  lemma IndexAdds(address: nat -> int, all: set<Node>, tree: Index, ops: seq<MapOp<Node, nat>>, m: map<Node, nat>,
      k: Node, c: nat)
    requires Indexes(address, all, tree, ops, m) && k in all
    ensures OrderedTrees.Balanced(tree)
    ensures Indexes(address, all, AddMap(FlatBy(Words(address)), tree, k, c), ops + [Add(k, c)], m[k := c])
  {
    hide Words, Kept, FlatBy, AddMap, Comparable, MapAfter, StackOf;
    var cmp, ops' := FlatBy(Words(address)), ops + [Add(k, c)];
    AfterAdd(cmp, ops, k, c);
    forall x | x in all ensures Newest(StackOf(cmp, ops', x)) == Entry(m[k := c], x) {
      WordsDiffer(address, all, x, k);
    }
  }

  lemma IndexEmpty(address: nat -> int, all: set<Node>)
    requires Comparable(address, all)
    ensures Indexes(address, all, OrderedTrees.Leaf, [], map[])
  {
    hide Comparable;
  }

  /** The pairs' nodes look alike up to the partition. */
  ghost predicate AllLocal(g: Graph, u: Partition, pairs: set<(Node, Node)>)
    requires Forest(u)
  {
    forall p :: p in pairs ==> Local(g, SameAs(u), p.0, p.1)
  }

  ghost predicate AllBisimilar(g: Graph, pairs: set<(Node, Node)>) {
    forall p :: p in pairs ==> Bisimilar(g, p.0, p.1)
  }

  ghost predicate Complete(g: Graph, all: set<Node>) {
    forall a, i :: 0 <= a < |g| && 0 <= i < |Fields(g[a])| ==> Fields(g[a])[i] in all
  }

  ghost predicate Coarser(u: Partition, v: Partition)
    requires Forest(u) && Forest(v)
  {
    SameAs(u) <= SameAs(v)
  }

  lemma AllLocalGrows(g: Graph, u: Partition, v: Partition, pairs: set<(Node, Node)>)
    requires Forest(u) && Forest(v) && Coarser(u, v) && AllLocal(g, u, pairs)
    ensures AllLocal(g, v, pairs)
  {
    hide Local, Forest;
    forall p | p in pairs ensures Local(g, SameAs(v), p.0, p.1) {
      LocalGrows(g, SameAs(u), SameAs(v), p.0, p.1);
    }
  }

  class Comparison {
    const g: Graph
    const address: nat -> int
    ghost const all: set<Node>
    var tree: Index
    var cells: seq<Cell>
    ghost var m: map<Node, nat>
    ghost var ops: seq<MapOp<Node, nat>>
    ghost var root: seq<nat>
    ghost var rank: seq<nat>
    ghost var pairs: set<(Node, Node)>

    ghost function State(): Partition
      reads this
    {
      Partition(m, cells, root, rank)
    }

    ghost predicate Valid()
      reads this
    {
      Forest(State()) && Spanned(State(), pairs) && KeysIn(g, State()) && Closed(g) && Complete(g, all) && Indexed()
    }

    ghost predicate Indexed()
      reads this
    {
      Indexes(address, all, tree, ops, m)
    }

    ghost predicate Known(a: Node) { In(g, a) && a in all }

    constructor (g: Graph, address: nat -> int, ghost all: set<Node>)
      requires Closed(g) && Complete(g, all) && Comparable(address, all)
      ensures Valid() && this.g == g && this.all == all && pairs == {}
    {
      this.g, this.address, this.all := g, address, all;
      tree, cells := OrderedTrees.Leaf, [];
      m, ops, root, rank, pairs := map[], [], [], [], {};
      IndexEmpty(address, all);
    }

    /** A cell on the way up to r, or none. */
    ghost predicate OnTheWay(p: Option<nat>, r: nat)
      requires Forest(State()) && r < |cells|
      reads this
    {
      p.Some? ==> p.value < |cells| && cells[p.value].Link? && rank[p.value] < rank[r] && root[p.value] == root[r]
    }

    /** walkrec: the root of r's class; on the way each cell is linked to the one after its next. */
    method Walk(p1: Option<nat>, p2: Option<nat>, r: nat, ghost bound: nat) returns (t: nat)
      requires Forest(State()) && r < |cells| && OnTheWay(p1, r) && OnTheWay(p2, r)
      requires forall i :: 0 <= i < |rank| ==> rank[i] <= bound
      modifies this`cells
      ensures Forest(State()) && t == root[r] && t < |cells| && cells[t].Weight?
      ensures |cells| == old(|cells|) && Roots(cells) == old(Roots(cells)) && SameAs(State()) == old(SameAs(State()))
      decreases bound - rank[r]
    {
      hide Same;
      ghost var u := State();
      if p2.Some? {
        ShortenedForest(u, p2.value, r);
        RootsUpdate(cells, p2.value, Link(r));
        SameAsEqual(u, u.(cells := u.cells[p2.value := Link(r)]));
        cells := cells[p2.value := Link(r)];
      }
      assert CellOk(State(), r);
      match cells[r] {
        case Weight(_) => t := r;
        case Link(x) => t := Walk(Some(r), p1, x, bound);
      }
    }

    /** find: the root cell of the node's class, if it has one. */
    method Find(x: Node) returns (r: Option<nat>)
      requires Forest(State()) && Indexed() && x in all
      modifies this`cells
      ensures Forest(State()) && |cells| == old(|cells|) && Roots(cells) == old(Roots(cells))
      ensures SameAs(State()) == old(SameAs(State()))
      ensures r == if x in m then Some(root[m[x]]) else None
    {
      IndexFinds(address, all, tree, ops, m, x);
      match FindMap(FlatBy(Words(address)), tree, x) {
        case Some(c) =>
          ghost var bound := Bound(rank);
          BoundHolds(rank);
          var t := Walk(None, None, c, bound);
          r := Some(t);
        case None =>
          r := None;
      }
    }

    /** addMap. */
    method AddNode(k: Node, c: nat)
      requires Indexed() && k in all
      modifies this`tree, this`m, this`ops
      ensures Indexed() && m == old(m)[k := c]
    {
      IndexAdds(address, all, tree, ops, m, k, c);
      tree := AddMap(FlatBy(Words(address)), tree, k, c);
      ops, m := ops + [Add(k, c)], m[k := c];
    }

    /** The classes of x and y have been united since u. */
    ghost predicate United(u: Partition, x: Node, y: Node)
      requires Forest(u)
      reads this
    {
      && Forest(State()) && Unites(u, State(), x, y) && KeysIn(g, State()) && Indexed()
      && Measure(State(), all) < Measure(u, all)
    }

    /** Neither node has a class. */
    method NewPair(x: Node, y: Node)
      requires Forest(State()) && KeysIn(g, State()) && Indexed() && Known(x) && Known(y) && x !in m && y !in m
      modifies this`tree, this`m, this`ops, this`cells, this`root, this`rank
      ensures United(old(State()), x, y)
    {
      hide Same, Measure, Forest, Unites, Indexes;
      ghost var u := State();
      NewClassUnites(u, x, y);
      NewClassMeasure(u, x, y, all);
      AddNode(x, |cells|);
      AddNode(y, |cells|);
      root, rank := root + [|cells|], rank + [0];
      cells := cells + [Weight(1)];
      assert State() == NewClass(u, x, y);
    }

    /** x comes into the class with root r, which is y's. */
    method Join(x: Node, r: nat, ghost y: Node)
      requires Forest(State()) && KeysIn(g, State()) && Indexed() && Known(x) && x !in m && y in m && m[y] < |root|
      requires r == root[m[y]]
      modifies this`tree, this`m, this`ops
      ensures United(old(State()), x, y) && United(old(State()), y, x)
    {
      hide Same, Measure, Forest, Unites, Indexes;
      ghost var u := State();
      JoinedUnites(u, x, y);
      JoinedMeasure(u, x, r, all);
      AddNode(x, r);
      assert State() == Joined(u, x, r);
    }

    /** The classes with roots r and s, those of x and y, become one; the lighter comes under the heavier. */
    method Merge(r: nat, s: nat, ghost x: Node, ghost y: Node)
      requires Forest(State()) && KeysIn(g, State()) && Indexed() && r != s
      requires |root| == |cells| == |rank| && r < |cells| && s < |cells| && cells[r].Weight? && cells[s].Weight?
      requires x in m && y in m && m[x] < |root| && m[y] < |root| && r == root[m[x]] && s == root[m[y]]
      modifies this`cells, this`root, this`rank
      ensures United(old(State()), x, y)
    {
      hide Same, Measure, Forest, Unites, Indexes;
      ghost var u := State();
      var from, to := s, r;
      if cells[r].weight < cells[s].weight {
        from, to := r, s;
        MergedUnites(u, x, y, r, s, cells[s].weight + cells[r].weight);
      } else {
        MergedUnites(u, y, x, s, r, cells[r].weight + cells[s].weight);
      }
      var weight := cells[to].weight + cells[from].weight;
      ghost var v := Merged(u, from, to, weight);
      MergedMeasure(u, from, to, weight, all);
      root, rank := v.root, v.rank;
      cells := cells[to := Weight(weight)][from := Link(to)];
      assert State() == v;
    }

    /** alreadyEq: whether the nodes are in one class; if not they are from now on. */
    method AlreadyEq(x: Node, y: Node) returns (known: bool)
      requires Valid() && Known(x) && Known(y)
      modifies this
      ensures Valid() && Same(State(), x, y) && Coarser(old(State()), State())
      ensures known ==> pairs == old(pairs) && Measure(State(), all) == old(Measure(State(), all))
      ensures !known ==> pairs == old(pairs) + {(x, y)} && Measure(State(), all) < old(Measure(State(), all))
    {
      hide Same, Spanned, Measure, Forest, Unites, Indexes;
      var rx := Find(x);
      var ry := Find(y);
      ghost var u := State();
      FoundSpanned(old(State()), u, pairs);
      FoundMeasure(old(State()), u, all);
      FoundRoots(u, x, y);
      match (rx, ry) {
        case (None, None) => NewPair(x, y);
        case (None, Some(r)) => Join(x, r, y);
        case (Some(r), None) => Join(y, r, x);
        case (Some(r), Some(s)) =>
          if r == s {
            return true;
          }
          Merge(r, s, x, y);
      }
      UnitedSpanned(u, State(), pairs, x, y);
      UnitedSame(u, State(), x, y);
      pairs := pairs + {(x, y)};
      known := false;
    }

    /** cmprec. */
    method CmpRec(x: Node, y: Node) returns (diff: int)
      requires Valid() && Known(x) && Known(y)
      modifies this
      ensures Valid() && Coarser(old(State()), State()) && old(pairs) <= pairs
      ensures Measure(State(), all) <= old(Measure(State(), all))
      ensures diff == 0 ==> Same(State(), x, y) && AllLocal(g, State(), pairs - old(pairs))
      ensures AllBisimilar(g, old(pairs)) && Bisimilar(g, x, y) ==> diff == 0 && AllBisimilar(g, pairs)
      ensures Turns(g, x, y, diff)
      decreases Measure(State(), all), 0
    {
      hide Same, Spanned, Measure, Forest, Local, Bisimilar, KeysIn, Closed, Complete, Indexes, SameText, Shows,
        FieldsTurn, StructuralOrder.StringOrder, StructuralOrder.Cut, Turns;
      EvenTurns(g, x, y);
      ghost var before := pairs;
      var known := AlreadyEq(x, y);
      if known {
        assert pairs - old(pairs) == {};
        return 0;
      }
      ghost var u, mid := State(), pairs;
      MorePairs(g, before, x, y);
      KindsAgree(g, x, y);
      KindsTurn(g, x, y);
      diff := Kind(g, x) - Kind(g, y);
      if diff != 0 {
        return;
      }
      if x.Num? {
        diff := x.n - y.n;
        LeavesTurn(g, x, y, diff);
        LeafPairs(g, u, before, x, y, diff);
      } else {
        var o, o' := g[x.address], g[y.address];
        FieldsFollow(g, x, y);
        match o {
          case Chars(s) =>
            diff := CompareChars(s, o'.bytes);
            LeavesTurn(g, x, y, diff);
            LeafPairs(g, u, before, x, y, diff);
          case Items(xs) =>
            diff := CmpArgs(x.address, y.address, 0);
            ObjectsTurn(g, x, y, 0, diff);
          case Closure(entry, _) =>
            diff := entry - o'.entry;
            EntriesAgree(g, x, y);
            MarksTurn(g, x, y, diff);
            if diff == 0 {
              diff := CmpArgs(x.address, y.address, 1);
              ObjectsTurn(g, x, y, 1, diff);
            }
          case Tagged(tag, _) =>
            diff := tag - o'.tag;
            EntriesAgree(g, x, y);
            MarksTurn(g, x, y, diff);
            if diff == 0 {
              diff := CmpArgs(x.address, y.address, 0);
              ObjectsTurn(g, x, y, 0, diff);
            }
        }
        if diff == 0 && !o.Chars? {
          FieldsAlike(g, State(), x, y);
          PairsAlike(g, u, State(), before, mid, pairs, x, y);
        }
        SameGrows(u, State(), x, y);
      }
    }

    /** cmpargs: lengths first, then field by field until a difference shows. */
    method CmpArgs(a: nat, b: nat, from: nat) returns (diff: int)
      requires Valid() && a < |g| && b < |g| && from <= |Fields(g[a])| && from <= |Fields(g[b])|
      modifies this
      ensures Valid() && Coarser(old(State()), State()) && old(pairs) <= pairs
      ensures Measure(State(), all) <= old(Measure(State(), all))
      ensures diff == 0 ==>
        FieldsSame(g, State(), a, b, from, |Fields(g[a])|) && AllLocal(g, State(), pairs - old(pairs))
      ensures AllBisimilar(g, old(pairs)) && FieldsBisimilar(g, a, b, from) ==> diff == 0 && AllBisimilar(g, pairs)
      ensures FieldsTurn(g, a, b, from, diff)
      decreases Measure(State(), all), 1
    {
      hide Same, Spanned, Measure, Forest, Local, Bisimilar, KeysIn, Closed, Complete, Indexes, FieldsSame,
        FieldsBisimilar, Fields, Coarser, AllLocal, AllBisimilar, FieldsTurn, Turns;
      ghost var before, start := pairs, State();
      var xs, ys := Fields(g[a]), Fields(g[b]);
      diff := |xs| - |ys|;
      var i := from;
      LoopStarts(g, start, before, a, b, from, diff);
      LengthsTurn(g, a, b, from);
      while i < |xs| && diff == 0
        invariant from <= i <= |xs| && Valid() && Coarser(start, State()) && before <= pairs
        invariant (diff == 0 ==> |xs| == |ys|) && FieldsTurn(g, a, b, from, diff)
        invariant Measure(State(), all) <= old(Measure(State(), all))
        invariant diff == 0 ==> FieldsSame(g, State(), a, b, from, i) && AllLocal(g, State(), pairs - before)
        invariant AllBisimilar(g, before) && FieldsBisimilar(g, a, b, from) ==> diff == 0 && AllBisimilar(g, pairs)
      {
        ghost var u, mid := State(), pairs;
        FieldsKnown(g, all, a, i);
        FieldsKnown(g, all, b, i);
        FieldBisimilar(g, a, b, from, i);
        diff := CmpRec(xs[i], ys[i]);
        FieldTurns(g, a, b, from, i, diff);
        CoarserTrans(start, u, State());
        if diff == 0 {
          FieldsMore(g, u, State(), a, b, from, i);
          PairsMore(g, u, State(), before, mid, pairs);
        }
        i := i + 1;
      }
    }
  }

  // ---- what the methods rest on ----

  lemma EvenTurns(g: Graph, x: Node, y: Node)
    ensures Turns(g, x, y, 0)
  {
  }

  /** kindOf orders kinds. */
  lemma KindsTurn(g: Graph, x: Node, y: Node)
    requires In(g, x) && In(g, y)
    ensures Turns(g, x, y, Kind(g, x) - Kind(g, y))
  {
    hide Shows;
    if Kind(g, x) < Kind(g, y) {
      ShownHere(g, x, y);
    }
    if Kind(g, x) > Kind(g, y) {
      ShownHere(g, y, x);
    }
  }

  lemma SameAsEqual(u: Partition, v: Partition)
    requires Forest(u) && Forest(v) && forall a, b :: Same(v, a, b) <==> Same(u, a, b)
    ensures SameAs(v) == SameAs(u)
  {
  }

  ghost function Bound(rank: seq<nat>): nat {
    if rank == [] then 0 else
      var rest := Bound(rank[..|rank| - 1]);
      if rank[|rank| - 1] > rest then rank[|rank| - 1] else rest
  }

  lemma {:induction false} BoundHolds(rank: seq<nat>)
    ensures forall i :: 0 <= i < |rank| ==> rank[i] <= Bound(rank)
  {
    if rank != [] {
      BoundHolds(rank[..|rank| - 1]);
      forall i | 0 <= i < |rank| ensures rank[i] <= Bound(rank) {
        if i < |rank| - 1 {
          assert rank[i] == rank[..|rank| - 1][i];
        }
      }
    }
  }

  lemma FoundSpanned(u: Partition, v: Partition, pairs: set<(Node, Node)>)
    requires Forest(u) && Forest(v) && SameAs(u) == SameAs(v) && Spanned(u, pairs)
    ensures Spanned(v, pairs) && Coarser(u, v)
  {
    hide Forest;
    forall a, b ensures Same(u, a, b) == Same(v, a, b) {
      assert (a, b) in SameAs(u) <==> (a, b) in SameAs(v);
    }
  }

  lemma FoundMeasure(u: Partition, v: Partition, all: set<Node>)
    requires u.m == v.m && Roots(u.cells) == Roots(v.cells)
    ensures Measure(u, all) == Measure(v, all)
  {
  }

  lemma FoundRoots(u: Partition, x: Node, y: Node)
    requires Forest(u)
    ensures forall a :: a in {x, y} && a in u.m ==>
      u.m[a] < |u.root| && u.root[u.m[a]] < |u.cells| && u.cells[u.root[u.m[a]]].Weight?
    ensures |u.root| == |u.cells| == |u.rank|
    ensures x in u.m && y in u.m && u.root[u.m[x]] == u.root[u.m[y]] ==> Same(u, x, y)
  {
  }

  lemma UnitedSame(u: Partition, v: Partition, x: Node, y: Node)
    requires Forest(u) && Forest(v) && Unites(u, v, x, y)
    ensures Same(v, x, y)
  {
  }

  lemma SameGrows(u: Partition, v: Partition, x: Node, y: Node)
    requires Forest(u) && Forest(v) && Coarser(u, v) && Same(u, x, y)
    ensures Same(v, x, y)
  {
    hide Forest, Same;
    assert (x, y) in SameAs(u);
  }

  lemma CoarserTrans(u: Partition, v: Partition, w: Partition)
    requires Forest(u) && Forest(v) && Forest(w) && Coarser(u, v) && Coarser(v, w)
    ensures Coarser(u, w)
  {
    hide Forest, Same;
  }

  lemma MorePairs(g: Graph, before: set<(Node, Node)>, x: Node, y: Node)
    ensures AllBisimilar(g, before) && Bisimilar(g, x, y) ==> AllBisimilar(g, before + {(x, y)})
  {
    hide Bisimilar;
  }

  lemma KindsAgree(g: Graph, x: Node, y: Node)
    requires In(g, x) && In(g, y)
    ensures Bisimilar(g, x, y) ==> Kind(g, x) == Kind(g, y)
    ensures Bisimilar(g, x, y) && x.Num? ==> x == y
    ensures Bisimilar(g, x, y) && x.Ref? && g[x.address].Chars? ==>
      g[y.address].Chars? && SameText(g[x.address].bytes, g[y.address].bytes)
  {
    hide Bisimilar;
    if Bisimilar(g, x, y) {
      BisimilarLocal(g, x, y);
    }
  }

  lemma EntriesAgree(g: Graph, x: Node, y: Node)
    requires In(g, x) && In(g, y) && x.Ref? && y.Ref?
    ensures Bisimilar(g, x, y) && g[x.address].Closure? ==>
      g[y.address].Closure? && g[y.address].entry == g[x.address].entry
    ensures Bisimilar(g, x, y) && g[x.address].Tagged? ==> g[y.address].Tagged? && g[y.address].tag == g[x.address].tag
  {
    hide Bisimilar;
    if Bisimilar(g, x, y) {
      BisimilarLocal(g, x, y);
    }
  }

  /** Numbers and strings have no fields. */
  lemma LeafPairs(g: Graph, u: Partition, before: set<(Node, Node)>, x: Node, y: Node, diff: int)
    requires Forest(u) && In(g, x) && In(g, y) && Kind(g, x) == Kind(g, y)
    requires
      || (x.Num? && y.Num? && diff == x.n - y.n)
      || (x.Ref? && y.Ref? && g[x.address].Chars? && g[y.address].Chars?
          && (diff == 0 <==> SameText(g[x.address].bytes, g[y.address].bytes)))
    ensures diff == 0 ==> AllLocal(g, u, before + {(x, y)} - before)
  {
    hide Forest, Same;
    assert forall p :: p in before + {(x, y)} - before ==> p == (x, y);
  }

  ghost predicate FieldsSame(g: Graph, u: Partition, a: nat, b: nat, from: nat, to: nat)
    requires Forest(u) && a < |g| && b < |g|
  {
    && |Fields(g[a])| == |Fields(g[b])|
    && forall i :: from <= i < to && i < |Fields(g[a])| ==> Same(u, Fields(g[a])[i], Fields(g[b])[i])
  }

  ghost predicate FieldsBisimilar(g: Graph, a: nat, b: nat, from: nat)
    requires a < |g| && b < |g|
  {
    |Fields(g[a])| == |Fields(g[b])|
      && forall i :: from <= i < |Fields(g[a])| ==> Bisimilar(g, Fields(g[a])[i], Fields(g[b])[i])
  }

  lemma LoopStarts(g: Graph, u: Partition, before: set<(Node, Node)>, a: nat, b: nat, from: nat, diff: int)
    requires Forest(u) && a < |g| && b < |g| && diff == |Fields(g[a])| - |Fields(g[b])|
    ensures Coarser(u, u) && AllLocal(g, u, before - before)
    ensures diff == 0 ==> FieldsSame(g, u, a, b, from, from)
    ensures FieldsBisimilar(g, a, b, from) ==> diff == 0
  {
    hide Forest, Same, Bisimilar, Local;
    assert before - before == {};
  }

  lemma FieldsKnown(g: Graph, all: set<Node>, a: nat, i: nat)
    requires Closed(g) && Complete(g, all) && a < |g| && i < |Fields(g[a])|
    ensures In(g, Fields(g[a])[i]) && Fields(g[a])[i] in all
  {
  }

  lemma FieldBisimilar(g: Graph, a: nat, b: nat, from: nat, i: nat)
    requires a < |g| && b < |g| && from <= i < |Fields(g[a])| && |Fields(g[a])| == |Fields(g[b])|
    ensures FieldsBisimilar(g, a, b, from) ==> Bisimilar(g, Fields(g[a])[i], Fields(g[b])[i])
  {
    hide Bisimilar;
  }

  lemma FieldsMore(g: Graph, u: Partition, v: Partition, a: nat, b: nat, from: nat, i: nat)
    requires Forest(u) && Forest(v) && Coarser(u, v) && a < |g| && b < |g| && i < |Fields(g[a])|
    requires FieldsSame(g, u, a, b, from, i) && Same(v, Fields(g[a])[i], Fields(g[b])[i])
    ensures FieldsSame(g, v, a, b, from, i + 1)
  {
    hide Forest, Same, Fields;
    forall j | from <= j < i + 1 && j < |Fields(g[a])| ensures Same(v, Fields(g[a])[j], Fields(g[b])[j]) {
      if j < i {
        SameGrows(u, v, Fields(g[a])[j], Fields(g[b])[j]);
      }
    }
  }

  lemma PairsMore(g: Graph, u: Partition, v: Partition, before: set<(Node, Node)>, mid: set<(Node, Node)>,
      after: set<(Node, Node)>)
    requires Forest(u) && Forest(v) && Coarser(u, v) && before <= mid <= after
    requires AllLocal(g, u, mid - before) && AllLocal(g, v, after - mid)
    ensures AllLocal(g, v, after - before)
  {
    hide Forest, Same, Local;
    AllLocalGrows(g, u, v, mid - before);
    forall p | p in after - before ensures Local(g, SameAs(v), p.0, p.1) {
      assert p in mid - before || p in after - mid;
    }
  }

  /** Objects of one kind, entry and tag whose fields are the same look alike. */
  lemma FieldsAlike(g: Graph, u: Partition, x: Node, y: Node)
    requires Forest(u) && x.Ref? && y.Ref? && In(g, x) && In(g, y) && Kind(g, x) == Kind(g, y) && !g[x.address].Chars?
    requires g[x.address].Closure? ==> g[x.address].entry == g[y.address].entry
    requires g[x.address].Tagged? ==> g[x.address].tag == g[y.address].tag
    requires FieldsSame(g, u, x.address, y.address, if g[x.address].Closure? then 1 else 0, |Fields(g[x.address])|)
    ensures Local(g, SameAs(u), x, y)
  {
    hide Forest, Same;
    var o, o' := g[x.address], g[y.address];
    if o.Closure? {
      forall i | 0 <= i < |o.captured| ensures (o.captured[i], o'.captured[i]) in SameAs(u) {
        assert Fields(o)[i + 1] == o.captured[i] && Fields(o')[i + 1] == o'.captured[i];
      }
    }
  }

  lemma PairsAlike(g: Graph, u: Partition, v: Partition, before: set<(Node, Node)>, mid: set<(Node, Node)>,
      after: set<(Node, Node)>, x: Node, y: Node)
    requires Forest(u) && Forest(v) && mid == before + {(x, y)} && mid <= after
    requires Local(g, SameAs(v), x, y) && AllLocal(g, v, after - mid)
    ensures AllLocal(g, v, after - before)
  {
    hide Forest, Same, Local;
    forall p | p in after - before ensures Local(g, SameAs(v), p.0, p.1) {
      assert p == (x, y) || p in after - mid;
    }
  }

  /** Bisimilar objects have bisimilar fields. */
  lemma FieldsFollow(g: Graph, x: Node, y: Node)
    requires In(g, x) && In(g, y) && x.Ref?
    ensures Bisimilar(g, x, y) ==>
      y.Ref? && FieldsBisimilar(g, x.address, y.address, if g[x.address].Closure? then 1 else 0)
  {
    hide Bisimilar;
    if Bisimilar(g, x, y) {
      BisimilarFields(g, x, y);
    }
  }

  lemma BisimilarFields(g: Graph, x: Node, y: Node)
    requires In(g, x) && In(g, y) && Bisimilar(g, x, y) && x.Ref?
    ensures y.Ref? && FieldsBisimilar(g, x.address, y.address, if g[x.address].Closure? then 1 else 0)
  {
    hide Bisimilar;
    BisimilarLocal(g, x, y);
    var o, o' := g[x.address], g[y.address];
    var from := if o.Closure? then 1 else 0;
    forall i | from <= i < |Fields(o)| ensures Bisimilar(g, Fields(o)[i], Fields(o')[i]) {
      match o
      case Chars(_) =>
      case Items(elems) => assert (elems[i], o'.elems[i]) in Bisimilarity(g);
      case Tagged(_, elems) => assert (elems[i], o'.elems[i]) in Bisimilarity(g);
      case Closure(_, captured) => assert (captured[i - 1], o'.captured[i - 1]) in Bisimilarity(g);
    }
  }

  /** x =?= y, if flatCompare orders the nodes of the graph: zero exactly when the nodes unfold to the same tree,
      however the graph is shared or cyclic. */
  method Compare(g: Graph, address: nat -> int, x: Node, y: Node) returns (diff: int)
    requires Closed(g) && In(g, x) && In(g, y) && Comparable(address, AllNodes(g) + {x, y})
    ensures (diff == 0 <==> Bisimilar(g, x, y)) && Turns(g, x, y, diff)
  {
    hide Bisimilar, Spanned, Forest, Same, Local, KeysIn, Comparable, Indexes, Turns;
    ghost var all := AllNodes(g) + {x, y};
    NodesComplete(g, {x, y});
    var c := new Comparison(g, address, all);
    diff := c.CmpRec(x, y);
    if diff == 0 {
      assert c.pairs - {} == c.pairs;
      PartitionBisimulates(g, c.State(), c.pairs, x, y);
    }
  }

  ghost function AllNodes(g: Graph): set<Node> {
    set a, i | 0 <= a < |g| && 0 <= i < |Fields(g[a])| :: Fields(g[a])[i]
  }

  lemma NodesComplete(g: Graph, more: set<Node>)
    ensures Complete(g, AllNodes(g) + more)
  {
  }
}
