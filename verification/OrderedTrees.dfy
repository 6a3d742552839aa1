/** The balanced trees behind maps and sets (stdlib/Collection.lama:51-201): insertion with rotations whose
    balance factors are computed by formula, lookup, lazy removal, and the list of contents. */
module OrderedTrees {
  import opened Wrappers

  type Compare<!K> = (K, K) -> int

  /** A comparison orders: it is antisymmetric in sign, and transitive, for less and for equal. */
  ghost predicate Orders<K(!new)>(cmp: Compare<K>) {
    && (forall x :: cmp(x, x) == 0)
    && (forall x, y :: cmp(x, y) < 0 <==> cmp(y, x) > 0)
    && (forall x, y, z :: cmp(x, y) < 0 && cmp(y, z) <= 0 ==> cmp(x, z) < 0)
    && (forall x, y, z :: cmp(x, y) <= 0 && cmp(y, z) < 0 ==> cmp(x, z) < 0)
    && (forall x, y, z :: cmp(x, y) == 0 && cmp(y, z) == 0 ==> cmp(x, z) == 0)
  }

  datatype Tree<K, W> = Leaf | Node(key: K, value: W, factor: int, left: Tree<K, W>, right: Tree<K, W>)

  function Height<K, W>(t: Tree<K, W>): nat {
    match t
    case Leaf => 0
    case Node(_, _, _, l, r) => 1 + Max(Height(l), Height(r))
  }

  // ---- invariants ----

  /** Every factor is the difference of the heights. */
  predicate Exact<K, W>(t: Tree<K, W>) {
    match t
    case Leaf => true
    case Node(_, _, b, l, r) => b == Height(l) - Height(r) && Exact(l) && Exact(r)
  }

  predicate Balanced<K, W>(t: Tree<K, W>) {
    match t
    case Leaf => true
    case Node(_, _, b, l, r) => b == Height(l) - Height(r) && -1 <= b <= 1 && Balanced(l) && Balanced(r)
  }

  /** All keys compare to k with the given sign. */
  predicate Beside<K, W>(cmp: Compare<K>, t: Tree<K, W>, k: K, below: bool) {
    match t
    case Leaf => true
    case Node(key, _, _, l, r) =>
      (if below then cmp(key, k) < 0 else cmp(key, k) > 0) && Beside(cmp, l, k, below) && Beside(cmp, r, k, below)
  }

  predicate Ordered<K, W>(cmp: Compare<K>, t: Tree<K, W>) {
    match t
    case Leaf => true
    case Node(k, _, _, l, r) =>
      Beside(cmp, l, k, true) && Beside(cmp, r, k, false) && Ordered(cmp, l) && Ordered(cmp, r)
  }

  // ---- rotations ----

  /** rot (true, node). */
  function RotateLeft<K, W>(t: Tree<K, W>): (r: Tree<K, W>)
    requires t.Node? && t.right.Node?
    ensures r.Node?
  {
    match t
    case Node(k, v, x, l, Node(rk, rv, y, ll, rr)) =>
      var x0 := if y > 0 then x + 1 else x - y + 1;
      var y0 := if x0 > 0 then (if y > 0 then x + y + 2 else x + 2) else y + 1;
      Node(rk, rv, y0, Node(k, v, x0, l, ll), rr)
  }

  /** rot (false, node). */
  function RotateRight<K, W>(t: Tree<K, W>): (r: Tree<K, W>)
    requires t.Node? && t.left.Node?
    ensures r.Node?
  {
    match t
    case Node(k, v, x, Node(lk, lv, y, ll, rr), r) =>
      var x0 := if y < 0 then x - 1 else x - y - 1;
      var y0 := if x0 > 0 then y - 1 else (if y < 0 then y + x - 2 else x - 2);
      Node(lk, lv, y0, ll, Node(k, v, x0, rr, r))
  }

  /** The factor formulas are exact whatever the heights are. */
  lemma RotationsExact<K, W>(t: Tree<K, W>)
    requires t.Node? && Exact(t)
    ensures t.right.Node? ==> Exact(RotateLeft(t))
    ensures t.left.Node? ==> Exact(RotateRight(t))
  {
  }

  lemma {:induction false} BesideTransitive<K(!new), W>(cmp: Compare<K>, t: Tree<K, W>, j: K, k: K, below: bool)
    requires Orders(cmp) && Beside(cmp, t, j, below) && (if below then cmp(j, k) < 0 else cmp(j, k) > 0)
    ensures Beside(cmp, t, k, below)
  {
    match t
    case Leaf =>
    case Node(key, _, _, l, r) =>
      BesideTransitive(cmp, l, j, k, below);
      BesideTransitive(cmp, r, j, k, below);
      if !below {
        assert cmp(k, j) < 0 && cmp(j, key) < 0;
      }
  }

  /** Rotations keep the order. */
  lemma RotationsOrdered<K(!new), W>(cmp: Compare<K>, t: Tree<K, W>)
    requires Orders(cmp) && t.Node? && Ordered(cmp, t)
    ensures t.right.Node? ==> Ordered(cmp, RotateLeft(t))
    ensures t.left.Node? ==> Ordered(cmp, RotateRight(t))
  {
    if t.right.Node? {
      assert cmp(t.key, t.right.key) < 0;
      BesideTransitive(cmp, t.left, t.key, t.right.key, true);
    }
    if t.left.Node? {
      assert cmp(t.key, t.left.key) > 0;
      BesideTransitive(cmp, t.right, t.key, t.left.key, false);
    }
  }

  /** What is stored for a key; empty if nothing is. */
  function At<K, W>(cmp: Compare<K>, t: Tree<K, W>, x: K, empty: W): W {
    match t
    case Leaf => empty
    case Node(k, v, _, l, r) =>
      var c := cmp(x, k);
      if c == 0 then v else At(cmp, if c < 0 then l else r, x, empty)
  }

  /** Rotations keep what is stored and on which side of a key. */
  lemma RotationsAt<K(!new), W>(cmp: Compare<K>, t: Tree<K, W>, x: K, empty: W)
    requires Orders(cmp) && t.Node? && Ordered(cmp, t)
    ensures t.right.Node? ==> At(cmp, RotateLeft(t), x, empty) == At(cmp, t, x, empty)
    ensures t.left.Node? ==> At(cmp, RotateRight(t), x, empty) == At(cmp, t, x, empty)
  {
  }

  lemma RotationsBeside<K(!new), W>(cmp: Compare<K>, t: Tree<K, W>, k: K, below: bool)
    requires t.Node? && Beside(cmp, t, k, below)
    ensures t.right.Node? ==> Beside(cmp, RotateLeft(t), k, below)
    ensures t.left.Node? ==> Beside(cmp, RotateRight(t), k, below)
  {
  }

  // ---- insertion ----

  /** The higher left subtree of a node that leant left already: one rotation or two. */
  function LeftTooHigh<K, W>(k: K, v: W, l: Tree<K, W>, r: Tree<K, W>): Tree<K, W>
    requires l.Node? && (l.factor > 0 || l.right.Node?)
  {
    if l.factor > 0 then RotateRight(Node(k, v, 2, l, r))
    else RotateRight(Node(k, v, 2, RotateLeft(l), r))
  }

  function RightTooHigh<K, W>(k: K, v: W, l: Tree<K, W>, r: Tree<K, W>): Tree<K, W>
    requires r.Node? && (r.factor < 0 || r.left.Node?)
  {
    if r.factor < 0 then RotateLeft(Node(k, v, -2, l, r))
    else RotateLeft(Node(k, v, -2, l, RotateRight(r)))
  }

  /** Rebalancing restores the height the node had before. */
  lemma LeftRebalanced<K, W>(k: K, v: W, l: Tree<K, W>, r: Tree<K, W>)
    requires l.Node? && Balanced(l) && Balanced(r) && Height(l) == Height(r) + 2 && l.factor != 0
    ensures l.factor > 0 || l.right.Node?
    ensures Balanced(LeftTooHigh(k, v, l, r)) && Height(LeftTooHigh(k, v, l, r)) == Height(l)
  {
  }

  lemma RightRebalanced<K, W>(k: K, v: W, l: Tree<K, W>, r: Tree<K, W>)
    requires r.Node? && Balanced(l) && Balanced(r) && Height(r) == Height(l) + 2 && r.factor != 0
    ensures r.factor < 0 || r.left.Node?
    ensures Balanced(RightTooHigh(k, v, l, r)) && Height(RightTooHigh(k, v, l, r)) == Height(r)
  {
  }

  /** A node whose left subtree is ll now, higher than before if grown says so. */
  function LeftGrown<K, W>(k: K, v: W, bf: int, grown: bool, ll: Tree<K, W>, r: Tree<K, W>): (bool, Tree<K, W>)
    requires grown && bf == 1 ==> ll.Node? && (ll.factor > 0 || ll.right.Node?)
  {
    if !grown then (false, Node(k, v, bf, ll, r))
    else if bf < 0 then (false, Node(k, v, bf + 1, ll, r))
    else if bf == 1 then (false, LeftTooHigh(k, v, ll, r))
    else (true, Node(k, v, bf + 1, ll, r))
  }

  function RightGrown<K, W>(k: K, v: W, bf: int, grown: bool, l: Tree<K, W>, rr: Tree<K, W>): (bool, Tree<K, W>)
    requires grown && bf == -1 ==> rr.Node? && (rr.factor < 0 || rr.left.Node?)
  {
    if !grown then (false, Node(k, v, bf, l, rr))
    else if bf > 0 then (false, Node(k, v, bf - 1, l, rr))
    else if bf == -1 then (false, RightTooHigh(k, v, l, rr))
    else (true, Node(k, v, bf - 1, l, rr))
  }

  /** insertColl: whether the tree has grown, and the tree.  put makes the new value from the old one. */
  function Insert<K, W>(cmp: Compare<K>, t: Tree<K, W>, pk: K, empty: W, put: W -> W): (r: (bool, Tree<K, W>))
    requires Balanced(t)
    ensures Balanced(r.1) && Height(r.1) == Height(t) + (if r.0 then 1 else 0)
    ensures r.1.Node? && (r.0 && t.Node? ==> r.1.factor != 0)
  {
    match t
    case Leaf => (true, Node(pk, put(empty), 0, Leaf, Leaf))
    case Node(kk, vv, bf, l, r) =>
      var c := cmp(pk, kk);
      if c == 0 then (false, Node(kk, put(vv), bf, l, r))
      else if c < 0 then
        var (grown, ll) := Insert(cmp, l, pk, empty, put);
        LeftFits(kk, vv, bf, grown, l, ll, r);
        LeftGrown(kk, vv, bf, grown, ll, r)
      else
        var (grown, rr) := Insert(cmp, r, pk, empty, put);
        RightFits(kk, vv, bf, grown, l, r, rr);
        RightGrown(kk, vv, bf, grown, l, rr)
  }

  lemma LeftFits<K, W>(k: K, v: W, bf: int, grown: bool, l: Tree<K, W>, ll: Tree<K, W>, r: Tree<K, W>)
    requires Balanced(Node(k, v, bf, l, r)) && Balanced(ll) && ll.Node?
    requires Height(ll) == Height(l) + (if grown then 1 else 0)
    requires grown && l.Node? ==> ll.factor != 0
    ensures grown && bf == 1 ==> ll.factor > 0 || ll.right.Node?
    ensures
      var t := LeftGrown(k, v, bf, grown, ll, r);
      Balanced(t.1) && Height(t.1) == Height(Node(k, v, bf, l, r)) + (if t.0 then 1 else 0) && t.1.Node?
        && (t.0 ==> t.1.factor != 0)
  {
    hide LeftTooHigh;
    if grown && bf == 1 {
      LeftRebalanced(k, v, ll, r);
    }
  }

  lemma RightFits<K, W>(k: K, v: W, bf: int, grown: bool, l: Tree<K, W>, r: Tree<K, W>, rr: Tree<K, W>)
    requires Balanced(Node(k, v, bf, l, r)) && Balanced(rr) && rr.Node?
    requires Height(rr) == Height(r) + (if grown then 1 else 0)
    requires grown && r.Node? ==> rr.factor != 0
    ensures grown && bf == -1 ==> rr.factor < 0 || rr.left.Node?
    ensures
      var t := RightGrown(k, v, bf, grown, l, rr);
      Balanced(t.1) && Height(t.1) == Height(Node(k, v, bf, l, r)) + (if t.0 then 1 else 0) && t.1.Node?
        && (t.0 ==> t.1.factor != 0)
  {
    hide RightTooHigh;
    if grown && bf == -1 {
      RightRebalanced(k, v, l, rr);
    }
  }

  /** Rebalancing keeps the keys beside others, in order, and what is stored. */
  ghost predicate Same<K, W>(cmp: Compare<K>, t: Tree<K, W>, t': Tree<K, W>, x: K, empty: W) {
    Ordered(cmp, t') && At(cmp, t', x, empty) == At(cmp, t, x, empty)
  }

  lemma LeftKeeps<K(!new),
      W>(cmp: Compare<K>, k: K, v: W, bf: int, grown: bool, l: Tree<K, W>, r: Tree<K, W>, x: K, empty: W)
    requires grown && bf == 1 ==> l.Node? && (l.factor > 0 || l.right.Node?)
    requires Orders(cmp) && Ordered(cmp, Node(k, v, 0, l, r))
    ensures Same(cmp, Node(k, v, 0, l, r), LeftGrown(k, v, bf, grown, l, r).1, x, empty)
  {
    hide Orders, RotateLeft, RotateRight;
    if grown && bf == 1 {
      var l' := if l.factor > 0 then l else RotateLeft(l);
      RotationsOrdered(cmp, l);
      RotationsBeside(cmp, l, k, true);
      RotationsAt(cmp, l, x, empty);
      RotationsOrdered(cmp, Node(k, v, 2, l', r));
      RotationsAt(cmp, Node(k, v, 2, l', r), x, empty);
    }
  }

  lemma RightKeeps<K(!new),
      W>(cmp: Compare<K>, k: K, v: W, bf: int, grown: bool, l: Tree<K, W>, r: Tree<K, W>, x: K, empty: W)
    requires grown && bf == -1 ==> r.Node? && (r.factor < 0 || r.left.Node?)
    requires Orders(cmp) && Ordered(cmp, Node(k, v, 0, l, r))
    ensures Same(cmp, Node(k, v, 0, l, r), RightGrown(k, v, bf, grown, l, r).1, x, empty)
  {
    hide Orders, RotateLeft, RotateRight;
    if grown && bf == -1 {
      var r' := if r.factor < 0 then r else RotateRight(r);
      RotationsOrdered(cmp, r);
      RotationsBeside(cmp, r, k, false);
      RotationsAt(cmp, r, x, empty);
      RotationsOrdered(cmp, Node(k, v, -2, l, r'));
      RotationsAt(cmp, Node(k, v, -2, l, r'), x, empty);
    }
  }

  lemma GrownBeside<K(!new),
      W>(cmp: Compare<K>, kk: K, v: W, bf: int, grown: bool, l: Tree<K, W>, r: Tree<K, W>, k: K, below: bool)
    requires Beside(cmp, Node(kk, v, 0, l, r), k, below)
    ensures (grown && bf == 1 ==> l.Node? && (l.factor > 0 || l.right.Node?)) ==>
      Beside(cmp, LeftGrown(kk, v, bf, grown, l, r).1, k, below)
    ensures (grown && bf == -1 ==> r.Node? && (r.factor < 0 || r.left.Node?)) ==>
      Beside(cmp, RightGrown(kk, v, bf, grown, l, r).1, k, below)
  {
    hide RotateLeft, RotateRight;
    if grown && bf == 1 && l.Node? && (l.factor > 0 || l.right.Node?) {
      var l' := if l.factor > 0 then l else RotateLeft(l);
      RotationsBeside(cmp, l, k, below);
      RotationsBeside(cmp, Node(kk, v, 2, l', r), k, below);
    }
    if grown && bf == -1 && r.Node? && (r.factor < 0 || r.left.Node?) {
      var r' := if r.factor < 0 then r else RotateRight(r);
      RotationsBeside(cmp, r, k, below);
      RotationsBeside(cmp, Node(kk, v, -2, l, r'), k, below);
    }
  }

  lemma {:induction false} InsertBeside<K(!new),
      W>(cmp: Compare<K>, t: Tree<K, W>, pk: K, empty: W, put: W -> W, k: K, below: bool)
    requires Balanced(t) && Beside(cmp, t, k, below) && (if below then cmp(pk, k) < 0 else cmp(pk, k) > 0)
    ensures Beside(cmp, Insert(cmp, t, pk, empty, put).1, k, below)
  {
    hide LeftGrown, RightGrown, Height;
    match t
    case Leaf =>
    case Node(kk, vv, bf, l, r) =>
      var c := cmp(pk, kk);
      if c < 0 {
        var (grown, ll) := Insert(cmp, l, pk, empty, put);
        LeftFits(kk, vv, bf, grown, l, ll, r);
        InsertBeside(cmp, l, pk, empty, put, k, below);
        GrownBeside(cmp, kk, vv, bf, grown, ll, r, k, below);
      } else if c > 0 {
        var (grown, rr) := Insert(cmp, r, pk, empty, put);
        RightFits(kk, vv, bf, grown, l, r, rr);
        InsertBeside(cmp, r, pk, empty, put, k, below);
        GrownBeside(cmp, kk, vv, bf, grown, l, rr, k, below);
      }
  }

  /** Insertion keeps the order. */
  lemma {:induction false} InsertOrdered<K(!new), W>(cmp: Compare<K>, t: Tree<K, W>, pk: K, empty: W, put: W -> W)
    requires Orders(cmp) && Balanced(t) && Ordered(cmp, t)
    ensures Ordered(cmp, Insert(cmp, t, pk, empty, put).1)
  {
    hide Orders, LeftGrown, RightGrown, Height;
    match t
    case Leaf =>
    case Node(kk, vv, bf, l, r) =>
      var c := cmp(pk, kk);
      if c < 0 {
        var (grown, ll) := Insert(cmp, l, pk, empty, put);
        LeftFits(kk, vv, bf, grown, l, ll, r);
        InsertOrdered(cmp, l, pk, empty, put);
        InsertBeside(cmp, l, pk, empty, put, kk, true);
        LeftKeeps(cmp, kk, vv, bf, grown, ll, r, pk, empty);
      } else if c > 0 {
        var (grown, rr) := Insert(cmp, r, pk, empty, put);
        RightFits(kk, vv, bf, grown, l, r, rr);
        InsertOrdered(cmp, r, pk, empty, put);
        InsertBeside(cmp, r, pk, empty, put, kk, false);
        RightKeeps(cmp, kk, vv, bf, grown, l, rr, pk, empty);
      }
  }

  lemma SameSide<K(!new)>(cmp: Compare<K>, x: K, y: K, k: K)
    requires Orders(cmp) && cmp(x, y) == 0
    ensures (cmp(x, k) < 0 <==> cmp(y, k) < 0) && (cmp(x, k) == 0 <==> cmp(y, k) == 0)
  {
    assert cmp(y, x) == 0;
    if cmp(x, k) < 0 {
      assert cmp(y, k) < 0;
    }
    if cmp(y, k) < 0 {
      assert cmp(x, k) < 0;
    }
  }

  /** Insertion changes what is stored for the key, and for no other. */
  lemma {:induction false} InsertAt<K(!new), W>(cmp: Compare<K>, t: Tree<K, W>, pk: K, empty: W, put: W -> W, x: K)
    requires Orders(cmp) && Balanced(t) && Ordered(cmp, t)
    ensures
      var was := At(cmp, t, x, empty);
      At(cmp, Insert(cmp, t, pk, empty, put).1, x, empty) == if cmp(x, pk) == 0 then put(was) else was
  {
    hide Orders, LeftGrown, RightGrown, Height;
    match t
    case Leaf =>
    case Node(kk, vv, bf, l, r) =>
      var c := cmp(pk, kk);
      Opposite(cmp, pk, x, kk);
      if c < 0 {
        var (grown, ll) := Insert(cmp, l, pk, empty, put);
        LeftFits(kk, vv, bf, grown, l, ll, r);
        InsertAt(cmp, l, pk, empty, put, x);
        InsertOrdered(cmp, l, pk, empty, put);
        InsertBeside(cmp, l, pk, empty, put, kk, true);
        LeftKeeps(cmp, kk, vv, bf, grown, ll, r, x, empty);
      } else if c > 0 {
        var (grown, rr) := Insert(cmp, r, pk, empty, put);
        RightFits(kk, vv, bf, grown, l, r, rr);
        InsertAt(cmp, r, pk, empty, put, x);
        InsertOrdered(cmp, r, pk, empty, put);
        InsertBeside(cmp, r, pk, empty, put, kk, false);
        RightKeeps(cmp, kk, vv, bf, grown, l, rr, x, empty);
      }
  }

  /** Keys on different sides of k differ, keys equal to the same are on the same side. */
  lemma Opposite<K(!new)>(cmp: Compare<K>, x: K, y: K, k: K)
    requires Orders(cmp)
    ensures cmp(y, x) == 0 ==> (cmp(x, k) < 0 <==> cmp(y, k) < 0) && (cmp(x, k) == 0 <==> cmp(y, k) == 0)
    ensures cmp(x, k) == 0 && cmp(y, k) == 0 ==> cmp(y, x) == 0
  {
    if cmp(y, x) == 0 {
      SameSide(cmp, y, x, k);
    }
    if cmp(x, k) == 0 && cmp(y, k) == 0 {
      assert cmp(k, x) == 0;
    }
  }

  // ---- comparisons that order the keys in use only ----

  ghost predicate OrdersOn<K(!new)>(cmp: Compare<K>, dom: set<K>) {
    && (forall x :: x in dom ==> cmp(x, x) == 0)
    && (forall x, y :: x in dom && y in dom ==> (cmp(x, y) < 0 <==> cmp(y, x) > 0))
    && (forall x, y, z :: x in dom && y in dom && z in dom ==>
          && (cmp(x, y) < 0 && cmp(y, z) <= 0 ==> cmp(x, z) < 0)
          && (cmp(x, y) <= 0 && cmp(y, z) < 0 ==> cmp(x, z) < 0)
          && (cmp(x, y) == 0 && cmp(y, z) == 0 ==> cmp(x, z) == 0))
  }

  /** The comparison on dom, with all other keys equal to each other and above. */
  ghost function Extend<K>(cmp: Compare<K>, dom: set<K>): Compare<K> {
    (x: K, y: K) => if x in dom then (if y in dom then cmp(x, y) else -1) else if y in dom then 1 else 0
  }

  lemma ExtendOrders<K(!new)>(cmp: Compare<K>, dom: set<K>)
    requires OrdersOn(cmp, dom)
    ensures Orders(Extend(cmp, dom))
  {
    var ext := Extend(cmp, dom);
    forall x: K, y: K, z: K
      ensures ext(x, y) < 0 && ext(y, z) <= 0 ==> ext(x, z) < 0
      ensures ext(x, y) <= 0 && ext(y, z) < 0 ==> ext(x, z) < 0
      ensures ext(x, y) == 0 && ext(y, z) == 0 ==> ext(x, z) == 0
    {
      if x in dom && y in dom && z in dom {
        assert ext(x, y) == cmp(x, y) && ext(y, z) == cmp(y, z) && ext(x, z) == cmp(x, z);
      }
    }
  }

  ghost predicate Within<K, W>(t: Tree<K, W>, dom: set<K>) {
    match t
    case Leaf => true
    case Node(k, _, _, l, r) => k in dom && Within(l, dom) && Within(r, dom)
  }

  lemma RotationsWithin<K, W>(t: Tree<K, W>, dom: set<K>)
    requires t.Node? && Within(t, dom)
    ensures t.right.Node? ==> Within(RotateLeft(t), dom)
    ensures t.left.Node? ==> Within(RotateRight(t), dom)
  {
  }

  lemma GrownWithin<K, W>(kk: K, v: W, bf: int, grown: bool, l: Tree<K, W>, r: Tree<K, W>, dom: set<K>)
    requires kk in dom && Within(l, dom) && Within(r, dom)
    ensures (grown && bf == 1 ==> l.Node? && (l.factor > 0 || l.right.Node?)) ==>
      Within(LeftGrown(kk, v, bf, grown, l, r).1, dom)
    ensures (grown && bf == -1 ==> r.Node? && (r.factor < 0 || r.left.Node?)) ==>
      Within(RightGrown(kk, v, bf, grown, l, r).1, dom)
  {
    hide RotateLeft, RotateRight;
    if grown && bf == 1 && l.Node? && (l.factor > 0 || l.right.Node?) {
      var l' := if l.factor > 0 then l else RotateLeft(l);
      RotationsWithin(l, dom);
      RotationsWithin(Node(kk, v, 2, l', r), dom);
    }
    if grown && bf == -1 && r.Node? && (r.factor < 0 || r.left.Node?) {
      var r' := if r.factor < 0 then r else RotateRight(r);
      RotationsWithin(r, dom);
      RotationsWithin(Node(kk, v, -2, l, r'), dom);
    }
  }

  /** Insertion looks at the keys in use only. */
  lemma {:induction false} InsertWithin<K, W>(cmp: Compare<K>, dom: set<K>, t: Tree<K, W>, pk: K, empty: W, put: W -> W)
    requires Balanced(t) && Within(t, dom) && pk in dom
    ensures Insert(Extend(cmp, dom), t, pk, empty, put) == Insert(cmp, t, pk, empty, put)
    ensures Within(Insert(cmp, t, pk, empty, put).1, dom)
  {
    hide LeftGrown, RightGrown, Height;
    match t
    case Leaf =>
    case Node(kk, vv, bf, l, r) =>
      var c := cmp(pk, kk);
      assert Extend(cmp, dom)(pk, kk) == c;
      if c < 0 {
        var (grown, ll) := Insert(cmp, l, pk, empty, put);
        LeftFits(kk, vv, bf, grown, l, ll, r);
        InsertWithin(cmp, dom, l, pk, empty, put);
        GrownWithin(kk, vv, bf, grown, ll, r, dom);
      } else if c > 0 {
        var (grown, rr) := Insert(cmp, r, pk, empty, put);
        RightFits(kk, vv, bf, grown, l, r, rr);
        InsertWithin(cmp, dom, r, pk, empty, put);
        GrownWithin(kk, vv, bf, grown, l, rr, dom);
      }
  }

  // ---- removal ----

  /** removeColl: the node stays, its value gives up an entry. */
  function Remove<K, W>(cmp: Compare<K>, t: Tree<K, W>, pk: K, delete: W -> W): Tree<K, W> {
    match t
    case Leaf => Leaf
    case Node(kk, vv, bf, l, r) =>
      var c := cmp(pk, kk);
      if c == 0 then Node(kk, delete(vv), bf, l, r)
      else if c < 0 then Node(kk, vv, bf, Remove(cmp, l, pk, delete), r)
      else Node(kk, vv, bf, l, Remove(cmp, r, pk, delete))
  }

  lemma {:induction false} RemoveKeeps<K(!new), W>(cmp: Compare<K>, t: Tree<K, W>, pk: K, delete: W -> W)
    ensures Height(Remove(cmp, t, pk, delete)) == Height(t)
    ensures Balanced(t) ==> Balanced(Remove(cmp, t, pk, delete))
    ensures forall k, below :: Beside(cmp, t, k, below) ==> Beside(cmp, Remove(cmp, t, pk, delete), k, below)
    ensures Ordered(cmp, t) ==> Ordered(cmp, Remove(cmp, t, pk, delete))
  {
    match t
    case Leaf =>
    case Node(kk, vv, bf, l, r) =>
      RemoveKeeps(cmp, l, pk, delete);
      RemoveKeeps(cmp, r, pk, delete);
  }

  lemma {:induction false} RemoveAt<K(!new), W>(cmp: Compare<K>, t: Tree<K, W>, pk: K, empty: W, delete: W -> W, x: K)
    requires Orders(cmp) && Ordered(cmp, t) && delete(empty) == empty
    ensures
      var was := At(cmp, t, x, empty);
      At(cmp, Remove(cmp, t, pk, delete), x, empty) == if cmp(x, pk) == 0 then delete(was) else was
  {
    hide Orders;
    match t
    case Leaf =>
    case Node(kk, vv, bf, l, r) =>
      Opposite(cmp, pk, x, kk);
      RemoveAt(cmp, l, pk, empty, delete, x);
      RemoveAt(cmp, r, pk, empty, delete, x);
  }

  lemma {:induction false} RemoveWithin<K, W>(cmp: Compare<K>, dom: set<K>, t: Tree<K, W>, pk: K, delete: W -> W)
    requires Within(t, dom) && pk in dom
    ensures Remove(Extend(cmp, dom), t, pk, delete) == Remove(cmp, t, pk, delete)
    ensures Within(Remove(cmp, t, pk, delete), dom)
  {
    match t
    case Leaf =>
    case Node(kk, _, _, l, r) =>
      assert Extend(cmp, dom)(pk, kk) == cmp(pk, kk);
      RemoveWithin(cmp, dom, l, pk, delete);
      RemoveWithin(cmp, dom, r, pk, delete);
  }

  // ---- contents ----

  /** contents: from the right, the entries to be shown in front of those collected. */
  function Contents<K, W>(t: Tree<K, W>, shown: W -> bool, acc: seq<(K, W)>): seq<(K, W)> {
    match t
    case Leaf => acc
    case Node(k, v, _, l, r) => Contents(l, shown, Shown(k, v, shown) + Contents(r, shown, acc))
  }

  function Shown<K, W>(k: K, v: W, shown: W -> bool): seq<(K, W)> {
    if shown(v) then [(k, v)] else []
  }

  lemma {:induction false} ContentsAppend<K, W>(t: Tree<K, W>, shown: W -> bool, acc: seq<(K, W)>)
    ensures Contents(t, shown, acc) == Contents(t, shown, []) + acc
  {
    match t
    case Leaf =>
    case Node(k, v, _, l, r) =>
      ContentsAppend(r, shown, acc);
      var mid, left := Shown(k, v, shown), Contents(l, shown, []);
      var right, all := Contents(r, shown, []), Contents(r, shown, acc);
      ContentsAppend(l, shown, mid + all);
      ContentsAppend(l, shown, mid + right);
      JoinThree(left, mid, right, acc);
  }

  lemma JoinThree<T>(a: seq<T>, b: seq<T>, c: seq<T>, d: seq<T>)
    ensures a + (b + (c + d)) == a + (b + c) + d
  {
  }

  lemma ContentsNode<K, W>(k: K, v: W, b: int, l: Tree<K, W>, r: Tree<K, W>, shown: W -> bool)
    ensures Contents(Node(k, v, b, l, r), shown, []) ==
      Contents(l, shown, []) + Shown(k, v, shown) + Contents(r, shown, [])
  {
    ContentsAppend(l, shown, Shown(k, v, shown) + Contents(r, shown, []));
  }

  ghost predicate AllBeside<K, W>(cmp: Compare<K>, es: seq<(K, W)>, k: K, below: bool) {
    forall i :: 0 <= i < |es| ==> if below then cmp(es[i].0, k) < 0 else cmp(es[i].0, k) > 0
  }

  lemma {:induction false} ContentsBeside<K(!new),
      W>(cmp: Compare<K>, t: Tree<K, W>, shown: W -> bool, k: K, below: bool)
    requires Beside(cmp, t, k, below)
    ensures AllBeside(cmp, Contents(t, shown, []), k, below)
  {
    match t
    case Leaf =>
    case Node(key, v, b, l, r) =>
      ContentsBeside(cmp, l, shown, k, below);
      ContentsBeside(cmp, r, shown, k, below);
      ContentsNode(key, v, b, l, r, shown);
  }

  ghost predicate Ascending<K, W>(cmp: Compare<K>, es: seq<(K, W)>) {
    forall i, j :: 0 <= i < j < |es| ==> cmp(es[i].0, es[j].0) < 0
  }

  lemma Between<K(!new)>(cmp: Compare<K>, x: K, k: K, z: K)
    requires Orders(cmp) && cmp(x, k) < 0 && cmp(z, k) > 0
    ensures cmp(x, z) < 0
  {
    assert cmp(k, z) < 0;
  }

  lemma AscendingJoin<K(!new), W>(cmp: Compare<K>, a: seq<(K, W)>, k: K, mid: seq<(K, W)>, c: seq<(K, W)>)
    requires Orders(cmp) && Ascending(cmp, a) && Ascending(cmp, c) && AllBeside(cmp, a, k, true)
    requires AllBeside(cmp, c, k, false)
    requires mid == [] || (|mid| == 1 && mid[0].0 == k)
    ensures Ascending(cmp, a + mid + c)
  {
    hide Orders;
    var all, m, n := a + mid + c, |a|, |a| + |mid|;
    forall i, j | 0 <= i < j < |all| ensures cmp(all[i].0, all[j].0) < 0 {
      if j < m {
        assert all[i] == a[i] && all[j] == a[j];
      } else if j < n {
        assert all[i] == a[i] && all[j].0 == k;
      } else if i >= n {
        assert all[i] == c[i - n] && all[j] == c[j - n];
      } else if i >= m {
        assert all[i].0 == k && all[j] == c[j - n];
        MirroredAbove(cmp, k, c[j - n].0);
      } else {
        assert all[i] == a[i] && all[j] == c[j - n];
        Between(cmp, a[i].0, k, c[j - n].0);
      }
    }
  }

  lemma MirroredAbove<K(!new)>(cmp: Compare<K>, k: K, z: K)
    requires Orders(cmp) && cmp(z, k) > 0
    ensures cmp(k, z) < 0
  {
  }

  /** The contents are strictly ascending. */
  lemma {:induction false} ContentsAscending<K(!new), W>(cmp: Compare<K>, t: Tree<K, W>, shown: W -> bool)
    requires Orders(cmp) && Ordered(cmp, t)
    ensures Ascending(cmp, Contents(t, shown, []))
  {
    hide Orders;
    match t
    case Leaf =>
    case Node(k, v, b, l, r) =>
      ContentsAscending(cmp, l, shown);
      ContentsAscending(cmp, r, shown);
      ContentsBeside(cmp, l, shown, k, true);
      ContentsBeside(cmp, r, shown, k, false);
      ContentsNode(k, v, b, l, r, shown);
      AscendingJoin(cmp, Contents(l, shown, []), k, Shown(k, v, shown), Contents(r, shown, []));
  }

  /** The list has an entry for x, and it is w. */
  ghost predicate Lists<K, W>(cmp: Compare<K>, es: seq<(K, W)>, x: K, w: W) {
    exists i :: 0 <= i < |es| && cmp(x, es[i].0) == 0 && es[i].1 == w
  }

  ghost predicate Mentions<K, W>(cmp: Compare<K>, es: seq<(K, W)>, x: K) {
    exists i :: 0 <= i < |es| && cmp(x, es[i].0) == 0
  }

  lemma ListsJoin<K(!new), W(!new)>(cmp: Compare<K>, a: seq<(K, W)>, b: seq<(K, W)>, x: K, w: W)
    ensures Lists(cmp, a + b, x, w) <==> Lists(cmp, a, x, w) || Lists(cmp, b, x, w)
    ensures Mentions(cmp, a + b, x) <==> Mentions(cmp, a, x) || Mentions(cmp, b, x)
  {
    var all := a + b;
    if Lists(cmp, a, x, w) {
      var i :| 0 <= i < |a| && cmp(x, a[i].0) == 0 && a[i].1 == w;
      assert all[i] == a[i];
    }
    if Lists(cmp, b, x, w) {
      var i :| 0 <= i < |b| && cmp(x, b[i].0) == 0 && b[i].1 == w;
      assert all[|a| + i] == b[i];
    }
    if Mentions(cmp, a, x) {
      var i :| 0 <= i < |a| && cmp(x, a[i].0) == 0;
      assert all[i] == a[i];
    }
    if Mentions(cmp, b, x) {
      var i :| 0 <= i < |b| && cmp(x, b[i].0) == 0;
      assert all[|a| + i] == b[i];
    }
  }

  lemma NotMentioned<K(!new), W(!new)>(cmp: Compare<K>, es: seq<(K, W)>, k: K, below: bool, x: K)
    requires Orders(cmp) && AllBeside(cmp, es, k, below) && (if below then cmp(x, k) >= 0 else cmp(x, k) <= 0)
    ensures !Mentions(cmp, es, x)
  {
  }

  /** The contents show exactly what is stored and to be shown. */
  lemma {:induction false} ContentsExact<K(!new),
      W(!new)>(cmp: Compare<K>, t: Tree<K, W>, shown: W -> bool, empty: W, x: K)
    requires Orders(cmp) && Ordered(cmp, t) && !shown(empty)
    ensures
      var w := At(cmp, t, x, empty);
      && (Mentions(cmp, Contents(t, shown, []), x) <==> shown(w))
      && (shown(w) ==> Lists(cmp, Contents(t, shown, []), x, w))
  {
    hide Orders;
    match t
    case Leaf =>
    case Node(k, v, b, l, r) =>
      var w := At(cmp, t, x, empty);
      var a, c := Contents(l, shown, []), Contents(r, shown, []);
      var mid := Shown(k, v, shown);
      ContentsExact(cmp, l, shown, empty, x);
      ContentsExact(cmp, r, shown, empty, x);
      ContentsBeside(cmp, l, shown, k, true);
      ContentsBeside(cmp, r, shown, k, false);
      ContentsNode(k, v, b, l, r, shown);
      ListsJoin(cmp, a + mid, c, x, w);
      ListsJoin(cmp, a, mid, x, w);
      if cmp(x, k) >= 0 {
        NotMentioned(cmp, a, k, true, x);
      }
      if cmp(x, k) <= 0 {
        NotMentioned(cmp, c, k, false, x);
      }
      if shown(v) {
        assert mid[0] == (k, v);
      }
  }

  // ---- validateColl ----

  /** validateColl: the height, or None where it reports a violation.  A key is checked against the parent's only. */
  function Validate<K, W>(cmp: Compare<K>, t: Tree<K, W>, verify: K -> bool): Option<int> {
    match t
    case Leaf => Some(0)
    case Node(k, _, bf, l, r) =>
      if !verify(k) then None
      else
        var lh :- Validate(cmp, l, x => cmp(x, k) < 0);
        var rh :- Validate(cmp, r, x => cmp(x, k) > 0);
        if bf == lh - rh then Some(1 + if lh > rh then lh else rh) else None
  }

  /** Each key is on the right side of its parent's. */
  predicate LocallyOrdered<K, W>(cmp: Compare<K>, t: Tree<K, W>) {
    match t
    case Leaf => true
    case Node(k, _, _, l, r) =>
      && (l.Node? ==> cmp(l.key, k) < 0) && (r.Node? ==> cmp(r.key, k) > 0)
      && LocallyOrdered(cmp, l) && LocallyOrdered(cmp, r)
  }

  /** Validation succeeds exactly on trees with exact factors whose keys are ordered parent by parent. */
  lemma {:induction false} ValidateMeans<K, W>(cmp: Compare<K>, t: Tree<K, W>, verify: K -> bool)
    ensures Validate(cmp, t, verify) == (
      if Exact(t) && LocallyOrdered(cmp, t) && (t.Node? ==> verify(t.key)) then Some(Height(t)) else None)
  {
    match t
    case Leaf =>
    case Node(k, _, bf, l, r) =>
      ValidateMeans(cmp, l, x => cmp(x, k) < 0);
      ValidateMeans(cmp, r, x => cmp(x, k) > 0);
  }

  lemma {:induction false} OrderedLocally<K, W>(cmp: Compare<K>, t: Tree<K, W>)
    requires Ordered(cmp, t)
    ensures LocallyOrdered(cmp, t)
  {
    match t
    case Leaf =>
    case Node(k, _, _, l, r) =>
      OrderedLocally(cmp, l);
      OrderedLocally(cmp, r);
  }

  /** Insertion never makes a tree validation rejects. */
  lemma InsertValidates<K(!new), W>(cmp: Compare<K>, t: Tree<K, W>, pk: K, empty: W, put: W -> W)
    requires Orders(cmp) && Balanced(t) && Ordered(cmp, t)
    ensures Validate(cmp, Insert(cmp, t, pk, empty, put).1, x => true) == Some(Height(Insert(cmp, t, pk, empty, put).1))
  {
    var t' := Insert(cmp, t, pk, empty, put).1;
    InsertOrdered(cmp, t, pk, empty, put);
    OrderedLocally(cmp, t');
    BalancedExact(t');
    ValidateMeans(cmp, t', x => true);
  }

  lemma {:induction false} BalancedExact<K, W>(t: Tree<K, W>)
    requires Balanced(t)
    ensures Exact(t)
  {
    match t
    case Leaf =>
    case Node(_, _, _, l, r) =>
      BalancedExact(l);
      BalancedExact(r);
  }

  /** Validation lets an unordered, unbalanced tree pass: 7 stands below 3 to the left of 5. */
  lemma ValidateMissesDisorder()
    ensures
      var cmp := (x: int, y: int) => x - y;
      var t := Node(5, 0, 2, Node(3, 0, -1, Leaf, Node(7, 0, 0, Leaf, Leaf)), Leaf);
      Validate(cmp, t, x => true) == Some(3) && !Ordered(cmp, t) && !Balanced(t)
  {
    hide Validate, Ordered, Balanced, Exact, LocallyOrdered, Height, Beside;
    var cmp := (x: int, y: int) => x - y;
    var three: Tree<int, int> := Node(3, 0, -1, Leaf, Node(7, 0, 0, Leaf, Leaf));
    var t := Node(5, 0, 2, three, Leaf);
    Misplaced(cmp, three, t);
    ValidateMeans(cmp, t, x => true);
  }

  lemma Misplaced(cmp: Compare<int>, three: Tree<int, int>, t: Tree<int, int>)
    requires three == Node(3, 0, -1, Leaf, Node(7, 0, 0, Leaf, Leaf)) && t == Node(5, 0, 2, three, Leaf)
    requires cmp(3, 5) < 0 && cmp(7, 3) > 0 && cmp(7, 5) > 0
    ensures Exact(t) && LocallyOrdered(cmp, t) && Height(t) == 3 && !Ordered(cmp, t) && !Balanced(t)
  {
    var seven := three.right;
    assert Height(seven) == 1 && Height(three) == 2;
    assert Exact(seven) && Exact(three);
    assert LocallyOrdered(cmp, seven) && LocallyOrdered(cmp, three);
    assert !Beside(cmp, seven, 5, true) && !Beside(cmp, three, 5, true);
  }
}
