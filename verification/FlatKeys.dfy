/** Trees whose keys are compared by flatCompare (stdlib/Data.lama:40, runtime/runtime.c): numbers and references
    are compared as words. */
module FlatKeys {
  import opened Wrappers
  import opened OrderedTrees
  import opened Collections
  import opened StructuralOrder

  /** flatCompare on keys that are kept in the given words, as a number. */
  function FlatBy<K>(word: K -> int): OrderedTrees.Compare<K> {
    (x: K, y: K) => Unbox(FlatCompare(word(x), word(y)))
  }

  ghost predicate AllNear<K(!new)>(word: K -> int, dom: set<K>) {
    forall x, y :: x in dom && y in dom ==> Near(word(x), word(y))
  }

  /** The words of numbers are below all addresses. */
  ghost predicate NumbersBelow<K(!new)>(word: K -> int, dom: set<K>) {
    forall x, y :: x in dom && y in dom && !Reference(word(x)) && Reference(word(y)) ==> word(x) < word(y)
  }

  /** Then the order is that of the words. */
  lemma FlatSign(p: int, q: int)
    requires Near(p, q) && (!Reference(p) && Reference(q) ==> p < q) && (Reference(p) && !Reference(q) ==> q < p)
    ensures Sign(Unbox(FlatCompare(p, q))) == Sign(p - q)
  {
    if Reference(p) || Reference(q) {
      DifferenceSign(p - q);
    } else {
      DifferenceSign(Unbox(p) - Unbox(q));
    }
    assert Unbox(-1) == -1;
  }

  /** flatCompare orders a set of keys whose differences fit exactly if all numbers are below all addresses. */
  lemma FlatOrdersIff<K(!new)>(word: K -> int, dom: set<K>)
    requires AllNear(word, dom)
    ensures OrdersOn(FlatBy(word), dom) <==> NumbersBelow(word, dom)
  {
    hide FlatCompare, Unbox, Reference;
    var cmp := FlatBy(word);
    if NumbersBelow(word, dom) {
      forall x, y | x in dom && y in dom ensures Sign(cmp(x, y)) == Sign(word(x) - word(y)) {
        FlatSign(word(x), word(y));
      }
    }
    if OrdersOn(cmp, dom) {
      forall x, y | x in dom && y in dom && !Reference(word(x)) && Reference(word(y)) ensures word(x) < word(y) {
        assert cmp(x, y) < 0 <==> cmp(y, x) > 0;
        assert cmp(y, x) < 0 <==> cmp(x, y) > 0;
        FlatFlipsIff(word(x), word(y));
      }
    }
  }

  /** Keys compare equal exactly if they are kept in equal words. */
  lemma FlatZeroIff<K(!new)>(word: K -> int, dom: set<K>, x: K, y: K)
    requires AllNear(word, dom) && NumbersBelow(word, dom) && x in dom && y in dom
    ensures FlatBy(word)(x, y) == 0 <==> word(x) == word(y)
  {
    FlatSign(word(x), word(y));
  }

  // ---- a key that gets lost ----

  type Small = Tree<int, seq<nat>>

  function Single(k: int, v: nat): Small { Node(k, [v], 0, Leaf, Leaf) }

  lemma AddFirst(cmp: OrderedTrees.Compare<int>, k: int, v: nat)
    ensures AddMap(cmp, Leaf, k, v) == Single(k, v)
    ensures Insert(cmp, Leaf, k, [], vs => [v] + vs) == (true, Single(k, v))
  {
    assert [v] + [] == [v];
  }

  lemma AddSecond(cmp: OrderedTrees.Compare<int>, q: int, u: nat, k: int, v: nat)
    requires cmp(k, q) < 0
    ensures AddMap(cmp, Single(q, u), k, v) == Node(q, [u], 1, Single(k, v), Leaf)
    ensures Insert(cmp, Single(q, u), k, [], vs => [v] + vs) == (true, Node(q, [u], 1, Single(k, v), Leaf))
  {
    AddFirst(cmp, k, v);
  }

  lemma AddThird(cmp: OrderedTrees.Compare<int>, q: int, u: nat, p: int, v: nat, k: int, w: nat)
    requires cmp(k, q) < 0 && cmp(k, p) < 0
    ensures AddMap(cmp, Node(q, [u], 1, Single(p, v), Leaf), k, w) == Node(p, [v], 0, Single(k, w), Single(q, u))
  {
    AddSecond(cmp, p, v, k, w);
  }

  /** A map with three keys added. */
  function ThreeKeys(cmp: OrderedTrees.Compare<int>, q: int, p: int, k: int): Small {
    AddMap(cmp, AddMap(cmp, AddMap(cmp, Leaf, q, 1), p, 2), k, 3)
  }

  /** Two keys each less than the other: the first one added is lost when the tree is rotated. */
  lemma LostByRotation(cmp: OrderedTrees.Compare<int>, q: int, p: int, k: int)
    requires cmp(p, q) < 0 && cmp(q, p) < 0 && cmp(k, q) < 0 && cmp(k, p) < 0 && cmp(q, k) > 0
    ensures FindMap(cmp, ThreeKeys(cmp, q, p, k), q) == None
  {
    AddFirst(cmp, q, 1);
    AddSecond(cmp, q, 1, p, 2);
    AddThird(cmp, q, 1, p, 2, k, 3);
    var rotated := Node(p, [2], 0, Single(k, 3), Single(q, 1));
    assert FindMap(cmp, Single(k, 3), q) == None;
    assert FindMap(cmp, rotated, q) == None;
  }

  /** The address 0x1000, the number 0x1000 and the number 0 as keys: the address is not found any more. */
  lemma KeyLost()
    ensures var cmp := FlatBy((w: int) => w); FindMap(cmp, ThreeKeys(cmp, 0x1000, 0x2001, 1), 0x1000) == None
  {
    var cmp := FlatBy((w: int) => w);
    NumberFirst(0x2001, 0x1000);
    NumberFirst(1, 0x1000);
    FlatSign(0x1000, 1);
    FlatSign(1, 0x2001);
    DifferenceSign(0x1000 - 0x2001);
    assert FlatCompare(0x1000, 0x2001) == Box(0x1000 - 0x2001);
    LostByRotation(cmp, 0x1000, 0x2001, 1);
  }

  lemma NumberFirst(p: int, q: int)
    requires !Reference(p) && Reference(q)
    ensures Unbox(FlatCompare(p, q)) == -1
  {
  }
}
