/** What the sign of a difference found between two nodes means: at the end of some path that leads through objects of
    one shape, the one is less (stdlib/Data.lama:97-134). */
module GraphDirection {
  import opened Wrappers
  import opened Bisimulation
  import StructuralOrder

  /** Strings come before arrays, these before s-expressions, these before closures, and all before numbers. */
  predicate KindBefore(g: Graph, a: Node, b: Node)
    requires In(g, a) && In(g, b)
  {
    a.Ref? && (b.Ref? ==>
      match g[a.address]
      case Chars(_) => !g[b.address].Chars?
      case Items(_) => g[b.address].Tagged? || g[b.address].Closure?
      case Tagged(_, _) => g[b.address].Closure?
      case Closure(_, _) => false)
  }

  /** The node a is less than b by itself: by kind; numbers by size; strings by the first bytes that differ; objects by
      tag or entry and then by the number of fields. */
  ghost predicate LessHere(g: Graph, a: Node, b: Node)
    requires In(g, a) && In(g, b)
  {
    KindBefore(g, a, b) || (!KindBefore(g, b, a) &&
      if a.Num? then b.Num? && a.n < b.n
      else b.Ref? && LessObject(g[a.address], g[b.address]))
  }

  ghost predicate LessObject(o: Object, o': Object) {
    match o
    case Chars(s) => o'.Chars? && StructuralOrder.TextBelow(s, o'.bytes)
    case Items(xs) => o'.Items? && |xs| < |o'.elems|
    case Tagged(t, xs) => o'.Tagged? && (t < o'.tag || (t == o'.tag && |xs| < |o'.elems|))
    case Closure(e, xs) => o'.Closure? && (e < o'.entry || (e == o'.entry && |xs| < |o'.captured|))
  }

  /** Behind the path through x and y, whose objects are even, the node on the side of x is less. */
  ghost predicate ShowsAt(g: Graph, x: Node, y: Node, path: seq<nat>)
    decreases |path|
  {
    && In(g, x) && In(g, y)
    && if path == [] then LessHere(g, x, y)
       else
         && x.Ref? && y.Ref? && !LessHere(g, x, y) && !LessHere(g, y, x)
         && path[0] < |Fields(g[x.address])| && path[0] < |Fields(g[y.address])|
         && ShowsAt(g, Fields(g[x.address])[path[0]], Fields(g[y.address])[path[0]], path[1..])
  }

  ghost predicate Shows(g: Graph, x: Node, y: Node) { exists path :: ShowsAt(g, x, y, path) }

  /** A negative difference shows that x is less somewhere, a positive one that y is. */
  ghost predicate Turns(g: Graph, x: Node, y: Node, diff: int) {
    (diff < 0 ==> Shows(g, x, y)) && (diff > 0 ==> Shows(g, y, x))
  }

  /** The fields of a show it from the given one on, or there are fewer of them. */
  ghost predicate FieldsShow(g: Graph, a: nat, b: nat, from: nat)
    requires a < |g| && b < |g|
  {
    var xs, ys := Fields(g[a]), Fields(g[b]);
    |xs| < |ys| || (|xs| == |ys| && exists i :: from <= i < |xs| && Shows(g, xs[i], ys[i]))
  }

  ghost predicate FieldsTurn(g: Graph, a: nat, b: nat, from: nat, diff: int)
    requires a < |g| && b < |g|
  {
    (diff < 0 ==> FieldsShow(g, a, b, from)) && (diff > 0 ==> FieldsShow(g, b, a, from))
  }

  lemma ShownHere(g: Graph, x: Node, y: Node)
    requires In(g, x) && In(g, y) && LessHere(g, x, y)
    ensures Shows(g, x, y)
  {
    hide LessHere;
    assert ShowsAt(g, x, y, []);
  }

  /** Numbers and strings. */
  lemma LeavesTurn(g: Graph, x: Node, y: Node, diff: int)
    requires In(g, x) && In(g, y)
    requires
      || (x.Num? && y.Num? && diff == x.n - y.n)
      || (x.Ref? && y.Ref? && g[x.address].Chars? && g[y.address].Chars?
          && diff == StructuralOrder.StringOrder(StructuralOrder.Cut(g[x.address].bytes),
            StructuralOrder.Cut(g[y.address].bytes)))
    ensures Turns(g, x, y, diff)
  {
    hide Shows, StructuralOrder.StringOrder, StructuralOrder.Cut, StructuralOrder.TextBelow;
    if x.Ref? {
      var s, t := g[x.address].bytes, g[y.address].bytes;
      StructuralOrder.StringDirection(s, t);
      StructuralOrder.StringDirection(t, s);
      StructuralOrder.StringFlips(StructuralOrder.Cut(s), StructuralOrder.Cut(t));
    }
    if diff < 0 {
      ShownHere(g, x, y);
    }
    if diff > 0 {
      ShownHere(g, y, x);
    }
  }

  /** Tags and entries. */
  lemma MarksTurn(g: Graph, x: Node, y: Node, diff: int)
    requires In(g, x) && In(g, y) && x.Ref? && y.Ref?
    requires
      || (g[x.address].Closure? && g[y.address].Closure? && diff == g[x.address].entry - g[y.address].entry)
      || (g[x.address].Tagged? && g[y.address].Tagged? && diff == g[x.address].tag - g[y.address].tag)
    ensures Turns(g, x, y, diff)
  {
    hide Shows;
    if diff < 0 {
      ShownHere(g, x, y);
    }
    if diff > 0 {
      ShownHere(g, y, x);
    }
  }

  /** Objects of one kind, tag and entry. */
  predicate SameHead(o: Object, o': Object) {
    match o
    case Chars(_) => false
    case Items(_) => o'.Items?
    case Tagged(t, _) => o'.Tagged? && o'.tag == t
    case Closure(e, _) => o'.Closure? && o'.entry == e
  }

  lemma HeadsEven(g: Graph, x: Node, y: Node)
    requires In(g, x) && In(g, y) && x.Ref? && y.Ref? && SameHead(g[x.address], g[y.address])
    ensures LessHere(g, x, y) <==> |Fields(g[x.address])| < |Fields(g[y.address])|
  {
  }

  lemma FieldsShown(g: Graph, x: Node, y: Node, from: nat)
    requires In(g, x) && In(g, y) && x.Ref? && y.Ref? && SameHead(g[x.address], g[y.address])
    requires FieldsShow(g, x.address, y.address, from)
    ensures Shows(g, x, y)
  {
    hide LessHere, Fields, Shows;
    HeadsEven(g, x, y);
    HeadsEven(g, y, x);
    if LessHere(g, x, y) {
      ShownHere(g, x, y);
    } else {
      var xs, ys := Fields(g[x.address]), Fields(g[y.address]);
      var i :| from <= i < |xs| && Shows(g, xs[i], ys[i]);
      OneFurther(g, x, y, i);
    }
  }

  lemma OneFurther(g: Graph, x: Node, y: Node, i: nat)
    requires In(g, x) && In(g, y) && x.Ref? && y.Ref? && !LessHere(g, x, y) && !LessHere(g, y, x)
    requires i < |Fields(g[x.address])| && i < |Fields(g[y.address])|
    requires Shows(g, Fields(g[x.address])[i], Fields(g[y.address])[i])
    ensures Shows(g, x, y)
  {
    hide LessHere, Fields;
    var path: seq<nat> :| ShowsAt(g, Fields(g[x.address])[i], Fields(g[y.address])[i], path);
    assert ([i] + path)[1..] == path;
    assert ShowsAt(g, x, y, [i] + path);
  }

  lemma ObjectsTurn(g: Graph, x: Node, y: Node, from: nat, diff: int)
    requires In(g, x) && In(g, y) && x.Ref? && y.Ref? && SameHead(g[x.address], g[y.address])
    requires FieldsTurn(g, x.address, y.address, from, diff)
    ensures Turns(g, x, y, diff)
  {
    hide Shows, FieldsShow;
    HeadBack(g[x.address], g[y.address]);
    if diff < 0 {
      FieldsShown(g, x, y, from);
    }
    if diff > 0 {
      FieldsShown(g, y, x, from);
    }
  }

  lemma HeadBack(o: Object, o': Object)
    ensures SameHead(o, o') ==> SameHead(o', o)
  {
  }

  lemma LengthsTurn(g: Graph, a: nat, b: nat, from: nat)
    requires a < |g| && b < |g|
    ensures FieldsTurn(g, a, b, from, |Fields(g[a])| - |Fields(g[b])|)
  {
    hide Shows, Fields;
  }

  lemma FieldTurns(g: Graph, a: nat, b: nat, from: nat, i: nat, diff: int)
    requires a < |g| && b < |g| && |Fields(g[a])| == |Fields(g[b])| && from <= i < |Fields(g[a])|
    requires Turns(g, Fields(g[a])[i], Fields(g[b])[i], diff)
    ensures FieldsTurn(g, a, b, from, diff)
  {
    hide Shows, Fields;
  }
}
