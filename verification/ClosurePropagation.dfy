/** Which variables a nested function captures (class funinfo, src/SM.ml:886-992).  A function's closure list says
    where its parent finds the captured variables; the list for each call is found by passing the callee's list
    down to the caller, adding to the lists on the way, until nothing changes. */
module ClosurePropagation {
  import opened Wrappers
  import opened LamaValues
  import opened StackMachine

  /** The parent of each function; the outermost code has none. */
  type FunTree = map<string, string>

  type Closures = map<string, seq<Designation>>

  ghost predicate Nested(t: FunTree, depth: map<string, nat>) {
    forall g :: g in t ==> g in depth && (t[g] in t ==> t[g] in depth && depth[t[g]] < depth[g])
  }

  /** 0 for the outermost code. */
  ghost function Level(t: FunTree, depth: map<string, nat>, g: string): nat {
    if g in t && g in depth then depth[g] + 1 else 0
  }

  // ---- meaning ----

  /** A variable: the function that owns it, and its place there. */
  datatype Variable = Variable(owner: string, place: Designation)

  /** What loc means in function g: captured variables are looked up through the closure lists. */
  ghost function Denotes(t: FunTree, depth: map<string, nat>, cl: Closures, g: string,
      loc: Designation): Option<Variable>
    requires Nested(t, depth)
    decreases Level(t, depth, g)
  {
    match loc
    case Access(i) => if g in t && g in cl && i < |cl[g]| then Denotes(t, depth, cl, t[g], cl[g][i]) else None
    case _ => Some(Variable(g, loc))
  }

  /** Every captured variable can be found in the parent. */
  ghost predicate Resolved(t: FunTree, depth: map<string, nat>, cl: Closures)
    requires Nested(t, depth)
  {
    forall g, j :: g in t && g in cl && 0 <= j < |cl[g]| ==> Denotes(t, depth, cl, t[g], cl[g][j]).Some?
  }

  /** Variables of functions come from the set places; the others are captured. */
  ghost predicate Drawn(places: set<Designation>, s: seq<Designation>) {
    forall j :: 0 <= j < |s| ==> s[j] in places || s[j].Access?
  }

  ghost predicate Proper(t: FunTree, depth: map<string, nat>, places: set<Designation>, cl: Closures)
  {
    && Nested(t, depth) && Resolved(t, depth, cl)
    && cl.Keys == t.Keys
    && (forall g :: g in cl ==> Distinct(cl[g]) && Drawn(places, cl[g]))
  }

  /** Lists only get longer. */
  ghost predicate Extends(cl: Closures, cl': Closures) {
    cl'.Keys == cl.Keys && forall g :: g in cl ==> cl[g] <= cl'[g]
  }

  /** Longer lists change no meaning. */
  lemma {:induction false} MeaningStays(t: FunTree, depth: map<string, nat>, cl: Closures, cl': Closures, g: string,
      loc: Designation)
    requires Nested(t, depth) && Extends(cl, cl') && Denotes(t, depth, cl, g, loc).Some?
    ensures Denotes(t, depth, cl', g, loc) == Denotes(t, depth, cl, g, loc)
    decreases Level(t, depth, g)
  {
    if loc.Access? {
      MeaningStays(t, depth, cl, cl', t[g], cl[g][loc.index]);
    }
  }

  lemma ExtendsTwice(a: Closures, b: Closures, c: Closures)
    requires Extends(a, b) && Extends(b, c)
    ensures Extends(a, c)
  {
  }

  // ---- the way down ----

  /** find_path: the functions from just below the function above down to g; None if g is not within it. */
  function FindPath(t: FunTree, ghost depth: map<string, nat>, above: string, g: string): Option<seq<string>>
    requires Nested(t, depth)
    decreases Level(t, depth, g)
  {
    if above == g then Some([])
    else if g !in t then None
    else
      var up :- FindPath(t, depth, above, t[g]);
      Some(up + [g])
  }

  ghost predicate Path(t: FunTree, above: string, path: seq<string>, g: string)
    decreases |path|
  {
    if path == [] then above == g else path[0] in t && t[path[0]] == above && Path(t, path[0], path[1..], g)
  }

  lemma {:induction false} PathFound(t: FunTree, depth: map<string, nat>, above: string, g: string)
    requires Nested(t, depth) && FindPath(t, depth, above, g).Some?
    ensures Path(t, above, FindPath(t, depth, above, g).value, g)
    decreases Level(t, depth, g)
  {
    if above != g {
      PathFound(t, depth, above, t[g]);
      PathLonger(t, above, FindPath(t, depth, above, t[g]).value, t[g], g);
    }
  }

  lemma {:induction false} PathLonger(t: FunTree, above: string, path: seq<string>, mid: string, g: string)
    requires Path(t, above, path, mid) && g in t && t[g] == mid
    ensures Path(t, above, path + [g], g)
    decreases |path|
  {
    if path == [] {
      assert (path + [g])[1..] == [];
    } else {
      PathLonger(t, path[0], path[1..], mid, g);
      assert (path + [g])[1..] == path[1..] + [g];
    }
  }

  /** g is above or one of the functions within it. */
  ghost predicate Inside(t: FunTree, depth: map<string, nat>, above: string, g: string)
    requires Nested(t, depth)
    decreases Level(t, depth, g)
  {
    above == g || (g in t && Inside(t, depth, above, t[g]))
  }

  /** A way down is found exactly if there is one. */
  lemma {:induction false} PathFoundIff(t: FunTree, depth: map<string, nat>, above: string, g: string)
    requires Nested(t, depth)
    ensures FindPath(t, depth, above, g).Some? <==> Inside(t, depth, above, g)
    ensures forall path :: Path(t, above, path, g) ==> Inside(t, depth, above, g)
    decreases Level(t, depth, g)
  {
    hide Path;
    if above != g && g in t {
      PathFoundIff(t, depth, above, t[g]);
    }
    forall path | Path(t, above, path, g) ensures Inside(t, depth, above, g) {
      PathInside(t, depth, above, path, g);
    }
  }

  lemma {:induction false} PathInside(t: FunTree, depth: map<string, nat>, above: string, path: seq<string>, g: string)
    requires Nested(t, depth) && Path(t, above, path, g)
    ensures Inside(t, depth, above, g)
    decreases |path|
  {
    if path != [] {
      PathInside(t, depth, path[0], path[1..], g);
      InsideMore(t, depth, above, path[0], g);
    }
  }

  lemma {:induction false} InsideMore(t: FunTree, depth: map<string, nat>, above: string, f: string, g: string)
    requires Nested(t, depth) && f in t && t[f] == above && Inside(t, depth, f, g)
    ensures Inside(t, depth, above, g)
    decreases Level(t, depth, g)
  {
    if f != g {
      InsideMore(t, depth, above, f, t[g]);
    }
  }

  // ---- one function on the way ----

  function IndexOf(s: seq<Designation>, d: Designation): (r: Option<nat>)
    ensures r.Some? ==> r.value < |s| && s[r.value] == d
    ensures r.None? ==> d !in s
  {
    if s == [] then None
    else if s[0] == d then Some(0)
    else
      match IndexOf(s[1..], d)
      case None => None
      case Some(i) => Some(i + 1)
  }

  /** Where s finds each of the locations; as list.map of propagate_downwards, it looks them up in the list as it
      was and adds the others at the end. */
  method Convert(list: seq<Designation>, locs: seq<Designation>)
      returns (longer: seq<Designation>, next: seq<Designation>)
    requires Distinct(list) && Distinct(locs)
    ensures list <= longer && Distinct(longer) && Distinct(next) && |next| == |locs|
    ensures forall j :: 0 <= j < |next| ==>
      next[j].Access? && next[j].index < |longer| && longer[next[j].index] == locs[j]
    ensures forall j :: |list| <= j < |longer| ==> longer[j] in locs
  {
    longer, next := list, [];
    var k := 0;
    while k < |locs|
      invariant 0 <= k <= |locs| && |next| == k && list <= longer
      invariant forall j :: 0 <= j < k ==>
        next[j].Access? && next[j].index < |longer| && longer[next[j].index] == locs[j]
      invariant forall j :: |list| <= j < |longer| ==> longer[j] in locs[..k] && longer[j] !in list
      invariant forall i, j :: |list| <= i < j < |longer| ==> longer[i] != longer[j]
    {
      ghost var before := longer;
      match IndexOf(list, locs[k]) {
        case Some(i) =>
          next := next + [Access(i)];
        case None =>
          next := next + [Access(|longer|)];
          FreshIn(locs, k);
          longer := longer + [locs[k]];
      }
      assert locs[..k + 1] == locs[..k] + [locs[k]];
      k := k + 1;
    }
    assert locs[..k] == locs;
    forall i, j | 0 <= i < j < |longer| ensures longer[i] != longer[j] {
      if j < |list| {
        assert longer[i] == list[i] && longer[j] == list[j];
      } else if i < |list| {
        assert longer[i] == list[i];
      }
    }
  }

  lemma FreshIn(locs: seq<Designation>, k: nat)
    requires Distinct(locs) && k < |locs|
    ensures locs[k] !in locs[..k]
  {
  }

  /** The locations make sense in g. */
  ghost predicate Known(t: FunTree, depth: map<string, nat>, cl: Closures, g: string, locs: seq<Designation>)
    requires Nested(t, depth)
  {
    forall j :: 0 <= j < |locs| ==> Denotes(t, depth, cl, g, locs[j]).Some?
  }

  /** ws in c mean what vs mean in g, variable for variable. */
  ghost predicate Same(t: FunTree, depth: map<string, nat>, cl: Closures, g: string, vs: seq<Designation>, c: string,
      ws: seq<Designation>)
    requires Nested(t, depth)
  {
    |vs| == |ws| && forall j :: 0 <= j < |vs| ==>
      Denotes(t, depth, cl, g, vs[j]).Some? && Denotes(t, depth, cl, c, ws[j]) == Denotes(t, depth, cl, g, vs[j])
  }

  lemma SameStays(t: FunTree, depth: map<string, nat>, cl: Closures, cl': Closures, g: string, vs: seq<Designation>,
      c: string, ws: seq<Designation>)
    requires Nested(t, depth) && Extends(cl, cl') && Same(t, depth, cl, g, vs, c, ws)
    ensures Same(t, depth, cl', g, vs, c, ws)
  {
    forall j | 0 <= j < |vs|
      ensures Denotes(t, depth, cl', g, vs[j]).Some?
      ensures Denotes(t, depth, cl', c, ws[j]) == Denotes(t, depth, cl', g, vs[j])
    {
      MeaningStays(t, depth, cl, cl', g, vs[j]);
      MeaningStays(t, depth, cl, cl', c, ws[j]);
    }
  }

  lemma SameTwice(t: FunTree, depth: map<string, nat>, cl: Closures, a: string, us: seq<Designation>, b: string,
      vs: seq<Designation>, c: string, ws: seq<Designation>)
    requires Nested(t, depth) && Same(t, depth, cl, a, us, b, vs) && Same(t, depth, cl, b, vs, c, ws)
    ensures Same(t, depth, cl, a, us, c, ws)
  {
  }

  /** One function's list made longer. */
  lemma Lengthened(t: FunTree, depth: map<string, nat>, places: set<Designation>, cl: Closures, g: string,
      longer: seq<Designation>, locs: seq<Designation>, next: seq<Designation>)
    requires Proper(t, depth, places, cl) && g in t && g in cl && cl[g] <= longer && Distinct(longer)
    requires Known(t, depth, cl, t[g], locs) && Drawn(places, locs) && |next| == |locs|
    requires forall j :: 0 <= j < |next| ==>
      next[j].Access? && next[j].index < |longer| && longer[next[j].index] == locs[j]
    requires forall j :: |cl[g]| <= j < |longer| ==> longer[j] in locs
    ensures
      var cl' := cl[g := longer];
      Extends(cl, cl') && Proper(t, depth, places, cl') && Same(t, depth, cl', t[g], locs, g, next)
  {
    var cl' := cl[g := longer];
    assert Extends(cl, cl');
    forall h, j | h in t && h in cl' && 0 <= j < |cl'[h]| ensures Denotes(t, depth, cl', t[h], cl'[h][j]).Some? {
      if h == g && j >= |cl[g]| {
        var k :| 0 <= k < |locs| && locs[k] == longer[j];
        MeaningStays(t, depth, cl, cl', t[g], locs[k]);
      } else {
        assert cl'[h][j] == cl[h][j];
        MeaningStays(t, depth, cl, cl', t[h], cl[h][j]);
      }
    }
    forall j | 0 <= j < |longer| ensures longer[j] in places || longer[j].Access? {
      if j >= |cl[g]| {
        var k :| 0 <= k < |locs| && locs[k] == longer[j];
      } else {
        assert longer[j] == cl[g][j];
      }
    }
    forall j | 0 <= j < |locs|
      ensures Denotes(t, depth, cl', t[g], locs[j]).Some?
      ensures Denotes(t, depth, cl', g, next[j]) == Denotes(t, depth, cl', t[g], locs[j])
    {
      MeaningStays(t, depth, cl, cl', t[g], locs[j]);
    }
  }

  // ---- termination ----

  /** The most a list k levels down can hold if n places are captured at all. */
  function Most(n: nat, k: nat): nat {
    if k == 0 then 0 else n + Most(n, k - 1)
  }

  /** n places and the captured variables of a list of length k. */
  lemma {:induction false} FewLocations(s: seq<Designation>, places: set<Designation>, k: nat)
    requires Distinct(s) && forall j :: 0 <= j < |s| ==> s[j] in places || (s[j].Access? && s[j].index < k)
    ensures |s| <= |places| + k
  {
    var captured := set i | 0 <= i < k :: Access(i);
    Captured(k);
    var all := places + captured;
    var used := set j | 0 <= j < |s| :: s[j];
    UsedOnce(s);
    assert used <= all;
    SubsetSize(used, all);
    UnionSize(places, captured);
  }

  lemma UnionSize(a: set<Designation>, b: set<Designation>)
    ensures |a + b| <= |a| + |b|
  {
    assert a + b == a + (b - a) && a !! (b - a);
    SubsetSize(b - a, b);
  }

  lemma {:induction false} SubsetSize(a: set<Designation>, b: set<Designation>)
    requires a <= b
    ensures |a| <= |b|
  {
    if a != {} {
      var x :| x in a;
      SubsetSize(a - {x}, b - {x});
    }
  }

  lemma {:induction false} Captured(k: nat)
    ensures |set i | 0 <= i < k :: Access(i)| == k
  {
    var all := set i | 0 <= i < k :: Access(i);
    if k > 0 {
      Captured(k - 1);
      var fewer := set i | 0 <= i < k - 1 :: Access(i);
      assert all == fewer + {Access(k - 1)} && Access(k - 1) !in fewer;
    } else {
      assert all == {};
    }
  }

  lemma {:induction false} UsedOnce(s: seq<Designation>)
    requires Distinct(s)
    ensures |set j | 0 <= j < |s| :: s[j]| == |s|
  {
    var all := set j | 0 <= j < |s| :: s[j];
    if s == [] {
      assert all == {};
    } else {
      var r := s[..|s| - 1];
      UsedOnce(r);
      var fewer := set j | 0 <= j < |r| :: r[j];
      forall x | x in all ensures x in fewer + {s[|s| - 1]} {
        var j :| 0 <= j < |s| && x == s[j];
        if j < |r| {
          assert r[j] == x;
        }
      }
      assert all == fewer + {s[|s| - 1]} && s[|s| - 1] !in fewer;
    }
  }

  /** No list outgrows its level. */
  lemma {:induction false} Bounded(t: FunTree, depth: map<string, nat>, places: set<Designation>, cl: Closures,
      g: string)
    requires Proper(t, depth, places, cl) && g in t
    ensures |cl[g]| <= Most(|places|, Level(t, depth, g))
    decreases Level(t, depth, g)
  {
    var up := t[g];
    var k := if up in t then |cl[up]| else 0;
    forall j | 0 <= j < |cl[g]| ensures cl[g][j] in places || (cl[g][j].Access? && cl[g][j].index < k) {
      assert Denotes(t, depth, cl, t[g], cl[g][j]).Some?;
    }
    FewLocations(cl[g], places, k);
    if up in t {
      Bounded(t, depth, places, cl, up);
      MostGrows(|places|, Level(t, depth, up), Level(t, depth, g) - 1);
    }
  }

  lemma {:induction false} MostGrows(n: nat, k: nat, l: nat)
    requires k <= l
    ensures Most(n, k) <= Most(n, l)
  {
    if k < l {
      MostGrows(n, k, l - 1);
    }
  }

  /** How much all lists can still grow. */
  ghost function Slack(t: FunTree, depth: map<string, nat>, n: nat, cl: Closures, gs: seq<string>): int {
    if gs == [] then 0
    else Slack(t, depth, n, cl, gs[1..]) + Most(n, Level(t, depth, gs[0])) - (if gs[0] in cl then |cl[gs[0]]| else 0)
  }

  lemma {:induction false} SlackLeft(t: FunTree, depth: map<string, nat>, places: set<Designation>, cl: Closures,
      gs: seq<string>)
    requires Proper(t, depth, places, cl) && forall i :: 0 <= i < |gs| ==> gs[i] in t
    ensures Slack(t, depth, |places|, cl, gs) >= 0
  {
    if gs != [] {
      SlackLeft(t, depth, places, cl, gs[1..]);
      Bounded(t, depth, places, cl, gs[0]);
    }
  }

  lemma {:induction false} SlackShrinks(t: FunTree, depth: map<string, nat>, n: nat, cl: Closures, cl': Closures,
      gs: seq<string>)
    requires Extends(cl, cl')
    ensures Slack(t, depth, n, cl', gs) <= Slack(t, depth, n, cl, gs)
    ensures (exists i :: 0 <= i < |gs| && gs[i] in cl && |cl[gs[i]]| < |cl'[gs[i]]|) ==>
      Slack(t, depth, n, cl', gs) < Slack(t, depth, n, cl, gs)
  {
    if gs != [] {
      SlackShrinks(t, depth, n, cl, cl', gs[1..]);
      if gs[0] in cl {
        assert cl[gs[0]] <= cl'[gs[0]];
      }
      if i :| 0 <= i < |gs| && gs[i] in cl && |cl[gs[i]]| < |cl'[gs[i]]| {
        if i > 0 {
          assert gs[1..][i - 1] == gs[i];
        }
      }
    }
  }

  // ---- the fixpoint ----

  /** The list of a call of f in c, if c is within the function f is defined in, says where c finds what f captures:
      variable for variable what f's own list says where f is defined. */
  ghost predicate Serves(t: FunTree, depth: map<string, nat>, cl: Closures,
      functx: map<(string, string), seq<Designation>>, call: (string, string))
    requires Nested(t, depth)
  {
    var (f, c) := call;
    f in t && FindPath(t, depth, t[f], c).Some? ==>
      f in cl && call in functx && Same(t, depth, cl, t[f], cl[f], c, functx[call])
  }

  class FunInfo {
    const funtree: FunTree
    var closures: Closures
    var functx: map<(string, string), seq<Designation>>
    ghost const depth: map<string, nat>
    ghost const places: set<Designation>

    ghost predicate Valid()
      reads this
    {
      Proper(funtree, depth, places, closures)
    }

    ghost predicate Right(call: (string, string))
      requires Nested(funtree, depth)
      reads this
    {
      Serves(funtree, depth, closures, functx, call)
    }

    constructor (t: FunTree, cl: Closures, calls: seq<(string, string)>, ghost d: map<string, nat>,
        ghost ps: set<Designation>)
      requires Proper(t, d, ps, cl)
      ensures Valid() && funtree == t && closures == cl && depth == d && places == ps
      ensures functx.Keys == set j | 0 <= j < |calls| :: calls[j]
    {
      funtree, closures, depth, places := t, cl, d, ps;
      functx := map j | 0 <= j < |calls| :: calls[j] := [];
    }

    /** propagate_downwards. */
    method Downwards(locs: seq<Designation>, path: seq<string>, ghost above: string, ghost c: string)
        returns (r: seq<Designation>, changed: bool)
      requires Valid() && Path(funtree, above, path, c)
      requires Known(funtree, depth, closures, above, locs) && Distinct(locs) && Drawn(places, locs)
      modifies this`closures
      ensures Valid() && Extends(old(closures), closures) && (changed <==> closures != old(closures))
      ensures Same(funtree, depth, closures, above, locs, c, r)
      decreases |path|
    {
      hide Denotes, Nested, Distinct, Drawn, Resolved;
      MeaningKept(funtree, depth, closures, above, locs);
      if path == [] {
        return locs, false;
      }
      var g := path[0];
      ListKept(funtree, depth, places, closures, g);
      var longer, next := Convert(closures[g], locs);
      ghost var before := closures;
      Lengthened(funtree, depth, places, closures, g, longer, locs, next);
      var added := longer != closures[g];
      assert !added ==> closures[g := longer] == closures;
      if added {
        closures := closures[g := longer];
      }
      ghost var mid := closures;
      NextKnown(funtree, depth, places, closures, above, locs, g, next);
      var more;
      r, more := Downwards(next, path[1..], g, c);
      changed := added || more;
      ExtendsTwice(before, mid, closures);
      ChangedOnce(before, mid, closures, g);
      SameStays(funtree, depth, mid, closures, above, locs, g, next);
      SameTwice(funtree, depth, closures, above, locs, g, next, c, r);
    }

    /** propagate_for_call: whether some list has changed. */
    method ForCall(f: string, c: string) returns (changed: bool)
      requires Valid()
      modifies this`closures, this`functx
      ensures Valid() && Extends(old(closures), closures) && (changed <==> closures != old(closures))
      ensures !changed ==> Right((f, c))
      ensures f !in funtree || FindPath(funtree, depth, funtree[f], c).None? ==> !changed && functx == old(functx)
      ensures forall call :: call in old(functx) && call != (f, c) ==>
        call in functx && functx[call] == old(functx[call])
      ensures functx.Keys <= old(functx.Keys) + {(f, c)} && old(functx.Keys) <= functx.Keys
    {
      hide Proper, Denotes, FindPath;
      IsNested(funtree, depth, places, closures);
      NothingExtended(closures);
      if f !in funtree {
        return false;
      }
      var path := FindPath(funtree, depth, funtree[f], c);
      if path.None? {
        return false;
      }
      PathFound(funtree, depth, funtree[f], c);
      ListKept(funtree, depth, places, closures, f);
      var closure;
      closure, changed := Downwards(closures[f], path.value, funtree[f], c);
      functx := functx[(f, c) := closure];
    }

    /** One fold over the calls: after the first change the others are left for the next round. */
    method Round(calls: seq<(string, string)>) returns (flag: bool)
      requires Valid()
      modifies this`closures, this`functx
      ensures Valid() && Extends(old(closures), closures) && (flag <==> closures != old(closures))
      ensures functx.Keys <= old(functx.Keys) + (set j | 0 <= j < |calls| :: calls[j])
      ensures old(functx.Keys) <= functx.Keys
      ensures !flag ==> forall j :: 0 <= j < |calls| ==> Right(calls[j])
    {
      hide Proper, Denotes, FindPath, Same;
      IsNested(funtree, depth, places, closures);
      NothingExtended(closures);
      flag := false;
      var k := 0;
      while k < |calls|
        invariant 0 <= k <= |calls| && Valid() && Nested(funtree, depth)
        invariant Extends(old(closures), closures) && (flag <==> closures != old(closures))
        invariant functx.Keys <= old(functx.Keys) + (set j | 0 <= j < |calls| :: calls[j])
        invariant old(functx.Keys) <= functx.Keys
        invariant !flag ==> forall j :: 0 <= j < k ==> Right(calls[j])
      {
        if !flag {
          ghost var functx', closures' := functx, closures;
          flag := ForCall(calls[k].0, calls[k].1);
          if !flag {
            forall j | 0 <= j < k ensures Right(calls[j]) {
              ServesStill(funtree, depth, closures, functx', functx, calls[j], calls[k]);
            }
          }
        }
        k := k + 1;
      }
    }

    /** propagate_closures comes to an end, with a right list for every call. */
    method PropagateClosures(calls: seq<(string, string)>, ghost gs: seq<string>)
      requires Valid() && functx.Keys == (set j | 0 <= j < |calls| :: calls[j])
      requires forall g :: g in funtree <==> g in gs
      modifies this`closures, this`functx
      ensures Valid() && Extends(old(closures), closures) && functx.Keys == old(functx.Keys)
      ensures forall call :: call in functx ==> Right(call)
    {
      hide Proper, Denotes, FindPath, Serves, Slack;
      IsNested(funtree, depth, places, closures);
      NothingExtended(closures);
      var flag := true;
      while flag
        invariant Valid() && Extends(old(closures), closures) && functx.Keys == old(functx.Keys)
        invariant !flag ==> forall j :: 0 <= j < |calls| ==> Right(calls[j])
        decreases Slack(funtree, depth, |places|, closures, gs), flag
      {
        ghost var before := closures;
        flag := Round(calls);
        ExtendsTwice(old(closures), before, closures);
        SlackDrops(funtree, depth, places, before, closures, gs);
      }
    }
  }

  lemma IsNested(t: FunTree, depth: map<string, nat>, places: set<Designation>, cl: Closures)
    requires Proper(t, depth, places, cl)
    ensures Nested(t, depth) && cl.Keys == t.Keys
  {
  }

  lemma NothingExtended(cl: Closures)
    ensures Extends(cl, cl)
  {
  }

  /** Recording another call leaves this one's list right. */
  lemma ServesStill(t: FunTree, depth: map<string, nat>, cl: Closures, functx: map<(string, string), seq<Designation>>,
      functx': map<(string, string), seq<Designation>>, call: (string, string), other: (string, string))
    requires Nested(t, depth) && Serves(t, depth, cl, functx, call) && Serves(t, depth, cl, functx', other)
    requires forall d :: d in functx && d != other ==> d in functx' && functx'[d] == functx[d]
    ensures Serves(t, depth, cl, functx', call)
  {
    hide FindPath, Same, Denotes, Nested;
  }

  /** A change uses up slack. */
  lemma SlackDrops(t: FunTree, depth: map<string, nat>, places: set<Designation>, cl: Closures, cl': Closures,
      gs: seq<string>)
    requires Proper(t, depth, places, cl) && Proper(t, depth, places, cl') && Extends(cl, cl')
    requires forall g :: g in t <==> g in gs
    ensures Slack(t, depth, |places|, cl', gs) >= 0
    ensures Slack(t, depth, |places|, cl', gs) <= Slack(t, depth, |places|, cl, gs)
    ensures cl' != cl ==> Slack(t, depth, |places|, cl', gs) < Slack(t, depth, |places|, cl, gs)
  {
    hide Slack, Denotes, Nested, Distinct, Drawn, Resolved;
    SlackLeft(t, depth, places, cl', gs);
    SlackShrinks(t, depth, |places|, cl, cl', gs);
    if cl' != cl {
      var g :| g in cl && cl'[g] != cl[g];
      assert cl[g] <= cl'[g];
      assert g in gs;
      var i :| 0 <= i < |gs| && gs[i] == g;
    }
  }

  lemma MeaningKept(t: FunTree, depth: map<string, nat>, cl: Closures, g: string, locs: seq<Designation>)
    requires Nested(t, depth) && Known(t, depth, cl, g, locs)
    ensures Extends(cl, cl) && Same(t, depth, cl, g, locs, g, locs)
  {
  }

  lemma ListKept(t: FunTree, depth: map<string, nat>, places: set<Designation>, cl: Closures, g: string)
    requires Proper(t, depth, places, cl) && g in t
    ensures Nested(t, depth) && g in cl && Distinct(cl[g]) && Drawn(places, cl[g]) && Known(t, depth, cl, t[g], cl[g])
  {
  }

  lemma NextKnown(t: FunTree, depth: map<string, nat>, places: set<Designation>, cl: Closures, above: string,
      locs: seq<Designation>, g: string, next: seq<Designation>)
    requires Nested(t, depth) && Same(t, depth, cl, above, locs, g, next)
    requires forall j :: 0 <= j < |next| ==> next[j].Access?
    ensures Known(t, depth, cl, g, next) && Drawn(places, next)
  {
  }

  lemma ChangedOnce(a: Closures, b: Closures, c: Closures, g: string)
    requires Extends(a, b) && Extends(b, c)
    ensures a == c ==> a == b
  {
    if a == c {
      forall g | g in a ensures a[g] == b[g] {
        assert a[g] <= b[g] <= c[g];
      }
      assert a == b;
    }
  }

  // ---- running it ----

  /** Captured variables are variables of some function. */
  lemma {:induction false} DenotedPlace(t: FunTree, depth: map<string, nat>, places: set<Designation>, cl: Closures,
      g: string, loc: Designation)
    requires Proper(t, depth, places, cl) && (loc in places || loc.Access?) && Denotes(t, depth, cl, g, loc).Some?
    requires forall d :: d in places ==> d.Local? || d.Arg?
    ensures Denotes(t, depth, cl, g, loc).value.place in places
    decreases Level(t, depth, g)
  {
    if loc.Access? {
      assert Drawn(places, cl[g]);
      DenotedPlace(t, depth, places, cl, t[g], cl[g][loc.index]);
    }
  }

  /** The values of variables; the machine's frame is one of g if it holds them where they are to be found in g. */
  type Valuation = map<Variable, Value>

  ghost predicate FrameOf(m: Machine, t: FunTree, depth: map<string, nat>, cl: Closures, g: string, val: Valuation)
    requires Nested(t, depth)
  {
    forall loc ::
      var v := Denotes(t, depth, cl, g, loc);
      v.Some? && v.value in val ==> Load(m, loc) == Some(val[v.value])
  }

  /** The values of what f captures. */
  ghost predicate Values(t: FunTree, depth: map<string, nat>, cl: Closures, f: string, val: Valuation, vs: seq<Value>)
    requires Nested(t, depth)
  {
    f in t && f in cl && |vs| == |cl[f]| && forall j :: 0 <= j < |vs| ==>
      var v := Denotes(t, depth, cl, t[f], cl[f][j]);
      v.Some? && v.value in val && vs[j] == val[v.value]
  }

  lemma {:induction false} CapturesAll(m: Machine, ds: seq<Designation>)
    requires forall j :: 0 <= j < |ds| ==> !ds[j].Global? && !ds[j].Fun? && Load(m, ds[j]).Some?
    ensures Capture(m, ds).Some? && |Capture(m, ds).value| == |ds|
    ensures forall j :: 0 <= j < |ds| ==> Capture(m, ds).value[j] == Load(m, ds[j]).value
    decreases |ds|
  {
    hide Load;
    if ds != [] {
      CapturesAll(m, ds[1..]);
      forall j | 0 <= j < |ds| ensures Capture(m, ds).value[j] == Load(m, ds[j]).value {
        if j > 0 {
          assert ds[1..][j - 1] == ds[j];
        }
      }
    }
  }

  /** A closure made in c with the list of the call captures the values of the variables the callee captures. */
  lemma CallCaptures(m: Machine, t: FunTree, depth: map<string, nat>, places: set<Designation>, cl: Closures,
      functx: map<(string, string), seq<Designation>>, f: string, c: string, val: Valuation)
    requires Proper(t, depth, places, cl) && (forall d :: d in places ==> d.Local? || d.Arg?)
    requires f in t && FindPath(t, depth, t[f], c).Some? && Serves(t, depth, cl, functx, (f, c))
    requires FrameOf(m, t, depth, cl, c, val)
    requires forall j :: 0 <= j < |cl[f]| ==>
      Denotes(t, depth, cl, t[f], cl[f][j]).Some? && Denotes(t, depth, cl, t[f], cl[f][j]).value in val
    ensures Capture(m, functx[(f, c)]).Some? && Values(t, depth, cl, f, val, Capture(m, functx[(f, c)]).value)
  {
    hide Capture, Load, FindPath, Denotes, Nested, Resolved;
    var ws := functx[(f, c)];
    forall j | 0 <= j < |ws| ensures !ws[j].Global? && !ws[j].Fun?
      && Load(m, ws[j]) == Some(val[Denotes(t, depth, cl, t[f], cl[f][j]).value]) {
      assert Drawn(places, cl[f]);
      DenotedPlace(t, depth, places, cl, t[f], cl[f][j]);
      OwnPlace(t, depth, cl, c, ws[j]);
    }
    CapturesAll(m, ws);
  }

  lemma OwnPlace(t: FunTree, depth: map<string, nat>, cl: Closures, g: string, loc: Designation)
    requires Nested(t, depth)
    ensures loc.Global? || loc.Fun? ==> Denotes(t, depth, cl, g, loc) == Some(Variable(g, loc))
  {
  }

  /** In the callee each captured cell is found where the callee looks for it, with the variable's value. */
  lemma CalleeFinds(m: Machine, t: FunTree, depth: map<string, nat>, cl: Closures, f: string, val: Valuation, a: nat,
      i: nat)
    requires Nested(t, depth) && m.frame.closure == Some(a) && a < |m.world.store| && m.world.store[a].ClosureObject?
    requires Values(t, depth, cl, f, val, m.world.store[a].cells) && i < |cl[f]|
    ensures
      var v := Denotes(t, depth, cl, f, Access(i));
      v.Some? && v.value in val && Load(m, Access(i)) == Some(val[v.value])
  {
  }
}
