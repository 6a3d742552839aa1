/** Scopes and bindings: names added to a scope get distinct places, and the code binding a pattern's names
    stores what the source matcher binds (src/SM.ml:1333-1376). */
module ScopeCompilation {
  import opened Wrappers
  import opened LamaValues
  import opened LamaSource
  import opened StackMachine
  import opened Compiler
  import opened CodeShape
  import opened Correspondence
  import opened Execution
  import opened PatternCompilation

  // ---- places ----

  /** The i-th of the names has its place; the first name's is the last. */
  predicate PlacedAt(xs: seq<string>, i: nat, places: map<string, Designation>, base: nat)
    requires i < |xs|
  {
    xs[i] in places && places[xs[i]] == Local(base + |xs| - 1 - i)
  }

  lemma TaggedStep(xs: seq<string>, kind: Kind)
    requires xs != []
    ensures Tagged(xs, kind) == [(xs[0], kind)] + Tagged(xs[1..], kind)
  {
  }

  lemma InTagged(x: string, xs: seq<string>, kind: Kind)
    ensures InScope(x, Tagged(xs, kind)) <==> x in xs
  {
    if x in xs {
      var i :| 0 <= i < |xs| && xs[i] == x;
      assert Tagged(xs, kind)[i].0 == x;
    }
  }

  /** The names added to an empty local scope without an error are distinct and so are their places. */
  lemma {:induction false} AddNamesPlaces(env: Env, xs: seq<string>)
    requires env.scope.L? && env.scope.names == [] && AddNames(env, xs).ok
    ensures
      var env' := AddNames(env, xs);
      && env'.scope.L? && env'.scope.names == Tagged(xs, Mut) && env'.scope.up == env.scope.up
      && env'.localIndex == env.localIndex + |xs| && (xs == [] || env'.localIndex <= env'.nlocals)
      && Distinct(xs)
      && (forall i :: 0 <= i < |xs| ==> PlacedAt(xs, i, env'.scope.values, env.localIndex))
      && env.ok
  {
    if xs == [] {
      assert Tagged(xs, Mut) == [];
    } else {
      AddNamesPlaces(env, xs[1..]);
      TaggedStep(xs, Mut);
      InTagged(xs[0], xs[1..], Mut);
      var env1 := AddNames(env, xs[1..]);
      forall i | 0 <= i < |xs| ensures PlacedAt(xs, i, AddNames(env, xs).scope.values, env.localIndex) {
        if i > 0 {
          assert PlacedAt(xs[1..], i - 1, env1.scope.values, env.localIndex);
          assert xs[i] == xs[1..][i - 1];
        }
      }
      forall i, j | 0 <= i < j < |xs| ensures xs[i] != xs[j] {
        assert xs[j] == xs[1..][j - 1];
        if i > 0 {
          assert xs[i] == xs[1..][i - 1];
        }
      }
    }
  }

  /** The same at the outermost level, where names are global. */
  lemma {:induction false} AddGlobals(env: Env, xs: seq<string>)
    requires env.scope == G([], BuiltinPlaces()) && AddNames(env, xs).ok
    requires forall i :: 0 <= i < |xs| ==> Ordinary(xs[i])
    ensures
      var env' := AddNames(env, xs);
      && env'.scope.G? && env'.scope.names == Tagged(xs, Mut) && env'.localIndex == env.localIndex
      && (forall x :: PlacedGlobally(x, env'.scope.names, env'.scope.values))
  {
    if xs == [] {
      assert Tagged(xs, Mut) == [];
    } else {
      AddGlobals(env, xs[1..]);
      TaggedStep(xs, Mut);
      var env1, env' := AddNames(env, xs[1..]), AddNames(env, xs);
      forall x ensures PlacedGlobally(x, env'.scope.names, env'.scope.values) {
        assert PlacedGlobally(x, env1.scope.names, env1.scope.values);
        assert env'.scope.names[0].0 == xs[0];
        if InScope(x, env1.scope.names) {
          var i := InScopeAt(x, env1.scope.names);
          assert env'.scope.names[i + 1].0 == x;
        }
      }
    }
  }

  /** A scope on top: the machine's locals from base on hold what the new scope's values say. */
  lemma ScopeOpens(f: Injection, s: State<Value>, env: Env, xs: seq<string>, kind: Kind, values: map<string, Value>,
      globals: map<string, Value>, locals: seq<Value>)
    requires Scopes(f, s, env.scope, env.localIndex, globals, locals)
    requires AddNames(OpenScope(env), xs).ok && AddNames(OpenScope(env), xs).nlocals <= |locals|
    requires forall i :: 0 <= i < |xs| ==> Ordinary(xs[i])
    requires forall i :: 0 <= i < |xs| ==> Initial(f, xs[i], values, env.localIndex + |xs| - 1 - i, locals)
    ensures
      var env' := AddNames(OpenScope(env), xs);
      Scopes(f, PushScope(s, values, Tagged(xs, kind)), env'.scope, env'.localIndex, globals, locals)
  {
    hide TopScope, Alike, AddNames, Initial, PlacedAt, LocalScope;
    AddNamesPlaces(OpenScope(env), xs);
    var env' := AddNames(OpenScope(env), xs);
    var s' := PushScope(s, values, Tagged(xs, kind));
    NotInitial(f, s, env.scope, env.localIndex, globals, locals);
    NewLocalScope(f, xs, kind, values, s, env'.scope, env.localIndex, locals);
  }

  lemma NotInitial(f: Injection, s: State<Value>, d: Places, index: nat, globals: map<string, Value>,
      locals: seq<Value>)
    requires Scopes(f, s, d, index, globals, locals)
    ensures !s.I? && !d.I? && index <= |locals|
  {
  }

  /** The local holds the name's value if it starts with one. */
  ghost predicate Initial(f: Injection, x: string, values: map<string, Value>, j: int, locals: seq<Value>) {
    x in values ==> 0 <= j < |locals| && Alike(f, values[x], locals[j])
  }

  lemma NewLocalScope(f: Injection, xs: seq<string>, kind: Kind, values: map<string, Value>, up: State<Value>,
      d: Places, base: nat, locals: seq<Value>)
    requires d.L? && d.names == Tagged(xs, Mut) && base + |xs| <= |locals|
    requires forall i :: 0 <= i < |xs| ==> Ordinary(xs[i])
    requires forall i :: 0 <= i < |xs| ==> PlacedAt(xs, i, d.values, base)
    requires forall i :: 0 <= i < |xs| ==> Initial(f, xs[i], values, base + |xs| - 1 - i, locals)
    ensures LocalScope(f, L(Tagged(xs, kind), values, up), d, base + |xs|, locals)
  {
    hide Alike;
    var s := L(Tagged(xs, kind), values, up);
    forall i | 0 <= i < |xs| ensures s.names[i].0 == d.names[i].0
      && Slot(f, s.names[i].0, values, d.values, base + |xs| - 1 - i, locals) {
      assert PlacedAt(xs, i, d.values, base);
      assert Initial(f, xs[i], values, base + |xs| - 1 - i, locals);
    }
  }

  /** The outermost scope on no state at all. */
  lemma TopOpens(f: Injection, env: Env, xs: seq<string>, globals: map<string, Value>, locals: seq<Value>)
    requires env.scope == I && env.localIndex <= |locals| && AddNames(OpenScope(env), xs).ok
    requires forall i :: 0 <= i < |xs| ==> Ordinary(xs[i])
    ensures
      var env' := AddNames(OpenScope(env), xs);
      Scopes(f, PushScope(I, map[], Tagged(xs, Mut)), env'.scope, env'.localIndex, globals, locals)
  {
    AddGlobals(OpenScope(env), xs);
    var env' := AddNames(OpenScope(env), xs);
    var s := PushScope(I, map[], Tagged(xs, Mut));
    forall x | Ordinary(x) ensures GlobalSlot(f, x, s.values, globals) {
    }
    assert TopScope(f, s, env'.scope, globals);
  }

  // ---- what a pattern binds ----

  type Path = seq<nat>

  function AtPath(store: Store, v: Value, path: Path): Option<Value>
    decreases |path|
  {
    if path == [] then Some(v)
    else
      var u :- Element(store, v, Int(path[0]));
      AtPath(store, u, path[1..])
  }

  lemma {:induction false} AtPathStep(store: Store, v: Value, path: Path, i: nat)
    ensures AtPath(store, v, path + [i]) ==
      match AtPath(store, v, path) case None => None case Some(u) => Element(store, u, Int(i))
    decreases |path|
  {
    if path == [] {
      assert [i][1..] == [];
      assert path + [i] == [i];
      match Element(store, v, Int(i))
      case None =>
      case Some(u) => assert AtPath(store, u, []) == Some(u);
    } else {
      assert (path + [i])[1..] == path[1..] + [i];
      match Element(store, v, Int(path[0]))
      case None =>
      case Some(u) => AtPathStep(store, u, path[1..], i);
    }
  }

  function Names(bs: seq<(string, Path)>): seq<string> {
    seq(|bs|, i requires 0 <= i < |bs| => bs[i].0)
  }

  lemma {:induction false} PathsName(p: Pattern, path: Path)
    ensures Names(Paths(p, path)) == Vars(p)
    decreases p
  {
    match p
    case NamedPattern(x, inner) => PathsName(inner, path);
    case SexpPattern(_, items) => PathsNameAll(items, path, 0);
    case ArrayPattern(items) => PathsNameAll(items, path, 0);
    case _ =>
  }

  lemma {:induction false} PathsNameAll(ps: seq<Pattern>, path: Path, i: nat)
    ensures Names(PathsOfAll(ps, path, i)) == VarsOfAll(ps)
    decreases ps
  {
    if ps != [] {
      PathsName(ps[0], path + [i]);
      PathsNameAll(ps[1..], path, i + 1);
      NamesAppend(Paths(ps[0], path + [i]), PathsOfAll(ps[1..], path, i + 1));
    }
  }

  lemma NamesAppend(a: seq<(string, Path)>, b: seq<(string, Path)>)
    ensures Names(a + b) == Names(a) + Names(b)
  {
  }

  /** The name is bound to what lies at its path. */
  ghost predicate BindsAt(bs: seq<(string, Path)>, i: nat, b: Bindings, store: Store, root: Value)
    requires i < |bs|
  {
    bs[i].0 in b && AtPath(store, root, bs[i].1) == Some(b[bs[i].0])
  }

  ghost predicate Binds(bs: seq<(string, Path)>, b: Bindings, store: Store, root: Value) {
    forall i :: 0 <= i < |bs| ==> BindsAt(bs, i, b, store, root)
  }

  /** Only the names xs may have changed. */
  ghost predicate KeepsOthers(acc: Bindings, b: Bindings, xs: seq<string>) {
    forall x :: x !in xs ==> (x in b <==> x in acc) && (x in b ==> b[x] == acc[x])
  }

  lemma SharedName(xs: seq<string>, ys: seq<string>, x: string)
    requires x in xs && x in ys
    ensures !Distinct(xs + ys)
  {
    var i :| 0 <= i < |xs| && xs[i] == x;
    var j :| 0 <= j < |ys| && ys[j] == x;
    assert (xs + ys)[i] == (xs + ys)[|xs| + j];
  }

  lemma BindsCons(x: string, path: Path, bs: seq<(string, Path)>, b: Bindings, store: Store, root: Value, v: Value)
    requires Distinct([x] + Names(bs)) && Binds(bs, b, store, root) && AtPath(store, root, path) == Some(v)
    ensures Binds([(x, path)] + bs, b[x := v], store, root)
  {
    hide AtPath;
    var all, b' := [(x, path)] + bs, b[x := v];
    forall i | 0 <= i < |all| ensures BindsAt(all, i, b', store, root) {
      if i > 0 {
        assert BindsAt(bs, i - 1, b, store, root);
        var xs := [x] + Names(bs);
        assert xs[i] == bs[i - 1].0 && xs[0] == x;
      }
    }
  }

  lemma BindsAppend(a: seq<(string, Path)>, c: seq<(string, Path)>, b1: Bindings, b: Bindings, store: Store,
      root: Value)
    requires Distinct(Names(a) + Names(c)) && Binds(a, b1, store, root) && Binds(c, b, store, root)
    requires KeepsOthers(b1, b, Names(c))
    ensures Binds(a + c, b, store, root)
  {
    hide AtPath;
    forall i | 0 <= i < |a + c| ensures BindsAt(a + c, i, b, store, root) {
      if i < |a| {
        assert BindsAt(a, i, b1, store, root);
        assert Names(a)[i] == a[i].0;
        if a[i].0 in Names(c) {
          SharedName(Names(a), Names(c), a[i].0);
        }
      } else {
        assert BindsAt(c, i - |a|, b, store, root);
      }
    }
  }

  lemma KeepsCompose(a: Bindings, b: Bindings, c: Bindings, xs: seq<string>, ys: seq<string>)
    requires KeepsOthers(a, b, xs) && KeepsOthers(b, c, ys)
    ensures KeepsOthers(a, c, xs + ys)
  {
    forall x | x !in xs + ys ensures (x in c <==> x in a) && (x in c ==> c[x] == a[x]) {
      assert x !in xs && x !in ys;
    }
  }

  lemma DistinctSplit(xs: seq<string>, ys: seq<string>)
    requires Distinct(xs + ys)
    ensures Distinct(xs) && Distinct(ys)
  {
    var zs := xs + ys;
    forall i, j | 0 <= i < j < |xs| ensures xs[i] != xs[j] {
      assert zs[i] == xs[i] && zs[j] == xs[j];
    }
    forall i, j | 0 <= i < j < |ys| ensures ys[i] != ys[j] {
      assert zs[|xs| + i] == ys[i] && zs[|xs| + j] == ys[j];
    }
  }

  /** A successful match binds each name to the value at the name's path. */
  lemma {:induction false} MatchBinds(p: Pattern, v: Value, store: Store, acc: Bindings, root: Value, path: Path)
    requires Matches(p, v, store, acc) && Distinct(Vars(p)) && AtPath(store, root, path) == Some(v)
    ensures Binds(Paths(p, path), MatchPatt(p, v, store, Some(acc)).value, store, root)
    ensures KeepsOthers(acc, MatchPatt(p, v, store, Some(acc)).value, Vars(p))
    decreases p
  {
    hide AtPath, Binds, KeepsOthers, Distinct, Deref;
    match p
    case NamedPattern(x, inner) =>
      DistinctSplit([x], Vars(inner));
      MatchBinds(inner, v, store, acc, root, path);
      PathsName(inner, path);
      var b := MatchPatt(inner, v, store, Some(acc)).value;
      BindsCons(x, path, Paths(inner, path), b, store, root, v);
      KeepsCons(acc, b, x, v, Vars(inner));
    case SexpPattern(_, items) =>
      var elems := Deref(store, v).value.elems;
      assert elems[0..] == elems;
      ItemsBind(items, 0, v, store, acc, root, path);
    case ArrayPattern(items) =>
      var elems := Deref(store, v).value.elems;
      assert elems[0..] == elems;
      ItemsBind(items, 0, v, store, acc, root, path);
    case _ => BindsNothing(acc, store, root);
  }

  lemma KeepsCons(acc: Bindings, b: Bindings, x: string, v: Value, xs: seq<string>)
    requires KeepsOthers(acc, b, xs)
    ensures KeepsOthers(acc, b[x := v], [x] + xs)
  {
    forall y | y !in [x] + xs ensures (y in b[x := v] <==> y in acc) && (y in b[x := v] ==> b[x := v][y] == acc[y]) {
      assert y !in xs && y !in [x];
    }
  }

  lemma {:induction false} ItemsBind(ps: seq<Pattern>, i: nat, u: Value, store: Store, acc: Bindings, root: Value,
      path: Path)
    requires Deref(store, u).Some? && |Items(Deref(store, u).value)| == i + |ps|
    requires MatchList(ps, Items(Deref(store, u).value)[i..], store, Some(acc)).Some?
    requires Distinct(VarsOfAll(ps)) && AtPath(store, root, path) == Some(u)
    ensures
      var b := MatchList(ps, Items(Deref(store, u).value)[i..], store, Some(acc)).value;
      Binds(PathsOfAll(ps, path, i), b, store, root) && KeepsOthers(acc, b, VarsOfAll(ps))
    decreases ps
  {
    hide AtPath, Binds, KeepsOthers, Deref, Items;
    var vs := Items(Deref(store, u).value);
    if ps == [] {
      BindsNothing(acc, store, root);
    } else {
      assert vs[i..][0] == vs[i] && vs[i..][1..] == vs[i + 1..];
      var r := MatchPatt(ps[0], vs[i], store, Some(acc));
      if r == None {
        MatchListNone(ps[1..], vs[i + 1..], store);
      }
      DistinctSplit(Vars(ps[0]), VarsOfAll(ps[1..]));
      AtPathStep(store, root, path, i);
      ItemAt(store, u, i);
      MatchBinds(ps[0], vs[i], store, acc, root, path + [i]);
      ItemsBind(ps[1..], i + 1, u, store, r.value, root, path);
      var b := MatchList(ps[1..], vs[i + 1..], store, r).value;
      PathsName(ps[0], path + [i]);
      PathsNameAll(ps[1..], path, i + 1);
      BindsAppend(Paths(ps[0], path + [i]), PathsOfAll(ps[1..], path, i + 1), r.value, b, store, root);
      KeepsCompose(acc, r.value, b, Vars(ps[0]), VarsOfAll(ps[1..]));
    }
  }

  lemma BindsNothing(acc: Bindings, store: Store, root: Value)
    ensures Binds([], acc, store, root) && KeepsOthers(acc, acc, [])
  {
  }

  lemma ItemAt(store: Store, u: Value, i: nat)
    requires Deref(store, u).Some? && i < |Items(Deref(store, u).value)|
    ensures Element(store, u, Int(i)) == Some(Items(Deref(store, u).value)[i])
  {
  }

  // ---- running the binding code ----

  lemma {:induction false} FollowCorrect(P: Prog, k: nat, path: Path, f: Injection, store: Store, v: Value, w: Value,
      rest: List<Value>, m: Machine)
    returns (w': Value, m': Machine)
    requires CodeAt(P, k, FollowCode(path)) && m.pc == k && m.stack == Cons(w, rest)
    requires Image(f, store, m.world.store) && Alike(f, v, w) && AtPath(store, v, path).Some?
    ensures Alike(f, AtPath(store, v, path).value, w')
    ensures Reaches(P, m, m') && m' == m.(pc := k + |FollowCode(path)|, stack := Cons(w', rest))
    decreases |path|
  {
    hide Reaches, Image, Element, CodeAt, Alike;
    if path == [] {
      w', m' := w, m;
      ReachesNow(P, m);
    } else {
      var head: Prog := [CONST(path[0]), ELEM];
      CodeSplit(P, k, head, FollowCode(path[1..]));
      InsnAt(P, k, head, 0);
      InsnAt(P, k, head, 1);
      IntAlike(f, path[0]);
      ElementAlike(f, store, m.world.store, v, w, Int(path[0]), Int(path[0]));
      RunConst(P, m, path[0]);
      var m1 := m.(pc := k + 1, stack := Cons(Int(path[0]), m.stack));
      RunElem(P, m1, w, Int(path[0]), rest);
      var w1 := Element(m.world.store, w, Int(path[0])).value;
      var m2 := m1.(pc := k + 2, stack := Cons(w1, rest));
      w', m' := FollowCorrect(P, k + 2, path[1..], f, store, Element(store, v, Int(path[0])).value, w1, rest, m2);
      ReachesThen(P, m, m1, m2);
      ReachesThen(P, m, m2, m');
    }
  }

  lemma IntAlike(f: Injection, n: int)
    ensures Alike(f, Int(n), Int(n))
  {
  }

  /** Binding leaves the scope as adding the names does. */
  lemma {:induction false} BindingsAddNames(base: Env, env: Env, bs: seq<(string, Path)>)
    requires Opened(base, env, 0)
    ensures CompileBindings(env, bs).0 == AddNames(env, Names(bs))
  {
    hide AddName, Place, Opened;
    if bs != [] {
      BindingsAddNames(base, env, bs[1..]);
      assert Names(bs)[1..] == Names(bs[1..]);
      AddNamesShape(base, env, Names(bs[1..]));
      PlacedName(base, AddNames(env, Names(bs[1..])), |bs| - 1, bs[0].0);
    }
  }

  /** The local of the i-th name holds what lies at its path. */
  ghost predicate BoundAt(f: Injection, store: Store, v: Value, bs: seq<(string, Path)>, i: nat, base: nat,
      locals: seq<Value>)
    requires i < |bs|
  {
    && AtPath(store, v, bs[i].1).Some?
    && base + |bs| - 1 - i < |locals|
    && Alike(f, AtPath(store, v, bs[i].1).value, locals[base + |bs| - 1 - i])
  }

  /** The binding code stores every name's value in the name's place and changes no other local. */
  ghost predicate Bound(f: Injection, store: Store, v: Value, bs: seq<(string, Path)>, base: nat, locals: seq<Value>,
      locals': seq<Value>) {
    && |locals'| == |locals|
    && (forall i :: 0 <= i < |bs| ==> BoundAt(f, store, v, bs, i, base, locals'))
    && (forall j :: 0 <= j < |locals| && !(base <= j < base + |bs|) ==> locals'[j] == locals[j])
  }

  lemma {:induction false} BindingsCorrect(P: Prog, k: nat, up: Env, env: Env, bs: seq<(string, Path)>, f: Injection,
      store: Store, v: Value, w: Value, rest: List<Value>, m: Machine) returns (m': Machine)
    requires CodeAt(P, k, CompileBindings(env, bs).1) && m.pc == k && m.stack == Cons(w, rest)
    requires Opened(up, env, 0) && CompileBindings(env, bs).0.ok
    requires env.localIndex + |bs| <= |m.frame.locals|
    requires Image(f, store, m.world.store) && Alike(f, v, w)
    requires forall i :: 0 <= i < |bs| ==> AtPath(store, v, bs[i].1).Some?
    ensures Reaches(P, m, m')
    ensures m' == m.(pc := k + |CompileBindings(env, bs).1|, frame := m.frame.(locals := m'.frame.locals))
    ensures Bound(f, store, v, bs, env.localIndex, m.frame.locals, m'.frame.locals)
    decreases |bs|
  {
    hide Reaches, Image, CodeAt, Alike, Bound, AtPath, Opened, FollowCode, AddName, Place;
    if bs == [] {
      m' := m;
      ReachesNow(P, m);
      BoundNothing(f, store, v, env.localIndex, m.frame.locals);
    } else {
      var (env1, tail) := CompileBindings(env, bs[1..]);
      BindingsShape(up, env, bs[1..], Gen(0));
      AddNameShape(up, env1, |bs| - 1, bs[0].0);
      PlacedName(up, env1, |bs| - 1, bs[0].0);
      LocalIndexAfter(up, env, env1, |bs| - 1);
      AddNameOk(env1, bs[0].0);
      var j := env1.localIndex;
      var d := Local(j);
      var follow := FollowCode(bs[0].1);
      var store1: Prog := [ST(d), DROP];
      assert CompileBindings(env, bs).1 == [DUP] + follow + store1 + tail;
      CodeSplit(P, k, [DUP] + follow + store1, tail);
      CodeSplit(P, k, [DUP] + follow, store1);
      CodeSplit(P, k, [DUP], follow);
      var m1, w1 := OneBinding(P, k, bs[0].1, j, f, store, v, w, rest, m);
      assert forall i :: 0 <= i < |bs[1..]| ==> bs[1..][i] == bs[i + 1];
      m' := BindingsCorrect(P, k + 1 + |follow| + 2, up, env, bs[1..], f, store, v, w, rest, m1);
      ReachesThen(P, m, m1, m');
      BoundStep(f, store, v, bs, env.localIndex, m.frame.locals, w1, m'.frame.locals);
    }
  }

  lemma AddNameOk(env: Env, x: string)
    ensures AddName(env, x).ok ==> env.ok
  {
  }

  lemma LocalIndexAfter(up: Env, env: Env, env1: Env, n: nat)
    requires Opened(up, env, 0) && Opened(up, env1, n)
    ensures env1.localIndex == env.localIndex + n
  {
  }

  lemma BoundNothing(f: Injection, store: Store, v: Value, base: nat, locals: seq<Value>)
    ensures Bound(f, store, v, [], base, locals, locals)
  {
  }

  lemma BoundStep(f: Injection, store: Store, v: Value, bs: seq<(string, Path)>, base: nat, locals: seq<Value>,
      w: Value, locals': seq<Value>)
    requires bs != [] && base + |bs| <= |locals| && AtPath(store, v, bs[0].1).Some?
    requires Alike(f, AtPath(store, v, bs[0].1).value, w)
    requires Bound(f, store, v, bs[1..], base, locals[base + |bs| - 1 := w], locals')
    ensures Bound(f, store, v, bs, base, locals, locals')
  {
    hide Alike, AtPath;
    forall i | 0 <= i < |bs| ensures BoundAt(f, store, v, bs, i, base, locals') {
      if i > 0 {
        assert BoundAt(f, store, v, bs[1..], i - 1, base, locals');
        assert bs[1..][i - 1] == bs[i];
      }
    }
  }

  lemma OneBinding(P: Prog, k: nat, path: Path, j: nat, f: Injection, store: Store, v: Value, w: Value,
      rest: List<Value>, m: Machine)
    returns (m': Machine, w': Value)
    requires CodeAt(P, k, [DUP]) && CodeAt(P, k + 1, FollowCode(path))
    requires CodeAt(P, k + 1 + |FollowCode(path)|, [ST(Local(j)), DROP])
    requires m.pc == k && m.stack == Cons(w, rest) && j < |m.frame.locals|
    requires Image(f, store, m.world.store) && Alike(f, v, w) && AtPath(store, v, path).Some?
    ensures Reaches(P, m, m') && Alike(f, AtPath(store, v, path).value, w')
    ensures m' == m.(pc := k + 1 + |FollowCode(path)| + 2, frame := m.frame.(locals := m.frame.locals[j := w']))
  {
    hide Reaches, Image, Alike, AtPath, FollowCode;
    var after := k + 1 + |FollowCode(path)|;
    InsnAt(P, k, [DUP], 0);
    InsnAt(P, after, [ST(Local(j)), DROP], 0);
    InsnAt(P, after, [ST(Local(j)), DROP], 1);
    RunDup(P, m);
    var m1 := m.(pc := k + 1, stack := Cons(w, m.stack));
    var m2;
    w', m2 := FollowCorrect(P, k + 1, path, f, store, v, w, m.stack, m1);
    var m3 := m2.(frame := m2.frame.(locals := m2.frame.locals[j := w']));
    RunStore(P, m2, Local(j), m3);
    var m4 := m3.(pc := after + 1);
    RunDrop(P, m4);
    m' := m4.(pc := after + 2, stack := m.stack);
    ReachesThen(P, m, m1, m2);
    ReachesThen(P, m, m2, m4);
    ReachesThen(P, m, m4, m');
  }
}
