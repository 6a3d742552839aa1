/** How a machine represents a configuration of the source evaluator.  The machine may hold more objects (string
    patterns allocate), so references correspond through an injection from source to machine addresses. */
module Correspondence {
  import opened Wrappers
  import opened LamaValues
  import opened LamaSource
  import opened StackMachine

  /** The machine address of each source object. */
  type Injection = seq<nat>

  // ---- values and stores ----

  /** Proper values correspond; the unit value is none. */
  ghost predicate Alike(f: Injection, v: Value, w: Value) {
    match v
    case Int(_) => w == v
    case Ref(a) => a < |f| && w == Ref(f[a])
    case _ => false
  }

  /** The unit value is Empty for the source, while the machine may have 0 in its place. */
  ghost predicate Loose(f: Injection, v: Value, w: Value) {
    v == Empty || Alike(f, v, w)
  }

  ghost predicate AlikeAll(f: Injection, vs: seq<Value>, ws: seq<Value>) {
    |vs| == |ws| && forall i :: 0 <= i < |vs| ==> Alike(f, vs[i], ws[i])
  }

  ghost predicate SameObject(f: Injection, o: Object, o': Object) {
    match o
    case StringObject(_) => o' == o
    case ArrayObject(vs) => o'.ArrayObject? && AlikeAll(f, vs, o'.elems)
    case SexpObject(tag, vs) => o'.SexpObject? && o'.tag == tag && AlikeAll(f, vs, o'.elems)
    case ClosureObject(_, _) => false
  }

  ghost predicate At(f: Injection, s: Store, t: Store, a: nat)
    requires a < |f| && a < |s|
  {
    f[a] < |t| && SameObject(f, s[a], t[f[a]])
  }

  ghost predicate Image(f: Injection, s: Store, t: Store) {
    && |f| == |s|
    && (forall a :: 0 <= a < |f| ==> At(f, s, t, a))
    && (forall a, b :: 0 <= a < b < |f| ==> f[a] != f[b])
  }

  ghost predicate Worlds(f: Injection, w: World, w': World) {
    w'.input == w.input && w'.output == w.output && Image(f, w.store, w'.store)
  }

  lemma AlikeGrows(f: Injection, g: Injection, v: Value, w: Value)
    requires f <= g && Alike(f, v, w)
    ensures Alike(g, v, w)
  {
  }

  lemma SameObjectGrows(f: Injection, g: Injection, o: Object, o': Object)
    requires f <= g && SameObject(f, o, o')
    ensures SameObject(g, o, o')
  {
  }

  lemma ImageAllocate(f: Injection, s: Store, t: Store, o: Object, o': Object)
    requires Image(f, s, t) && SameObject(f, o, o')
    ensures Image(f + [|t|], s + [o], t + [o'])
    ensures Alike(f + [|t|], Ref(|s|), Ref(|t|))
  {
    hide SameObject;
    var g := f + [|t|];
    forall a | 0 <= a < |g| ensures At(g, s + [o], t + [o'], a) {
      if a < |f| {
        assert At(f, s, t, a);
        SameObjectGrows(f, g, s[a], t[f[a]]);
      } else {
        SameObjectGrows(f, g, o, o');
      }
    }
    forall a, b | 0 <= a < b < |g| ensures g[a] != g[b] {
      assert At(f, s, t, a);
    }
  }

  /** Objects only the machine knows do no harm. */
  lemma ImageExtra(f: Injection, s: Store, t: Store, t': Store)
    requires Image(f, s, t) && t <= t'
    ensures Image(f, s, t')
  {
    hide SameObject;
    forall a | 0 <= a < |f| ensures At(f, s, t', a) {
      assert At(f, s, t, a);
    }
  }

  lemma DerefAlike(f: Injection, s: Store, t: Store, v: Value, w: Value)
    requires Image(f, s, t) && Alike(f, v, w)
    ensures Deref(s, v).Some? <==> Deref(t, w).Some?
    ensures Deref(s, v).Some? ==> SameObject(f, Deref(s, v).value, Deref(t, w).value)
  {
    hide SameObject;
    if v.Ref? {
      assert At(f, s, t, v.address);
    }
  }

  lemma ElementAlike(f: Injection, s: Store, t: Store, b: Value, b': Value, j: Value, j': Value)
    requires Image(f, s, t) && Alike(f, b, b') && Alike(f, j, j') && Element(s, b, j).Some?
    ensures Element(t, b', j').Some? && Alike(f, Element(s, b, j).value, Element(t, b', j').value)
  {
    hide Image;
    DerefAlike(f, s, t, b, b');
  }

  lemma ImageUpdate(f: Injection, s: Store, t: Store, a: nat, o: Object, o': Object)
    requires Image(f, s, t) && a < |s| && SameObject(f, o, o') && f[a] < |t|
    ensures Image(f, s[a := o], t[f[a] := o'])
  {
    hide SameObject;
    var s', t' := s[a := o], t[f[a] := o'];
    forall b | 0 <= b < |f| ensures At(f, s', t', b) {
      assert At(f, s, t, b);
    }
  }

  lemma UpdateAlike(f: Injection, s: Store, t: Store, b: Value, b': Value, i: int, v: Value, v': Value)
    requires Image(f, s, t) && Alike(f, b, b') && Alike(f, v, v') && UpdateElement(s, b, i, v).Some?
    ensures UpdateElement(t, b', i, v').Some?
    ensures Image(f, UpdateElement(s, b, i, v).value, UpdateElement(t, b', i, v').value)
  {
    hide Image;
    DerefAlike(f, s, t, b, b');
    var o, o' := Deref(s, b).value, Deref(t, b').value;
    ImageUpdate(f, s, t, b.address, Changed(o, i, v), Changed(o', i, v'));
  }

  /** The object after a successful UpdateElement. */
  ghost function Changed(o: Object, i: int, v: Value): Object {
    match o
    case StringObject(chars) =>
      if 0 <= i < |chars| && v.Int? && 0 <= v.n < 256 then StringObject(chars[i := v.n as char]) else o
    case ArrayObject(elems) => if 0 <= i < |elems| then ArrayObject(elems[i := v]) else o
    case SexpObject(tag, elems) => if 0 <= i < |elems| then SexpObject(tag, elems[i := v]) else o
    case ClosureObject(_, _) => o
  }

  /** The injection after a builtin ran. */
  ghost function AfterBuiltin(f: Injection, w': World, name: string): Injection {
    if name == ".array" then f + [|w'.store|] else f
  }

  lemma BuiltinAlike(f: Injection, w: World, w': World, args: seq<Value>, args': seq<Value>, name: string)
    requires Worlds(f, w, w') && AlikeAll(f, args, args') && CallBuiltin(w, args, name).Some?
    ensures CallBuiltin(w', args', name).Some?
    ensures
      var (r, r') := (CallBuiltin(w, args, name).value, CallBuiltin(w', args', name).value);
      && Worlds(AfterBuiltin(f, w', name), r.0, r'.0)
      && (if name == "write" then r.1 == Empty else Alike(AfterBuiltin(f, w', name), r.1, r'.1))
  {
    hide Image;
    if name == "length" {
      DerefAlike(f, w.store, w'.store, args[0], args'[0]);
    } else if name == ".elem" {
      ElementAlike(f, w.store, w'.store, args[0], args'[0], args[1], args'[1]);
    } else if name == ".array" {
      ImageAllocate(f, w.store, w'.store, ArrayObject(args), ArrayObject(args'));
    }
  }

  // ---- scopes ----

  type Places = State<Designation>

  ghost predicate Ordinary(x: string) { x !in BUILTINS }

  /** Local j holds the value of x, once x has one. */
  ghost predicate Slot(f: Injection, x: string, values: map<string, Value>, places: map<string, Designation>, j: int,
      locals: seq<Value>) {
    && Ordinary(x) && 0 <= j < |locals|
    && x in places && places[x] == Local(j)
    && (x in values ==> Alike(f, values[x], locals[j]))
  }

  ghost predicate GlobalSlot(f: Injection, x: string, values: map<string, Value>, globals: map<string, Value>) {
    x in values ==> x in globals && Alike(f, values[x], globals[x])
  }

  ghost predicate PlacedGlobally(x: string, names: seq<(string, Kind)>, places: map<string, Designation>) {
    x in places ==> if x in BUILTINS then places[x] == Fun(Named(x)) else InScope(x, names) && places[x] == Global(x)
  }

  ghost predicate TopScope(f: Injection, s: State<Value>, d: Places, globals: map<string, Value>)
    requires s.G? && d.G?
  {
    && s.names == d.names + BUILTIN_NAMES
    && (forall x :: PlacedGlobally(x, d.names, d.values))
    && (forall x :: x in BUILTINS ==> x in s.values && s.values[x] == Builtin(x))
    && (forall x :: Ordinary(x) ==> GlobalSlot(f, x, s.values, globals))
  }

  ghost predicate LocalScope(f: Injection, s: State<Value>, d: Places, index: nat, locals: seq<Value>)
    requires s.L? && d.L?
  {
    && |s.names| == |d.names| <= index <= |locals|
    && (forall i :: 0 <= i < |s.names| ==>
          s.names[i].0 == d.names[i].0 && Slot(f, s.names[i].0, s.values, d.values, index - 1 - i, locals))
  }

  /** Scope by scope, the machine's variables hold what the source's do.  The innermost scope's locals end below
      index, those of the scopes around it come before them. */
  ghost predicate Scopes(f: Injection, s: State<Value>, d: Places, index: nat, globals: map<string, Value>,
      locals: seq<Value>)
    decreases s
  {
    match s
    case I => false
    case G(_, _) => d.G? && index <= |locals| && TopScope(f, s, d, globals)
    case L(_, _, up) =>
      d.L? && LocalScope(f, s, d, index, locals) && Scopes(f, up, d.up, index - |d.names|, globals, locals)
  }

  lemma TopScopeGrows(f: Injection, g: Injection, s: State<Value>, d: Places, globals: map<string, Value>)
    requires f <= g && s.G? && d.G? && TopScope(f, s, d, globals)
    ensures TopScope(g, s, d, globals)
  {
    forall x | Ordinary(x) ensures GlobalSlot(g, x, s.values, globals) {
      assert GlobalSlot(f, x, s.values, globals);
      if x in s.values {
        AlikeGrows(f, g, s.values[x], globals[x]);
      }
    }
  }

  lemma LocalScopeGrows(f: Injection, g: Injection, s: State<Value>, d: Places, index: nat, locals: seq<Value>)
    requires f <= g && s.L? && d.L? && LocalScope(f, s, d, index, locals)
    ensures LocalScope(g, s, d, index, locals)
  {
  }

  lemma {:induction false} ScopesGrow(f: Injection, g: Injection, s: State<Value>, d: Places, index: nat,
      globals: map<string, Value>, locals: seq<Value>)
    requires f <= g && Scopes(f, s, d, index, globals, locals)
    ensures Scopes(g, s, d, index, globals, locals)
    decreases s
  {
    hide TopScope, LocalScope;
    match s
    case I =>
    case G(_, _) => TopScopeGrows(f, g, s, d, globals);
    case L(_, _, up) =>
      LocalScopeGrows(f, g, s, d, index, locals);
      ScopeBound(f, s, d, index, locals);
      ScopesGrow(f, g, up, d.up, index - |d.names|, globals, locals);
  }

  lemma ScopeBound(f: Injection, s: State<Value>, d: Places, index: nat, locals: seq<Value>)
    requires s.L? && d.L? && LocalScope(f, s, d, index, locals)
    ensures |d.names| <= index
  {
  }

  /** Locals from index on are free. */
  lemma {:induction false} ScopesIgnore(f: Injection, s: State<Value>, d: Places, index: nat,
      globals: map<string, Value>, locals: seq<Value>, locals': seq<Value>)
    requires Scopes(f, s, d, index, globals, locals)
    requires |locals'| == |locals| && forall j :: 0 <= j < index && j < |locals| ==> locals'[j] == locals[j]
    ensures Scopes(f, s, d, index, globals, locals')
    decreases s
  {
    hide TopScope;
    match s
    case I =>
    case G(_, _) =>
    case L(_, _, up) =>
      ScopesIgnore(f, up, d.up, index - |d.names|, globals, locals, locals');
  }

  // ---- variables ----

  /** Where a variable's value is. */
  function Held(d: Designation, globals: map<string, Value>, locals: seq<Value>): Option<Value> {
    match d
    case Global(x) => Find(x, globals)
    case Local(j) => if j < |locals| then Some(locals[j]) else None
    case _ => None
  }

  lemma {:induction false} InScopeAt(x: string, names: seq<(string, Kind)>) returns (i: nat)
    requires InScope(x, names)
    ensures i < |names| && names[i].0 == x
  {
    i :| i < |names| && names[i].0 == x;
  }

  lemma SameScope(f: Injection, s: State<Value>, d: Places, index: nat, locals: seq<Value>, x: string)
    requires s.L? && d.L? && LocalScope(f, s, d, index, locals)
    ensures InScope(x, s.names) <==> InScope(x, d.names)
    ensures InScope(x, s.names) ==> Ordinary(x)
  {
    hide Slot;
    if InScope(x, s.names) {
      var i := InScopeAt(x, s.names);
      assert Slot(f, s.names[i].0, s.values, d.values, index - 1 - i, locals) ==> Ordinary(x) by {
        SlotOrdinary(f, s.names[i].0, s.values, d.values, index - 1 - i, locals);
      }
      assert d.names[i].0 == x;
    }
    if InScope(x, d.names) {
      var i := InScopeAt(x, d.names);
      assert s.names[i].0 == x;
    }
  }

  lemma SlotOrdinary(f: Injection, x: string, values: map<string, Value>, places: map<string, Designation>, j: int,
      locals: seq<Value>)
    ensures Slot(f, x, values, places, j, locals) ==> Ordinary(x)
  {
  }

  lemma {:induction false} LookUpAlike(f: Injection, s: State<Value>, d: Places, index: nat,
      globals: map<string, Value>, locals: seq<Value>, x: string)
    requires Scopes(f, s, d, index, globals, locals) && Ordinary(x)
    requires LookUp(s, x).Some? && LookUp(d, x).Some?
    ensures !LookUp(d, x).value.Fun?
    ensures Held(LookUp(d, x).value, globals, locals).Some?
    ensures Alike(f, LookUp(s, x).value, Held(LookUp(d, x).value, globals, locals).value)
    decreases s
  {
    hide Slot, Alike;
    match s
    case I =>
    case G(_, _) =>
      assert PlacedGlobally(x, d.names, d.values);
      assert GlobalSlot(f, x, s.values, globals);
    case L(_, _, up) =>
      SameScope(f, s, d, index, locals, x);
      if InScope(x, s.names) {
        var i := InScopeAt(x, s.names);
        SlotHolds(f, x, s.values, d.values, index - 1 - i, locals);
      } else {
        LookUpAlike(f, up, d.up, index - |d.names|, globals, locals, x);
      }
  }

  lemma SlotHolds(f: Injection, x: string, values: map<string, Value>, places: map<string, Designation>, j: int,
      locals: seq<Value>)
    requires Slot(f, x, values, places, j, locals) && x in values
    ensures x in places && places[x] == Local(j) && 0 <= j < |locals| && Alike(f, values[x], locals[j])
  {
  }

  /** A builtin's name always means the builtin. */
  lemma {:induction false} LookUpBuiltin(f: Injection, s: State<Value>, d: Places, index: nat,
      globals: map<string, Value>, locals: seq<Value>, x: string)
    requires Scopes(f, s, d, index, globals, locals) && x in BUILTINS
    ensures LookUp(s, x) == Some(Builtin(x))
    ensures LookUp(d, x).Some? ==> LookUp(d, x).value == Fun(Named(x))
    decreases s
  {
    hide Slot, GlobalSlot;
    match s
    case I =>
    case G(_, _) => assert PlacedGlobally(x, d.names, d.values);
    case L(_, _, up) =>
      SameScope(f, s, d, index, locals, x);
      LookUpBuiltin(f, up, d.up, index - |d.names|, globals, locals, x);
  }

  /** The variables after storing w at d. */
  ghost function Stored(d: Designation, w: Value, globals: map<string, Value>, locals: seq<Value>): (map<string, Value>,
      seq<Value>) {
    match d
    case Global(x) => (globals[x := w], locals)
    case Local(j) => if j < |locals| then (globals, locals[j := w]) else (globals, locals)
    case _ => (globals, locals)
  }

  lemma {:induction false} UpdateAlikeScopes(f: Injection, s: State<Value>, d: Places, index: nat,
      globals: map<string, Value>, locals: seq<Value>, x: string, v: Value, w: Value)
    requires Scopes(f, s, d, index, globals, locals) && Ordinary(x) && Alike(f, v, w)
    requires Update(s, x, v).Some? && LookUp(d, x).Some?
    ensures
      var p := LookUp(d, x).value;
      var (g, l) := Stored(p, w, globals, locals);
      && (p.Global? || (p.Local? && p.index < index && p.index < |locals|))
      && Scopes(f, Update(s, x, v).value, d, index, g, l)
    decreases s
  {
    hide Slot, Alike, TopScope, LocalScope, Update, LookUp;
    match s
    case I =>
    case G(_, _) => UpdateTop(f, s, d, globals, x, v, w);
    case L(_, _, up) =>
      SameScope(f, s, d, index, locals, x);
      ScopeBound(f, s, d, index, locals);
      UpdateUnfold(s, x, v);
      LookUpUnfold(d, x);
      if InScope(x, s.names) {
        UpdateLocal(f, s, d, index, globals, locals, x, v, w);
      } else {
        var rest := index - |d.names|;
        UpdateAlikeScopes(f, up, d.up, rest, globals, locals, x, v, w);
        var (_, l) := Stored(LookUp(d, x).value, w, globals, locals);
        LocalScopeIgnores(f, s, d, index, locals, Update(up, x, v).value, l);
      }
  }

  lemma UpdateUnfold(s: State<Value>, x: string, v: Value)
    requires s.L? && Update(s, x, v).Some?
    ensures InScope(x, s.names) ==> Update(s, x, v) == Some(L(s.names, s.values[x := v], s.up))
    ensures !InScope(x, s.names) ==>
      Update(s.up, x, v).Some? && Update(s, x, v) == Some(L(s.names, s.values, Update(s.up, x, v).value))
  {
  }

  lemma LookUpUnfold(d: Places, x: string)
    requires d.L?
    ensures LookUp(d, x) == if InScope(x, d.names) then Find(x, d.values) else LookUp(d.up, x)
  {
  }

  lemma UpdateTop(f: Injection, s: State<Value>, d: Places, globals: map<string, Value>, x: string, v: Value, w: Value)
    requires s.G? && d.G? && TopScope(f, s, d, globals) && Ordinary(x) && Alike(f, v, w)
    requires Update(s, x, v).Some? && LookUp(d, x).Some?
    ensures LookUp(d, x).value == Global(x)
    ensures Update(s, x, v).value == G(s.names, s.values[x := v])
    ensures TopScope(f, G(s.names, s.values[x := v]), d, globals[x := w])
  {
    hide Alike;
    assert PlacedGlobally(x, d.names, d.values);
    forall y | Ordinary(y) ensures GlobalSlot(f, y, s.values[x := v], globals[x := w]) {
      assert GlobalSlot(f, y, s.values, globals);
    }
  }

  lemma UpdateLocal(f: Injection, s: State<Value>, d: Places, index: nat, globals: map<string, Value>,
      locals: seq<Value>, x: string, v: Value, w: Value)
    requires s.L? && d.L? && LocalScope(f, s, d, index, locals)
    requires Scopes(f, s.up, d.up, index - |d.names|, globals, locals)
    requires InScope(x, s.names) && InScope(x, d.names) && Alike(f, v, w)
    ensures Find(x, d.values).Some?
    ensures
      var p := Find(x, d.values).value;
      && p.Local? && p.index < index && p.index < |locals|
      && Scopes(f, L(s.names, s.values[x := v], s.up), d, index, globals, locals[p.index := w])
  {
    hide Slot, Alike;
    var k := InScopeAt(x, s.names);
    var j := index - 1 - k;
    assert Slot(f, x, s.values, d.values, j, locals);
    SlotPlace(f, x, s.values, d.values, j, locals);
    forall i | 0 <= i < |s.names| ensures Slot(f, s.names[i].0, s.values[x := v], d.values, index - 1 - i,
      locals[j := w]) {
      SlotUpdate(f, s.names[i].0, x, s.values, d.values, index - 1 - i, j, locals, v, w);
    }
    ScopesIgnore(f, s.up, d.up, index - |d.names|, globals, locals, locals[j := w]);
  }

  lemma SlotPlace(f: Injection, x: string, values: map<string, Value>, places: map<string, Designation>, j: int,
      locals: seq<Value>)
    requires Slot(f, x, values, places, j, locals)
    ensures x in places && places[x] == Local(j) && 0 <= j < |locals|
  {
  }

  lemma SlotUpdate(f: Injection, y: string, x: string, values: map<string, Value>, places: map<string, Designation>,
      i: int, j: int, locals: seq<Value>, v: Value, w: Value)
    requires Slot(f, y, values, places, i, locals) && Slot(f, x, values, places, j, locals) && Alike(f, v, w)
    requires y != x ==> i != j
    ensures Slot(f, y, values[x := v], places, i, locals[j := w])
  {
    hide Alike;
  }

  /** A scope ignores the scopes around it and their locals. */
  lemma LocalScopeIgnores(f: Injection, s: State<Value>, d: Places, index: nat, locals: seq<Value>, up: State<Value>,
      locals': seq<Value>)
    requires s.L? && d.L? && LocalScope(f, s, d, index, locals) && |locals'| == |locals|
    requires forall j :: index - |d.names| <= j < |locals| ==> locals'[j] == locals[j]
    ensures LocalScope(f, L(s.names, s.values, up), d, index, locals')
  {
    hide Alike;
    forall i | 0 <= i < |s.names| ensures Slot(f, s.names[i].0, s.values, d.values, index - 1 - i, locals') {
      assert Slot(f, s.names[i].0, s.values, d.values, index - 1 - i, locals);
    }
  }
}
