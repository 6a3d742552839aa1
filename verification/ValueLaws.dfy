/** What elements, builtins and states are for, said by what one operation makes of another: the definitions that the
    evaluator and the machine share (src/Language.ml:20-180, 225-330). */
module ValueLaws {
  import opened Wrappers
  import opened LamaValues
  import opened LamaSource

  // ---- elements ----

  /** The items of a new object in order: what was put in, and nothing beside. */
  ghost predicate Lists(store: Store, v: Value, vs: seq<Value>) {
    forall n: int :: Element(store, v, Int(n)) == if 0 <= n < |vs| then Some(vs[n]) else None
  }

  function Codes(s: string): seq<Value> { seq(|s|, i requires 0 <= i < |s| => Int(s[i] as int)) }

  /** Objects that were there are what they were. */
  ghost predicate Unharmed(store: Store, store': Store) {
    forall v :: Deref(store, v).Some? ==> Deref(store', v) == Deref(store, v)
  }

  lemma NewObjects(store: Store, vs: seq<Value>, tag: string, s: string)
    ensures
      var (store', v) := Allocate(store, ArrayObject(vs));
      Deref(store, v) == None && Unharmed(store, store') && Lists(store', v, vs) && IsArray(store', v)
    ensures
      var (store', v) := Allocate(store, SexpObject(tag, vs));
      Deref(store, v) == None && Unharmed(store, store') && Lists(store', v, vs) && IsSexp(store', v)
    ensures
      var (store', v) := Allocate(store, StringObject(s));
      Deref(store, v) == None && Unharmed(store, store') && Lists(store', v, Codes(s)) && IsString(store', v)
  {
  }

  /** An assignment is seen at its place and nowhere else, in an object of the same kind and tag. */
  lemma AssignedElement(store: Store, b: Value, i: int, z: Value)
    requires UpdateElement(store, b, i, z).Some?
    ensures
      var store' := UpdateElement(store, b, i, z).value;
      && Element(store', b, Int(i)) == Some(z) && |store'| == |store|
      && (forall v, j :: v != b || j != Int(i) ==> Element(store', v, j) == Element(store, v, j))
      && (forall v :: IsString(store', v) == IsString(store, v) && IsArray(store', v) == IsArray(store, v)
                   && IsSexp(store', v) == IsSexp(store, v) && IsClosure(store', v) == IsClosure(store, v))
      && (IsSexp(store, b) ==> store'[b.address].tag == store[b.address].tag)
  {
  }

  /** Elements that can be read can be assigned, in strings to bytes only. */
  lemma AssignableIff(store: Store, b: Value, i: int, z: Value)
    ensures UpdateElement(store, b, i, z).Some? <==>
      Element(store, b, Int(i)).Some? && (IsString(store, b) ==> z.Int? && 0 <= z.n < 256)
  {
  }

  // ---- builtins ----

  /** read takes the first number of the input, or fails on none. */
  lemma ReadTakes(n: int, input: seq<int>, output: seq<int>, store: Store)
    ensures CallBuiltin(World([n] + input, output, store), [], "read") == Some((World(input, output, store), Int(n)))
    ensures CallBuiltin(World([], output, store), [], "read") == None
  {
    assert ([n] + input)[1..] == input;
  }

  /** write puts the number behind the output, and gives the unit value. */
  lemma WriteAppends(w: World, n: int)
    ensures
      var r := CallBuiltin(w, [Int(n)], "write");
      && r.Some? && r.value.1 == Empty && r.value.0.input == w.input && r.value.0.store == w.store
      && |r.value.0.output| == |w.output| + 1 && w.output <= r.value.0.output && r.value.0.output[|w.output|] == n
  {
  }

  /** length counts the elements. */
  lemma LengthCounts(w: World, b: Value)
    ensures
      match CallBuiltin(w, [b], "length")
      case None => forall i: int :: Element(w.store, b, Int(i)) == None
      case Some(r) => r.0 == w && r.1.Int? && r.1.n >= 0
                      && forall i: int :: Element(w.store, b, Int(i)).Some? <==> 0 <= i < r.1.n
  {
  }

  /** .array makes an array of its arguments, .elem gives an element. */
  lemma ArrayAndElement(w: World, vs: seq<Value>, b: Value, j: Value)
    ensures
      var r := CallBuiltin(w, vs, ".array");
      r.Some? && Lists(r.value.0.store, r.value.1, vs) && IsArray(r.value.0.store, r.value.1)
      && Unharmed(w.store, r.value.0.store) && r.value.0 == w.(store := r.value.0.store)
    ensures CallBuiltin(w, [b, j], ".elem") ==
      if Element(w.store, b, j).Some? then Some((w, Element(w.store, b, j).value)) else None
  {
  }

  // ---- states ----

  /** A variable is found with the value last assigned, all others with what they had. */
  lemma {:induction false} UpdatedIsFound<V>(s: State<V>, x: string, v: V, y: string)
    requires Update(s, x, v).Some?
    ensures LookUp(Update(s, x, v).value, y) == if y == x then Some(v) else LookUp(s, y)
  {
    if s.L? && !InScope(x, s.names) {
      UpdatedIsFound(s.up, x, v, y);
    }
  }

  /** The outermost scope has the builtins under their names, and they are no variables. */
  lemma BuiltinsVisible(values: map<string, Value>, xs: seq<string>, x: string, v: Value)
    requires forall y :: y in xs ==> y !in ["read", "write", ".elem", "length", ".array", "string"]
    ensures
      var st := PushScope(I, values, Tagged(xs, Mut));
      && (x in ["read", "write", ".elem", "length", ".array", "string"] ==>
        LookUp(st, x) == Some(Builtin(x)) && Update(st, x, v) == None)
      && (x !in ["read", "write", ".elem", "length", ".array", "string"] ==>
        LookUp(st, x) == Find(x, values) && (Update(st, x, v).Some? <==> x in xs))
  {
    VarsBefore(xs, BUILTIN_NAMES, x);
    NoVariables(x);
  }

  lemma NoVariables(x: string)
    ensures !IsVar(x, BUILTIN_NAMES)
  {
    var rest := BUILTIN_NAMES;
    while rest != []
      invariant forall i :: 0 <= i < |rest| ==> rest[i].1 == FVal
      invariant IsVar(x, BUILTIN_NAMES) ==> IsVar(x, rest)
    {
      rest := rest[1..];
    }
  }

  lemma {:induction false} VarsBefore(xs: seq<string>, more: seq<(string, Kind)>, x: string)
    ensures IsVar(x, Tagged(xs, Mut) + more) <==> x in xs || IsVar(x, more)
  {
    if xs == [] {
      assert Tagged(xs, Mut) + more == more;
    } else {
      assert (Tagged(xs, Mut) + more)[1..] == Tagged(xs[1..], Mut) + more;
      VarsBefore(xs[1..], more, x);
    }
  }

  /** The names of a scope hide those outside, and leaving it brings them back. */
  lemma ScopeHides(st: State<Value>, values: map<string, Value>, names: seq<(string, Kind)>, x: string)
    requires !st.I?
    ensures DropScope(PushScope(st, values, names)) == Some(st)
    ensures (exists i :: 0 <= i < |names| && names[i].0 == x) ==>
      LookUp(PushScope(st, values, names), x) == Find(x, values)
    ensures (forall i :: 0 <= i < |names| ==> names[i].0 != x) ==>
      LookUp(PushScope(st, values, names), x) == LookUp(st, x)
  {
  }

  lemma {:induction false} TaggedVar(xs: seq<string>, kind: Kind, x: string)
    ensures IsVar(x, Tagged(xs, kind)) <==> x in xs && kind == Mut
  {
    if xs != [] {
      assert Tagged(xs, kind)[1..] == Tagged(xs[1..], kind);
      TaggedVar(xs[1..], kind, x);
    }
  }

  /** Names of a scope can be assigned exactly if they are variables; assignments to others go through. */
  lemma AssignableName(st: State<Value>, values: map<string, Value>, xs: seq<string>, kind: Kind, x: string, v: Value)
    requires !st.I?
    ensures x in xs ==> (Update(PushScope(st, values, Tagged(xs, kind)), x, v).Some? <==> kind == Mut)
    ensures x !in xs ==> (Update(PushScope(st, values, Tagged(xs, kind)), x, v).Some? <==> Update(st, x, v).Some?)
    ensures x !in xs && Update(st, x, v).Some? ==>
      DropScope(Update(PushScope(st, values, Tagged(xs, kind)), x, v).value) == Update(st, x, v)
  {
    TaggedVar(xs, kind, x);
    if x in xs {
      var i :| 0 <= i < |xs| && xs[i] == x;
      assert Tagged(xs, kind)[i].0 == x;
    }
  }
}
