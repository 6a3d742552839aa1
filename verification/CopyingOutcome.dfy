/** What copying collections keep, one after the other: the new heap is in order again, the reachable objects
    correspond one to one, and strings keep their bytes up to the first zero. */
module CopyingOutcome {
  import opened CopyingHeap
  import opened CopyingPass

  // ---- strings ----

  predicate Bytewise(ws: Words) { forall i :: 0 <= i < |ws| ==> 0 <= ws[i] < 0x1_0000_0000 }

  function ByteOf(w: int, j: nat): int {
    if j == 0 then w % 0x100
    else if j == 1 then w / 0x100 % 0x100
    else if j == 2 then w / 0x1_0000 % 0x100
    else w / 0x100_0000 % 0x100
  }

  function ByteAt(ws: Words, k: nat): int
    requires k < 4 * |ws|
  {
    ByteOf(ws[k / 4], k % 4)
  }

  /** A zero among the bytes up to the k-th. */
  predicate ZeroBy(ws: Words, k: nat)
    requires k < 4 * |ws|
  {
    exists j :: 0 <= j <= k && ByteAt(ws, j) == 0
  }

  lemma CutWordBytes(w: int, j: nat)
    requires 0 <= w < 0x1_0000_0000 && j < 4
    ensures ByteOf(CutWord(w), j) == if exists i :: 0 <= i <= j && ByteOf(w, i) == 0 then 0 else ByteOf(w, j)
    ensures HasZero(w) <==> exists i :: 0 <= i < 4 && ByteOf(w, i) == 0
  {
    hide CutWord;
    var a, b, c, d := ByteOf(w, 0), ByteOf(w, 1), ByteOf(w, 2), ByteOf(w, 3);
    CutParts(w);
    var z := if a == 0 then 0 else if b == 0 then 1 else if c == 0 then 2 else 3;
    assert HasZero(w) ==> ByteOf(w, z) == 0;
  }

  /** The bytes of a cut word: zero from the first zero byte on. */
  lemma CutParts(w: int)
    requires 0 <= w < 0x1_0000_0000
    ensures ByteOf(CutWord(w), 0) == ByteOf(w, 0)
    ensures ByteOf(CutWord(w), 1) == if ByteOf(w, 0) == 0 then 0 else ByteOf(w, 1)
    ensures ByteOf(CutWord(w), 2) == if ByteOf(w, 0) == 0 || ByteOf(w, 1) == 0 then 0 else ByteOf(w, 2)
    ensures ByteOf(CutWord(w), 3) == if ByteOf(w, 0) == 0 ||
      ByteOf(w, 1) == 0 || ByteOf(w, 2) == 0 then 0 else ByteOf(w, 3)
  {
    hide ByteOf, CutWord;
    CutCases(w);
    KeepOne(w);
    KeepTwo(w);
    KeepThree(w);
  }

  lemma CutCases(w: int)
    requires 0 <= w < 0x1_0000_0000
    ensures CutWord(w) == if ByteOf(w, 0) == 0 then 0 else if ByteOf(w, 1) == 0 then w % 0x100
      else if ByteOf(w, 2) == 0 then w % 0x1_0000 else if ByteOf(w, 3) == 0 then w % 0x100_0000 else w
    ensures forall j: nat :: j < 4 ==> ByteOf(0, j) == 0
  {
  }

  lemma KeepOne(w: int)
    ensures
      var v := w % 0x100;
      ByteOf(v, 0) == ByteOf(w, 0) && ByteOf(v, 1) == 0 && ByteOf(v, 2) == 0 && ByteOf(v, 3) == 0
  {
  }

  lemma KeepTwo(w: int)
    ensures
      var v := w % 0x1_0000;
      ByteOf(v, 0) == ByteOf(w, 0) && ByteOf(v, 1) == ByteOf(w, 1) && ByteOf(v, 2) == 0 && ByteOf(v, 3) == 0
  {
    LowBytes(w);
  }

  lemma KeepThree(w: int)
    ensures
      var v := w % 0x100_0000;
      && ByteOf(v, 0) == ByteOf(w, 0) && ByteOf(v, 1) == ByteOf(w, 1)
      && ByteOf(v, 2) == ByteOf(w, 2) && ByteOf(v, 3) == 0
  {
    LowBytes(w);
    MiddleByte(w);
  }

  lemma ByteBehind(ws: Words, k: nat)
    requires 4 <= k < 4 * |ws|
    ensures ByteAt(ws, k) == ByteAt(ws[1..], k - 4)
  {
    hide ByteOf;
    assert (k - 4) / 4 == k / 4 - 1 && (k - 4) % 4 == k % 4;
  }

  lemma FirstBytes(ws: Words, k: nat)
    requires k < 4 && ws != []
    ensures ByteAt(ws, k) == ByteOf(ws[0], k)
  {
    hide ByteOf;
    assert k / 4 == 0 && k % 4 == k;
  }

  lemma ZeroByFirst(ws: Words, k: nat)
    requires k < 4 && ws != []
    ensures ZeroBy(ws, k) <==> exists i :: 0 <= i <= k && ByteOf(ws[0], i) == 0
  {
    hide ByteOf, ByteAt;
    forall j | 0 <= j <= k ensures ByteAt(ws, j) == ByteOf(ws[0], j) {
      FirstBytes(ws, j);
    }
  }

  lemma ZeroByLater(ws: Words, k: nat)
    requires 4 <= k < 4 * |ws|
    ensures ZeroBy(ws, k) <==> (exists i :: 0 <= i < 4 && ByteOf(ws[0], i) == 0) || ZeroBy(ws[1..], k - 4)
  {
    hide ByteOf, ByteAt;
    forall j | 0 <= j < 4 ensures ByteAt(ws, j) == ByteOf(ws[0], j) {
      FirstBytes(ws, j);
    }
    forall j | 4 <= j <= k ensures ByteAt(ws, j) == ByteAt(ws[1..], j - 4) {
      ByteBehind(ws, j);
    }
    if j :| 0 <= j <= k - 4 && ByteAt(ws[1..], j) == 0 {
      assert ByteAt(ws, j + 4) == 0;
    }
  }

  /** The copy of a string has its bytes up to the first zero, and zeros from there on. */
  lemma {:induction false} CutBytes(ws: Words, k: nat)
    requires Bytewise(ws) && k < 4 * |ws|
    ensures ByteAt(CutBody(ws), k) == if ZeroBy(ws, k) then 0 else ByteAt(ws, k)
    decreases |ws|
  {
    hide ByteOf, ByteAt, ZeroBy, CutWord, HasZero;
    var r := CutBody(ws);
    CutWordBytes(ws[0], if k < 4 then k else 3);
    if k < 4 {
      FirstBytes(ws, k);
      FirstBytes(r, k);
      ZeroByFirst(ws, k);
      NoZeroNoCut(ws[0]);
    } else {
      ByteBehind(ws, k);
      ByteBehind(r, k);
      ZeroByLater(ws, k);
      assert r[1..] == if HasZero(ws[0]) then seq(|ws| - 1, _ => 0) else CutBody(ws[1..]);
      if HasZero(ws[0]) {
        AllZero(|ws| - 1, k - 4);
      } else {
        CutBytes(ws[1..], k - 4);
      }
    }
  }

  lemma NoZeroNoCut(w: int)
    ensures !HasZero(w) ==> CutWord(w) == w
  {
  }

  lemma AllZero(n: nat, k: nat)
    requires k < 4 * n
    ensures ByteAt(seq(n, _ => 0), k) == 0
  {
    assert 0 <= k / 4 < n;
  }

  /** A string survives a collection unchanged exactly if nothing but zeros follows its first zero. */
  lemma StringKeptIff(ws: Words)
    requires Bytewise(ws)
    ensures CutBody(ws) == ws <==> forall k :: 0 <= k < 4 * |ws| && ZeroBy(ws, k) ==> ByteAt(ws, k) == 0
  {
    hide ByteOf, ByteAt, ZeroBy, CutBody;
    forall k | 0 <= k < 4 * |ws| ensures ByteAt(CutBody(ws), k) == if ZeroBy(ws, k) then 0 else ByteAt(ws, k) {
      CutBytes(ws, k);
    }
    if forall k :: 0 <= k < 4 * |ws| && ZeroBy(ws, k) ==> ByteAt(ws, k) == 0 {
      CutBytewise(ws);
      forall k | 0 <= k < 4 * |ws| ensures ByteAt(CutBody(ws), k) == ByteAt(ws, k) {
      }
      SameBytes(CutBody(ws), ws);
    }
  }

  /** The word of the bytes a, 0, b, 0 is copied as a, 0, 0, 0. */
  lemma ByteLost()
    ensures Bytewise([0x62_0061]) && CutBody([0x62_0061]) == [0x61] != [0x62_0061]
    ensures ZeroBy([0x62_0061], 2) && ByteAt([0x62_0061], 2) == 0x62
  {
    assert ByteAt([0x62_0061], 1) == 0;
  }

  lemma {:induction false} CutBytewise(ws: Words)
    requires Bytewise(ws)
    ensures Bytewise(CutBody(ws))
  {
    if ws != [] {
      CutBytewise(ws[1..]);
    }
  }

  lemma SameBytes(ws: Words, vs: Words)
    requires Bytewise(ws) && Bytewise(vs) && |ws| == |vs|
    requires forall k :: 0 <= k < 4 * |ws| ==> ByteAt(ws, k) == ByteAt(vs, k)
    ensures ws == vs
  {
    hide ByteOf, ByteAt;
    forall i | 0 <= i < |ws| ensures ws[i] == vs[i] {
      forall j | 0 <= j < 4 ensures ByteOf(ws[i], j) == ByteOf(vs[i], j) {
        var k := 4 * i + j;
        assert k / 4 == i && k % 4 == j;
        assert ByteAt(ws, k) == ByteAt(vs, k);
        ByteIs(ws, k, i, j);
        ByteIs(vs, k, i, j);
      }
      SameWords(ws[i], vs[i]);
    }
  }

  lemma ByteIs(ws: Words, k: nat, i: nat, j: nat)
    requires i < |ws| && j < 4 && k == 4 * i + j
    ensures ByteAt(ws, k) == ByteOf(ws[i], j)
  {
    hide ByteOf;
    assert k / 4 == i && k % 4 == j;
  }

  lemma SameWords(w: int, v: int)
    requires 0 <= w < 0x1_0000_0000 && 0 <= v < 0x1_0000_0000 && forall j :: 0 <= j < 4 ==> ByteOf(w, j) == ByteOf(v, j)
    ensures w == v
  {
    WordOfBytes(w);
    WordOfBytes(v);
    assert ByteOf(w, 0) == ByteOf(v, 0) && ByteOf(w, 1) == ByteOf(v, 1) && ByteOf(w, 2) == ByteOf(v, 2)
      && ByteOf(w, 3) == ByteOf(v, 3);
  }

  lemma WordOfBytes(w: int)
    requires 0 <= w < 0x1_0000_0000
    ensures w == ByteOf(w, 0) + 0x100 * ByteOf(w, 1) + 0x1_0000 * ByteOf(w, 2) + 0x100_0000 * ByteOf(w, 3)
  {
    hide *;
    FourBytes(w);
    BytesAre(w);
  }

  lemma BytesAre(w: int)
    ensures ByteOf(w, 0) == w % 0x100 && ByteOf(w, 1) == w / 0x100 % 0x100
    ensures ByteOf(w, 2) == w / 0x1_0000 % 0x100 && ByteOf(w, 3) == w / 0x100_0000 % 0x100
  {
  }

  lemma FourBytes(w: int)
    requires 0 <= w < 0x1_0000_0000
    ensures w ==
      w % 0x100 + 0x100 * (w / 0x100 % 0x100)
      + 0x1_0000 * (w / 0x1_0000 % 0x100) + 0x100_0000 * (w / 0x100_0000 % 0x100)
  {
    var a := w / 0x100;
    var b := a / 0x100;
    var c := b / 0x100;
    assert b == w / 0x1_0000 && c == w / 0x100_0000 && c < 0x100;
  }

  lemma {:induction false} CutTwice(ws: Words)
    ensures CutBody(CutBody(ws)) == CutBody(ws)
  {
    hide HasZero, CutWord;
    if ws != [] {
      CutStays(ws[0]);
      if HasZero(ws[0]) {
        assert CutBody(ws)[1..] == seq(|ws| - 1, _ => 0);
      } else {
        CutTwice(ws[1..]);
        assert CutBody(ws)[1..] == CutBody(ws[1..]);
      }
    }
  }

  lemma CutStays(w: int)
    ensures HasZero(w) ==> HasZero(CutWord(w)) && CutWord(CutWord(w)) == CutWord(w)
  {
    if w % 0x100 != 0 && w / 0x100 % 0x100 != 0 {
      if w / 0x1_0000 % 0x100 == 0 {
        LowBytes(w);
      } else if w / 0x100_0000 % 0x100 == 0 {
        LowBytes(w);
        MiddleByte(w);
      }
    }
  }

  /** The lowest byte of what is left modulo n bytes is the lowest byte. */
  lemma LowByte(w: int)
    ensures w % 0x1_0000 % 0x100 == w % 0x100 && w % 0x100_0000 % 0x100 == w % 0x100
  {
    var q, v := w / 0x1_0000, w % 0x1_0000;
    assert w == 0x100 * (0x100 * q + v / 0x100) + v % 0x100;
    var r, u := w / 0x100_0000, w % 0x100_0000;
    assert w == 0x100 * (0x1_0000 * r + u / 0x100) + u % 0x100;
  }

  lemma Quotient(w: int, q: int, r: int)
    requires w == 0x100 * q + r && 0 <= r < 0x100
    ensures w / 0x100 == q
  {
  }

  lemma ShiftedTwo(w: int)
    ensures w % 0x1_0000 / 0x100 == w / 0x100 % 0x100
  {
    var q, v := w / 0x1_0000, w % 0x1_0000;
    Quotient(w, 0x100 * q + v / 0x100, v % 0x100);
  }

  lemma ShiftedThree(w: int)
    ensures w % 0x100_0000 / 0x100 == w / 0x100 % 0x1_0000
  {
    var q, v := w / 0x100_0000, w % 0x100_0000;
    Quotient(w, 0x1_0000 * q + v / 0x100, v % 0x100);
  }

  lemma LowBytes(w: int)
    ensures w % 0x1_0000 % 0x100 == w % 0x100 && w % 0x1_0000 / 0x100 % 0x100 == w / 0x100 % 0x100
    ensures w % 0x100_0000 % 0x100 == w % 0x100 && w % 0x100_0000 / 0x100 % 0x100 == w / 0x100 % 0x100
  {
    LowByte(w);
    ShiftedTwo(w);
    ShiftedThree(w);
    LowByte(w / 0x100);
  }

  lemma MiddleByte(w: int)
    ensures w % 0x100_0000 / 0x1_0000 % 0x100 == w / 0x1_0000 % 0x100
  {
    var q, v := w / 0x100_0000, w % 0x100_0000;
    assert w == 0x1_0000 * (0x100 * q + v / 0x1_0000) + v % 0x1_0000;
  }

  lemma {:induction false} CutHasZero(ws: Words, k: nat)
    requires k < |ws| && HasZero(ws[k])
    ensures exists j :: 0 <= j < |ws| && HasZero(CutBody(ws)[j])
  {
    hide HasZero, CutWord;
    CutStays(ws[0]);
    if HasZero(ws[0]) {
      assert HasZero(CutBody(ws)[0]);
    } else {
      CutHasZero(ws[1..], k - 1);
      var j :| 0 <= j < |ws| - 1 && HasZero(CutBody(ws[1..])[j]);
      assert CutBody(ws)[j + 1] == CutBody(ws[1..])[j];
    }
  }

  // ---- the new heap ----

  /** The slots visited hold the words carried, the others what they held. */
  ghost predicate RootsCarried(p: Scene, f: map<int, nat>, base: int, size: nat, rs: seq<int>, rs': seq<int>,
      visits: seq<nat>) {
    && |rs'| == |rs| && (forall j :: 0 <= j < |visits| ==> visits[j] < |rs|)
    && forall v :: 0 <= v < |rs| ==>
      if v in visits then WordCarried(p, f, base, size, rs[v], rs'[v]) else rs'[v] == rs[v]
  }

  ghost function RootWords(rs: seq<int>, visits: seq<nat>): set<int>
    requires forall j :: 0 <= j < |visits| ==> visits[j] < |rs|
  {
    set j | 0 <= j < |visits| :: rs[visits[j]]
  }

  /** The heap behind a collection, as the scene of the next one. */
  function After(p: Scene, base: int, mem: Words, objs: seq<nat>, used: nat, roots: set<int>): Scene {
    Scene(base, mem, objs, used, 0, 0, p.outsiders, roots)
  }

  lemma CarriedWordOk(p: Scene, f: map<int, nat>, base: int, mem: Words, objs: seq<nat>, used: nat, roots: set<int>,
      w: int, w': int)
    requires WordOk(p, w) && WordCarried(p, f, base, |mem|, w, w') && Carried(p, f, base, mem, objs)
    requires Parsed(mem, objs, used) && used < |mem| && base % 4 == 0
    ensures WordOk(After(p, base, mem, objs, used, roots), w')
    ensures IsRef(p, w) ==>
      IsRef(After(p, base, mem, objs, used, roots), w') && Of(After(p, base, mem, objs, used, roots), w') == f[Of(p, w)]
    ensures !IsRef(p, w) ==> !IsRef(After(p, base, mem, objs, used, roots), w')
  {
    hide Parsed, ObjectCarried, Address, InSpace, Target;
    var q := After(p, base, mem, objs, used, roots);
    if IsRef(p, w) {
      var d := f[Of(p, w)];
      ObjectPlace(q, d);
      AddressIn(base, |mem|, d);
    }
  }

  lemma NewHeapOk(p: Scene, f: map<int, nat>, base: int, mem: Words, objs: seq<nat>, used: nat, rs: seq<int>,
      rs': seq<int>, visits: seq<nat>)
    requires HeapOk(p) && Carried(p, f, base, mem, objs) && Parsed(mem, objs, used) && used < |mem| && base % 4 == 0
    requires RootsCarried(p, f, base, |mem|, rs, rs', visits) && p.roots == RootWords(rs, visits)
    ensures HeapOk(After(p, base, mem, objs, used, RootWords(rs', visits)))
  {
    hide Parsed, WordOk, WordCarried, FieldsOk, Terminated, IsRef, ObjectCarried;
    var roots := RootWords(rs', visits);
    var q := After(p, base, mem, objs, used, roots);
    forall w' | w' in roots ensures WordOk(q, w') {
      var j :| 0 <= j < |visits| && rs'[visits[j]] == w';
      assert visits[j] in visits;
      assert rs[visits[j]] in p.roots;
      CarriedWordOk(p, f, base, mem, objs, used, roots, rs[visits[j]], w');
    }
    forall d | d in objs ensures FieldsOfOk(q, d) && Terminated(mem, d) {
      var i :| 0 <= i < |objs| && objs[i] == d;
      assert Hit(f, objs[i]);
      var c :| c in f && f[c] == objs[i];
      NewFieldsOk(p, f, base, mem, objs, used, roots, c);
      NewTerminated(p, f, base, mem, c);
    }
    FieldsOfAll(q);
  }

  ghost predicate FieldsOfOk(p: Scene, c: int) {
    forall k :: c <= k < FieldsEnd(p.mem, c) && 0 <= k < |p.mem| ==> WordOk(p, p.mem[k])
  }

  lemma FieldsOfAll(p: Scene)
    requires forall c :: c in p.objs ==> FieldsOfOk(p, c)
    ensures FieldsOk(p)
  {
    hide WordOk;
  }

  lemma NewFieldsOk(p: Scene, f: map<int, nat>, base: int, mem: Words, objs: seq<nat>, used: nat, roots: set<int>,
      c: int)
    requires HeapOk(p) && Carried(p, f, base, mem, objs) && Parsed(mem, objs, used) && used < |mem| && base % 4 == 0
    requires c in f
    ensures FieldsOfOk(After(p, base, mem, objs, used, roots), f[c])
  {
    hide Parsed, WordOk, WordCarried, FieldsOk, Terminated, IsRef, Kind, Body, Header;
    var q := After(p, base, mem, objs, used, roots);
    var d := f[c];
    assert ObjectCarried(p, f, base, mem, c);
    forall k | d <= k < FieldsEnd(mem, d) && 0 <= k < |mem| ensures WordOk(q, mem[k]) {
      assert FieldCarried(p, f, base, mem, c, k - d);
      FieldWordOk(p, c, k - d);
      CarriedWordOk(p, f, base, mem, objs, used, roots, p.mem[c + (k - d)], mem[k]);
    }
  }

  lemma NewTerminated(p: Scene, f: map<int, nat>, base: int, mem: Words, c: int)
    requires HeapOk(p) && c in f && c in p.objs && ObjectCarried(p, f, base, mem, c)
    ensures Terminated(mem, f[c])
  {
    hide Parsed, WordOk, WordCarried, FieldsOk, IsRef, HasZero, CutBody;
    if Kind(Header(p.mem, c)) == STRING {
      assert Terminated(p.mem, c);
      var end := Back(p.mem, c);
      var k :| c <= k < end && k < |p.mem| && HasZero(p.mem[k]);
      var ws := p.mem[c..end];
      assert ws[k - c] == p.mem[k];
      CutHasZero(ws, k - c);
      var j :| 0 <= j < |ws| && HasZero(CutBody(ws)[j]);
      var n := end - c;
      assert mem[f[c]..f[c] + n][j] == mem[f[c] + j];
    }
  }

  // ---- one collection after another ----

  /** What is reachable stays reachable. */
  lemma ImageReached(p: Scene, f: map<int, nat>, base: int, mem: Words, objs: seq<nat>, used: nat, rs: seq<int>,
      rs': seq<int>, visits: seq<nat>, c: int)
    requires HeapOk(p) && Carried(p, f, base, mem, objs) && Parsed(mem, objs, used) && used < |mem| && base % 4 == 0
    requires RootsCarried(p, f, base, |mem|, rs, rs', visits) && p.roots == RootWords(rs, visits)
    requires c in f && Reached(p, c)
    ensures Reached(After(p, base, mem, objs, used, RootWords(rs', visits)), f[c])
  {
    hide Parsed, WordOk, WordCarried, FieldsOk, Terminated, IsRef, ObjectCarried, HeapOk, Reached, Of, FieldsEnd;
    var q := After(p, base, mem, objs, used, RootWords(rs', visits));
    forall s: set<int> | Closed(q, s) ensures f[c] in s {
      var back := set x | x in f && f[x] in s;
      forall w | w in p.roots && IsRef(p, w) ensures Of(p, w) in back {
        RootBack(p, f, base, mem, objs, used, rs, rs', visits, w, s);
      }
      forall x, k | x in back && x in p.objs && x <= k < FieldsEnd(p.mem, x) && k < |p.mem|
        && IsRef(p, p.mem[k]) ensures Of(p, p.mem[k]) in back {
        FieldBack(p, f, base, mem, objs, used, RootWords(rs', visits), x, k, s);
      }
      assert Closed(p, back);
      ReachedIn(p, c, back);
    }
    ReachedAll(q, f[c]);
  }

  lemma ReachedIn(p: Scene, c: int, s: set<int>)
    requires Reached(p, c) && Closed(p, s)
    ensures c in s
  {
    hide Closed;
  }

  lemma ReachedAll(p: Scene, c: int)
    requires forall s: set<int> :: Closed(p, s) ==> c in s
    ensures Reached(p, c)
  {
    hide Closed;
  }

  lemma RootBack(p: Scene, f: map<int, nat>, base: int, mem: Words, objs: seq<nat>, used: nat, rs: seq<int>,
      rs': seq<int>, visits: seq<nat>, w: int, s: set<int>)
    requires HeapOk(p) && Carried(p, f, base, mem, objs) && Parsed(mem, objs, used) && used < |mem| && base % 4 == 0
    requires RootsCarried(p, f, base, |mem|, rs, rs', visits) && p.roots == RootWords(rs, visits) && w in p.roots
    requires IsRef(p, w)
    requires Closed(After(p, base, mem, objs, used, RootWords(rs', visits)), s)
    ensures Of(p, w) in f && f[Of(p, w)] in s
  {
    hide Parsed, WordOk, FieldsOk, Terminated, IsRef, ObjectCarried, Of;
    var j :| 0 <= j < |visits| && rs[visits[j]] == w;
    assert visits[j] in visits;
    var w' := rs'[visits[j]];
    assert w' in RootWords(rs', visits);
    CarriedWordOk(p, f, base, mem, objs, used, RootWords(rs', visits), w, w');
  }

  lemma FieldBack(p: Scene, f: map<int, nat>, base: int, mem: Words, objs: seq<nat>, used: nat, roots: set<int>, x: int,
      k: int, s: set<int>)
    requires HeapOk(p) && Carried(p, f, base, mem, objs) && Parsed(mem, objs, used) && used < |mem| && base % 4 == 0
    requires x in f && f[x] in s && x <= k < FieldsEnd(p.mem, x) && 0 <= k < |p.mem| && IsRef(p, p.mem[k])
    requires Closed(After(p, base, mem, objs, used, roots), s)
    ensures Of(p, p.mem[k]) in f && f[Of(p, p.mem[k])] in s
  {
    hide Parsed, WordOk, FieldsOk, Terminated, IsRef, Of, Kind, Body, Header;
    var d := f[x];
    assert ObjectCarried(p, f, base, mem, x);
    assert FieldCarried(p, f, base, mem, x, k - x);
    FieldWordOk(p, x, k - x);
    CarriedWordOk(p, f, base, mem, objs, used, roots, p.mem[k], mem[d + (k - x)]);
    assert d <= d + (k - x) < FieldsEnd(mem, d);
  }

  /** First f, then g. */
  function Then(f: map<int, nat>, g: map<int, nat>): map<int, nat> {
    map c | c in f && f[c] in g :: g[f[c]]
  }

  lemma WordTwice(p: Scene, f: map<int, nat>, q: Scene, g: map<int, nat>, base: int, size: nat, w: int, w1: int,
      w2: int)
    requires WordCarried(p, f, q.base, |q.mem|, w, w1) && WordCarried(q, g, base, size, w1, w2)
    requires IsRef(p, w) ==> IsRef(q, w1) && Of(q, w1) == f[Of(p, w)]
    ensures WordCarried(p, Then(f, g), base, size, w, w2)
  {
  }

  lemma ObjectTwice(p: Scene, f: map<int, nat>, q: Scene, g: map<int, nat>, base: int, mem: Words, c: int)
    requires HeapOk(p) && HeapOk(q) && Carried(p, f, q.base, q.mem, q.objs) && q.outsiders == p.outsiders
    requires c in f && f[c] in g && f[c] in q.objs && ObjectCarried(q, g, base, mem, f[c])
    ensures ObjectCarried(p, Then(f, g), base, mem, c)
  {
    hide Parsed, WordOk, WordCarried, FieldsOk, Terminated, IsRef, Kind, Body, CutBody, Header;
    assert ObjectCarried(p, f, q.base, q.mem, c);
    var n := Back(p.mem, c) - c;
    if Kind(Header(p.mem, c)) == STRING {
      CutTwice(p.mem[c..c + n]);
    } else {
      forall k | 0 <= k < n ensures FieldCarried(p, Then(f, g), base, mem, c, k) {
        assert FieldCarried(p, f, q.base, q.mem, c, k);
        assert FieldCarried(q, g, base, mem, f[c], k);
        FieldWordOk(p, c, k);
        CarriedRef(p, f, q, p.mem[c + k], q.mem[f[c] + k]);
        WordTwice(p, f, q, g, base, |mem|, p.mem[c + k], q.mem[f[c] + k], mem[g[f[c]] + k]);
      }
    }
  }

  lemma CarriedRef(p: Scene, f: map<int, nat>, q: Scene, w: int, w': int)
    requires HeapOk(q) && Carried(p, f, q.base, q.mem, q.objs) && WordOk(p, w)
    requires WordCarried(p, f, q.base, |q.mem|, w, w')
    ensures IsRef(p, w) ==> IsRef(q, w') && Of(q, w') == f[Of(p, w)]
  {
    hide Parsed, FieldsOk, Terminated, ObjectCarried, Address, InSpace, Target;
    if IsRef(p, w) {
      ObjectPlace(q, f[Of(p, w)]);
      AddressIn(q.base, |q.mem|, f[Of(p, w)]);
    }
  }

  /** Two collections keep what one keeps. */
  lemma CarriedTwice(p: Scene, f: map<int, nat>, q: Scene, g: map<int, nat>, base: int, mem: Words, objs: seq<nat>)
    requires HeapOk(p) && HeapOk(q) && q.outsiders == p.outsiders
    requires Carried(p, f, q.base, q.mem, q.objs) && Carried(q, g, base, mem, objs) && forall c :: c in f ==> f[c] in g
    ensures Carried(p, Then(f, g), base, mem, objs) && Then(f, g).Keys == f.Keys
  {
    hide HeapOk, ObjectCarried;
    var h := Then(f, g);
    forall c | c in h ensures c in p.objs && h[c] in objs && ObjectCarried(p, h, base, mem, c) {
      ObjectTwice(p, f, q, g, base, mem, c);
    }
    forall i | 0 <= i < |objs| ensures Hit(h, objs[i]) {
      assert Hit(g, objs[i]);
      var d :| d in g && g[d] == objs[i];
      var j :| 0 <= j < |q.objs| && q.objs[j] == d;
      assert Hit(f, q.objs[j]);
      var c :| c in f && f[c] == q.objs[j];
      assert h[c] == objs[i];
    }
    forall c ensures c in h <==> c in f {
    }
  }

  lemma RootsTwice(p: Scene, f: map<int, nat>, q: Scene, g: map<int, nat>, base: int, size: nat, rs: seq<int>,
      rs1: seq<int>, rs2: seq<int>, visits: seq<nat>)
    requires HeapOk(p) && HeapOk(q) && Carried(p, f, q.base, q.mem, q.objs)
    requires RootsCarried(p, f, q.base, |q.mem|, rs, rs1, visits) && p.roots == RootWords(rs, visits)
    requires RootsCarried(q, g, base, size, rs1, rs2, visits)
    ensures RootsCarried(p, Then(f, g), base, size, rs, rs2, visits)
  {
    hide Parsed, FieldsOk, Terminated, Carried, WordOk, WordCarried, IsRef;
    forall v | 0 <= v < |rs| && v in visits ensures WordCarried(p, Then(f, g), base, size, rs[v], rs2[v]) {
      var j :| 0 <= j < |visits| && visits[j] == v;
      assert rs[visits[j]] in p.roots;
      CarriedRef(p, f, q, rs[v], rs1[v]);
      WordTwice(p, f, q, g, base, size, rs[v], rs1[v], rs2[v]);
    }
  }

  /** Where to-space lies does not matter for all this. */
  lemma Elsewhere(p: Scene, tbase: int, tsize: nat, f: map<int, nat>, base: int, mem: Words, objs: seq<nat>)
    ensures var q := p.(tbase := tbase, tsize := tsize);
      (Carried(q, f, base, mem, objs) <==> Carried(p, f, base, mem, objs)) && (HeapOk(q) <==> HeapOk(p))
  {
    var q := p.(tbase := tbase, tsize := tsize);
    hide Parsed, CutBody, Terminated, HasZero, Hit;
    assert forall w :: WordOk(q, w) == WordOk(p, w);
    forall c | c in f ensures ObjectCarried(q, f, base, mem, c) <==> ObjectCarried(p, f, base, mem, c) {
      assert forall k :: FieldCarried(q, f, base, mem, c, k) == FieldCarried(p, f, base, mem, c, k);
    }
  }

  lemma ReachedElsewhere(p: Scene, tbase: int, tsize: nat, c: int)
    ensures Reached(p.(tbase := tbase, tsize := tsize), c) <==> Reached(p, c)
  {
    var q := p.(tbase := tbase, tsize := tsize);
    forall s: set<int> ensures Closed(q, s) <==> Closed(p, s) {
    }
  }

  /** A finished pass over p, seen from the new heap. */
  lemma PassOutcome(p: Scene, q: Scene, s: Progress, b: Words, cur: nat, mem: Words, rs: seq<int>, rs': seq<int>,
      visits: seq<nat>)
    requires HeapOk(p) && q == p.(tbase := q.tbase, tsize := q.tsize) && q.tbase % 4 == 0
    requires ToState(q, s, b, cur) && DoneFrom(q, s, b, 0) && b <= mem && cur < |mem|
    requires forall x :: x in p.outsiders ==> !InSpace(q.tbase, |mem|, x)
    requires |rs'| == |rs| && (forall j :: 0 <= j < |visits| ==> visits[j] < |rs|) && p.roots == RootWords(rs, visits)
    requires forall v :: 0 <= v < |rs| ==> if v in visits then Redirected(q, s, rs[v], rs'[v]) else rs'[v] == rs[v]
    ensures Carried(p, s.fwd, q.tbase, mem, News(q, s)) && RootsCarried(p, s.fwd, q.tbase, |mem|, rs, rs', visits)
    ensures (forall c :: c in s.fwd <==> Reached(p, c))
    ensures HeapOk(After(p, q.tbase, mem, News(q, s), cur, RootWords(rs', visits)))
  {
    hide Parsed, Terminated, FieldsOk, Reached, Total, SameHead, Carried, WordOk, IsRef, InSpace, WordCarried,
      Redirected, DoneFrom;
    Elsewhere(p, q.tbase, q.tsize, s.fwd, q.tbase, mem, News(q, s));
    PassCarries(q, s, b, cur, mem);
    forall v | 0 <= v < |rs| && v in visits ensures WordCarried(p, s.fwd, q.tbase, |mem|, rs[v], rs'[v]) {
      var j :| 0 <= j < |visits| && visits[j] == v;
      assert rs[visits[j]] in p.roots;
      RootOutcome(p, q, s, |mem|, rs[v], rs'[v]);
    }
    forall w | w in q.roots && IsRef(q, w) ensures Of(q, w) in s.fwd {
      var j :| 0 <= j < |visits| && rs[visits[j]] == w;
      assert visits[j] in visits;
      RedirectedIn(q, s, w, rs'[visits[j]]);
    }
    ExactlyReached(q, s, b, cur);
    forall c ensures c in s.fwd <==> Reached(p, c) {
      ReachedElsewhere(p, q.tbase, q.tsize, c);
    }
    LongerParsed(b, mem, News(q, s), cur);
    NewHeapOk(p, s.fwd, q.tbase, mem, News(q, s), cur, rs, rs', visits);
  }

  lemma RootOutcome(p: Scene, q: Scene, s: Progress, size: nat, w: int, w': int)
    requires q == p.(tbase := q.tbase, tsize := q.tsize) && WordOk(p, w) && Redirected(q, s, w, w')
    requires forall x :: x in p.outsiders ==> !InSpace(q.tbase, size, x)
    ensures WordCarried(p, s.fwd, q.tbase, size, w, w')
  {
  }

  lemma RedirectedIn(p: Scene, s: Progress, w: int, w': int)
    requires Redirected(p, s, w, w') && IsRef(p, w)
    ensures Of(p, w) in s.fwd
  {
  }

  lemma LongerParsed(b: Words, mem: Words, objs: seq<nat>, used: int)
    requires Parsed(b, objs, used) && b <= mem
    ensures Parsed(mem, objs, used)
  {
    hide HeaderOk, Body;
    forall i | 0 <= i < |objs| ensures Header(mem, objs[i]) == Header(b, objs[i]) && ObjectAt(b, objs, i) {
      assert ObjectAt(b, objs, i);
    }
    forall i | 0 <= i < |objs| ensures ObjectAt(mem, objs, i) {
      assert ObjectAt(b, objs, i);
    }
  }
}
