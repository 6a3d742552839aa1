/** The heap of the copying collector (runtime32/runtime.c:23-35, 1585-1620): two spaces of 4-byte words; an object
    is a header word with kind and length, in front of its contents, and for an s-expression a tag word before that.
    Objects are named by where their contents start. */
module CopyingHeap {
  type Words = seq<int>

  const STRING := 1
  const ARRAY := 3
  const SEXP := 5
  const CLOSURE := 7

  /** TAG and LEN. */
  function Kind(header: int): int { header % 8 }

  function Len(header: int): int { header / 8 }

  predicate HeaderOk(w: int) { w >= 0 && Kind(w) in {STRING, ARRAY, SEXP, CLOSURE} }

  /** Words in front of the contents. */
  function Head(header: int): nat { if Kind(header) == SEXP then 2 else 1 }

  /** Words of the contents; a string has room for its bytes and a zero. */
  function Body(header: int): nat {
    if header < 0 then 0 else if Kind(header) == STRING then (Len(header) + 4) / 4 else Len(header)
  }

  /** What gc_copy adds to current for each kind. */
  function Size(header: int): nat
    requires HeaderOk(header)
  {
    var len := Len(header);
    if Kind(header) == CLOSURE then len + 1
    else if Kind(header) == ARRAY then ((len + 1) * 4 - 1) / 4 + 1
    else if Kind(header) == STRING then (len + 4) / 4 + 1
    else len + 2
  }

  lemma SizeSplits(header: int)
    requires HeaderOk(header)
    ensures Size(header) == Head(header) + Body(header)
  {
  }

  // ---- objects ----

  function Header(mem: Words, c: int): int { if 1 <= c <= |mem| then mem[c - 1] else 0 }

  /** The first word of the object and the first one behind it. */
  function Front(mem: Words, c: int): int { c - Head(Header(mem, c)) }

  function Back(mem: Words, c: int): int { c + Body(Header(mem, c)) }

  function Start(mem: Words, objs: seq<nat>, i: nat): int
    requires i <= |objs|
  {
    if i == 0 then 0 else Back(mem, objs[i - 1])
  }

  ghost predicate ObjectAt(mem: Words, objs: seq<nat>, i: nat)
    requires i < |objs|
  {
    1 <= objs[i] <= |mem| && HeaderOk(Header(mem, objs[i])) && Front(mem, objs[i]) == Start(mem, objs, i)
  }

  /** The objects lie one behind the other and fill the first used words. */
  ghost predicate Parsed(mem: Words, objs: seq<nat>, used: int) {
    && (forall i :: 0 <= i < |objs| ==> ObjectAt(mem, objs, i))
    && used == Start(mem, objs, |objs|) && used <= |mem|
  }

  lemma FrontBack(mem: Words, c: int)
    ensures Front(mem, c) < c <= Back(mem, c)
  {
  }

  lemma {:induction false} Apart(mem: Words, objs: seq<nat>, used: int, i: nat, j: nat)
    requires Parsed(mem, objs, used) && i < j < |objs|
    ensures Back(mem, objs[i]) <= Front(mem, objs[j])
    decreases j
  {
    hide Front, Back, HeaderOk;
    assert ObjectAt(mem, objs, j);
    if i < j - 1 {
      assert ObjectAt(mem, objs, j - 1);
      FrontBack(mem, objs[j - 1]);
      Apart(mem, objs, used, i, j - 1);
    }
  }

  /** Each object lies within the used words. */
  lemma Within(mem: Words, objs: seq<nat>, used: int, i: nat)
    requires Parsed(mem, objs, used) && i < |objs|
    ensures 1 <= objs[i] <= |mem| && HeaderOk(Header(mem, objs[i]))
    ensures 0 <= Front(mem, objs[i]) && Back(mem, objs[i]) <= used
  {
    hide Front, Back, HeaderOk;
    var last := |objs| - 1;
    assert ObjectAt(mem, objs, i) && ObjectAt(mem, objs, last) && ObjectAt(mem, objs, 0);
    FrontBack(mem, objs[0]);
    FrontBack(mem, objs[last]);
    if i < last {
      Apart(mem, objs, used, i, last);
    }
    if 0 < i {
      Apart(mem, objs, used, 0, i);
    }
  }

  /** The contents and the tag word of an object hold no header of another object. */
  lemma NoHeaderInside(mem: Words, objs: seq<nat>, used: int, c: nat, d: nat, k: int)
    requires Parsed(mem, objs, used) && c in objs && d in objs
    requires c <= k < Back(mem, c) || Front(mem, c) <= k < c - 1
    ensures k != d - 1
  {
    hide Front, Back, HeaderOk;
    var i :| 0 <= i < |objs| && objs[i] == c;
    var j :| 0 <= j < |objs| && objs[j] == d;
    FrontBack(mem, c);
    FrontBack(mem, d);
    if i < j {
      Apart(mem, objs, used, i, j);
    } else if j < i {
      Apart(mem, objs, used, j, i);
    }
  }

  lemma Ascending(mem: Words, objs: seq<nat>, used: int, i: nat, j: nat)
    requires Parsed(mem, objs, used) && i < j < |objs|
    ensures objs[i] < objs[j]
  {
    hide Front, Back, HeaderOk;
    Apart(mem, objs, used, i, j);
    FrontBack(mem, objs[i]);
    FrontBack(mem, objs[j]);
  }

  // ---- references ----

  function Address(base: int, c: int): int { base + 4 * c }

  function Target(base: int, w: int): int { (w - base) / 4 }

  /** The tests for references into from-space and to-space: even, and within the space. */
  predicate InSpace(base: int, size: nat, w: int) { w % 2 == 0 && base <= w < base + 4 * size }

  lemma AddressIn(base: int, size: nat, c: nat)
    requires base % 4 == 0 && c < size
    ensures InSpace(base, size, Address(base, c)) && Target(base, Address(base, c)) == c
  {
    var b := base / 4;
    assert base == 4 * b;
    assert Address(base, c) == 2 * (2 * b + 2 * c);
    assert (4 * c) / 4 == c;
  }

  // ---- strings ----

  predicate HasZero(w: int) { w % 0x100 == 0 || w / 0x100 % 0x100 == 0 || w / 0x1_0000 % 0x100 == 0
      || w / 0x100_0000 % 0x100 == 0 }

  /** The bytes of a word in front of its first zero byte. */
  function CutWord(w: int): int {
    if w % 0x100 == 0 then 0
    else if w / 0x100 % 0x100 == 0 then w % 0x100
    else if w / 0x1_0000 % 0x100 == 0 then w % 0x1_0000
    else if w / 0x100_0000 % 0x100 == 0 then w % 0x100_0000
    else w
  }

  /** What strcpy leaves in zeroed words: everything in front of the first zero byte. */
  function CutBody(ws: Words): (r: Words)
    ensures |r| == |ws|
  {
    if ws == [] then []
    else if HasZero(ws[0]) then [CutWord(ws[0])] + seq(|ws| - 1, _ => 0)
    else [ws[0]] + CutBody(ws[1..])
  }
}
