/** The assembler (src/SM.ml:101-367): one pass that appends code, numbers strings and globals and remembers which
    label operands are open; a second that fills them in; and the file with its sections as the interpreter's loader
    splits it again (byterun/byterun.h:12-176). */
module Assembler {
  import opened Wrappers
  import opened LamaValues
  import opened StackMachine
  import opened ByteFormat
  import opened Translation
  import opened OpcodeMeaning

  /** What the assembler can write: no function as a variable, names of bytes. */
  predicate Assemblable(i: Insn) {
    && (forall j :: 0 <= j < |PlacesOf(i)| ==> Addressable(PlacesOf(i)[j]))
    && (StringOf(i).Some? ==> ByteString(StringOf(i).value))
    && (i.PUBLIC? ==> i.name.Named? && ByteString(i.name.name))
  }

  /** The sections of a bytecode file. */
  datatype File = File(strings: seq<Byte>, globals: nat, publics: seq<(nat, nat)>, code: seq<Byte>)

  ghost predicate StringsHeld(table: seq<Byte>, index: map<string, nat>) {
    forall s :: s in index ==> Holds(table, index[s], s)
  }

  ghost predicate Numbered(globals: map<string, nat>, count: nat) {
    && (forall x :: x in globals ==> globals[x] < count)
    && (forall x, y :: x in globals && y in globals && x != y ==> globals[x] != globals[y])
  }

  predicate Publishes(i: Insn, x: string) { i == PUBLIC(Named(x)) }

  ghost predicate Published(p: Prog, x: string) { exists j :: 0 <= j < |p| && Publishes(p[j], x) }

  ghost predicate PublicsOf(pubs: seq<string>, p: Prog) { forall x :: x in pubs <==> Published(p, x) }

  class Writer {
    var code: seq<Byte>
    var strings: seq<Byte>
    var smap: map<string, nat>
    var lmap: map<Label, nat>
    var globals: map<string, nat>
    var globCount: nat
    var pubs: seq<string>
    var fixups: seq<(nat, Label)>

    ghost function All(): Names
      reads this
    {
      Names(smap, globals)
    }

    ghost predicate Tables()
      reads this
    {
      StringsHeld(strings, smap) && Numbered(globals, globCount)
    }

    /** The state after the instructions p. */
    ghost predicate Done(p: Prog)
      reads this
    {
      && Tables() && AllNamed(All(), p) && code == Draft(All(), p)
      && LabelsOf(lmap, p) && fixups == Fixups(p) && PublicsOf(pubs, p)
    }

    constructor ()
      ensures Done([])
    {
      code, strings, smap, lmap, globals, globCount, pubs, fixups := [], [], map[], map[], map[], 0, [], [];
    }

    /** StringTab.add: the index of the string, a new one at the end of the table if need be. */
    method AddString(s: string) returns (i: nat)
      requires Tables() && ByteString(s)
      modifies this`smap, this`strings
      ensures Tables() && Grow(old(All()), All()) && s in smap && smap[s] == i
    {
      if s in smap {
        i := smap[s];
      } else {
        i := |strings|;
        StringAdded(strings, smap, s);
        strings := strings + StringBytes(s);
        smap := smap[s := i];
      }
    }

    method AddGlobal(x: string)
      requires Tables()
      modifies this`globals, this`globCount
      ensures Tables() && Grow(old(All()), All()) && x in globals
    {
      if x !in globals {
        globals := globals[x := globCount];
        globCount := globCount + 1;
      }
    }

    /** add_designations, as far as names are concerned. */
    method AddPlaces(ds: seq<Designation>)
      requires Tables()
      modifies this`globals, this`globCount
      ensures Tables() && Grow(old(All()), All()) && forall j :: 0 <= j < |ds| ==> Known(All(), ds[j])
    {
      var i := 0;
      while i < |ds|
        invariant 0 <= i <= |ds| && Tables() && Grow(old(All()), All())
        invariant forall j :: 0 <= j < i ==> Known(All(), ds[j])
      {
        if ds[i].Global? {
          AddGlobal(ds[i].name);
        }
        i := i + 1;
      }
    }

    /** The names an instruction needs. */
    method NameParts(i: Insn, ghost p: Prog)
      requires Done(p) && Assemblable(i)
      modifies this`smap, this`strings, this`globals, this`globCount
      ensures Done(p) && HasNames(All(), i)
    {
      hide Draft, Fixups, LabelsOf, HasNames, PlacesOf, StringOf, StringsHeld, Numbered, Grow, PublicsOf, AllNamed;
      ghost var before := All();
      AddPlaces(PlacesOf(i));
      ghost var mid := All();
      if StringOf(i).Some? {
        var _ := AddString(StringOf(i).value);
      } else {
        GrowSame(mid);
      }
      GrowTwice(before, mid, All(), PlacesOf(i));
      DraftGrows(before, All(), p);
      NowNamed(All(), i);
    }

    /** add_lab and add_public: no code. */
    method Note(i: Insn, ghost p: Prog)
      requires Done(p) && HasNames(All(), i) && Pseudo(i) && (i.PUBLIC? ==> i.name.Named?)
      modifies this`lmap, this`pubs
      ensures Done(p + [i])
    {
      hide Draft, InsnBytes, Fixups, LabelsOf, HasNames, TargetOf, StringsHeld, Numbered, PublicsOf, AllNamed, Offset;
      AppendDraft(All(), p, i);
      AppendTables(lmap, fixups, pubs, p, i, |code|);
      DraftSize(All(), p);
      NoBytes(All(), i);
      match i {
        case LABEL(l) => lmap := lmap[l := |code|];
        case FLABEL(l) => lmap := lmap[l := |code|];
        case SLABEL(l) => lmap := lmap[l := |code|];
        case PUBLIC(l) => pubs := if l.name in pubs then pubs else pubs + [l.name];
        case _ =>
      }
    }

    /** add_bytes, add_ints and add_fixup. */
    method Emit(i: Insn, ghost p: Prog)
      requires Done(p) && HasNames(All(), i) && !Pseudo(i)
      modifies this`code, this`fixups
      ensures Done(p + [i])
    {
      hide Draft, InsnBytes, Fixups, LabelsOf, HasNames, TargetOf, StringsHeld, Numbered, PublicsOf, AllNamed, Offset;
      AppendDraft(All(), p, i);
      AppendTables(lmap, fixups, pubs, p, i, |code|);
      DraftSize(All(), p);
      if TargetOf(i).Some? {
        fixups := [(|code| + 1, TargetOf(i).value)] + fixups;
      }
      code := code + BytesOfInsn(Names(smap, globals), i);
    }

    /** insn_code. */
    method InsnCode(i: Insn, ghost p: Prog)
      requires Done(p) && Assemblable(i)
      modifies this
      ensures Done(p + [i])
    {
      hide Done, HasNames;
      NameParts(i, p);
      if Pseudo(i) {
        Note(i, p);
      } else {
        Emit(i, p);
      }
    }

    /** The second pass. */
    method Patch(p: Prog)
      requires Done(p) && AllDefined(lmap, p)
      modifies this`code, this`fixups
      ensures code == Final(All(), lmap, p) + [255]
    {
      hide Draft, Final, InsnBytes, Fixups, LabelsOf, HasNames, TargetOf, StringsHeld, Numbered, Bytes, IntBytes,
        AllDefined, Mixed, PublicsOf;
      ghost var names, labels := All(), lmap;
      code := code + [255];
      ghost var c: nat := |p|;
      StartMixed(names, labels, p);
      while fixups != []
        invariant c <= |p| && All() == names && lmap == labels
        invariant code == Mixed(names, labels, p, c) + [255] && fixups == Fixups(p[..c])
        decreases c
      {
        ghost var j := NextFixup(names, labels, p, c);
        FixupHead(p, c, j);
        var (ofs, l) := fixups[0];
        fixups := fixups[1..];
        LabelDefined(labels, p, j);
        PatchFills(names, labels, p, j);
        PatchEnd(Mixed(names, labels, p, j + 1), ofs, IntBytes(lmap[l]));
        code := code[..ofs] + IntBytes(lmap[l]) + code[ofs + 4..];
        c := j;
      }
      MixedDone(names, labels, p, c);
    }

    /** The table of public names. */
    method Publish() returns (table: seq<(nat, nat)>)
      requires Tables() && forall j :: 0 <= j < |pubs| ==> ByteString(pubs[j]) && Named(pubs[j]) in lmap
      modifies this`smap, this`strings
      ensures Tables() && Grow(old(All()), All()) && |table| == |pubs|
      ensures forall j :: 0 <= j < |pubs| ==> Holds(strings, table[j].0, pubs[j]) && table[j].1 == lmap[Named(pubs[j])]
    {
      hide Holds, StringsHeld;
      table := [];
      var k := 0;
      GrowSame(All());
      while k < |pubs|
        invariant 0 <= k <= |pubs| && |table| == k && Tables() && Grow(old(All()), All())
        invariant forall j :: 0 <= j < k ==> pubs[j] in smap && table[j] == (smap[pubs[j]], lmap[Named(pubs[j])])
      {
        ghost var before := All();
        var i := AddString(pubs[k]);
        GrowTwice(old(All()), before, All(), []);
        StillThere(before, All());
        table := table + [(i, lmap[Named(pubs[k])])];
        k := k + 1;
      }
      forall j | 0 <= j < |pubs| ensures Holds(strings, table[j].0, pubs[j]) {
        HeldAt(strings, smap, pubs[j]);
      }
    }
  }

  /** The bytes of an instruction with its label operand zero. */
  function BytesOfInsn(names: Names, i: Insn): seq<Byte>
    requires HasNames(names, i)
  {
    InsnBytes(names, i, 0)
  }

  predicate Wanted(p: Prog, i: Insn) {
    && (TargetOf(i).Some? ==> LastMark(p, TargetOf(i).value).Some?)
    && (i.PUBLIC? ==> LastMark(p, i.name).Some?)
  }

  /** Everything can be written, and every label meant is defined. */
  predicate WellLinked(p: Prog) {
    forall j :: 0 <= j < |p| ==> Assemblable(p[j]) && Wanted(p, p[j])
  }

  /** What a file holds of a program. */
  ghost predicate Assembled(f: File, names: Names, labels: map<Label, nat>, p: Prog) {
    && AllNamed(names, p) && LabelsOf(labels, p) && AllDefined(labels, p)
    && (forall j :: 0 <= j < |p| ==> Assemblable(p[j]))
    && f.code == Final(names, labels, p) + [255]
    && StringsHeld(f.strings, names.strings) && Numbered(names.globals, f.globals)
    && (forall j :: 0 <= j < |p| && p[j].PUBLIC? ==> Listed(f.publics, f.strings, labels, p[j].name))
    && (forall k :: 0 <= k < |f.publics| ==> Justified(f.publics[k], f.strings, labels, p))
  }

  /** An entry is that of a public name of the program. */
  ghost predicate Justified(entry: (nat, nat), strings: seq<Byte>, labels: map<Label, nat>, p: Prog) {
    exists x :: Published(p, x) && Holds(strings, entry.0, x) && Named(x) in labels && entry.1 == labels[Named(x)]
  }

  /** A public name has an entry with its name and its offset. */
  ghost predicate Listed(table: seq<(nat, nat)>, strings: seq<Byte>, labels: map<Label, nat>, l: Label) {
    && l.Named? && l in labels
    && exists k :: 0 <= k < |table| && Holds(strings, table[k].0, l.name) && table[k].1 == labels[l]
  }

  /** ByteCode.compile: None where it fails, on a function used as a variable or an undefined label. */
  method Assemble(p: Prog) returns (r: Option<File>, ghost names: Names, ghost labels: map<Label, nat>)
    ensures r.Some? <==> WellLinked(p)
    ensures r.Some? ==> Assembled(r.value, names, labels, p)
  {
    hide Draft, Final, InsnBytes, Fixups, LabelsOf, HasNames, StringsHeld, Numbered, Holds, AllDefined, Assemblable,
      PublicsOf, TargetOf, LastMark, Grow;
    names, labels := Names(map[], map[]), map[];
    var w := new Writer();
    var i := 0;
    assert p[..0] == [];
    while i < |p|
      invariant 0 <= i <= |p| && w.Done(p[..i]) && fresh(w)
      invariant forall j :: 0 <= j < i ==> Assemblable(p[j])
    {
      if !Assemblable(p[i]) {
        return None, names, labels;
      }
      w.InsnCode(p[i], p[..i]);
      assert p[..i] + [p[i]] == p[..i + 1];
      i := i + 1;
    }
    assert p[..i] == p;
    LinkedMeans(w.lmap, w.pubs, p);
    if !Linked(w.lmap, p) {
      return None, names, labels;
    }
    w.Patch(p);
    PublicsReady(w.lmap, w.pubs, p);
    labels := w.lmap;
    ghost var before := w.All();
    var table := w.Publish();
    names := w.All();
    FinalGrows(before, names, labels, p);
    r := Some(File(w.strings, w.globCount, table, w.code));
    PublicsListed(w.pubs, labels, p, w.strings, table);
  }

  /** Every label asked for is in the table. */
  predicate Linked(labels: map<Label, nat>, p: Prog) {
    forall j :: 0 <= j < |p| ==>
      (TargetOf(p[j]).Some? ==> TargetOf(p[j]).value in labels) && (p[j].PUBLIC? ==> p[j].name in labels)
  }

  lemma LinkedMeans(labels: map<Label, nat>, pubs: seq<string>, p: Prog)
    requires LabelsOf(labels, p) && forall j :: 0 <= j < |p| ==> Assemblable(p[j])
    ensures Linked(labels, p) <==> WellLinked(p)
    ensures Linked(labels, p) ==> AllDefined(labels, p)
  {
    hide TargetOf, Assemblable, LastMark;
  }

  lemma PublicsReady(labels: map<Label, nat>, pubs: seq<string>, p: Prog)
    requires PublicsOf(pubs, p) && Linked(labels, p) && forall j :: 0 <= j < |p| ==> Assemblable(p[j])
    ensures forall k :: 0 <= k < |pubs| ==> ByteString(pubs[k]) && Named(pubs[k]) in labels
  {
    hide TargetOf, PlacesOf, StringOf, ByteString;
    forall k | 0 <= k < |pubs| ensures ByteString(pubs[k]) && Named(pubs[k]) in labels {
      assert pubs[k] in pubs && Published(p, pubs[k]);
      var j :| 0 <= j < |p| && Publishes(p[j], pubs[k]);
    }
  }

  lemma PublicsListed(pubs: seq<string>, labels: map<Label, nat>, p: Prog, strings: seq<Byte>, table: seq<(nat, nat)>)
    requires PublicsOf(pubs, p) && Linked(labels, p) && (forall j :: 0 <= j < |p| ==> Assemblable(p[j]))
    requires |table| == |pubs|
    requires forall k :: 0 <= k < |pubs| ==>
      Named(pubs[k]) in labels && Holds(strings, table[k].0, pubs[k]) && table[k].1 == labels[Named(pubs[k])]
    ensures forall j :: 0 <= j < |p| && p[j].PUBLIC? ==> Listed(table, strings, labels, p[j].name)
    ensures forall k :: 0 <= k < |table| ==> Justified(table[k], strings, labels, p)
  {
    hide TargetOf, PlacesOf, StringOf, ByteString, Holds;
    forall k | 0 <= k < |table| ensures Justified(table[k], strings, labels, p) {
      assert pubs[k] in pubs && Published(p, pubs[k]);
    }
    forall j | 0 <= j < |p| && p[j].PUBLIC? ensures Listed(table, strings, labels, p[j].name) {
      assert Assemblable(p[j]);
      assert Publishes(p[j], p[j].name.name);
      assert Published(p, p[j].name.name);
      var k :| 0 <= k < |pubs| && pubs[k] == p[j].name.name;
      assert table[k].1 == labels[p[j].name];
    }
  }

  lemma {:induction false} FinalGrows(names: Names, names': Names, labels: map<Label, nat>, p: Prog)
    requires Grow(names, names') && AllNamed(names, p) && AllDefined(labels, p)
    ensures AllNamed(names', p) && Final(names', labels, p) == Final(names, labels, p)
  {
    hide InsnBytes, Grow, HasNames;
    forall j | 0 <= j < |p| ensures HasNames(names', p[j]) {
      NamedGrows(names, names', p[j]);
    }
    if p != [] {
      FinalGrows(names, names', labels, p[1..]);
      BytesGrow(names, names', p[0], TargetAt(labels, p[0]));
    }
  }

  // ---- what the methods rest on ----

  lemma StringAdded(table: seq<Byte>, index: map<string, nat>, s: string)
    requires StringsHeld(table, index) && ByteString(s) && s !in index
    ensures StringsHeld(table + StringBytes(s), index[s := |table|])
  {
    var table', index' := table + StringBytes(s), index[s := |table|];
    forall t | t in index' ensures Holds(table', index'[t], t) {
      if t == s {
        assert table'[|table|..|table| + |s| + 1] == StringBytes(s);
      } else {
        assert Holds(table, index[t], t);
        assert table'[index[t]..index[t] + |t| + 1] == table[index[t]..index[t] + |t| + 1];
      }
    }
  }

  lemma HeldAt(table: seq<Byte>, index: map<string, nat>, s: string)
    requires StringsHeld(table, index) && s in index
    ensures Holds(table, index[s], s)
  {
  }

  lemma GrowSame(names: Names)
    ensures Grow(names, names)
  {
  }

  lemma GrowTwice(a: Names, b: Names, c: Names, ds: seq<Designation>)
    requires Grow(a, b) && Grow(b, c) && forall j :: 0 <= j < |ds| ==> Known(b, ds[j])
    ensures Grow(a, c) && forall j :: 0 <= j < |ds| ==> Known(c, ds[j])
  {
  }

  lemma StillThere(a: Names, b: Names)
    requires Grow(a, b)
    ensures forall s :: s in a.strings ==> s in b.strings && b.strings[s] == a.strings[s]
  {
  }

  lemma NowNamed(names: Names, i: Insn)
    requires (forall j :: 0 <= j < |PlacesOf(i)| ==> Known(names, PlacesOf(i)[j]))
    requires (StringOf(i).Some? ==> StringOf(i).value in names.strings)
    ensures HasNames(names, i)
  {
  }

  lemma AppendDraft(names: Names, p: Prog, i: Insn)
    requires AllNamed(names, p) && HasNames(names, i)
    ensures AllNamed(names, p + [i]) && Draft(names, p + [i]) == Draft(names, p) + InsnBytes(names, i, 0)
  {
    hide InsnBytes, HasNames;
    assert (p + [i])[..|p|] == p;
  }

  lemma NoBytes(names: Names, i: Insn)
    requires Pseudo(i) && HasNames(names, i)
    ensures InsnBytes(names, i, 0) == []
  {
  }

  /** Labels, open operands and public names after one more instruction. */
  lemma AppendTables(labels: map<Label, nat>, fixups: seq<(nat, Label)>, pubs: seq<string>, p: Prog, i: Insn, at: nat)
    requires LabelsOf(labels, p) && fixups == Fixups(p) && PublicsOf(pubs, p) && (i.PUBLIC? ==> i.name.Named?)
    ensures i.LABEL? || i.FLABEL? || i.SLABEL? ==> (at == Offset(p) ==> LabelsOf(labels[i.l := at], p + [i]))
    ensures !(i.LABEL? || i.FLABEL? || i.SLABEL?) ==> LabelsOf(labels, p + [i])
    ensures TargetOf(i).None? ==> Fixups(p + [i]) == fixups
    ensures TargetOf(i).Some? ==> Fixups(p + [i]) == [(Offset(p) + 1, TargetOf(i).value)] + fixups
    ensures !i.PUBLIC? ==> PublicsOf(pubs, p + [i])
    ensures i.PUBLIC? ==> PublicsOf(if i.name.name in pubs then pubs else pubs + [i.name.name], p + [i])
    ensures Pseudo(i) ==> TargetOf(i).None?
  {
    hide Offset, LabelsOf, PublicsOf, Fixups, TargetOf;
    FixupsAfter(p, i);
    NoTarget(i);
    LabelsAfter(labels, p, i, at);
    PublicsAfter(pubs, p, i);
  }

  lemma FixupsAfter(p: Prog, i: Insn)
    ensures TargetOf(i).None? ==> Fixups(p + [i]) == Fixups(p)
    ensures TargetOf(i).Some? ==> Fixups(p + [i]) == [(Offset(p) + 1, TargetOf(i).value)] + Fixups(p)
  {
    hide Offset, TargetOf;
    var q := p + [i];
    assert q[..|p|] == p && q[|p|] == i;
  }

  lemma NoTarget(i: Insn)
    ensures Pseudo(i) ==> TargetOf(i).None?
  {
  }

  lemma LabelsAfter(labels: map<Label, nat>, p: Prog, i: Insn, at: nat)
    requires LabelsOf(labels, p)
    ensures i.LABEL? || i.FLABEL? || i.SLABEL? ==> (at == Offset(p) ==> LabelsOf(labels[i.l := at], p + [i]))
    ensures !(i.LABEL? || i.FLABEL? || i.SLABEL?) ==> LabelsOf(labels, p + [i])
  {
    hide Offset;
    var q := p + [i];
    assert q[..|p|] == p;
    forall l ensures LastMark(q, l) == if Marks(i, l) then Some(|p|) else LastMark(p, l) {
    }
    forall l, j | LastMark(p, l) == Some(j) ensures j < |p| && q[..j] == p[..j] {
      assert LastMark(p, l).Some? ==> l in labels && LastMark(p, l).value < |p|;
      assert labels[l] == Offset(p[..j]);
    }
  }

  lemma PublicsAfter(pubs: seq<string>, p: Prog, i: Insn)
    requires PublicsOf(pubs, p) && (i.PUBLIC? ==> i.name.Named?)
    ensures !i.PUBLIC? ==> PublicsOf(pubs, p + [i])
    ensures i.PUBLIC? ==> PublicsOf(if i.name.name in pubs then pubs else pubs + [i.name.name], p + [i])
  {
    var q := p + [i];
    forall x ensures Published(q, x) <==> Published(p, x) || Publishes(i, x) {
      if j :| 0 <= j < |p| && Publishes(p[j], x) {
        assert Publishes(q[j], x);
      }
      if Publishes(i, x) {
        assert Publishes(q[|p|], x);
      }
    }
  }

  lemma StartMixed(names: Names, labels: map<Label, nat>, p: Prog)
    requires AllNamed(names, p) && AllDefined(labels, p)
    ensures Mixed(names, labels, p, |p|) == Draft(names, p) && p[..|p|] == p
  {
    hide Draft;
    assert p[..|p|] == p && p[|p|..] == [];
  }

  lemma FixupHead(p: Prog, c: nat, j: nat)
    requires c <= |p| && j < c && TargetOf(p[j]).Some?
    requires Fixups(p[..c]) == [(Offset(p[..j]) + 1, TargetOf(p[j]).value)] + Fixups(p[..j])
    ensures Fixups(p[..c])[0] == (Offset(p[..j]) + 1, TargetOf(p[j]).value) && Fixups(p[..c])[1..] == Fixups(p[..j])
  {
    hide Fixups, Offset;
  }

  lemma LabelDefined(labels: map<Label, nat>, p: Prog, j: nat)
    requires AllDefined(labels, p) && j < |p| && TargetOf(p[j]).Some?
    ensures TargetOf(p[j]).value in labels
  {
  }

  lemma PatchEnd(code: seq<Byte>, ofs: nat, four: seq<Byte>)
    requires ofs + 4 <= |code| && |four| == 4
    ensures (code + [255])[..ofs] + four + (code + [255])[ofs + 4..] == code[..ofs] + four + code[ofs + 4..] + [255]
  {
  }

  // ---- the file ----

  function WordBytes(n: nat): seq<Byte> { IntBytes(n) }

  function PublicBytes(table: seq<(nat, nat)>): (b: seq<Byte>)
    ensures |b| == 8 * |table|
  {
    if table == [] then [] else WordBytes(table[0].0) + WordBytes(table[0].1) + PublicBytes(table[1..])
  }

  /** The file: three counts, the public names, the strings, the code. */
  function FileBytes(f: File): seq<Byte> {
    WordBytes(|f.strings|) + WordBytes(f.globals) + WordBytes(|f.publics|) + PublicBytes(f.publics) + f.strings + f.code
  }

  function ReadPublics(b: seq<Byte>, ip: nat, n: nat): seq<(nat, nat)>
    requires ip + 8 * n <= |b|
    decreases n
  {
    if n == 0 then [] else [(Unsigned(b, ip), Unsigned(b, ip + 4))] + ReadPublics(b, ip + 8, n - 1)
  }

  /** read_file: the sections, unless the counts exceed the file or the code is too long. */
  function ReadFile(b: seq<Byte>): Option<File> {
    if |b| < 12 then None
    else
      var payload := |b| - 12;
      var strings, globals, publics := Unsigned(b, 0), Unsigned(b, 4), Unsigned(b, 8);
      if publics > payload / 8 then None
      else if strings > payload - 8 * publics then None
      else if payload - 8 * publics - strings > 0xFFFF_FFFF then None
      else
        var start := 12 + 8 * publics;
        Some(File(b[start..start + strings], globals, ReadPublics(b, 12, publics), b[start + strings..]))
  }

  /** Counts and offsets fit 32 bits. */
  predicate FileFits(f: File) {
    && |f.strings| < 0x1_0000_0000 && f.globals < 0x1_0000_0000 && |f.publics| < 0x1_0000_0000
      && |f.code| < 0x1_0000_0000
    && forall k :: 0 <= k < |f.publics| ==> f.publics[k].0 < 0x1_0000_0000 && f.publics[k].1 < 0x1_0000_0000
  }

  lemma WordAt(b: seq<Byte>, ip: nat, n: nat)
    requires At(b, ip, WordBytes(n)) && n < 0x1_0000_0000
    ensures ip + 4 <= |b| && Unsigned(b, ip) == n
  {
    hide IntBytes, Unsigned;
    IntParts(n, b, ip);
    UnsignedParts(b, ip, n);
  }

  lemma UnsignedParts(b: seq<Byte>, ip: nat, n: nat)
    requires ip + 4 <= |b| && n < 0x1_0000_0000
    requires b[ip] == n % 256 && b[ip + 1] == n / 256 % 256 && b[ip + 2] == n / 65536 % 256
    requires b[ip + 3] == n / 16777216 % 256
    ensures Unsigned(b, ip) == n
  {
    BytesOf(n);
  }

  lemma {:induction false} PublicsRoundTrip(b: seq<Byte>, ip: nat, table: seq<(nat, nat)>)
    requires At(b, ip, PublicBytes(table))
    requires forall k :: 0 <= k < |table| ==> table[k].0 < 0x1_0000_0000 && table[k].1 < 0x1_0000_0000
    ensures ip + 8 * |table| <= |b| && ReadPublics(b, ip, |table|) == table
    decreases |table|
  {
    hide At, Unsigned, IntBytes;
    if table == [] {
      AtEmpty(b, ip, PublicBytes(table));
    } else {
      AtSplit(b, ip, WordBytes(table[0].0) + WordBytes(table[0].1), PublicBytes(table[1..]));
      AtSplit(b, ip, WordBytes(table[0].0), WordBytes(table[0].1));
      WordAt(b, ip, table[0].0);
      WordAt(b, ip + 4, table[0].1);
      PublicsRoundTrip(b, ip + 8, table[1..]);
      assert table == [(table[0].0, table[0].1)] + table[1..];
    }
  }

  lemma AtEmpty(b: seq<Byte>, ip: nat, e: seq<Byte>)
    requires At(b, ip, e)
    ensures ip + |e| <= |b|
  {
  }

  /** The loader splits the file into the sections it was made of. */
  lemma FileRoundTrip(f: File)
    requires FileFits(f)
    ensures ReadFile(FileBytes(f)) == Some(f)
  {
    hide IntBytes, Unsigned, At, PublicBytes, ReadPublics;
    var b := FileBytes(f);
    var head := WordBytes(|f.strings|) + WordBytes(f.globals) + WordBytes(|f.publics|);
    var start := 12 + 8 * |f.publics|;
    WholeFile(b);
    AtSplit(b, 0, head + PublicBytes(f.publics) + f.strings, f.code);
    AtSplit(b, 0, head + PublicBytes(f.publics), f.strings);
    AtSplit(b, 0, head, PublicBytes(f.publics));
    AtSplit(b, 0, WordBytes(|f.strings|) + WordBytes(f.globals), WordBytes(|f.publics|));
    AtSplit(b, 0, WordBytes(|f.strings|), WordBytes(f.globals));
    WordAt(b, 0, |f.strings|);
    WordAt(b, 4, f.globals);
    WordAt(b, 8, |f.publics|);
    PublicsRoundTrip(b, 12, f.publics);
    SectionsAt(b, start, f.strings, f.code);
  }

  lemma WholeFile(b: seq<Byte>)
    ensures At(b, 0, b)
  {
  }

  lemma SectionsAt(b: seq<Byte>, start: nat, strings: seq<Byte>, code: seq<Byte>)
    requires At(b, start, strings) && At(b, start + |strings|, code) && |b| == start + |strings| + |code|
    ensures b[start..start + |strings|] == strings && b[start + |strings|..] == code
  {
  }

  /** Where everything is in the file. */
  ghost predicate LaidOut(f: File, b: seq<Byte>) {
    var n, m, s := |f.publics|, |f.strings|, 12 + 8 * |f.publics|;
    && |b| == s + m + |f.code| && HoldsWord(b, 0, m) && HoldsWord(b, 4, f.globals) && HoldsWord(b, 8, n)
    && (forall k :: 0 <= k < n ==> EntryAt(b, 12 + 8 * k, f.publics[k]))
    && b[s..s + m] == f.strings && b[s + m..] == f.code
  }

  /** A public name: its position in the strings and the offset of its code. */
  predicate EntryAt(b: seq<Byte>, ip: nat, entry: (nat, nat)) {
    ip + 8 <= |b| && HoldsWord(b, ip, entry.0) && HoldsWord(b, ip + 4, entry.1)
  }

  lemma FileLayout(f: File)
    ensures LaidOut(f, FileBytes(f))
  {
    hide IntBytes, HoldsWord, PublicBytes, EntryAt, At;
    var b := FileBytes(f);
    var head := WordBytes(|f.strings|) + WordBytes(f.globals) + WordBytes(|f.publics|);
    WholeFile(b);
    AtSplit(b, 0, head + PublicBytes(f.publics) + f.strings, f.code);
    AtSplit(b, 0, head + PublicBytes(f.publics), f.strings);
    AtSplit(b, 0, head, PublicBytes(f.publics));
    AtSplit(b, 0, WordBytes(|f.strings|) + WordBytes(f.globals), WordBytes(|f.publics|));
    AtSplit(b, 0, WordBytes(|f.strings|), WordBytes(f.globals));
    WordHeld(b, 0, |f.strings|);
    WordHeld(b, 4, f.globals);
    WordHeld(b, 8, |f.publics|);
    PublicsLaidOut(b, 12, f.publics);
    SectionsAt(b, 12 + 8 * |f.publics|, f.strings, f.code);
  }

  lemma WordHeld(b: seq<Byte>, ip: nat, n: nat)
    requires At(b, ip, WordBytes(n))
    ensures ip + 4 <= |b| && HoldsWord(b, ip, n)
  {
    hide IntBytes, HoldsWord;
    OperandBytes(n, b, ip);
  }

  lemma {:induction false} PublicsLaidOut(b: seq<Byte>, ip: nat, table: seq<(nat, nat)>)
    requires At(b, ip, PublicBytes(table))
    ensures forall k :: 0 <= k < |table| ==> EntryAt(b, ip + 8 * k, table[k])
    decreases |table|
  {
    hide At, IntBytes, HoldsWord;
    if table != [] {
      AtSplit(b, ip, WordBytes(table[0].0) + WordBytes(table[0].1), PublicBytes(table[1..]));
      AtSplit(b, ip, WordBytes(table[0].0), WordBytes(table[0].1));
      WordHeld(b, ip, table[0].0);
      WordHeld(b, ip + 4, table[0].1);
      PublicsLaidOut(b, ip + 8, table[1..]);
      forall k | 0 <= k < |table| ensures EntryAt(b, ip + 8 * k, table[k]) {
        if k > 0 {
          assert table[1..][k - 1] == table[k];
          assert ip + 8 + 8 * (k - 1) == ip + 8 * k;
        }
      }
    }
  }

  // ---- the round trip ----

  /** The disassembler reads back the translated instructions, in order and where they were put; a jump target is
      where the instructions behind the label start; and a string operand reads back the string. */
  lemma BytecodeRoundTrip(f: File, names: Names, labels: map<Label, nat>, p: Prog, l: Label)
    requires Assembled(f, names, labels, p) && AllFit(names, labels, p) && FileFits(f)
    ensures ReadFile(FileBytes(f)) == Some(f)
    ensures Decode(f.code, 0) == Some(Positioned(Ops(names, labels, p), 0))
    ensures Understood(f.strings, Decode(f.code, 0).value, Acts(names, labels, p))
    ensures l in labels <==> LastMark(p, l).Some?
    ensures l in labels ==>
      var j := LastMark(p, l).value;
      && j < |p| && AllNamed(names, p[j..]) && AllDefined(labels, p[j..])
      && Decode(f.code, labels[l]) == Some(Positioned(Ops(names, labels, p[j..]), labels[l]))
      && Understood(f.strings, Decode(f.code, labels[l]).value, Acts(names, labels, p[j..]))
    ensures forall s :: s in names.strings && NulFree(s) ==> CString(f.strings, names.strings[s]) == s
  {
    hide Decode, Positioned, Ops, Final, Offset, LastMark, FileBytes, ReadFile, Holds, CString, Unsigned, AllFit,
      HasNames, Acts, Understood, AllWritten, Assemblable, StringsHeld, AllNamed, AllDefined;
    FileRoundTrip(f);
    DecodesFrom(names, labels, p, 0);
    assert p[0..] == p && p[..0] == [];
    OffsetNothing();
    CodeUnderstood(f, names, labels, p, 0);
    if LastMark(p, l).Some? {
      DecodesFrom(names, labels, p, LastMark(p, l).value);
      CodeUnderstood(f, names, labels, p, LastMark(p, l).value);
    }
    forall s | s in names.strings && NulFree(s) ensures CString(f.strings, names.strings[s]) == s {
      HeldAt(f.strings, names.strings, s);
      StringRoundTrip(f.strings, names.strings[s], s);
    }
  }

  /** The operations from position j on mean the instructions from there on. */
  lemma CodeUnderstood(f: File, names: Names, labels: map<Label, nat>, p: Prog, j: nat)
    requires Assembled(f, names, labels, p) && j <= |p|
    ensures AllNamed(names, p[j..]) && AllDefined(labels, p[j..])
    ensures Understood(f.strings, Positioned(Ops(names, labels, p[j..]), Offset(p[..j])), Acts(names, labels, p[j..]))
  {
    hide Ops, Final, Holds, HasNames, Acts, Understood, PlacesOf, StringOf, Positioned, LabelsOf, TargetOf, Offset;
    forall i | 0 <= i < |p[j..]| ensures Written(f.strings, names, p[j..][i]) {
      assert p[j..][i] == p[j + i] && Assemblable(p[j + i]) && HasNames(names, p[j + i]);
      InsnWritten(f.strings, names, p[j + i]);
    }
    ProgramUnderstood(f.strings, names, labels, p[j..], Offset(p[..j]));
  }

  lemma InsnWritten(strings: seq<Byte>, names: Names, i: Insn)
    requires HasNames(names, i) && StringsHeld(strings, names.strings) && Assemblable(i)
    ensures Written(strings, names, i)
  {
    hide Holds, PlacesOf, StringOf;
  }

  lemma OffsetNothing()
    ensures Offset([]) == 0
  {
  }
}
