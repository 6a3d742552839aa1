/** Compiled programs always assemble, and the bytes decode to the code the interpreter runs. */
module Linking {
  import opened Wrappers
  import opened LamaValues
  import opened LamaSource
  import opened StackMachine
  import opened Compiler
  import opened CodeShape
  import opened Simulation
  import opened ProgramCorrectness
  import opened FlatMemory
  import opened Interpretation
  import opened EndToEnd
  import opened ByteFormat
  import opened Translation
  import opened OpcodeMeaning
  import opened Assembler

  /** Strings and public names consist of bytes, as all strings of the original do. */
  predicate BytesOnly(p: Prog) {
    forall j :: 0 <= j < |p| ==>
      && (StringOf(p[j]).Some? ==> ByteString(StringOf(p[j]).value))
      && (p[j].PUBLIC? && p[j].name.Named? ==> ByteString(p[j].name.name))
  }

  /** A label the machine finds is in the assembler's table. */
  lemma {:induction false} MarkedIfFound(p: Prog, l: Label)
    ensures FindLabel(p, l).Some? ==> LastMark(p, l).Some?
  {
    if p != [] {
      MarkedIfFound(p[..|p| - 1], l);
    }
  }

  lemma BuiltinHasCode(l: Label)
    requires l.Named? && Called(l.name)
    ensures IsBuiltinCall(l)
  {
  }

  lemma InsnLinks(k: Code, pc: nat)
    requires Sound(k) && pc < |k.p| && BytesOnly(k.p)
    ensures Assemblable(k.p[pc]) && Wanted(k.p, k.p[pc])
  {
    hide FindLabel, LastMark, Balanced, Assemblable, Wanted, IsBuiltinCall, Called, ByteString;
    assert Balanced(k, pc);
    Linkable(k, pc);
  }

  lemma Linkable(k: Code, pc: nat)
    requires pc < |k.p| && pc + 1 < |k.d| && Balanced(k, pc) && BytesOnly(k.p)
    ensures Assemblable(k.p[pc]) && Wanted(k.p, k.p[pc])
  {
    hide FindLabel, LastMark, IsBuiltinCall, Called, ByteString, Effect, DepthAt, Entry, Expects;
    var i := k.p[pc];
    match i
    case JMP(l) => MarkedIfFound(k.p, l);
    case CJMP(_, l) => MarkedIfFound(k.p, l);
    case CLOSURE(l, _) => MarkedIfFound(k.p, l);
    case PUBLIC(l) => MarkedIfFound(k.p, l);
    case CALL(l, _) =>
      if FindLabel(k.p, l).Some? {
        MarkedIfFound(k.p, l);
      } else {
        BuiltinHasCode(l);
      }
    case _ =>
  }

  /** What the interpreter's static condition accepts can be assembled. */
  lemma SoundLinks(k: Code)
    requires Sound(k) && BytesOnly(k.p)
    ensures WellLinked(k.p)
  {
    hide Sound, Assemblable, Wanted, BytesOnly;
    forall j | 0 <= j < |k.p| ensures Assemblable(k.p[j]) && Wanted(k.p, k.p[j]) {
      InsnLinks(k, j);
    }
  }

  /** Compiled programs are never refused by the assembler. */
  lemma CompiledLinks(externs: seq<string>, e: Expr, slots: map<string, nat>, words: nat)
    requires Program(e) && SlotsFor(e, slots, words) && BytesOnly(CompileProgram(externs, e))
    ensures WellLinked(CompileProgram(externs, e))
  {
    hide Program, SlotsFor, Sound, BytesOnly, WellLinked, CompileProgram;
    var address: nat -> int := _ => 0;
    var d := ProgramSound(externs, e, slots, words, address);
    SoundLinks(Loaded(externs, e, d, slots, words, address));
  }

  /** A label that is marked once is for the assembler where it is for the machine. */
  lemma {:induction false} MarkedWhereFound(p: Prog, l: Label)
    requires Count(p, l) <= 1 && FindLabel(p, l).Some?
    ensures 0 < FindLabel(p, l).value <= |p| && Defines(p[FindLabel(p, l).value - 1], l)
    ensures LastMark(p, l) == Some(FindLabel(p, l).value - 1)
  {
    var q := p[..|p| - 1];
    if !Defines(p[|p| - 1], l) {
      if Marks(p[|p| - 1], l) {
        FindsNothing(q, l);
      } else {
        MarkedWhereFound(q, l);
      }
    }
  }

  /** Labels themselves leave no operation. */
  lemma OpsPast(names: Names, labels: map<Label, nat>, p: Prog, t: nat)
    requires 0 < t <= |p| && AllNamed(names, p[t - 1..]) && AllDefined(labels, p[t - 1..])
    requires (p[t - 1].LABEL? || p[t - 1].FLABEL?)
    ensures AllNamed(names, p[t..]) && AllDefined(labels, p[t..])
    ensures Ops(names, labels, p[t..]) == Ops(names, labels, p[t - 1..])
    ensures Acts(names, labels, p[t..]) == Acts(names, labels, p[t - 1..])
  {
    hide HasNames;
    assert p[t - 1..][1..] == p[t..];
    forall j | 0 <= j < |p[t..]| ensures HasNames(names, p[t..][j]) {
      assert p[t - 1..][j + 1] == p[t..][j];
    }
    forall j | 0 <= j < |p[t..]| && TargetOf(p[t..][j]).Some? ensures TargetOf(p[t..][j]).value in labels {
      assert p[t - 1..][j + 1] == p[t..][j];
    }
  }

  /** Wherever the machine finds a label, the bytes at the label's offset decode to the instructions it continues
      with: jumps in the file go where they go on the machine. */
  lemma CompiledBytes(externs: seq<string>, e: Expr, f: File, names: Names, labels: map<Label, nat>, l: Label)
    requires e.Scope? && Assembled(f, names, labels, CompileProgram(externs, e))
    requires AllFit(names, labels, CompileProgram(externs, e)) && FileFits(f)
    ensures
      var p := CompileProgram(externs, e);
      && ReadFile(FileBytes(f)) == Some(f) && Decode(f.code, 0) == Some(Positioned(Ops(names, labels, p), 0))
      && Understood(f.strings, Decode(f.code, 0).value, Acts(names, labels, p))
      && (FindLabel(p, l).Some? ==>
            var t := FindLabel(p, l).value;
            && t <= |p| && l in labels && AllNamed(names, p[t..]) && AllDefined(labels, p[t..])
            && Decode(f.code, labels[l]) == Some(Positioned(Ops(names, labels, p[t..]), labels[l]))
            && Understood(f.strings, Decode(f.code, labels[l]).value, Acts(names, labels, p[t..])))
  {
    hide CompileProgram, Decode, Positioned, Ops, FindLabel, LastMark, FileBytes, ReadFile, AllFit, Assembled, FileFits,
      Count, AllNamed, AllDefined, Acts, Understood;
    var p := CompileProgram(externs, e);
    ProgramLabels(externs, e);
    BytecodeRoundTrip(f, names, labels, p, l);
    if FindLabel(p, l).Some? {
      MarkedWhereFound(p, l);
      OpsPast(names, labels, p, FindLabel(p, l).value);
    }
  }
}
