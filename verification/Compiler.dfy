/** The compiler from the source language to the stack machine (src/SM.ml:836-1588): environments that place
    names and number labels, patterns, binding code, and expressions with an exit label and a flag that says
    whether the code leaves through it. */
module Compiler {
  import opened Wrappers
  import opened LamaValues
  import opened LamaSource
  import opened StackMachine

  /** ok turns false for good where the original reports an error. */
  datatype Env = Env(number: nat, scope: State<Designation>, localIndex: nat, nlocals: nat, ok: bool) {
    /** get_label. */
    function NewLabel(): (Label, Env) {
      (Gen(number), this.(number := number + 1))
    }
  }

  function BuiltinPlaces(): map<string, Designation> {
    map x | x in BUILTINS :: Fun(Named(x))
  }

  /** push_scope: the outermost scope knows the imported builtins as functions. */
  function OpenScope(env: Env): Env {
    match env.scope
    case I => env.(scope := G([], BuiltinPlaces()))
    case st => env.(scope := L([], map[], st))
  }

  function Variables(names: seq<(string, Kind)>): nat {
    if names == [] then 0 else (if names[0].1 != FVal then 1 else 0) + Variables(names[1..])
  }

  /** pop_scope. */
  function CloseScope(env: Env): Env {
    match env.scope
    case I => env
    case G(_, _) => env.(scope := I)
    case L(names, _, up) =>
      env.(scope := up,
        localIndex := if Variables(names) <= env.localIndex then env.localIndex - Variables(names) else 0)
  }

  /** add_name for a variable: a global at the outermost level, else the next local. */
  function AddName(env: Env, x: string): Env {
    match env.scope
    case I => env.(ok := false)
    case G(names, places) =>
      env.(scope := G([(x, Mut)] + names, places[x := Global(x)]), ok := env.ok && !InScope(x, names))
    case L(names, places, up) =>
      env.(scope := L([(x, Mut)] + names, places[x := Local(env.localIndex)], up),
           localIndex := env.localIndex + 1,
           nlocals := if env.localIndex + 1 > env.nlocals then env.localIndex + 1 else env.nlocals,
           ok := env.ok && !InScope(x, names))
  }

  /** lookup; an undefined name is an error. */
  function Place(env: Env, x: string): (Env, Designation) {
    match LookUp(env.scope, x)
    case Some(d) => (env, d)
    case None => (env.(ok := false), Global(x))
  }

  // ---- patterns ----

  /** pattern: environment, whether the pattern can fail, code. */
  function CompilePattern(env: Env, lfalse: Label, p: Pattern): (Env, bool, Prog)
    decreases p
  {
    match p
    case Wildcard => (env, false, [DROP])
    case NamedPattern(_, inner) => CompilePattern(env, lfalse, inner)
    case ConstPattern(n) => (env, true, [CONST(n), BINOP(Eq), CJMP(false, lfalse)])
    case StringPattern(s) => (env, true, [STRING(s), PATT(StrCmp), CJMP(false, lfalse)])
    case ArrayTagPattern => (env, true, [PATT(ArrayTag), CJMP(false, lfalse)])
    case StringTagPattern => (env, true, [PATT(StringTag), CJMP(false, lfalse)])
    case SexpTagPattern => (env, true, [PATT(SexpTag), CJMP(false, lfalse)])
    case UnBoxedPattern => (env, true, [PATT(UnBoxed), CJMP(false, lfalse)])
    case BoxedPattern => (env, true, [PATT(Boxed), CJMP(false, lfalse)])
    case ClosureTagPattern => (env, true, [PATT(ClosureTag), CJMP(false, lfalse)])
    case ArrayPattern(items) =>
      var (lhead, env1) := env.NewLabel();
      var (ldrop, env2) := env1.NewLabel();
      var (env3, code) := CompilePatterns(env2, ldrop, items, 0);
      (env3, true, Inspect(ARRAY(|items|), lhead, ldrop, lfalse) + code + [DROP])
    case SexpPattern(tag, items) =>
      var (lhead, env1) := env.NewLabel();
      var (ldrop, env2) := env1.NewLabel();
      var (env3, code) := CompilePatterns(env2, ldrop, items, 0);
      (env3, true, Inspect(StackMachine.TAG(tag, |items|), lhead, ldrop, lfalse) + code + [DROP])
  }

  /** Tests the duplicated value; on failure drops it and leaves through lfalse. */
  function Inspect(test: Insn, lhead: Label, ldrop: Label, lfalse: Label): Prog {
    [DUP, test, CJMP(true, lhead), LABEL(ldrop), DROP, JMP(lfalse), LABEL(lhead)]
  }

  function CompilePatterns(env: Env, ldrop: Label, ps: seq<Pattern>, i: nat): (Env, Prog)
    decreases ps
  {
    if ps == [] then (env, [])
    else
      var (env1, _, code) := CompilePattern(env, ldrop, ps[0]);
      var (env2, rest) := CompilePatterns(env1, ldrop, ps[1..], i + 1);
      (env2, [DUP, CONST(i), ELEM] + code + rest)
  }

  /** The names a pattern binds, each with the path to its value. */
  function Paths(p: Pattern, path: seq<nat>): seq<(string, seq<nat>)> {
    match p
    case NamedPattern(x, inner) => [(x, path)] + Paths(inner, path)
    case SexpPattern(_, items) => PathsOfAll(items, path, 0)
    case ArrayPattern(items) => PathsOfAll(items, path, 0)
    case _ => []
  }

  function PathsOfAll(ps: seq<Pattern>, path: seq<nat>, i: nat): seq<(string, seq<nat>)> {
    if ps == [] then [] else Paths(ps[0], path + [i]) + PathsOfAll(ps[1..], path, i + 1)
  }

  function FollowCode(path: seq<nat>): Prog {
    if path == [] then [] else [CONST(path[0]), ELEM] + FollowCode(path[1..])
  }

  /** bindings: the last name gets its place first, the first name's code comes first. */
  function CompileBindings(env: Env, bs: seq<(string, seq<nat>)>): (Env, Prog) {
    if bs == [] then (env, [])
    else
      var (env1, rest) := CompileBindings(env, bs[1..]);
      var (env2, d) := Place(AddName(env1, bs[0].0), bs[0].0);
      (env2, [DUP] + FollowCode(bs[0].1) + [ST(d), DROP] + rest)
  }

  // ---- expressions ----

  function LabelIf(flag: bool, l: Label): Prog {
    if flag then [LABEL(l)] else []
  }

  function JumpUnless(flag: bool, l: Label): Prog {
    if flag then [] else [JMP(l)]
  }

  /** The last name gets its place first. */
  function AddNames(env: Env, xs: seq<string>): Env {
    if xs == [] then env else AddName(AddNames(env, xs[1..]), xs[0])
  }

  type Compiled = (Env, bool, Prog)

  /** add_code: the code's exit label follows it if it is used. */
  function Finish(c: Compiled, l: Label, tail: Prog): Compiled {
    (c.0, false, c.2 + LabelIf(c.1, l) + tail)
  }

  function CompileExpr(l: Label, env: Env, e: Expr): Compiled
    decreases Size(e), 1
  {
    match e
    case Const(n) => (env, false, [CONST(n)])
    case Str(s) => (env, false, [STRING(s)])
    case Unit => (env, false, [CONST(0)])
    case VarOf(x) =>
      var (env1, d) := Place(env, x);
      (env1, false, [match d case Fun(f) => CLOSURE(f, []) case _ => LD(d)])
    case RefOf(x) =>
      var (env1, d) := Place(env, x);
      (env1, false, [LDA(d)])
    case Skip => (env, false, [])
    case Seq(a, b) =>
      SizeOfTwo(a, b);
      CompileList(l, env, [a, b])
    case Ignore(s) =>
      var (ls, env1) := env.NewLabel();
      Finish(CompileExpr(ls, env1, s), ls, [DROP])
    case ElemRef(b, i) =>
      SizeOfTwo(b, i);
      CompileList(l, env, [b, i])
    case Binop(op, x, y) =>
      SizeOfTwo(x, y);
      var (lop, env1) := env.NewLabel();
      Finish(CompileList(lop, env1, [x, y]), lop, [BINOP(op)])
    case Arr(items) =>
      var (lar, env1) := env.NewLabel();
      Finish(CompileList(lar, env1, items), lar, [CALL(Named(".array"), |items|)])
    case Sexp(tag, items) =>
      var (lsexp, env1) := env.NewLabel();
      Finish(CompileList(lsexp, env1, items), lsexp, [SEXP(tag, |items|)])
    case ElemOf(b, i) =>
      SizeOfTwo(b, i);
      var (lelem, env1) := env.NewLabel();
      Finish(CompileList(lelem, env1, [b, i]), lelem, [ELEM])
    case Call(f, args) => CompileCall(env, f, args)
    case Assign(x, s) => CompileAssign(env, x, s)
    case If(c, a, b) => CompileIf(l, env, c, a, b)
    case While(c, s) => CompileWhile(env, c, s)
    case DoWhile(s, c) => CompileDoWhile(env, s, c)
    case Case(s, branches) => CompileCase(l, env, s, branches)
    case Scope(defs, body) => CompileScope(l, env, defs, body)
  }

  /** compile_list: each expression but the last leaves through a label of its own. */
  function CompileList(l: Label, env: Env, es: seq<Expr>): Compiled
    decreases SizeOfAll(es), 2
  {
    if es == [] then (env, false, [])
    else if |es| == 1 then CompileExpr(l, env, es[0])
    else
      var (les, env1) := env.NewLabel();
      var (env2, flag1, s1) := CompileExpr(les, env1, es[0]);
      var (env3, flag2, s2) := CompileList(l, env2, es[1..]);
      (env3, flag2, s1 + LabelIf(flag1, les) + s2)
  }

  /** Calls of functions known by name are direct, all others go through a closure.  The closure lists
      fixed up later are empty for builtins, so the direct call is the final instruction. */
  function CompileCall(env: Env, f: Expr, args: seq<Expr>): Compiled
    decreases Size(Call(f, args)), 0
  {
    SizeOfSome(f, f, f, args);
    var (lcall, env1) := env.NewLabel();
    var (env2, d) := if f.VarOf? then Place(env1, f.name) else (env1, Global(""));
    if d.Fun? then Finish(CompileList(lcall, env2, args), lcall, [CALL(d.entry, |args|)])
    else Finish(CompileList(lcall, env2, [f] + args), lcall, [CALLC(|args|)])
  }

  function CompileIf(l: Label, env: Env, c: Expr, a: Expr, b: Expr): Compiled
    decreases Size(If(c, a, b)), 0
  {
    var (le, env1) := env.NewLabel();
    var (l2, env2) := env1.NewLabel();
    var (env3, fe, se) := CompileExpr(le, env2, c);
    var (env4, flag1, s1) := CompileExpr(l, env3, a);
    var (env5, flag2, s2) := CompileExpr(l, env4, b);
    (env5, true,
     se + LabelIf(fe, le) + [CJMP(false, l2)] + s1 + JumpUnless(flag1, l) + [LABEL(l2)] + s2 + JumpUnless(flag2, l))
  }

  function CompileWhile(env: Env, c: Expr, s: Expr): Compiled
    decreases Size(While(c, s)), 0
  {
    var (lexp, env1) := env.NewLabel();
    var (loop, env2) := env1.NewLabel();
    var (cond, env3) := env2.NewLabel();
    var (env4, fe, se) := CompileExpr(lexp, env3, c);
    var (env5, _, body) := CompileExpr(cond, env4, s);
    (env5, false, [JMP(cond), FLABEL(loop)] + body + [LABEL(cond)] + se + LabelIf(fe, lexp) + [CJMP(true, loop)])
  }

  /** The body leaves through the label in front of the condition. */
  function CompileDoWhile(env: Env, s: Expr, c: Expr): Compiled
    decreases Size(DoWhile(s, c)), 0
  {
    var (lexp, env1) := env.NewLabel();
    var (loop, env2) := env1.NewLabel();
    var (check, env3) := env2.NewLabel();
    var (env4, fe, se) := CompileExpr(lexp, env3, c);
    var (env5, flag, body) := CompileExpr(check, env4, s);
    (env5, false, [LABEL(loop)] + body + LabelIf(flag, check) + se + LabelIf(fe, lexp) + [CJMP(true, loop)])
  }

  function CompileCase(l: Label, env: Env, s: Expr, branches: seq<Branch>): Compiled
    decreases Size(Case(s, branches)), 0
  {
    var (lfail, env1) := env.NewLabel();
    var (lexp, env2) := env1.NewLabel();
    var (env3, fe, se) := CompileExpr(lexp, env2, s);
    var (env4, fail, code) := CompileBranches(l, env3, branches, None, lfail);
    (env4, true,
     se + LabelIf(fe, lexp) + [DUP] + code + [JMP(l)] + if fail then [LABEL(lfail), FAIL(0, 0), JMP(l)] else [])
  }

  function CompileScope(l: Label, env: Env, defs: seq<Def>, body: Expr): Compiled
    decreases Size(Scope(defs, body)), 0
  {
    var (blab, env1) := env.NewLabel();
    var (elab, env2) := env1.NewLabel();
    SizeOfInitialised(defs, body);
    var (env3, flag, code) := CompileExpr(l, AddNames(OpenScope(env2), NamesOf(defs)), Initialised(defs, body));
    (CloseScope(env3), flag, [SLABEL(blab)] + code + [SLABEL(elab)])
  }

  function CompileAssign(env: Env, x: Expr, s: Expr): Compiled
    decreases Size(Assign(x, s)), 0
  {
    SizeOfAssign(x, s);
    var (lassn, env1) := env.NewLabel();
    match x
    case RefOf(name) =>
      var (env2, d) := Place(env1, name);
      Finish(CompileExpr(lassn, env2, s), lassn, [ST(d)])
    case ElemRef(b, i) =>
      Finish(CompileList(lassn, env1, [b, i, s]), lassn, [STA])
    case _ =>
      Finish(CompileList(lassn, env1, [x, s]), lassn, [STA])
  }

  /** One branch of a case: its pattern fails to lfalse; lab is the label the previous pattern fails to.  The
      flag says whether the pattern can fail. */
  function CompileBranch(l: Label, env: Env, b: Branch, last: bool, lab: Option<Label>, lfalse: Label): Compiled
    decreases Size(b.body), 2
  {
    var (env2, canFail, pcode) := CompilePattern(env, lfalse, b.pattern);
    var (blab, env3) := env2.NewLabel();
    var (elab, env4) := env3.NewLabel();
    var (env5, bindcode) := CompileBindings(OpenScope(env4), Paths(b.pattern, []));
    var (env6, flag, scode) := CompileExpr(l, env5, b.body);
    (CloseScope(env6), canFail,
     BranchHead(blab, lab) + pcode + bindcode + [DROP] + scode + (if last then [] else [JMP(l)]) + [SLABEL(elab)])
  }

  /** Branches after a pattern that cannot fail are dropped; the flag says whether the last one kept can fail. */
  function CompileBranches(l: Label, env: Env, branches: seq<Branch>, lab: Option<Label>, lfail: Label): Compiled
    decreases SizeOfBranches(branches), 0
  {
    if branches == [] then (env, true, [])
    else
      var last := |branches| == 1;
      var (lfalse, env1) := if last then (lfail, env) else env.NewLabel();
      assert SizeOfBranch(branches[0]) == Size(branches[0].body);
      var b := CompileBranch(l, env1, branches[0], last, lab, lfalse);
      if last || !b.1 then b
      else
        var (env8, fail, rest) := CompileBranches(l, b.0, branches[1..], Some(lfalse), lfail);
        (env8, fail, b.2 + rest)
  }

  function BranchHead(blab: Label, lab: Option<Label>): Prog {
    match lab
    case None => [SLABEL(blab)]
    case Some(l) => [SLABEL(blab), LABEL(l), DUP]
  }

  // ---- programs ----

  const MAIN := Named("main")

  /** The environment a program starts with, its end label taken. */
  function InitialEnv(): Env {
    Env(0, I, 0, 0, true).NewLabel().1
  }

  function EndLabel(): Label { Gen(0) }

  /** The code of the program's expression in front of the end label. */
  function CompiledMain(e: Expr): Compiled {
    CompileExpr(EndLabel(), InitialEnv(), e)
  }

  function Externs(names: seq<string>): Prog {
    seq(|names|, i requires 0 <= i < |names| => EXTERN(Named(names[i])))
  }

  /** compile of a program without functions; externs are the declarations of what it imports. */
  function CompileProgram(externs: seq<string>, e: Expr): Prog {
    var c := CompiledMain(e);
    [IMPORT("Std"), PUBLIC(MAIN)] + Externs(externs) + [LABEL(MAIN), BEGIN(MAIN, 2, c.0.nlocals, [])]
    + c.2 + LabelIf(c.1, EndLabel()) + [END]
  }

  // ---- sizes, for termination ----

  function Size(e: Expr): nat
    decreases e
  {
    match e
    case Arr(items) => 1 + SizeOfAll(items)
    case Sexp(_, items) => 1 + SizeOfAll(items)
    case Binop(_, x, y) => 3 + Size(x) + Size(y)
    case ElemOf(b, i) => 3 + Size(b) + Size(i)
    case ElemRef(b, i) => 3 + Size(b) + Size(i)
    case Call(f, args) => 2 + Size(f) + SizeOfAll(args)
    case Assign(x, s) => 5 + Size(x) + Size(s)
    case Seq(a, b) => 3 + Size(a) + Size(b)
    case If(c, a, b) => 1 + Size(c) + Size(a) + Size(b)
    case While(c, s) => 1 + Size(c) + Size(s)
    case DoWhile(s, c) => 1 + Size(s) + Size(c)
    case Case(s, branches) => 1 + Size(s) + SizeOfBranches(branches)
    case Ignore(s) => 1 + Size(s)
    case Scope(defs, body) => 1 + SizeOfDefs(defs) + Size(body)
    case _ => 1
  }

  function SizeOfAll(es: seq<Expr>): nat
    decreases es
  {
    if es == [] then 0 else 1 + Size(es[0]) + SizeOfAll(es[1..])
  }

  function SizeOfBranches(bs: seq<Branch>): nat
    decreases bs
  {
    if bs == [] then 0
    else 1 + SizeOfBranch(bs[0]) + SizeOfBranches(bs[1..])
  }

  function SizeOfBranch(b: Branch): nat
    decreases b
  {
    match b
    case Branch(_, body) => Size(body)
  }

  function SizeOfDefs(defs: seq<Def>): nat
    decreases defs
  {
    if defs == [] then 0
    else
      var d := defs[0];
      12 + (match d.init case None => 0 case Some(v) => Size(v)) + SizeOfDefs(defs[1..])
  }

  lemma SizeOfTwo(x: Expr, y: Expr)
    ensures SizeOfAll([x, y]) == 2 + Size(x) + Size(y)
  {
    hide Size;
    assert [x, y][1..] == [y] && [y][1..] == [];
    assert SizeOfAll([y]) == 1 + Size(y);
  }

  lemma SizeOfSome(x: Expr, y: Expr, z: Expr, es: seq<Expr>)
    ensures SizeOfAll([x, y]) == 2 + Size(x) + Size(y)
    ensures SizeOfAll([x, y, z]) == 3 + Size(x) + Size(y) + Size(z)
    ensures SizeOfAll([x] + es) == 1 + Size(x) + SizeOfAll(es)
  {
    assert [y][1..] == [] && [z][1..] == [];
    assert SizeOfAll([y]) == 1 + Size(y) && SizeOfAll([z]) == 1 + Size(z);
    assert [x, y][1..] == [y] && [y, z][1..] == [z];
    assert SizeOfAll([y, z]) == 1 + Size(y) + SizeOfAll([z]);
    assert [x, y, z][1..] == [y, z];
    assert ([x] + es)[1..] == es;
  }

  lemma SizeOfAssign(x: Expr, s: Expr)
    ensures Size(s) < Size(Assign(x, s)) && SizeOfAll([x, s]) < Size(Assign(x, s))
    ensures x.ElemRef? ==> SizeOfAll([x.base, x.index, s]) < Size(Assign(x, s))
  {
    SizeOfSome(x, s, s, []);
    if x.ElemRef? {
      SizeOfSome(x.base, x.index, s, []);
    }
  }

  lemma {:induction false} SizeOfInitialised(defs: seq<Def>, body: Expr)
    ensures Size(Initialised(defs, body)) <= SizeOfDefs(defs) + Size(body)
  {
    hide Size;
    if defs != [] {
      SizeOfInitialised(defs[1..], body);
      match defs[0].init
      case None =>
      case Some(v) => SizeOfInitialiser(defs[0].name, v, Initialised(defs[1..], body));
    }
  }

  lemma SizeOfInitialiser(x: string, v: Expr, rest: Expr)
    ensures Size(Seq(Ignore(Assign(RefOf(x), v)), rest)) <= 12 + Size(v) + Size(rest)
  {
    hide SizeOfAll, SizeOfBranches, SizeOfDefs;
    assert Size(Assign(RefOf(x), v)) == 6 + Size(v);
    assert Size(Ignore(Assign(RefOf(x), v))) == 7 + Size(v);
  }
}
