/** What compilation does to the environment and to labels: scopes are left as they were entered, numbers only
    grow, and generated code defines each label it numbers at most once and no other label. */
module CodeShape {
  import opened Wrappers
  import opened LamaValues
  import opened LamaSource
  import opened StackMachine
  import opened Compiler

  /** How often p marks x. */
  function Count(p: Prog, x: Label): nat {
    if p == [] then 0 else Count(p[..|p| - 1], x) + (if Marks(p[|p| - 1], x) then 1 else 0)
  }

  lemma {:induction false} CountAppend(a: Prog, b: Prog, x: Label)
    ensures Count(a + b, x) == Count(a, x) + Count(b, x)
  {
    if b == [] {
      assert a + b == a;
    } else {
      var c := a + b;
      assert c[..|c| - 1] == a + b[..|b| - 1];
      CountAppend(a, b[..|b| - 1], x);
    }
  }

  lemma CountOne(i: Insn, x: Label)
    ensures Count([i], x) == if Marks(i, x) then 1 else 0
  {
    assert [i][..0] == [];
    assert Count([], x) == 0;
  }

  lemma {:induction false} CountAt(p: Prog, i: nat, x: Label)
    requires i < |p| && Marks(p[i], x)
    ensures Count(p, x) >= 1
  {
    if i < |p| - 1 {
      CountAt(p[..|p| - 1], i, x);
    }
  }

  /** A label defined once is found where it is defined. */
  lemma {:induction false} FindsTheDefinition(p: Prog, i: nat, x: Label)
    requires i < |p| && Defines(p[i], x) && Count(p, x) <= 1
    ensures FindLabel(p, x) == Some(i + 1)
  {
    var q := p[..|p| - 1];
    if i < |q| {
      CountAt(q, i, x);
      FindsTheDefinition(q, i, x);
    } else if Count(q, x) == 0 {
    }
  }

  /** An undefined label is not found. */
  lemma {:induction false} FindsNothing(p: Prog, x: Label)
    requires Count(p, x) == 0
    ensures FindLabel(p, x) == None
  {
    if p != [] {
      FindsNothing(p[..|p| - 1], x);
    }
  }

  /** 1 for the labels numbered between the two environments. */
  function Room(env: Env, env': Env, x: Label): nat {
    if x.Gen? && env.number <= x.number < env'.number then 1 else 0
  }

  ghost predicate Grows(env: Env, env': Env) {
    env.number <= env'.number && env.nlocals <= env'.nlocals && (env'.ok ==> env.ok)
  }

  ghost predicate Kept(env: Env, env': Env) {
    Grows(env, env') && env'.scope == env.scope && env'.localIndex == env.localIndex
  }

  lemma PlaceKeeps(env: Env, x: string)
    ensures Kept(env, Place(env, x).0) && Place(env, x).0.number == env.number
    ensures Place(env, x).0.ok ==> LookUp(env.scope, x) == Some(Place(env, x).1) && Place(env, x).0 == env
  {
  }

  // ---- patterns and bindings ----

  lemma {:induction false} PatternShape(env: Env, lfalse: Label, p: Pattern, x: Label)
    ensures Kept(env, CompilePattern(env, lfalse, p).0)
    ensures Count(CompilePattern(env, lfalse, p).2, x) <= Room(env, CompilePattern(env, lfalse, p).0, x)
    decreases p
  {
    var code := CompilePattern(env, lfalse, p).2;
    match p
    case NamedPattern(_, inner) => PatternShape(env, lfalse, inner, x);
    case ArrayPattern(items) => InspectShape(env, lfalse, items, ARRAY(|items|), x);
    case SexpPattern(tag, items) => InspectShape(env, lfalse, items, StackMachine.TAG(tag, |items|), x);
    case Wildcard => CountOne(DROP, x);
    case ConstPattern(n) => CountPlain(code, x);
    case StringPattern(s) => CountPlain(code, x);
    case _ => CountPlain(code, x);
  }

  lemma {:induction false} CountPlain(p: Prog, x: Label)
    requires forall i :: 0 <= i < |p| ==> !p[i].LABEL? && !p[i].FLABEL? && !p[i].SLABEL?
    ensures Count(p, x) == 0
  {
    if p != [] {
      CountPlain(p[..|p| - 1], x);
    }
  }

  lemma InspectShape(env: Env, lfalse: Label, items: seq<Pattern>, test: Insn, x: Label)
    requires !test.LABEL? && !test.FLABEL? && !test.SLABEL?
    ensures
      var (lhead, env1) := env.NewLabel();
      var (ldrop, env2) := env1.NewLabel();
      var (env3, code) := CompilePatterns(env2, ldrop, items, 0);
      Kept(env, env3) && Count(Inspect(test, lhead, ldrop, lfalse) + code + [DROP], x) <= Room(env, env3, x)
    decreases items, 1
  {
    hide Count;
    var (lhead, env1) := env.NewLabel();
    var (ldrop, env2) := env1.NewLabel();
    var (env3, code) := CompilePatterns(env2, ldrop, items, 0);
    PatternsShape(env2, ldrop, items, 0, x);
    var head := Inspect(test, lhead, ldrop, lfalse);
    var a: Prog := [DUP, test, CJMP(true, lhead)];
    var b: Prog := [DROP, JMP(lfalse)];
    assert head == a + [LABEL(ldrop)] + b + [LABEL(lhead)];
    CountPlain(a, x);
    CountPlain(b, x);
    CountOne(LABEL(ldrop), x);
    CountOne(LABEL(lhead), x);
    CountAppend(a, [LABEL(ldrop)], x);
    CountAppend(a + [LABEL(ldrop)], b, x);
    CountAppend(a + [LABEL(ldrop)] + b, [LABEL(lhead)], x);
    CountOne(DROP, x);
    CountAppend(head, code, x);
    CountAppend(head + code, [DROP], x);
  }

  lemma {:induction false} PatternsShape(env: Env, ldrop: Label, ps: seq<Pattern>, i: nat, x: Label)
    ensures Kept(env, CompilePatterns(env, ldrop, ps, i).0)
    ensures Count(CompilePatterns(env, ldrop, ps, i).1, x) <= Room(env, CompilePatterns(env, ldrop, ps, i).0, x)
    decreases ps, 0
  {
    if ps != [] {
      var (env1, _, code) := CompilePattern(env, ldrop, ps[0]);
      var (env2, rest) := CompilePatterns(env1, ldrop, ps[1..], i + 1);
      PatternShape(env, ldrop, ps[0], x);
      PatternsShape(env1, ldrop, ps[1..], i + 1, x);
      var head: Prog := [DUP, CONST(i), ELEM];
      CountPlain(head, x);
      CountAppend(head, code, x);
      CountAppend(head + code, rest, x);
    }
  }

  lemma {:induction false} FollowShape(path: seq<nat>, x: Label)
    ensures Count(FollowCode(path), x) == 0
  {
    if path != [] {
      var head: Prog := [CONST(path[0]), ELEM];
      CountPlain(head, x);
      FollowShape(path[1..], x);
      CountAppend(head, FollowCode(path[1..]), x);
    }
  }

  /** The scope was opened on up, at most names have been added since. */
  ghost predicate Opened(base: Env, env: Env, names: nat) {
    && Grows(base, env) && env.scope.L? && env.scope.up == base.scope && |env.scope.names| == names
    && Variables(env.scope.names) == names && env.localIndex == base.localIndex + names
  }

  lemma OpenScopeShape(env: Env)
    requires !env.scope.I?
    ensures Opened(env, OpenScope(env), 0) && OpenScope(env).number == env.number
  {
  }

  lemma AddNameShape(base: Env, env: Env, names: nat, x: string)
    requires Opened(base, env, names)
    ensures Opened(base, AddName(env, x), names + 1) && AddName(env, x).number == env.number
  {
    assert ([(x, Mut)] + env.scope.names)[1..] == env.scope.names;
  }

  lemma CloseScopeShape(base: Env, env: Env, names: nat)
    requires Opened(base, env, names)
    ensures Kept(base, CloseScope(env)) && CloseScope(env).number == env.number
    ensures CloseScope(env).nlocals == env.nlocals
    ensures CloseScope(env).ok == env.ok
  {
  }

  lemma {:induction false} AddNamesShape(base: Env, env: Env, xs: seq<string>)
    requires Opened(base, env, 0)
    ensures Opened(base, AddNames(env, xs), |xs|) && AddNames(env, xs).number == env.number
  {
    if xs != [] {
      AddNamesShape(base, env, xs[1..]);
      AddNameShape(base, AddNames(env, xs[1..]), |xs| - 1, xs[0]);
    }
  }

  lemma {:induction false} BindingsShape(base: Env, env: Env, bs: seq<(string, seq<nat>)>, x: Label)
    requires Opened(base, env, 0)
    ensures Opened(base, CompileBindings(env, bs).0, |bs|) && CompileBindings(env, bs).0.number == env.number
    ensures Count(CompileBindings(env, bs).1, x) == 0
  {
    if bs != [] {
      hide Count, Opened, AddName, Place;
      var (env1, rest) := CompileBindings(env, bs[1..]);
      BindingsShape(base, env, bs[1..], x);
      AddNameShape(base, env1, |bs| - 1, bs[0].0);
      PlacedName(base, env1, |bs| - 1, bs[0].0);
      var (env2, d) := Place(AddName(env1, bs[0].0), bs[0].0);
      var tail: Prog := [ST(d), DROP];
      var one: Prog := [DUP];
      CountPlain(one, x);
      CountPlain(tail, x);
      FollowShape(bs[0].1, x);
      CountAppend(one, FollowCode(bs[0].1), x);
      CountAppend(one + FollowCode(bs[0].1), tail, x);
      CountAppend(one + FollowCode(bs[0].1) + tail, rest, x);
    }
  }

  /** A name just added is found. */
  lemma PlacedName(base: Env, env: Env, names: nat, x: string)
    requires Opened(base, env, names)
    ensures Place(AddName(env, x), x) == (AddName(env, x), Local(env.localIndex))
  {
    assert ([(x, Mut)] + env.scope.names)[0].0 == x;
  }

  // ---- expressions ----

  ghost predicate Tidy(env: Env, c: Compiled, x: Label) {
    Kept(env, c.0) && Count(c.2, x) <= Room(env, c.0, x)
  }

  lemma LabelIfShape(flag: bool, l: Label, x: Label)
    ensures Count(LabelIf(flag, l), x) <= if x == l then 1 else 0
  {
    CountOne(LABEL(l), x);
  }

  lemma JumpUnlessShape(flag: bool, l: Label, x: Label)
    ensures Count(JumpUnless(flag, l), x) == 0
  {
    CountPlain(JumpUnless(flag, l), x);
  }

  /** Code leaving through a label of its own, then more code. */
  lemma FinishShape(env: Env, env2: Env, c: Compiled, tail: Insn, x: Label)
    requires Kept(env.NewLabel().1, env2) && env2.number == env.number + 1
    requires Tidy(env2, c, x) && !tail.LABEL? && !tail.FLABEL? && !tail.SLABEL?
    ensures Tidy(env, Finish(c, env.NewLabel().0, [tail]), x)
  {
    hide Count, LabelIf;
    var l := env.NewLabel().0;
    LabelIfShape(c.1, l, x);
    CountOne(tail, x);
    CountAppend(c.2, LabelIf(c.1, l), x);
    CountAppend(c.2 + LabelIf(c.1, l), [tail], x);
  }

  lemma {:induction false} ExprShape(l: Label, env: Env, e: Expr, x: Label)
    requires !env.scope.I?
    ensures Tidy(env, CompileExpr(l, env, e), x)
    decreases Size(e), 1
  {
    hide Count, Tidy, Kept, Finish, Place, CompileIf, CompileWhile, CompileDoWhile, CompileCase, CompileScope,
      CompileCall, CompileAssign, CompileList;
    var env1 := env.NewLabel().1;
    match e
    case Seq(a, b) =>
      SizeOfSome(a, b, a, []);
      ListShape(l, env, [a, b], x);
    case ElemRef(b, i) =>
      SizeOfSome(b, i, b, []);
      ListShape(l, env, [b, i], x);
    case Ignore(s) =>
      ExprShape(env.NewLabel().0, env1, s, x);
      FinishOne(env, CompileExpr(env.NewLabel().0, env1, s), DROP, x);
    case Binop(_, _, _) => OperationShape(l, env, e, x);
    case ElemOf(_, _) => OperationShape(l, env, e, x);
    case Arr(_) => OperationShape(l, env, e, x);
    case Sexp(_, _) => OperationShape(l, env, e, x);
    case Call(f, args) => CallShape(env, f, args, x);
    case Assign(y, s) => AssignShape(env, y, s, x);
    case If(c, a, b) => IfShape(l, env, c, a, b, x);
    case While(c, s) => WhileShape(env, c, s, x);
    case DoWhile(s, c) => DoWhileShape(env, s, c, x);
    case Case(s, branches) => CaseShape(l, env, s, branches, x);
    case Scope(defs, body) => ScopeShape(l, env, defs, body, x);
    case _ => LeafShape(l, env, e, x);
  }

  /** Operands and an instruction that takes them. */
  lemma {:induction false} OperationShape(l: Label, env: Env, e: Expr, x: Label)
    requires (e.Binop? || e.ElemOf? || e.Arr? || e.Sexp?) && !env.scope.I?
    ensures Tidy(env, CompileExpr(l, env, e), x)
    decreases Size(e), 0
  {
    hide Count, Tidy, Kept, Finish, CompileList;
    var env1 := env.NewLabel().1;
    match e
    case Binop(op, a, b) =>
      SizeOfSome(a, b, a, []);
      ListShape(env.NewLabel().0, env1, [a, b], x);
      FinishOne(env, CompileList(env.NewLabel().0, env1, [a, b]), BINOP(op), x);
    case ElemOf(b, i) =>
      SizeOfSome(b, i, b, []);
      ListShape(env.NewLabel().0, env1, [b, i], x);
      FinishOne(env, CompileList(env.NewLabel().0, env1, [b, i]), ELEM, x);
    case Arr(items) =>
      ListShape(env.NewLabel().0, env1, items, x);
      FinishOne(env, CompileList(env.NewLabel().0, env1, items), CALL(Named(".array"), |items|), x);
    case Sexp(tag, items) =>
      ListShape(env.NewLabel().0, env1, items, x);
      FinishOne(env, CompileList(env.NewLabel().0, env1, items), SEXP(tag, |items|), x);
  }

  lemma FinishOne(env: Env, c: Compiled, tail: Insn, x: Label)
    requires Tidy(env.NewLabel().1, c, x) && !tail.LABEL? && !tail.FLABEL? && !tail.SLABEL?
    ensures Tidy(env, Finish(c, env.NewLabel().0, [tail]), x)
  {
    hide Count, Finish, Tidy;
    FinishShape(env, env.NewLabel().1, c, tail, x);
  }

  predicate Leaf(e: Expr) {
    e.Const? || e.Str? || e.Unit? || e.VarOf? || e.RefOf? || e.Skip?
  }

  lemma LeafShape(l: Label, env: Env, e: Expr, x: Label)
    requires Leaf(e)
    ensures Tidy(env, CompileExpr(l, env, e), x)
  {
    hide Count;
    CountPlain(CompileExpr(l, env, e).2, x);
  }

  lemma {:induction false} ListShape(l: Label, env: Env, es: seq<Expr>, x: Label)
    requires !env.scope.I?
    ensures Tidy(env, CompileList(l, env, es), x)
    decreases SizeOfAll(es), 2
  {
    hide Count, CompileExpr;
    if es == [] {
      CountPlain([], x);
    } else if |es| == 1 {
      ExprShape(l, env, es[0], x);
    } else {
      var (les, env1) := env.NewLabel();
      var (env2, flag1, s1) := CompileExpr(les, env1, es[0]);
      var (env3, flag2, s2) := CompileList(l, env2, es[1..]);
      ExprShape(les, env1, es[0], x);
      ListShape(l, env2, es[1..], x);
      LabelIfShape(flag1, les, x);
      CountAppend(s1, LabelIf(flag1, les), x);
      CountAppend(s1 + LabelIf(flag1, les), s2, x);
    }
  }

  lemma {:induction false} CallShape(env: Env, f: Expr, args: seq<Expr>, x: Label)
    requires !env.scope.I?
    ensures Tidy(env, CompileCall(env, f, args), x)
    decreases Size(Call(f, args)), 0
  {
    hide Count, CompileExpr, CompileList, Finish, Place, Tidy;
    SizeOfSome(f, f, f, args);
    var (lcall, env1) := env.NewLabel();
    if f.VarOf? {
      PlaceKeeps(env1, f.name);
    }
    var (env2, d) := if f.VarOf? then Place(env1, f.name) else (env1, Global(""));
    if d.Fun? {
      ListShape(lcall, env2, args, x);
      FinishShape(env, env2, CompileList(lcall, env2, args), CALL(d.entry, |args|), x);
    } else {
      ListShape(lcall, env2, [f] + args, x);
      FinishShape(env, env2, CompileList(lcall, env2, [f] + args), CALLC(|args|), x);
    }
  }

  lemma {:induction false} AssignShape(env: Env, y: Expr, s: Expr, x: Label)
    requires !env.scope.I?
    ensures Tidy(env, CompileAssign(env, y, s), x)
    decreases Size(Assign(y, s)), 0
  {
    hide Size, SizeOfAll, Count, CompileExpr, CompileList, Finish, Place, Tidy;
    SizeOfAssign(y, s);
    var (lassn, env1) := env.NewLabel();
    match y
    case RefOf(name) =>
      PlaceKeeps(env1, name);
      var (env2, d) := Place(env1, name);
      ExprShape(lassn, env2, s, x);
      FinishShape(env, env2, CompileExpr(lassn, env2, s), ST(d), x);
    case ElemRef(b, i) =>
      ListShape(lassn, env1, [b, i, s], x);
      FinishShape(env, env1, CompileList(lassn, env1, [b, i, s]), STA, x);
    case _ =>
      ListShape(lassn, env1, [y, s], x);
      FinishShape(env, env1, CompileList(lassn, env1, [y, s]), STA, x);
  }

  lemma {:induction false} IfShape(l: Label, env: Env, c: Expr, a: Expr, b: Expr, x: Label)
    requires !env.scope.I?
    ensures Tidy(env, CompileIf(l, env, c, a, b), x)
    decreases Size(If(c, a, b)), 0
  {
    hide Count, CompileExpr, LabelIf, JumpUnless, SizeOfAll, SizeOfBranches, SizeOfDefs;
    var (le, env1) := env.NewLabel();
    var (l2, env2) := env1.NewLabel();
    var (env3, fe, se) := CompileExpr(le, env2, c);
    var (env4, flag1, s1) := CompileExpr(l, env3, a);
    var (env5, flag2, s2) := CompileExpr(l, env4, b);
    ExprShape(le, env2, c, x);
    ExprShape(l, env3, a, x);
    ExprShape(l, env4, b, x);
    LabelIfShape(fe, le, x);
    JumpUnlessShape(flag1, l, x);
    JumpUnlessShape(flag2, l, x);
    CountOne(CJMP(false, l2), x);
    CountOne(LABEL(l2), x);
    CountAppend(se, LabelIf(fe, le), x);
    CountAppend(se + LabelIf(fe, le), [CJMP(false, l2)], x);
    CountAppend(se + LabelIf(fe, le) + [CJMP(false, l2)], s1, x);
    CountAppend(se + LabelIf(fe, le) + [CJMP(false, l2)] + s1, JumpUnless(flag1, l), x);
    CountAppend(se + LabelIf(fe, le) + [CJMP(false, l2)] + s1 + JumpUnless(flag1, l), [LABEL(l2)], x);
    CountAppend(se + LabelIf(fe, le) + [CJMP(false, l2)] + s1 + JumpUnless(flag1, l) + [LABEL(l2)], s2, x);
    CountAppend(se + LabelIf(fe, le) + [CJMP(false, l2)] + s1 + JumpUnless(flag1, l) + [LABEL(l2)] + s2,
      JumpUnless(flag2, l), x);
  }

  lemma WhileHead(cond: Label, loop: Label, x: Label)
    ensures Count([JMP(cond), FLABEL(loop)], x) == if x == loop then 1 else 0
  {
    hide Count;
    CountOne(JMP(cond), x);
    CountOne(FLABEL(loop), x);
    CountAppend([JMP(cond)], [FLABEL(loop)], x);
    assert [JMP(cond), FLABEL(loop)] == [JMP(cond)] + [FLABEL(loop)];
  }

  lemma {:induction false} WhileShape(env: Env, c: Expr, s: Expr, x: Label)
    requires !env.scope.I?
    ensures Tidy(env, CompileWhile(env, c, s), x)
    decreases Size(While(c, s)), 0
  {
    hide Count, SizeOfAll, SizeOfBranches, SizeOfDefs, CompileExpr, LabelIf;
    var (lexp, env1) := env.NewLabel();
    var (loop, env2) := env1.NewLabel();
    var (cond, env3) := env2.NewLabel();
    var (env4, fe, se) := CompileExpr(lexp, env3, c);
    var (env5, flag, body) := CompileExpr(cond, env4, s);
    ExprShape(lexp, env3, c, x);
    ExprShape(cond, env4, s, x);
    LabelIfShape(fe, lexp, x);
    CountOne(LABEL(cond), x);
    CountOne(CJMP(true, loop), x);
    var head: Prog := [JMP(cond), FLABEL(loop)];
    WhileHead(cond, loop, x);
    CountAppend(head, body, x);
    CountAppend(head + body, [LABEL(cond)], x);
    CountAppend(head + body + [LABEL(cond)], se, x);
    CountAppend(head + body + [LABEL(cond)] + se, LabelIf(fe, lexp), x);
    CountAppend(head + body + [LABEL(cond)] + se + LabelIf(fe, lexp), [CJMP(true, loop)], x);
  }

  lemma {:induction false} DoWhileShape(env: Env, s: Expr, c: Expr, x: Label)
    requires !env.scope.I?
    ensures Tidy(env, CompileDoWhile(env, s, c), x)
    decreases Size(DoWhile(s, c)), 0
  {
    hide Count, CompileExpr, LabelIf, SizeOfAll, SizeOfBranches, SizeOfDefs;
    var (lexp, env1) := env.NewLabel();
    var (loop, env2) := env1.NewLabel();
    var (check, env3) := env2.NewLabel();
    var (env4, fe, se) := CompileExpr(lexp, env3, c);
    var (env5, flag, body) := CompileExpr(check, env4, s);
    ExprShape(lexp, env3, c, x);
    ExprShape(check, env4, s, x);
    LabelIfShape(fe, lexp, x);
    LabelIfShape(flag, check, x);
    CountOne(LABEL(loop), x);
    CountOne(CJMP(true, loop), x);
    CountAppend([LABEL(loop)], body, x);
    CountAppend([LABEL(loop)] + body, LabelIf(flag, check), x);
    CountAppend([LABEL(loop)] + body + LabelIf(flag, check), se, x);
    CountAppend([LABEL(loop)] + body + LabelIf(flag, check) + se, LabelIf(fe, lexp), x);
    CountAppend([LABEL(loop)] + body + LabelIf(flag, check) + se + LabelIf(fe, lexp), [CJMP(true, loop)], x);
  }

  lemma {:induction false} ScopeShape(l: Label, env: Env, defs: seq<Def>, body: Expr, x: Label)
    requires !env.scope.I?
    ensures Tidy(env, CompileScope(l, env, defs, body), x)
    decreases Size(Scope(defs, body)), 0
  {
    hide Count, CompileExpr, AddNames, OpenScope, Opened, CloseScope;
    var (blab, env1) := env.NewLabel();
    var (elab, env2) := env1.NewLabel();
    SizeOfInitialised(defs, body);
    var xs := NamesOf(defs);
    var inner := AddNames(OpenScope(env2), xs);
    var (env3, flag, code) := CompileExpr(l, inner, Initialised(defs, body));
    OpenScopeShape(env2);
    AddNamesShape(env2, OpenScope(env2), xs);
    OpenedIsLocal(env2, inner, |xs|);
    ExprShape(l, inner, Initialised(defs, body), x);
    OpenedKept(env2, inner, env3, |xs|);
    CloseScopeShape(env2, env3, |xs|);
    CountOne(SLABEL(blab), x);
    CountOne(SLABEL(elab), x);
    CountAppend([SLABEL(blab)], code, x);
    CountAppend([SLABEL(blab)] + code, [SLABEL(elab)], x);
  }

  lemma OpenedIsLocal(base: Env, env: Env, names: nat)
    requires Opened(base, env, names)
    ensures !env.scope.I? && Grows(base, env)
  {
  }

  lemma OpenedKept(base: Env, env: Env, env': Env, names: nat)
    requires Opened(base, env, names) && Kept(env, env')
    ensures Opened(base, env', names)
  {
  }

  lemma {:induction false} CaseShape(l: Label, env: Env, s: Expr, branches: seq<Branch>, x: Label)
    requires !env.scope.I?
    ensures Tidy(env, CompileCase(l, env, s, branches), x)
    decreases Size(Case(s, branches)), 0
  {
    hide Count, CompileExpr, LabelIf, CompileBranches;
    var (lfail, env1) := env.NewLabel();
    var (lexp, env2) := env1.NewLabel();
    var (env3, fe, se) := CompileExpr(lexp, env2, s);
    var (env4, fail, code) := CompileBranches(l, env3, branches, None, lfail);
    ExprShape(lexp, env2, s, x);
    BranchesShape(l, env3, branches, None, lfail, x);
    LabelIfShape(fe, lexp, x);
    CountOne(DUP, x);
    CountOne(JMP(l), x);
    CountAppend(se, LabelIf(fe, lexp), x);
    CountAppend(se + LabelIf(fe, lexp), [DUP], x);
    CountAppend(se + LabelIf(fe, lexp) + [DUP], code, x);
    CountAppend(se + LabelIf(fe, lexp) + [DUP] + code, [JMP(l)], x);
    var tail: Prog := if fail then [LABEL(lfail), FAIL(0, 0), JMP(l)] else [];
    CountAppend(se + LabelIf(fe, lexp) + [DUP] + code + [JMP(l)], tail, x);
    FailShape(fail, lfail, l, x);
  }

  lemma FailShape(fail: bool, lfail: Label, l: Label, x: Label)
    ensures
      var tail: Prog := if fail then [LABEL(lfail), FAIL(0, 0), JMP(l)] else [];
      Count(tail, x) <= if x == lfail then 1 else 0
  {
    hide Count;
    var rest: Prog := [FAIL(0, 0), JMP(l)];
    CountPlain(rest, x);
    CountPlain([], x);
    CountOne(LABEL(lfail), x);
    CountAppend([LABEL(lfail)], rest, x);
    assert [LABEL(lfail)] + rest == [LABEL(lfail), FAIL(0, 0), JMP(l)];
  }

  /** A branch also defines the label the branch before it fails to. */
  lemma {:induction false} BranchShape(l: Label, env: Env, b: Branch, last: bool, lab: Option<Label>, lfalse: Label,
      x: Label)
    requires !env.scope.I?
    ensures
      var c := CompileBranch(l, env, b, last, lab, lfalse);
      Kept(env, c.0) && Count(c.2, x) <= Room(env, c.0, x) + (if lab == Some(x) then 1 else 0)
    decreases Size(b.body), 2
  {
    hide Count, CompileExpr, CompilePattern, CompileBindings, OpenScope, Opened, CloseScope, BranchHead, Paths;
    var (env2, canFail, pcode) := CompilePattern(env, lfalse, b.pattern);
    var (blab, env3) := env2.NewLabel();
    var (elab, env4) := env3.NewLabel();
    var (env5, bindcode) := CompileBindings(OpenScope(env4), Paths(b.pattern, []));
    var (env6, flag, scode) := CompileExpr(l, env5, b.body);
    var names := |Paths(b.pattern, [])|;
    var end: Prog := if last then [] else [JMP(l)];
    PatternShape(env, lfalse, b.pattern, x);
    OpenScopeShape(env4);
    BindingsShape(env4, OpenScope(env4), Paths(b.pattern, []), x);
    OpenedIsLocal(env4, env5, names);
    ExprShape(l, env5, b.body, x);
    OpenedKept(env4, env5, env6, names);
    CloseScopeShape(env4, env6, names);
    BranchHeadShape(blab, lab, x);
    CountOne(DROP, x);
    CountPlain(end, x);
    CountOne(SLABEL(elab), x);
    var head := BranchHead(blab, lab);
    CountAppend(head, pcode, x);
    CountAppend(head + pcode, bindcode, x);
    CountAppend(head + pcode + bindcode, [DROP], x);
    CountAppend(head + pcode + bindcode + [DROP], scode, x);
    CountAppend(head + pcode + bindcode + [DROP] + scode, end, x);
    CountAppend(head + pcode + bindcode + [DROP] + scode + end, [SLABEL(elab)], x);
  }

  lemma BranchHeadShape(blab: Label, lab: Option<Label>, x: Label)
    ensures Count(BranchHead(blab, lab), x) == (if lab == Some(x) then 1 else 0) + (if x == blab then 1 else 0)
  {
    hide Count;
    match lab
    case None => CountOne(SLABEL(blab), x);
    case Some(l) =>
      CountOne(SLABEL(blab), x);
      CountOne(LABEL(l), x);
      CountOne(DUP, x);
      CountAppend([SLABEL(blab)], [LABEL(l)], x);
      CountAppend([SLABEL(blab)] + [LABEL(l)], [DUP], x);
      assert BranchHead(blab, lab) == [SLABEL(blab)] + [LABEL(l)] + [DUP];
  }

  lemma {:induction false} BranchesShape(l: Label, env: Env, branches: seq<Branch>, lab: Option<Label>, lfail: Label,
      x: Label)
    requires !env.scope.I?
    ensures
      var c := CompileBranches(l, env, branches, lab, lfail);
      Kept(env, c.0) && Count(c.2, x) <= Room(env, c.0, x) + (if lab == Some(x) then 1 else 0)
    decreases SizeOfBranches(branches), 0
  {
    hide Count, CompileExpr, CompileBranch;
    if branches == [] {
      CountPlain([], x);
    } else {
      var last := |branches| == 1;
      var lfalse := if last then lfail else env.NewLabel().0;
      var env1 := if last then env else env.NewLabel().1;
      var b := CompileBranch(l, env1, branches[0], last, lab, lfalse);
      assert SizeOfBranch(branches[0]) == Size(branches[0].body);
      BranchShape(l, env1, branches[0], last, lab, lfalse, x);
      if !last && b.1 {
        BranchesShape(l, b.0, branches[1..], Some(lfalse), lfail, x);
        CountAppend(b.2, CompileBranches(l, b.0, branches[1..], Some(lfalse), lfail).2, x);
      }
    }
  }
}
