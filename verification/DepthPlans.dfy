/** Operand depths of generated code, planned piece by piece: every position of a piece is balanced in any program
    that follows the plan around it. */
module DepthPlans {
  import opened Wrappers
  import opened LamaValues
  import opened StackMachine
  import opened Compiler
  import opened CodeShape
  import opened Execution
  import opened FlatMemory
  import opened Interpretation
  import opened Simulation

  /** Depths other pieces must have at given positions. */
  type Marks = set<(nat, int)>

  ghost predicate Marked(d: Depths, mark: (nat, int)) {
    mark.0 < |d| && d[mark.0] == mark.1
  }

  /** d has the depths ds from position k on, out behind them, and those of the marks. */
  ghost predicate Follows(p: Prog, d: Depths, k: nat, ds: Depths, out: int, marks: Marks) {
    && |d| == |p| + 1 && k + |ds| <= |p| && d[k..k + |ds|] == ds && d[k + |ds|] == out
    && forall mark :: mark in marks ==> Marked(d, mark)
  }

  ghost predicate AllBalanced(c: Code, lo: nat, hi: nat)
    requires |c.d| == |c.p| + 1 && hi <= |c.p|
  {
    forall pc :: lo <= pc < hi ==> Balanced(c, pc)
  }

  ghost predicate Plan(c: Code, k: nat, ds: Depths, out: int, marks: Marks) {
    k + |ds| <= |c.p| && forall d :: Follows(c.p, d, k, ds, out, marks) ==> AllBalanced(c.(d := d), k, k + |ds|)
  }

  /** The depth a piece starts with. */
  function First(ds: Depths, out: int): int {
    if ds == [] then out else ds[0]
  }

  lemma PlanNone(c: Code, k: nat, out: int)
    requires k <= |c.p|
    ensures Plan(c, k, [], out, {})
  {
  }

  lemma FollowsParts(p: Prog, d: Depths, k: nat, a: Depths, b: Depths, out: int, marks: Marks, ma: Marks, mb: Marks)
    requires Follows(p, d, k, a + b, out, marks) && ma <= marks && mb <= marks
    ensures Follows(p, d, k, a, First(b, out), ma) && Follows(p, d, k + |a|, b, out, mb)
  {
    var c := d[k..k + |a + b|];
    assert d[k..k + |a|] == c[..|a|] == a;
    assert d[k + |a|..k + |a| + |b|] == c[|a|..] == b;
    if b != [] {
      assert d[k + |a|] == c[|a|] == b[0];
    }
  }

  lemma PlanAppend(c: Code, k: nat, a: Depths, b: Depths, out: int, ma: Marks, mb: Marks, marks: Marks)
    requires Plan(c, k, a, First(b, out), ma) && Plan(c, k + |a|, b, out, mb) && ma <= marks && mb <= marks
    ensures Plan(c, k, a + b, out, marks)
    ensures First(a + b, out) == First(a, First(b, out)) && |a + b| == |a| + |b|
  {
    hide Balanced;
    forall d | Follows(c.p, d, k, a + b, out, marks) ensures AllBalanced(c.(d := d), k, k + |a + b|) {
      FollowsParts(c.p, d, k, a, b, out, marks, ma, mb);
      assert AllBalanced(c.(d := d), k, k + |a|);
      assert AllBalanced(c.(d := d), k + |a|, k + |a| + |b|);
    }
  }

  /** Marks the plan itself meets can go, others can come. */
  ghost predicate Met(k: nat, ds: Depths, out: int, mark: (nat, int)) {
    k <= mark.0 <= k + |ds| && (ds + [out])[mark.0 - k] == mark.1
  }

  lemma PlanReduce(c: Code, k: nat, ds: Depths, out: int, marks: Marks, marks': Marks)
    requires Plan(c, k, ds, out, marks)
    requires forall mark :: mark in marks ==> mark in marks' || Met(k, ds, out, mark)
    ensures Plan(c, k, ds, out, marks')
  {
    hide Balanced, AllBalanced;
    forall d | Follows(c.p, d, k, ds, out, marks') ensures AllBalanced(c.(d := d), k, k + |ds|) {
      forall mark | mark in marks ensures Marked(d, mark) {
        if mark !in marks' {
          assert d[k..k + |ds|] == ds;
          if mark.0 < k + |ds| {
            assert d[k..k + |ds|][mark.0 - k] == d[mark.0];
          }
        }
      }
      assert Follows(c.p, d, k, ds, out, marks);
    }
  }

  // ---- single instructions ----

  /** What the instructions without labels take and leave; None for those the interpreter lacks. */
  function Effects(i: Insn): Option<(nat, nat)> {
    match i
    case BINOP(_) => Some((2, 1))
    case CONST(_) => Some((0, 1))
    case STRING(_) => Some((0, 1))
    case SEXP(_, n) => Some((n, 1))
    case LD(d) => if d.Global? || d.Fun? then None else Some((0, 1))
    case ST(d) => if d.Global? || d.Fun? then None else Some((1, 1))
    case STA => Some((3, 1))
    case ELEM => Some((2, 1))
    case LABEL(_) => Some((0, 0))
    case FLABEL(_) => Some((0, 0))
    case SLABEL(_) => Some((0, 0))
    case DROP => Some((1, 0))
    case DUP => Some((1, 2))
    case TAG(_, _) => Some((1, 1))
    case ARRAY(_) => Some((1, 1))
    case PATT(q) => if q.StrCmp? then Some((2, 1)) else Some((1, 1))
    case _ => None
  }

  lemma OneFollows(p: Prog, d: Depths, k: nat, n: int, out: int, marks: Marks)
    requires Follows(p, d, k, [n], out, marks)
    ensures |d| == |p| + 1 && k < |p| && d[k] == n && d[k + 1] == out
  {
    assert d[k..k + 1][0] == d[k];
  }

  lemma PlanOne(c: Code, k: nat, i: Insn, n: nat)
    requires k < |c.p| && c.p[k] == i && Effects(i).Some? && Effects(i).value.0 <= n
    ensures Plan(c, k, [n], n - Effects(i).value.0 + Effects(i).value.1, {})
  {
    var out := n - Effects(i).value.0 + Effects(i).value.1;
    forall d | Follows(c.p, d, k, [n], out, {}) ensures AllBalanced(c.(d := d), k, k + 1) {
      OneFollows(c.p, d, k, n, out, {});
    }
  }

  lemma PlanVariable(c: Code, k: nat, i: Insn, n: nat)
    requires k < |c.p| && c.p[k] == i && (i.LD? || i.ST?) && Placed(c, i.place) && (i.ST? ==> n >= 1)
    ensures Plan(c, k, [n], if i.LD? then n + 1 else n, {})
  {
    var out := if i.LD? then n + 1 else n;
    forall d | Follows(c.p, d, k, [n], out, {}) ensures AllBalanced(c.(d := d), k, k + 1) {
      OneFollows(c.p, d, k, n, out, {});
      assert Placed(c.(d := d), i.place);
    }
  }

  lemma PlanJump(c: Code, k: nat, l: Label, n: nat, target: nat, out: int)
    requires k < |c.p| && c.p[k] == JMP(l) && FindLabel(c.p, l) == Some(target)
    ensures Plan(c, k, [n], out, {(target, n)})
  {
    forall d | Follows(c.p, d, k, [n], out, {(target, n)}) ensures AllBalanced(c.(d := d), k, k + 1) {
      OneFollows(c.p, d, k, n, out, {(target, n)});
      assert Marked(d, (target, n));
    }
  }

  lemma PlanBranch(c: Code, k: nat, nonzero: bool, l: Label, n: nat, target: nat)
    requires k < |c.p| && c.p[k] == CJMP(nonzero, l) && FindLabel(c.p, l) == Some(target) && n >= 1
    ensures Plan(c, k, [n], n - 1, {(target, n - 1)})
  {
    forall d | Follows(c.p, d, k, [n], n - 1, {(target, n - 1)}) ensures AllBalanced(c.(d := d), k, k + 1) {
      OneFollows(c.p, d, k, n, n - 1, {(target, n - 1)});
      assert Marked(d, (target, n - 1));
    }
  }

  lemma PlanFail(c: Code, k: nat, n: nat, out: int)
    requires k < |c.p| && c.p[k].FAIL?
    ensures Plan(c, k, [n], out, {})
  {
    forall d | Follows(c.p, d, k, [n], out, {}) ensures AllBalanced(c.(d := d), k, k + 1) {
      OneFollows(c.p, d, k, n, out, {});
    }
  }

  /** A call of a builtin. */
  lemma PlanBuiltin(c: Code, k: nat, name: string, a: nat, n: nat)
    requires k < |c.p| && c.p[k] == CALL(Named(name), a) && FindLabel(c.p, Named(name)) == None && Called(name)
    requires a <= n
    ensures Plan(c, k, [n], n - a + 1, {})
  {
    forall d | Follows(c.p, d, k, [n], n - a + 1, {}) ensures AllBalanced(c.(d := d), k, k + 1) {
      OneFollows(c.p, d, k, n, n - a + 1, {});
    }
  }

  // ---- short runs of instructions ----

  /** Depths before each instruction of a run without jumps. */
  function DepthsAlong(c: Prog, n: int): Depths
    requires forall i :: 0 <= i < |c| ==> Effects(c[i]).Some?
    decreases |c|
  {
    if c == [] then [] else [n] + DepthsAlong(c[1..], n - Effects(c[0]).value.0 + Effects(c[0]).value.1)
  }

  function Behind(c: Prog, n: int): int
    requires forall i :: 0 <= i < |c| ==> Effects(c[i]).Some?
    decreases |c|
  {
    if c == [] then n else Behind(c[1..], n - Effects(c[0]).value.0 + Effects(c[0]).value.1)
  }

  predicate Enough(c: Prog, n: int)
    requires forall i :: 0 <= i < |c| ==> Effects(c[i]).Some?
    decreases |c|
  {
    c == [] || (Effects(c[0]).value.0 <= n && Enough(c[1..], n - Effects(c[0]).value.0 + Effects(c[0]).value.1))
  }

  /** A run of instructions without jumps needs no marks. */
  lemma {:induction false} PlanRun(c: Code, k: nat, code: Prog, n: nat)
    requires CodeAt(c.p, k, code)
    requires forall i :: 0 <= i < |code| ==> Effects(code[i]).Some?
    requires Enough(code, n)
    ensures Plan(c, k, DepthsAlong(code, n), Behind(code, n), {}) && |DepthsAlong(code, n)| == |code|
    ensures First(DepthsAlong(code, n), Behind(code, n)) == n
    decreases |code|
  {
    hide Plan;
    if code == [] {
      PlanNone(c, k, n);
    } else {
      var n1 := n - Effects(code[0]).value.0 + Effects(code[0]).value.1;
      assert code == [code[0]] + code[1..];
      CodeSplit(c.p, k, [code[0]], code[1..]);
      InsnAt(c.p, k, [code[0]], 0);
      PlanOne(c, k, code[0], n);
      PlanRun(c, k + 1, code[1..], n1);
      PlanAppend(c, k, [n], DepthsAlong(code[1..], n1), Behind(code, n), {}, {}, {});
    }
  }
}
