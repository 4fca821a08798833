/** What an ellipsis matches: all that is left.  It never moves on while the other
    side has something, so whatever stands after it is not compared. */
module Ellipses {
  import opened Ast
  import opened Semantics
  import opened Match

  function Ellipsis(n: string): Expr { OfId(n) }

  lemma EllipsisBinds(v: Expr, n: string)
    requires IsEllipsisName(n) && !ExprIsPlaceholder(v)
    ensures ExprIsPlaceholder(Ellipsis(n)) && ExprIsEllipsis(Ellipsis(n))
    ensures OnMatch(v, Ellipsis(n)) == [Binding(n[1..], v)] == OnMatch(Ellipsis(n), v)
  {
    assert Core(Ellipsis(n).first) == Prim(Id(n));
  }

  /** The name it is bound under is that of a placeholder: `__1` binds `_1`. */
  lemma EllipsisName(n: string)
    requires IsEllipsisName(n)
    ensures IsPlaceholderName(n) && IsPlaceholderName(n[1..])
  {}

  // ---------------------------------------------------------------------
  // In argument lists

  /** One binding of the same name for each argument, in order. */
  function Each(n: string, es: seq<Expr>): (bs: seq<Binding>)
    ensures |bs| == |es| && forall k | 0 <= k < |es| :: bs[k] == Binding(n, es[k])
  {
    seq(|es|, k requires 0 <= k < |es| => Binding(n, es[k]))
  }

  /** The bindings of pairs, one pair after the other. */
  function PairBinds(a1: seq<Expr>, a2: seq<Expr>): seq<Binding>
    requires |a1| == |a2| && forall k | 0 <= k < |a1| :: MatchExpr(a1[k], a2[k]).Matched?
  {
    if a1 == [] then [] else MatchExpr(a1[0], a2[0]).binds + PairBinds(a1[1..], a2[1..])
  }

  ghost predicate PairsMatch(a1: seq<Expr>, a2: seq<Expr>) {
    |a1| == |a2| && forall k | 0 <= k < |a1| :: MatchExpr(a1[k], a2[k]).Matched?
  }

  lemma PairsMatchFirst(a1: seq<Expr>, a2: seq<Expr>)
    requires a1 != [] && a2 != []
    ensures PairsMatch(a1, a2) <==> MatchExpr(a1[0], a2[0]).Matched? && PairsMatch(a1[1..], a2[1..])
  {
    if MatchExpr(a1[0], a2[0]).Matched? && PairsMatch(a1[1..], a2[1..]) {
      forall k | 0 <= k < |a1| ensures MatchExpr(a1[k], a2[k]).Matched? {
        if k > 0 { assert MatchExpr(a1[1..][k - 1], a2[1..][k - 1]).Matched?; }
      }
    }
    if PairsMatch(a1, a2) {
      forall k | 0 <= k < |a1| - 1 ensures MatchExpr(a1[1..][k], a2[1..][k]).Matched? {
        assert MatchExpr(a1[k + 1], a2[k + 1]).Matched?;
      }
    }
  }

  ghost predicate NoEllipses(es: seq<Expr>) {
    forall k | 0 <= k < |es| :: !ExprIsEllipsis(es[k])
  }

  lemma PlainArguments(a1: seq<Expr>)
    requires AllFit(a1, Subject)
    ensures forall k | 0 <= k < |a1| :: !ExprIsEllipsis(a1[k]) && !ExprIsPlaceholder(a1[k])
  {
    forall k | 0 <= k < |a1| ensures !ExprIsEllipsis(a1[k]) && !ExprIsPlaceholder(a1[k]) {
      assert Fits(a1[k], Subject);
      SubjectHasNone(a1[k].first);
    }
  }

  /** Without ellipses, arguments match one for one. */
  lemma {:induction false} ArgsMatchInPairs(a1: seq<Expr>, a2: seq<Expr>)
    requires AllFit(a1, Subject) && NoEllipses(a2)
    ensures MatchArgs(a1, a2).Matched? <==> PairsMatch(a1, a2)
    ensures PairsMatch(a1, a2) ==> MatchArgs(a1, a2).binds == PairBinds(a1, a2)
    decreases |a1|
  {
    PlainArguments(a1);
    if a1 != [] && a2 != [] {
      ArgsMatchInPairs(a1[1..], a2[1..]);
      PairsMatchFirst(a1, a2);
    }
  }

  /** An ellipsis at the front takes every argument. */
  lemma {:induction false} EllipsisTakesAll(a1: seq<Expr>, n: string, after: seq<Expr>)
    requires AllFit(a1, Subject) && IsEllipsisName(n)
    ensures MatchArgs(a1, [Ellipsis(n)] + after) == Matched(Each(n[1..], a1), [])
    decreases |a1|
  {
    var a2 := [Ellipsis(n)] + after;
    PlainArguments(a1);
    assert ExprIsEllipsis(a2[0]) by { assert Core(Ellipsis(n).first) == Prim(Id(n)); }
    if a1 != [] {
      EllipsisBinds(a1[0], n);
      EllipsisTakesAll(a1[1..], n, after);
      assert Each(n[1..], a1) == [Binding(n[1..], a1[0])] + Each(n[1..], a1[1..]);
    } else {
      assert Each(n[1..], a1) == [];
    }
  }

  /** What matching against `p`, an ellipsis and anything else comes to. */
  ghost predicate TakesRest(o: Outcome, a1: seq<Expr>, p: seq<Expr>, n: string) {
    if |a1| >= |p| && PairsMatch(a1[..|p|], p)
    then o.Matched? && o.binds == PairBinds(a1[..|p|], p) + Each(n, a1[|p|..])
    else o.NoMatch?
  }

  lemma TakesRestFirst(o: Outcome, a1: seq<Expr>, p: seq<Expr>, n: string)
    requires a1 != [] && p != [] && TakesRest(o, a1[1..], p[1..], n)
    ensures TakesRest(MatchExpr(a1[0], p[0]).Then(o), a1, p, n)
  {
    if |a1| >= |p| {
      var first := a1[..|p|];
      assert first[0] == a1[0] && first[1..] == a1[1..][..|p| - 1] && a1[|p|..] == a1[1..][|p| - 1..];
      PairsMatchFirst(first, p);
    }
  }

  /** Main result: arguments match a pattern with an ellipsis exactly when they are
      at least as many as the patterns before it, and match those one for one; the
      rest goes to the ellipsis, and what comes after it does not matter. */
  lemma {:induction false} EllipsisArgs(a1: seq<Expr>, p: seq<Expr>, n: string, after: seq<Expr>)
    requires AllFit(a1, Subject) && NoEllipses(p) && IsEllipsisName(n)
    ensures TakesRest(MatchArgs(a1, p + [Ellipsis(n)] + after), a1, p, n[1..])
    decreases |p|
  {
    var a2 := p + [Ellipsis(n)] + after;
    PlainArguments(a1);
    if p == [] {
      assert a2 == [Ellipsis(n)] + after;
      EllipsisTakesAll(a1, n, after);
      assert a1[..0] == [] && a1[0..] == a1;
    } else if a1 == [] {
      assert a2[0] == p[0];
    } else {
      assert a2[0] == p[0] && a2[1..] == p[1..] + [Ellipsis(n)] + after;
      EllipsisArgs(a1[1..], p[1..], n, after);
      TakesRestFirst(MatchArgs(a1[1..], a2[1..]), a1, p, n[1..]);
    }
  }

  /** The same for calls: `define(__1)` matches every call of `define`. */
  lemma EllipsisCall(c1: Call, c2: Call, p: seq<Expr>, n: string, after: seq<Expr>)
    requires AllFit(c1.args, Subject) && NoEllipses(p) && IsEllipsisName(n) && c2.args == p + [Ellipsis(n)] + after
    ensures exists o ::
      && TakesRest(o, c1.args, p, n[1..])
      && MatchPrimary(Apply(c1), Apply(c2)) == MatchId(c1.name, c2.name).Then(o)
  {
    EllipsisArgs(c1.args, p, n, after);
    assert MatchPrimary(Apply(c1), Apply(c2)) == MatchId(c1.name, c2.name).Then(MatchArgs(c1.args, c2.args));
  }

  /** An ellipsis in the subject takes every argument of the pattern. */
  lemma {:induction false} SubjectEllipsisTakesAll(a2: seq<Expr>, n: string, after: seq<Expr>)
    requires AllFit(a2, Subject) && IsEllipsisName(n)
    ensures MatchArgs([Ellipsis(n)] + after, a2) == Matched(Each(n[1..], a2), [])
    decreases |a2|
  {
    var a1 := [Ellipsis(n)] + after;
    PlainArguments(a2);
    assert ExprIsEllipsis(a1[0]) by { assert Core(Ellipsis(n).first) == Prim(Id(n)); }
    if a2 != [] {
      EllipsisBinds(a2[0], n);
      SubjectEllipsisTakesAll(a2[1..], n, after);
      assert Each(n[1..], a2) == [Binding(n[1..], a2[0])] + Each(n[1..], a2[1..]);
    } else {
      assert Each(n[1..], a2) == [];
    }
  }

  // ---------------------------------------------------------------------
  // In lists of operations

  /** What a list falls into: its first operand with all that is tighter, and so on. */
  function RunsOf(ops: seq<Operation>): seq<Expr> {
    if ops == [] then []
    else
      var run := RunAt(ops, Precedence(ops[0].op));
      [run.value] + RunsOf(ops[run.len..])
  }

  /** No operator as loose as `op`, or looser, but `op` itself. */
  ghost predicate NoneLooser(ops: seq<Operation>, op: Op) {
    forall k | 0 <= k < |ops| :: Precedence(ops[k].op) <= Precedence(op) ==> ops[k].op == op
  }

  lemma LooserAfterRun(ops: seq<Operation>)
    requires ops != []
    ensures var run := RunAt(ops, Precedence(ops[0].op)); var tail := ops[run.len..];
      && (NoneLooser(ops, ops[0].op) <==> NoneLooser(tail, ops[0].op))
      && (tail != [] ==> Precedence(tail[0].op) <= Precedence(ops[0].op))
  {
    var op, run := ops[0].op, RunAt(ops, Precedence(ops[0].op));
    var tail := ops[run.len..];
    forall k | 0 < k < run.len ensures Precedence(ops[k].op) > Precedence(op) { assert ops[k] == ops[1..][k - 1]; }
    if tail != [] { assert tail[0] == ops[1..][run.len - 1]; }
    if NoneLooser(tail, op) {
      forall k | 0 <= k < |ops| ensures Precedence(ops[k].op) <= Precedence(op) ==> ops[k].op == op {
        if k >= run.len { assert ops[k] == tail[k - run.len]; }
      }
    }
  }

  function Trailing(op: Op, n: string): Operation { Operation(op, Prim(Id(n))) }

  /** One step: the ellipsis takes a run, and stays while operations are left. */
  lemma EllipsisRun(r1: seq<Operation>, op: Op, n: string, after: seq<Operation>)
    requires RestFits(r1, Subject) && r1 != [] && IsEllipsisName(n)
    ensures var r2 := [Trailing(op, n)] + after; var run := RunAt(r1, Precedence(r1[0].op));
      var tail := r1[run.len..];
      Walk(r1, r2) == Matched([Binding(n[1..], run.value)], run.lost)
        .Then(If(r1[0].op == op)).Then(Walk(tail, if tail == [] then after else r2))
  {
    var r2, run := [Trailing(op, n)] + after, RunAt(r1, Precedence(r1[0].op));
    assert OperationFits(r1[0], Subject);
    SubjectHasNone(r1[0].arg);
    RunIsPlain(r1);
    EllipsisBinds(run.value, n);
    assert Core(r2[0].arg) == Prim(Id(n));
    assert r2[1..] == after && OfOperand(r2[0].arg) == Ellipsis(n);
  }

  lemma RunIsPlain(r1: seq<Operation>)
    requires RestFits(r1, Subject) && r1 != []
    ensures !ExprIsPlaceholder(RunAt(r1, Precedence(r1[0].op)).value)
  {
    assert OperationFits(r1[0], Subject);
    CoreFits(r1[0].arg, Subject);
    SubjectHasNone(RunAt(r1, Precedence(r1[0].op)).value.first);
  }

  /** What matching operations against an ellipsis and anything else comes to. */
  ghost predicate TakesRuns(o: Outcome, r1: seq<Operation>, op: Op, n: string, ends: bool) {
    if (r1 == [] || r1[0].op == op) && NoneLooser(r1, op) && ends
    then o.Matched? && o.binds == Each(n, RunsOf(r1))
    else o.NoMatch?
  }

  lemma TakesRunsFirst(o: Outcome, r1: seq<Operation>, op: Op, n: string, ends: bool)
    requires r1 != []
    requires TakesRuns(o, r1[RunAt(r1, Precedence(r1[0].op)).len..], op, n, ends)
    ensures var run := RunAt(r1, Precedence(r1[0].op));
      TakesRuns(Matched([Binding(n, run.value)], run.lost).Then(If(r1[0].op == op)).Then(o), r1, op, n, ends)
  {
    var run := RunAt(r1, Precedence(r1[0].op));
    var rest := RunsOf(r1[run.len..]);
    LooserAfterRun(r1);
    EachFirst(n, run.value, rest);
  }

  lemma EachFirst(n: string, e: Expr, es: seq<Expr>)
    ensures Each(n, [e] + es) == [Binding(n, e)] + Each(n, es)
  {}

  /** Main result: an ellipsis after an operator takes one run after the other, as
      long as there are any; no other operator may be as loose.  What comes after
      the ellipsis must be nothing, or begin with another one. */
  lemma {:induction false} EllipsisWalk(r1: seq<Operation>, op: Op, n: string, after: seq<Operation>)
    requires RestFits(r1, Subject) && r1 != [] && IsEllipsisName(n)
    ensures TakesRuns(Walk(r1, [Trailing(op, n)] + after), r1, op, n[1..], after == [] || IsEllipsis(after[0].arg))
    decreases |r1|
  {
    var ends := after == [] || IsEllipsis(after[0].arg);
    var tail := r1[RunAt(r1, Precedence(r1[0].op)).len..];
    EllipsisRun(r1, op, n, after);
    if tail == [] {
      assert TakesRuns(Walk(tail, after), tail, op, n[1..], ends);
      TakesRunsFirst(Walk(tail, after), r1, op, n[1..], ends);
    } else {
      EllipsisWalk(tail, op, n, after);
      TakesRunsFirst(Walk(tail, [Trailing(op, n)] + after), r1, op, n[1..], ends);
    }
  }

  /** An ellipsis also matches nothing at all, but only in a list that has begun: see
      `Placeholders.SizesMustAgree`. */
  lemma EllipsisEnds(op: Op, n: string, after: seq<Operation>)
    requires IsEllipsisName(n)
    ensures Walk([], [Trailing(op, n)] + after) == YES
  {
    assert Core(([Trailing(op, n)] + after)[0].arg) == Prim(Id(n));
  }
}
