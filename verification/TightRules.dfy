/** Rules that never bring a placeholder, or anything in parentheses, before a
    tighter operator: under them a subject without parentheses before a tighter
    operator stays such a subject, so no match is ever unsafe. */
module TightRules {
  import opened Ast
  import opened Semantics
  import opened Match
  import opened MatchShape
  import opened MatchExact
  import opened Rewrite
  import opened RewriteSound
  import opened TransformSound
  import opened Basics

  ghost predicate IsTightRule(rule: Rule) {
    Closed(rule) && Linear(rule.lhs) && TightFree(rule.rhs, Holes)
  }

  // ---------------------------------------------------------------------
  // Substitution

  ghost predicate TightPieces(s: Sigma) {
    Grounded(s) && forall n | n in s.exprs :: TightFree(s.exprs[n], Parentheses)
  }

  lemma {:induction false} SubstTight(e: Expr, s: Sigma)
    requires TightFree(e, Holes) && TightPieces(s)
    ensures TightFree(Subst(e, s), Parentheses)
    decreases e, 1
  {
    SubstOperandTight(e.first, s);
    forall k | 0 <= k < |e.rest|
      ensures OperationTightFree(SubstRest(e.rest, s)[k], Parentheses)
      ensures Risky(SubstRest(e.rest, s)[k].arg, Parentheses) ==> Risky(e.rest[k].arg, Holes)
    {
      assert OperationTightFree(e.rest[k], Holes);
      ArgSmaller(e.rest[k]);
      SubstOperandTight(e.rest[k].arg, s);
    }
  }

  lemma {:induction false} SubstOperandTight(o: Operand, s: Sigma)
    requires OperandTightFree(o, Holes) && TightPieces(s)
    ensures OperandTightFree(SubstOperand(o, s), Parentheses)
    ensures Risky(SubstOperand(o, s), Parentheses) ==> Risky(o, Holes)
    decreases o, 1
  {
    match o
    case Un(u) => SubstOperandTight(u.arg, s);
    case Prim(Paren(e)) => SubstTight(e, s);
    case Prim(Apply(c)) => SubstArgsTight(c.args, s);
    case Prim(List(es)) => SubstArgsTight(es, s);
    case _ =>
  }

  lemma {:induction false} SubstArgsTight(es: seq<Expr>, s: Sigma)
    requires AllTightFree(es, Holes) && TightPieces(s)
    ensures AllTightFree(SubstArgs(es, s), Parentheses)
    decreases es, 0
  {
    forall k | 0 <= k < |es| ensures TightFree(SubstArgs(es, s)[k], Parentheses) { SubstTight(es[k], s); }
  }

  // ---------------------------------------------------------------------
  // Simplification

  lemma {:induction false} SimplifyTight(e: Expr)
    requires TightFree(e, Parentheses)
    ensures TightFree(Simplify(e), Parentheses)
    decreases e, 1
  {
    if e.rest == [] && e.first.Prim? {
      PrimaryTight(e.first.p);
    } else {
      OperandTight(e.first);
      forall k | 0 <= k < |e.rest|
        ensures OperationTightFree(SimplifyRest(e.rest)[k], Parentheses)
        ensures Risky(SimplifyRest(e.rest)[k].arg, Parentheses) ==> Risky(e.rest[k].arg, Parentheses)
      {
        assert OperationTightFree(e.rest[k], Parentheses);
        ArgSmaller(e.rest[k]);
        OperandTight(e.rest[k].arg);
      }
    }
  }

  lemma {:induction false} PrimaryTight(p: Primary)
    requires OperandTightFree(Prim(p), Parentheses)
    ensures OperandTightFree(Prim(SimplifyPrimary(p)), Parentheses)
    decreases p, 1
  {
    match p
    case Paren(e) =>
      if e.rest == [] && e.first.Prim? { PrimaryTight(e.first.p); } else { SimplifyTight(e); }
    case Apply(c) => ArgsTight(c.args);
    case List(es) => ArgsTight(es);
    case _ =>
  }

  lemma {:induction false} OperandTight(o: Operand)
    requires OperandTightFree(o, Parentheses)
    ensures OperandTightFree(SimplifyOperand(o), Parentheses)
    ensures Risky(SimplifyOperand(o), Parentheses) ==> Risky(o, Parentheses)
    decreases o, 1
  {
    match o
    case NilOperand =>
    case Un(u) => OperandTight(u.arg);
    case Prim(p) =>
      if p.Paren? && p.e.rest == [] && p.e.first.Un? {
        assert OperandTightFree(p.e.first, Parentheses);
        OperandTight(p.e.first.u.arg);
      } else {
        PrimaryTight(p);
      }
  }

  lemma {:induction false} ArgsTight(es: seq<Expr>)
    requires AllTightFree(es, Parentheses)
    ensures AllTightFree(SimplifyArgs(es), Parentheses)
    decreases es, 0
  {
    forall k | 0 <= k < |es| ensures TightFree(SimplifyArgs(es)[k], Parentheses) { SimplifyTight(es[k]); }
  }

  // ---------------------------------------------------------------------
  // Transformation

  lemma MatchTight(e: Expr, lhs: Expr)
    requires Fits(e, Subject) && Fits(lhs, Pattern) && MatchExpr(e, lhs).Matched? && TightFree(e, Parentheses)
    ensures TightPieces(First(MatchExpr(e, lhs).binds))
  {
    var bs := MatchExpr(e, lhs).binds;
    ExprShape(e, lhs, Some(Parentheses));
    MatchPieces(e, lhs);
    GroundedFirst(bs);
    forall n | n in First(bs).exprs ensures TightFree(First(bs).exprs[n], Parentheses) {
      FirstIsSome(bs, n);
      var k :| 0 <= k < |bs| && bs[k].name == n && bs[k].value == First(bs).exprs[n];
      assert GoodFace(FacedExpr(e, lhs)[k], Some(Parentheses));
    }
  }

  /** Main result: rewriting with such a rule keeps parentheses away from tighter
      operators. */
  lemma {:induction false} TransformTight(e: Expr, rule: Rule)
    requires IsTightRule(rule) && Fits(e, Subject) && TightFree(e, Parentheses)
    ensures TightFree(TransformAst(e, rule), Parentheses)
    decreases e, 1
  {
    var o := MatchExpr(e, rule.lhs);
    if o.Matched? {
      MatchTight(e, rule.lhs);
      MatchPieces(e, rule.lhs);
      TransduceIsSimultaneous(rule.rhs, o.binds);
      SubstTight(rule.rhs, First(o.binds));
      SimplifyTight(Subst(rule.rhs, First(o.binds)));
    } else {
      TransformOperandTight(e.first, rule);
      forall k | 0 <= k < |e.rest|
        ensures OperationTightFree(TransformRest(e.rest, rule)[k], Parentheses)
        ensures Risky(TransformRest(e.rest, rule)[k].arg, Parentheses) ==> Risky(e.rest[k].arg, Parentheses)
      {
        assert OperationTightFree(e.rest[k], Parentheses) && OperationFits(e.rest[k], Subject);
        ArgSmaller(e.rest[k]);
        TransformOperandTight(e.rest[k].arg, rule);
      }
      SimplifyTight(Expr(TransformOperand(e.first, rule), TransformRest(e.rest, rule)));
    }
  }

  lemma {:induction false} TransformOperandTight(o: Operand, rule: Rule)
    requires IsTightRule(rule) && OperandFits(o, Subject) && OperandTightFree(o, Parentheses)
    ensures OperandTightFree(TransformOperand(o, rule), Parentheses)
    ensures Risky(TransformOperand(o, rule), Parentheses) ==> Risky(o, Parentheses)
    decreases o, 1
  {
    match o
    case Un(u) => TransformOperandTight(u.arg, rule);
    case Prim(Paren(e)) => TransformTight(e, rule);
    case Prim(Apply(c)) => TransformArgsTight(c.args, rule);
    case Prim(List(es)) => TransformArgsTight(es, rule);
    case _ =>
  }

  lemma {:induction false} TransformArgsTight(es: seq<Expr>, rule: Rule)
    requires IsTightRule(rule) && AllFit(es, Subject) && AllTightFree(es, Parentheses)
    ensures AllTightFree(TransformArgs(es, rule), Parentheses)
    decreases es, 0
  {
    forall k | 0 <= k < |es| ensures TightFree(TransformArgs(es, rule)[k], Parentheses) {
      TransformTight(es[k], rule);
    }
  }

  // ---------------------------------------------------------------------
  // A list of rules

  /** Main result: for lists of such rules, no intermediate result has to be looked at. */
  lemma {:induction false} TightRunIsSafe(e: Expr, rules: seq<Rule>)
    requires (forall k | 0 <= k < |rules| :: IsTightRule(rules[k])) && Fits(e, Subject) && TightFree(e, Parentheses)
    ensures SafeRun(e, rules)
    decreases |rules|
  {
    if rules != [] {
      TightFreeIsSafe(e, rules[0], Parentheses);
      TransformTight(e, rules[0]);
      TransformFits(e, rules[0]);
      TightRunIsSafe(TransformAst(e, rules[0]), rules[1..]);
    }
  }

  /** In the model of a single value every rule is valid. */
  function OneValue(): Model<()> {
    Model((), v => (), s => (), n => (), (op, x) => (), (op, x, y) => (), (f, a, xs) => (), xs => ())
  }

  /** A safe subject stays a subject. */
  lemma TransformFits(e: Expr, rule: Rule)
    requires Closed(rule) && Fits(e, Subject) && Safe(e, rule)
    ensures Fits(TransformAst(e, rule), Subject)
  {
    var m := OneValue();
    forall b: Bind<()> ensures EvalExpr(m, b, rule.lhs) == EvalExpr(m, b, rule.rhs) {
      assert EvalExpr(m, b, rule.lhs) == () == EvalExpr(m, b, rule.rhs);
    }
    TransformPreserves(m, e, rule, Subject);
  }

  /** Main result: the value is preserved. */
  lemma TightRulesPreserve<V(!new)>(m: Model<V>, e: Expr, rules: seq<Rule>)
    requires forall k | 0 <= k < |rules| :: IsTightRule(rules[k]) && Valid(m, rules[k])
    requires Fits(e, Subject) && TightFree(e, Parentheses)
    ensures EvalExpr(m, NoBind(), TransformRules(e, rules)) == EvalExpr(m, NoBind(), e)
  {
    TightRunIsSafe(e, rules);
    RulesPreserve(m, e, rules);
  }
}
