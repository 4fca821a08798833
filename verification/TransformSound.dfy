/** Rewriting with valid rules preserves meaning. */
module TransformSound {
  import opened Ast
  import opened Semantics
  import opened Match
  import opened MatchShape
  import opened MatchExact
  import opened Rewrite
  import opened RewriteSound
  import opened SimplifySound
  import opened Basics

  ghost predicate RuleFits(rule: Rule) {
    Fits(rule.lhs, Pattern) && Fits(rule.rhs, Plain)
  }

  /** The vocabulary a left side makes available to its right side. */
  function TemplateOf(lhs: Expr): Role {
    var slots := SlotsExpr(lhs);
    Template(set k | 0 <= k < |slots| :: slots[k].name,
             set k | 0 <= k < |slots| && slots[k].fun :: slots[k].name)
  }

  /** Every placeholder of the right side is bound by the left side. */
  ghost predicate Closed(rule: Rule) {
    RuleFits(rule) && Fits(rule.rhs, TemplateOf(rule.lhs))
  }

  /** Both sides have the same value, whatever the placeholders stand for. */
  ghost predicate Valid<V(!new)>(m: Model<V>, rule: Rule) {
    forall b: Bind<V> | BindsPlaceholders(b) :: EvalExpr(m, b, rule.lhs) == EvalExpr(m, b, rule.rhs)
  }

  // ---------------------------------------------------------------------
  // Every match made on the way is faithful

  predicate Safe(e: Expr, rule: Rule)
    decreases e, 1
  {
    var o := MatchExpr(e, rule.lhs);
    if o.Matched? then Faithful(e, rule.lhs)
    else OperandSafe(e.first, rule) && RestSafe(e.rest, rule)
  }

  predicate OperandSafe(o: Operand, rule: Rule)
    decreases o, 1
  {
    match o
    case Un(u) => OperandSafe(u.arg, rule)
    case Prim(Paren(e)) => Safe(e, rule)
    case Prim(Apply(c)) => AllSafe(c.args, rule)
    case Prim(List(es)) => AllSafe(es, rule)
    case _ => true
  }

  predicate OperationSafe(op: Operation, rule: Rule)
    decreases op, 2
  {
    OperandSafe(op.arg, rule)
  }

  predicate RestSafe(ops: seq<Operation>, rule: Rule)
    decreases ops, 0
  {
    ops == [] || (OperationSafe(ops[0], rule) && RestSafe(ops[1..], rule))
  }

  predicate AllSafe(es: seq<Expr>, rule: Rule)
    decreases es, 0
  {
    es == [] || (Safe(es[0], rule) && AllSafe(es[1..], rule))
  }

  /** A subject in which no parenthesised list is followed by a tighter
      operator is safe for every rule that names no placeholder twice. */
  lemma {:induction false} TightFreeIsSafe(e: Expr, rule: Rule, c: Care)
    requires Fits(e, Subject) && TightFree(e, c) && Fits(rule.lhs, Pattern) && Linear(rule.lhs)
    ensures Safe(e, rule)
    decreases e, 1
  {
    if MatchExpr(e, rule.lhs).Matched? {
      ExprShape(e, rule.lhs, Some(c));
      LinearIsConsistent(e, rule.lhs);
      ConsistentExactness(e, rule.lhs);
    } else {
      TightOperandIsSafe(e.first, rule, c);
      TightRestIsSafe(e.rest, rule, c);
    }
  }

  lemma {:induction false} TightOperandIsSafe(o: Operand, rule: Rule, c: Care)
    requires OperandFits(o, Subject) && OperandTightFree(o, c) && Fits(rule.lhs, Pattern) && Linear(rule.lhs)
    ensures OperandSafe(o, rule)
    decreases o, 1
  {
    match o
    case Un(u) => TightOperandIsSafe(u.arg, rule, c);
    case Prim(Paren(e)) => TightFreeIsSafe(e, rule, c);
    case Prim(Apply(f)) => TightArgsAreSafe(f.args, rule, c);
    case Prim(List(es)) => TightArgsAreSafe(es, rule, c);
    case _ =>
  }

  lemma {:induction false} TightRestIsSafe(ops: seq<Operation>, rule: Rule, c: Care)
    requires RestFits(ops, Subject) && RestTightFree(ops, c) && Fits(rule.lhs, Pattern) && Linear(rule.lhs)
    ensures RestSafe(ops, rule)
    decreases ops, 0
  {
    if ops != [] {
      ArgSmaller(ops[0]);
      TightOperandIsSafe(ops[0].arg, rule, c);
      TightRestIsSafe(ops[1..], rule, c);
    }
  }

  lemma {:induction false} TightArgsAreSafe(es: seq<Expr>, rule: Rule, c: Care)
    requires AllFit(es, Subject) && AllTightFree(es, c) && Fits(rule.lhs, Pattern) && Linear(rule.lhs)
    ensures AllSafe(es, rule)
    decreases es, 0
  {
    if es != [] {
      TightFreeIsSafe(es[0], rule, c);
      TightArgsAreSafe(es[1..], rule, c);
    }
  }

  // ---------------------------------------------------------------------
  // One rule

  /** What the result of a rule fits: `Subject` again when the rule is closed. */
  ghost predicate Yields(rule: Rule, r: Role) {
    r == Plain || (r == Subject && Closed(rule))
  }

  lemma TemplateIsBound(bs: seq<Binding>, lhs: Expr)
    requires Fills(bs, SlotsExpr(lhs))
    ensures TemplateOf(lhs).ids <= First(bs).exprs.Keys && TemplateOf(lhs).funs <= First(bs).funs.Keys
  {
    var slots := SlotsExpr(lhs);
    forall n | n in TemplateOf(lhs).ids ensures n in First(bs).exprs {
      var k :| 0 <= k < |slots| && slots[k].name == n;
      FirstHas(bs, k);
    }
    forall n | n in TemplateOf(lhs).funs ensures n in First(bs).funs {
      var k :| 0 <= k < |slots| && slots[k].fun && slots[k].name == n;
      FirstHas(bs, k);
    }
  }

  lemma PlainCarries(s: Sigma, r: Role)
    requires forall n | n in s.exprs :: Fits(s.exprs[n], Subject)
    requires forall n | n in s.funs :: FunOk(Subject, s.funs[n])
    requires r == Plain || r == Subject
    ensures forall n | n in s.exprs :: Fits(s.exprs[n], r)
    ensures forall n | n in s.funs :: FunOk(r, s.funs[n])
  {
    forall n | n in s.exprs ensures Fits(s.exprs[n], r) { PlainExpr(s.exprs[n], Subject); }
  }

  lemma CarriesAll(bs: seq<Binding>, lhs: Expr, r: Role)
    requires Pieces(bs) && Fills(bs, SlotsExpr(lhs)) && (r == Plain || r == Subject)
    ensures Carries(First(bs), if r == Plain then Plain else TemplateOf(lhs), r)
  {
    GroundedFirst(bs);
    TemplateIsBound(bs, lhs);
    PlainCarries(First(bs), r);
  }

  lemma MatchPieces(e1: Expr, e2: Expr)
    requires Fits(e1, Subject) && Fits(e2, Pattern) && MatchExpr(e1, e2).Matched?
    ensures Pieces(MatchExpr(e1, e2).binds)
  {
    MatchFills(e1, e2);
  }

  lemma BoundCarries(e: Expr, rule: Rule, r: Role)
    requires Fits(e, Subject) && RuleFits(rule) && Yields(rule, r) && MatchExpr(e, rule.lhs).Matched?
    ensures Carries(First(MatchExpr(e, rule.lhs).binds), if r == Plain then Plain else TemplateOf(rule.lhs), r)
  {
    MatchFills(e, rule.lhs);
    MatchPieces(e, rule.lhs);
    CarriesAll(MatchExpr(e, rule.lhs).binds, rule.lhs, r);
  }

  /** The rule applied at the root gives the right side its value under the match. */
  lemma RootValue<V>(m: Model<V>, e: Expr, rule: Rule, r: Role)
    requires RuleFits(rule) && Yields(rule, r) && Fits(e, Subject) && MatchExpr(e, rule.lhs).Matched?
    ensures var b := BindOf(m, First(MatchExpr(e, rule.lhs).binds));
      BindsPlaceholders(b) && EvalExpr(m, NoBind(), TransformAst(e, rule)) == EvalExpr(m, b, rule.rhs)
    ensures Fits(TransformAst(e, rule), r)
  {
    var bs := MatchExpr(e, rule.lhs).binds;
    MatchBinds(m, e, rule.lhs);
    MatchPieces(e, rule.lhs);
    TransduceIsSimultaneous(rule.rhs, bs);
    SubstEval(m, rule.rhs, First(bs));
    BoundCarries(e, rule, r);
    SubstFits(rule.rhs, First(bs), if r == Plain then Plain else TemplateOf(rule.lhs), r);
    SimplifyKeeps(m, NoBind(), Subst(rule.rhs, First(bs)), r);
  }

  lemma RootPreserves<V(!new)>(m: Model<V>, e: Expr, rule: Rule, r: Role)
    requires RuleFits(rule) && Valid(m, rule) && Yields(rule, r)
    requires Fits(e, Subject) && MatchExpr(e, rule.lhs).Matched? && Faithful(e, rule.lhs)
    ensures EvalExpr(m, NoBind(), TransformAst(e, rule)) == EvalExpr(m, NoBind(), e)
    ensures Fits(TransformAst(e, rule), r)
  {
    RootValue(m, e, rule, r);
    MatchPreserves(m, e, rule.lhs);
  }

  /** Main result: a valid rule preserves the value of a safe subject, at
      whatever depth it matches; a closed rule yields a subject again. */
  lemma {:induction false} TransformPreserves<V(!new)>(m: Model<V>, e: Expr, rule: Rule, r: Role)
    requires RuleFits(rule) && Valid(m, rule) && Yields(rule, r)
    requires Fits(e, Subject) && Safe(e, rule)
    ensures EvalExpr(m, NoBind(), TransformAst(e, rule)) == EvalExpr(m, NoBind(), e)
    ensures Fits(TransformAst(e, rule), r)
    decreases e, 1
  {
    if MatchExpr(e, rule.lhs).Matched? {
      RootPreserves(m, e, rule, r);
    } else {
      OperandPreserves(m, e.first, rule, r);
      RestPreserves(m, e.rest, rule, r);
      SimplifyKeeps(m, NoBind(), Expr(TransformOperand(e.first, rule), TransformRest(e.rest, rule)), r);
    }
  }

  /** Main result: a valid rule with no repeated placeholder preserves the value
      of every subject that has no tighter operator after a parenthesised list. */
  lemma TightFreePreserves<V(!new)>(m: Model<V>, e: Expr, rule: Rule)
    requires RuleFits(rule) && Valid(m, rule) && Linear(rule.lhs)
    requires Fits(e, Subject) && TightFree(e, Compounds)
    ensures EvalExpr(m, NoBind(), TransformAst(e, rule)) == EvalExpr(m, NoBind(), e)
  {
    TightFreeIsSafe(e, rule, Compounds);
    TransformPreserves(m, e, rule, Plain);
  }

  lemma {:induction false} OperandPreserves<V(!new)>(m: Model<V>, o: Operand, rule: Rule, r: Role)
    requires RuleFits(rule) && Valid(m, rule) && Yields(rule, r)
    requires OperandFits(o, Subject) && OperandSafe(o, rule)
    ensures EvalOperand(m, NoBind(), TransformOperand(o, rule)) == EvalOperand(m, NoBind(), o)
    ensures OperandFits(TransformOperand(o, rule), r)
    decreases o, 1
  {
    PlainOperand(o, Subject);
    match o
    case Un(u) => OperandPreserves(m, u.arg, rule, r);
    case Prim(Paren(e)) => TransformPreserves(m, e, rule, r);
    case Prim(Apply(c)) => ArgsPreserve(m, c.args, rule, r);
    case Prim(List(es)) => ArgsPreserve(m, es, rule, r);
    case _ =>
  }

  lemma {:induction false} RestPreserves<V(!new)>(m: Model<V>, ops: seq<Operation>, rule: Rule, r: Role)
    requires RuleFits(rule) && Valid(m, rule) && Yields(rule, r)
    requires RestFits(ops, Subject) && RestSafe(ops, rule)
    ensures EvalRest(m, NoBind(), TransformRest(ops, rule)) == EvalRest(m, NoBind(), ops)
    ensures RestFits(TransformRest(ops, rule), r)
    decreases ops, 0
  {
    if ops != [] {
      ArgSmaller(ops[0]);
      OperandPreserves(m, ops[0].arg, rule, r);
      RestPreserves(m, ops[1..], rule, r);
    }
  }

  lemma {:induction false} ArgsPreserve<V(!new)>(m: Model<V>, es: seq<Expr>, rule: Rule, r: Role)
    requires RuleFits(rule) && Valid(m, rule) && Yields(rule, r)
    requires AllFit(es, Subject) && AllSafe(es, rule)
    ensures EvalArgs(m, NoBind(), TransformArgs(es, rule)) == EvalArgs(m, NoBind(), es)
    ensures AllFit(TransformArgs(es, rule), r)
    decreases es, 0
  {
    if es != [] {
      TransformPreserves(m, es[0], rule, r);
      ArgsPreserve(m, es[1..], rule, r);
      assert TransformArgs(es, rule) == [TransformAst(es[0], rule)] + TransformArgs(es[1..], rule);
    }
  }

  // ---------------------------------------------------------------------
  // A list of rules

  /** Every intermediate result is safe for the next rule. */
  predicate SafeRun(e: Expr, rules: seq<Rule>)
    decreases |rules|
  {
    rules == [] || (Safe(e, rules[0]) && SafeRun(TransformAst(e, rules[0]), rules[1..]))
  }

  /** Main result: a list of valid, closed rules preserves the value. */
  lemma {:induction false} RulesPreserve<V(!new)>(m: Model<V>, e: Expr, rules: seq<Rule>)
    requires forall k | 0 <= k < |rules| :: Closed(rules[k]) && Valid(m, rules[k])
    requires Fits(e, Subject) && SafeRun(e, rules)
    ensures EvalExpr(m, NoBind(), TransformRules(e, rules)) == EvalExpr(m, NoBind(), e)
    ensures Fits(TransformRules(e, rules), Subject)
    decreases |rules|
  {
    if rules != [] {
      TransformPreserves(m, e, rules[0], Subject);
      RulesPreserve(m, TransformAst(e, rules[0]), rules[1..]);
    }
  }
}
