/** The safety condition of rewriting is exact.  A rule whose two sides weigh the
    same, whatever single operators, calls and names weigh, can only lose weight,
    and what is lost in one place is never made up for in another. */
module TransformExact {
  import opened Ast
  import opened Semantics
  import opened Match
  import opened MatchShape
  import opened MatchExact
  import opened Weighing
  import opened Rewrite
  import opened SimplifySound
  import opened TransformSound

  /** The rules of interest: linear, and neutral in some weighing. */
  ghost predicate Neutral(w: Weights, rule: Rule) {
    RuleFits(rule) && Linear(rule.lhs) && Valid(Weighed(w), rule)
  }

  function WeightOf(w: Weights, e: Expr): int { EvalExpr(Weighed(w), NoBind(), e) }

  function OperandWeight(w: Weights, o: Operand): int { EvalOperand(Weighed(w), NoBind(), o) }

  function ArgsWeight(w: Weights, es: seq<Expr>): int { Sum(EvalArgs(Weighed(w), NoBind(), es)) }

  // ---------------------------------------------------------------------
  // What a rewriting drops

  /** The weight lost by all the matches a rewriting makes. */
  function Dropped(w: Weights, e: Expr, rule: Rule): int
    decreases e, 1
  {
    var o := MatchExpr(e, rule.lhs);
    if o.Matched? then RestWeight(w, o.lost)
    else DroppedOperand(w, e.first, rule) + DroppedRest(w, e.rest, rule)
  }

  function DroppedOperand(w: Weights, o: Operand, rule: Rule): int
    decreases o, 1
  {
    match o
    case Un(u) => DroppedOperand(w, u.arg, rule)
    case Prim(Paren(e)) => Dropped(w, e, rule)
    case Prim(Apply(c)) => DroppedArgs(w, c.args, rule)
    case Prim(List(es)) => DroppedArgs(w, es, rule)
    case _ => 0
  }

  function DroppedOperation(w: Weights, op: Operation, rule: Rule): int
    decreases op, 2
  {
    DroppedOperand(w, op.arg, rule)
  }

  function DroppedRest(w: Weights, ops: seq<Operation>, rule: Rule): int
    decreases ops, 0
  {
    if ops == [] then 0 else DroppedOperation(w, ops[0], rule) + DroppedRest(w, ops[1..], rule)
  }

  function DroppedArgs(w: Weights, es: seq<Expr>, rule: Rule): int
    decreases es, 0
  {
    if es == [] then 0 else Dropped(w, es[0], rule) + DroppedArgs(w, es[1..], rule)
  }

  // ---------------------------------------------------------------------
  // Nothing is dropped exactly when every match is safe

  lemma {:induction false} DropsNothing(w: Weights, e: Expr, rule: Rule)
    requires Neutral(w, rule) && Fits(e, Subject)
    ensures Dropped(w, e, rule) >= 0 && (Dropped(w, e, rule) == 0 <==> Safe(e, rule))
    decreases e, 1
  {
    var o := MatchExpr(e, rule.lhs);
    if o.Matched? {
      LinearIsConsistent(e, rule.lhs);
      ConsistentExactness(e, rule.lhs);
      RestIsHeavy(w, o.lost);
    } else {
      OperandDropsNothing(w, e.first, rule);
      RestDropsNothing(w, e.rest, rule);
    }
  }

  lemma {:induction false} OperandDropsNothing(w: Weights, o: Operand, rule: Rule)
    requires Neutral(w, rule) && OperandFits(o, Subject)
    ensures DroppedOperand(w, o, rule) >= 0 && (DroppedOperand(w, o, rule) == 0 <==> OperandSafe(o, rule))
    decreases o, 1
  {
    match o
    case Un(u) => OperandDropsNothing(w, u.arg, rule);
    case Prim(Paren(e)) => DropsNothing(w, e, rule);
    case Prim(Apply(c)) => ArgsDropNothing(w, c.args, rule);
    case Prim(List(es)) => ArgsDropNothing(w, es, rule);
    case _ =>
  }

  lemma {:induction false} RestDropsNothing(w: Weights, ops: seq<Operation>, rule: Rule)
    requires Neutral(w, rule) && RestFits(ops, Subject)
    ensures DroppedRest(w, ops, rule) >= 0 && (DroppedRest(w, ops, rule) == 0 <==> RestSafe(ops, rule))
    decreases ops, 0
  {
    if ops != [] {
      ArgSmaller(ops[0]);
      OperandDropsNothing(w, ops[0].arg, rule);
      RestDropsNothing(w, ops[1..], rule);
    }
  }

  lemma {:induction false} ArgsDropNothing(w: Weights, es: seq<Expr>, rule: Rule)
    requires Neutral(w, rule) && AllFit(es, Subject)
    ensures DroppedArgs(w, es, rule) >= 0 && (DroppedArgs(w, es, rule) == 0 <==> AllSafe(es, rule))
    decreases es, 0
  {
    if es != [] {
      DropsNothing(w, es[0], rule);
      ArgsDropNothing(w, es[1..], rule);
    }
  }

  // ---------------------------------------------------------------------
  // Conservation of weight

  /** Main result: what a rewriting leaves and what it drops weigh together
      what the subject weighs. */
  lemma {:induction false} WeightIsConserved(w: Weights, e: Expr, rule: Rule, r: Role)
    requires Neutral(w, rule) && Yields(rule, r) && Fits(e, Subject)
    ensures WeightOf(w, TransformAst(e, rule)) + Dropped(w, e, rule) == WeightOf(w, e)
    ensures Fits(TransformAst(e, rule), r)
    decreases e, 1
  {
    if MatchExpr(e, rule.lhs).Matched? {
      RootConserved(w, e, rule, r);
    } else {
      var t := Expr(TransformOperand(e.first, rule), TransformRest(e.rest, rule));
      OperandConserved(w, e.first, rule, r);
      RestConserved(w, e.rest, rule, r);
      ExprWeighs(w, NoBind(), e);
      ExprWeighs(w, NoBind(), t);
      SimplifyKeeps(Weighed(w), NoBind(), t, r);
    }
  }

  lemma RootConserved(w: Weights, e: Expr, rule: Rule, r: Role)
    requires Neutral(w, rule) && Yields(rule, r) && Fits(e, Subject) && MatchExpr(e, rule.lhs).Matched?
    ensures WeightOf(w, TransformAst(e, rule)) + RestWeight(w, MatchExpr(e, rule.lhs).lost) == WeightOf(w, e)
    ensures Fits(TransformAst(e, rule), r)
  {
    RootValue(Weighed(w), e, rule, r);
    LinearIsConsistent(e, rule.lhs);
    MatchLoses(w, e, rule.lhs);
  }

  lemma {:induction false} OperandConserved(w: Weights, o: Operand, rule: Rule, r: Role)
    requires Neutral(w, rule) && Yields(rule, r) && OperandFits(o, Subject)
    ensures OperandWeight(w, TransformOperand(o, rule)) + DroppedOperand(w, o, rule) == OperandWeight(w, o)
    ensures OperandFits(TransformOperand(o, rule), r)
    decreases o, 1
  {
    match o
    case Un(u) => OperandConserved(w, u.arg, rule, r);
    case Prim(Paren(e)) => WeightIsConserved(w, e, rule, r);
    case Prim(Apply(c)) => ArgsConserved(w, c.args, rule, r);
    case Prim(List(es)) => ArgsConserved(w, es, rule, r);
    case _ =>
  }

  lemma {:induction false} RestConserved(w: Weights, ops: seq<Operation>, rule: Rule, r: Role)
    requires Neutral(w, rule) && Yields(rule, r) && RestFits(ops, Subject)
    ensures RestWeight(w, TransformRest(ops, rule)) + DroppedRest(w, ops, rule) == RestWeight(w, ops)
    ensures RestFits(TransformRest(ops, rule), r)
    decreases ops, 0
  {
    if ops != [] {
      ArgSmaller(ops[0]);
      OperandConserved(w, ops[0].arg, rule, r);
      RestConserved(w, ops[1..], rule, r);
    }
  }

  lemma {:induction false} ArgsConserved(w: Weights, es: seq<Expr>, rule: Rule, r: Role)
    requires Neutral(w, rule) && Yields(rule, r) && AllFit(es, Subject)
    ensures ArgsWeight(w, TransformArgs(es, rule)) + DroppedArgs(w, es, rule) == ArgsWeight(w, es)
    ensures AllFit(TransformArgs(es, rule), r)
    decreases es, 0
  {
    if es != [] {
      WeightIsConserved(w, es[0], rule, r);
      ArgsConserved(w, es[1..], rule, r);
    }
  }

  // ---------------------------------------------------------------------
  // Exactness

  /** The same value wherever the rule is valid. */
  ghost predicate SameMeaning(e: Expr, e': Expr, rule: Rule) {
    forall m: Model<int> | Valid(m, rule) :: EvalExpr(m, NoBind(), e') == EvalExpr(m, NoBind(), e)
  }

  /** Main result: rewriting with a neutral rule keeps the value in every model
      of the rule if and only if no match it makes, at any depth, loses an
      operation. */
  lemma TransformExactness(w: Weights, e: Expr, rule: Rule)
    requires Neutral(w, rule) && Fits(e, Subject)
    ensures SameMeaning(e, TransformAst(e, rule), rule) <==> Safe(e, rule)
  {
    DropsNothing(w, e, rule);
    WeightIsConserved(w, e, rule, Plain);
    if Safe(e, rule) {
      forall m: Model<int> | Valid(m, rule)
        ensures EvalExpr(m, NoBind(), TransformAst(e, rule)) == EvalExpr(m, NoBind(), e)
      {
        TransformPreserves(m, e, rule, Plain);
      }
    }
  }

  // ---------------------------------------------------------------------
  // A list of rules

  ghost predicate AllNeutral(w: Weights, rules: seq<Rule>) {
    forall k | 0 <= k < |rules| :: Neutral(w, rules[k]) && Closed(rules[k])
  }

  function DroppedByAll(w: Weights, e: Expr, rules: seq<Rule>): int
    decreases |rules|
  {
    if rules == [] then 0 else Dropped(w, e, rules[0]) + DroppedByAll(w, TransformAst(e, rules[0]), rules[1..])
  }

  lemma {:induction false} RulesConserve(w: Weights, e: Expr, rules: seq<Rule>)
    requires AllNeutral(w, rules) && Fits(e, Subject)
    ensures WeightOf(w, TransformRules(e, rules)) + DroppedByAll(w, e, rules) == WeightOf(w, e)
    ensures DroppedByAll(w, e, rules) >= 0 && (DroppedByAll(w, e, rules) == 0 <==> SafeRun(e, rules))
    decreases |rules|
  {
    if rules != [] {
      WeightIsConserved(w, e, rules[0], Subject);
      DropsNothing(w, e, rules[0]);
      RulesConserve(w, TransformAst(e, rules[0]), rules[1..]);
    }
  }

  ghost predicate AllValid(m: Model<int>, rules: seq<Rule>) {
    forall k | 0 <= k < |rules| :: Valid(m, rules[k])
  }

  ghost predicate SameMeaningUnder(e: Expr, e': Expr, rules: seq<Rule>) {
    forall m: Model<int> | AllValid(m, rules) :: EvalExpr(m, NoBind(), e') == EvalExpr(m, NoBind(), e)
  }

  /** Main result: a list of neutral, closed rules keeps the value in every model
      of all of them if and only if no match on the way loses an operation. */
  lemma RulesExactness(w: Weights, e: Expr, rules: seq<Rule>)
    requires AllNeutral(w, rules) && Fits(e, Subject)
    ensures SameMeaningUnder(e, TransformRules(e, rules), rules) <==> SafeRun(e, rules)
  {
    RulesConserve(w, e, rules);
    if SameMeaningUnder(e, TransformRules(e, rules), rules) {
      assert AllValid(Weighed(w), rules);
    }
    if SafeRun(e, rules) {
      forall m: Model<int> | AllValid(m, rules)
        ensures EvalExpr(m, NoBind(), TransformRules(e, rules)) == EvalExpr(m, NoBind(), e)
      {
        RulesPreserve(m, e, rules);
      }
    }
  }
}
