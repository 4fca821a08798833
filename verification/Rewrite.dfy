/** Rewriting: match a rule somewhere in the tree, substitute what its
    placeholders were bound to, and drop redundant parentheses. */
module Rewrite {
  import opened Ast
  import opened Match
  import opened MatchLoops

  // ---------------------------------------------------------------------
  // Substitution

  function SubstName(n: string, s: Sigma): string {
    if n in s.funs then s.funs[n] else n
  }

  /** Replaces every identifier in the domain of `s`.  A replaced operand that
      is more than a single primary expression gets parentheses; calls are
      rebuilt without their attribute. */
  function Subst(e: Expr, s: Sigma): Expr
    decreases e, 1
  {
    if ExprIsIdentifier(e) && ExprName(e) in s.exprs then s.exprs[ExprName(e)]
    else Expr(SubstOperand(e.first, s), SubstRest(e.rest, s))
  }

  function AsPrimary(e: Expr): Primary {
    if e.rest == [] && e.first.Prim? then e.first.p else Paren(e)
  }

  function SubstOperand(o: Operand, s: Sigma): Operand
    decreases o, 1
  {
    match o
    case Un(u) => Un(Unary(u.op, SubstOperand(u.arg, s)))
    case Prim(Id(n)) => if n in s.exprs then Prim(AsPrimary(s.exprs[n])) else o
    case Prim(Paren(e)) => Prim(Paren(Subst(e, s)))
    case Prim(Apply(c)) => Prim(Apply(Call(SubstName(c.name, s), "", SubstArgs(c.args, s))))
    case Prim(List(es)) => Prim(List(SubstArgs(es, s)))
    case _ => o
  }

  function SubstOperation(op: Operation, s: Sigma): Operation
    decreases op, 2
  {
    Operation(op.op, SubstOperand(op.arg, s))
  }

  function SubstRest(ops: seq<Operation>, s: Sigma): (r: seq<Operation>)
    ensures |r| == |ops|
    ensures forall k | 0 <= k < |ops| :: r[k] == SubstOperation(ops[k], s)
    decreases ops, 0
  {
    if ops == [] then [] else [SubstOperation(ops[0], s)] + SubstRest(ops[1..], s)
  }

  function SubstArgs(es: seq<Expr>, s: Sigma): (r: seq<Expr>)
    ensures |r| == |es|
    ensures forall k | 0 <= k < |es| :: r[k] == Subst(es[k], s)
    decreases es, 0
  {
    if es == [] then [] else [Subst(es[0], s)] + SubstArgs(es[1..], s)
  }

  /** `transduce`: one name at a time. */
  function Transduce(e: Expr, x: Binding): Expr {
    Subst(e, One(x))
  }

  function TransduceAll(e: Expr, ph: seq<Binding>): Expr
    decreases |ph|
  {
    if ph == [] then e else TransduceAll(Transduce(e, ph[0]), ph[1..])
  }

  // ---------------------------------------------------------------------
  // Simplification

  /** A parenthesised unary expression keeps its parentheses here ... */
  function SimplifyPrimary(p: Primary): Primary
    decreases p, 1
  {
    match p
    case Paren(e) =>
      if e.rest == [] && e.first.Prim? then SimplifyPrimary(e.first.p) else Paren(Simplify(e))
    case Apply(c) => Apply(Call(c.name, "", SimplifyArgs(c.args)))
    case List(es) => List(SimplifyArgs(es))
    case _ => p
  }

  /** ... but loses them in operand position. */
  function SimplifyOperand(o: Operand): Operand
    decreases o, 1
  {
    match o
    case NilOperand => o
    case Un(u) => Un(Unary(u.op, SimplifyOperand(u.arg)))
    case Prim(p) =>
      if p.Paren? && p.e.rest == [] && p.e.first.Prim? then Prim(SimplifyPrimary(p.e.first.p))
      else if p.Paren? && p.e.rest == [] && p.e.first.Un? then
        Un(Unary(p.e.first.u.op, SimplifyOperand(p.e.first.u.arg)))
      else Prim(SimplifyPrimary(p))
  }

  function SimplifyOperation(op: Operation): Operation
    decreases op, 2
  {
    Operation(op.op, SimplifyOperand(op.arg))
  }

  function Simplify(e: Expr): Expr
    decreases e, 1
  {
    if e.rest == [] && e.first.Prim? then OfPrimary(SimplifyPrimary(e.first.p))
    else Expr(SimplifyOperand(e.first), SimplifyRest(e.rest))
  }

  function SimplifyRest(ops: seq<Operation>): (r: seq<Operation>)
    ensures |r| == |ops|
    ensures forall k | 0 <= k < |ops| :: r[k] == SimplifyOperation(ops[k])
    decreases ops, 0
  {
    if ops == [] then [] else [SimplifyOperation(ops[0])] + SimplifyRest(ops[1..])
  }

  function SimplifyArgs(es: seq<Expr>): (r: seq<Expr>)
    ensures |r| == |es|
    ensures forall k | 0 <= k < |es| :: r[k] == Simplify(es[k])
    decreases es, 0
  {
    if es == [] then [] else [Simplify(es[0])] + SimplifyArgs(es[1..])
  }

  // ---------------------------------------------------------------------
  // Transformation

  datatype Rule = Rule(lhs: Expr, rhs: Expr)

  /** The rule applied at the root, or else inside every nested expression. */
  function TransformAst(e: Expr, rule: Rule): Expr
    decreases e, 1
  {
    var o := MatchExpr(e, rule.lhs);
    if o.NoMatch? then Simplify(Expr(TransformOperand(e.first, rule), TransformRest(e.rest, rule)))
    else Simplify(TransduceAll(rule.rhs, InsertAll([], o.binds)))
  }

  function TransformOperand(o: Operand, rule: Rule): Operand
    decreases o, 1
  {
    match o
    case Un(u) => Un(Unary(u.op, TransformOperand(u.arg, rule)))
    case Prim(Paren(e)) => Prim(Paren(TransformAst(e, rule)))
    case Prim(Apply(c)) => Prim(Apply(Call(c.name, "", TransformArgs(c.args, rule))))
    case Prim(List(es)) => Prim(List(TransformArgs(es, rule)))
    case _ => o
  }

  function TransformOperation(op: Operation, rule: Rule): Operation
    decreases op, 2
  {
    Operation(op.op, TransformOperand(op.arg, rule))
  }

  function TransformRest(ops: seq<Operation>, rule: Rule): (r: seq<Operation>)
    ensures |r| == |ops|
    ensures forall k | 0 <= k < |ops| :: r[k] == TransformOperation(ops[k], rule)
    decreases ops, 0
  {
    if ops == [] then [] else [TransformOperation(ops[0], rule)] + TransformRest(ops[1..], rule)
  }

  function TransformArgs(es: seq<Expr>, rule: Rule): (r: seq<Expr>)
    ensures |r| == |es|
    ensures forall k | 0 <= k < |es| :: r[k] == TransformAst(es[k], rule)
    decreases es, 0
  {
    if es == [] then [] else [TransformAst(es[0], rule)] + TransformArgs(es[1..], rule)
  }

  function TransformRules(e: Expr, rules: seq<Rule>): Expr
    decreases |rules|
  {
    if rules == [] then e else TransformRules(TransformAst(e, rules[0]), rules[1..])
  }

  lemma {:induction false} RulesSnoc(e: Expr, rules: seq<Rule>, last: Rule)
    ensures TransformRules(e, rules + [last]) == TransformAst(TransformRules(e, rules), last)
    decreases |rules|
  {
    if rules != [] {
      assert (rules + [last])[1..] == rules[1..] + [last];
      RulesSnoc(TransformAst(e, rules[0]), rules[1..], last);
    }
  }

  lemma {:induction false} TransduceSnoc(e: Expr, ph: seq<Binding>, last: Binding)
    ensures TransduceAll(e, ph + [last]) == Transduce(TransduceAll(e, ph), last)
    decreases |ph|
  {
    if ph != [] {
      assert (ph + [last])[1..] == ph[1..] + [last];
      TransduceSnoc(Transduce(e, ph[0]), ph[1..], last);
    }
  }

  // ---------------------------------------------------------------------
  // The loops of the program

  method ApplyBindings(e: Expr, ph: seq<Binding>) returns (result: Expr)
    ensures result == TransduceAll(e, ph)
  {
    result := e;
    for i := 0 to |ph|
      invariant result == TransduceAll(e, ph[..i])
    {
      assert ph[..i + 1] == ph[..i] + [ph[i]];
      TransduceSnoc(e, ph[..i], ph[i]);
      result := Transduce(result, ph[i]);
    }
    assert ph[..|ph|] == ph;
  }

  /** One rule on one expression. */
  method ApplyRule(e: Expr, rule: Rule) returns (out: Expr)
    ensures out == TransformAst(e, rule)
  {
    var ok, placeholders := TryExpr(e, rule.lhs, []);
    if !ok {
      return Simplify(Expr(TransformOperand(e.first, rule), TransformRest(e.rest, rule)));
    }
    var result := ApplyBindings(rule.rhs, placeholders);
    out := Simplify(result);
  }

  /** A list of rules, each applied to the result of the one before. */
  method ApplyRules(e: Expr, rules: seq<Rule>) returns (out: Expr)
    ensures out == TransformRules(e, rules)
  {
    out := e;
    for i := 0 to |rules|
      invariant out == TransformRules(e, rules[..i])
    {
      assert rules[..i + 1] == rules[..i] + [rules[i]];
      RulesSnoc(e, rules[..i], rules[i]);
      out := ApplyRule(out, rules[i]);
    }
    assert rules[..|rules|] == rules;
  }

  /** A list of rules on each expression of a program. */
  method ApplyRulesToAll(es: seq<Expr>, rules: seq<Rule>) returns (result: seq<Expr>)
    ensures |result| == |es|
    ensures forall k | 0 <= k < |es| :: result[k] == TransformRules(es[k], rules)
  {
    result := [];
    for i := 0 to |es|
      invariant |result| == i
      invariant forall k | 0 <= k < i :: result[k] == TransformRules(es[k], rules)
    {
      var out := ApplyRules(es[i], rules);
      result := result + [out];
    }
  }
}
