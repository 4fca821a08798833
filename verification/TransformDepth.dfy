/** What rewriting computes, for any rule, valid or not, and wherever it matches:
    the value of the result is read off the subject, each outermost match having
    the value of the rule's right side. */
module TransformDepth {
  import opened Ast
  import opened Grouping
  import opened Semantics
  import opened Match
  import opened MatchExact
  import opened Rewrite
  import opened RewriteSound
  import opened SimplifySound
  import opened TransformSound

  /** An evaluator that knows the rule: a matching expression has the value of the
      right side under what it was matched with; everything else has its own. */
  function RuledValue<V>(m: Model<V>, e: Expr, rule: Rule): V
    decreases e, 1
  {
    var o := MatchExpr(e, rule.lhs);
    if o.Matched? then EvalExpr(m, BindOf(m, First(o.binds)), rule.rhs)
    else Group(m.binary, RuledOperand(m, e.first, rule), RuledRest(m, e.rest, rule))
  }

  function RuledOperand<V>(m: Model<V>, o: Operand, rule: Rule): V
    decreases o, 1
  {
    match o
    case Un(u) => m.unary(u.op, RuledOperand(m, u.arg, rule))
    case Prim(Paren(e)) => RuledValue(m, e, rule)
    case Prim(Apply(c)) => m.call(c.name, c.attr, RuledArgs(m, c.args, rule))
    case Prim(List(es)) => m.list(RuledArgs(m, es, rule))
    case _ => EvalOperand(m, NoBind(), o)
  }

  function RuledOperation<V>(m: Model<V>, op: Operation, rule: Rule): Item<V>
    decreases op, 2
  {
    Item(op.op, RuledOperand(m, op.arg, rule))
  }

  function RuledRest<V>(m: Model<V>, ops: seq<Operation>, rule: Rule): seq<Item<V>>
    decreases ops, 0
  {
    if ops == [] then [] else [RuledOperation(m, ops[0], rule)] + RuledRest(m, ops[1..], rule)
  }

  function RuledArgs<V>(m: Model<V>, es: seq<Expr>, rule: Rule): seq<V>
    decreases es, 0
  {
    if es == [] then [] else [RuledValue(m, es[0], rule)] + RuledArgs(m, es[1..], rule)
  }

  /** Main result: rewriting acts on every outermost match, at whatever depth, and on
      nothing else. */
  lemma {:induction false} RewrittenIsRuled<V>(m: Model<V>, e: Expr, rule: Rule)
    requires RuleFits(rule) && Fits(e, Subject)
    ensures EvalExpr(m, NoBind(), TransformAst(e, rule)) == RuledValue(m, e, rule)
    ensures Fits(TransformAst(e, rule), Plain)
    decreases e, 1
  {
    if MatchExpr(e, rule.lhs).Matched? {
      RootValue(m, e, rule, Plain);
    } else {
      OperandIsRuled(m, e.first, rule);
      RestIsRuled(m, e.rest, rule);
      SimplifyKeeps(m, NoBind(), Expr(TransformOperand(e.first, rule), TransformRest(e.rest, rule)), Plain);
    }
  }

  lemma {:induction false} OperandIsRuled<V>(m: Model<V>, o: Operand, rule: Rule)
    requires RuleFits(rule) && OperandFits(o, Subject)
    ensures EvalOperand(m, NoBind(), TransformOperand(o, rule)) == RuledOperand(m, o, rule)
    ensures OperandFits(TransformOperand(o, rule), Plain)
    decreases o, 1
  {
    PlainOperand(o, Subject);
    match o
    case Un(u) => OperandIsRuled(m, u.arg, rule);
    case Prim(Paren(e)) => RewrittenIsRuled(m, e, rule);
    case Prim(Apply(c)) => ArgsAreRuled(m, c.args, rule);
    case Prim(List(es)) => ArgsAreRuled(m, es, rule);
    case _ =>
  }

  lemma {:induction false} RestIsRuled<V>(m: Model<V>, ops: seq<Operation>, rule: Rule)
    requires RuleFits(rule) && RestFits(ops, Subject)
    ensures EvalRest(m, NoBind(), TransformRest(ops, rule)) == RuledRest(m, ops, rule)
    ensures RestFits(TransformRest(ops, rule), Plain)
    decreases ops, 0
  {
    if ops != [] {
      ArgSmaller(ops[0]);
      OperandIsRuled(m, ops[0].arg, rule);
      RestIsRuled(m, ops[1..], rule);
    }
  }

  lemma {:induction false} ArgsAreRuled<V>(m: Model<V>, es: seq<Expr>, rule: Rule)
    requires RuleFits(rule) && AllFit(es, Subject)
    ensures EvalArgs(m, NoBind(), TransformArgs(es, rule)) == RuledArgs(m, es, rule)
    ensures AllFit(TransformArgs(es, rule), Plain)
    decreases es, 0
  {
    if es != [] {
      RewrittenIsRuled(m, es[0], rule);
      ArgsAreRuled(m, es[1..], rule);
    }
  }
}
