/** Dropping redundant parentheses: same value, no larger, and settled after
    two passes. */
module SimplifySound {
  import opened Ast
  import opened Semantics
  import opened Rewrite

  /** The number of nodes. */
  function Size(e: Expr): nat
    decreases e, 1
  {
    1 + OperandSize(e.first) + RestSize(e.rest)
  }

  function OperandSize(o: Operand): nat
    decreases o, 1
  {
    match o
    case Un(u) => 1 + OperandSize(u.arg)
    case Prim(Paren(e)) => 1 + Size(e)
    case Prim(Apply(c)) => 1 + ArgsSize(c.args)
    case Prim(List(es)) => 1 + ArgsSize(es)
    case _ => 1
  }

  function OperationSize(op: Operation): nat
    decreases op, 2
  {
    OperandSize(op.arg)
  }

  function RestSize(ops: seq<Operation>): nat
    decreases ops, 0
  {
    if ops == [] then 0 else OperationSize(ops[0]) + RestSize(ops[1..])
  }

  function ArgsSize(es: seq<Expr>): nat
    decreases es, 0
  {
    if es == [] then 0 else Size(es[0]) + ArgsSize(es[1..])
  }

  // ---------------------------------------------------------------------
  // Value, vocabulary and size

  /** Main result: simplifying keeps the value of an attribute-free expression,
      introduces nothing, and never grows it. */
  lemma {:induction false} SimplifyKeeps<V>(m: Model<V>, b: Bind<V>, e: Expr, r: Role)
    requires Fits(e, r)
    ensures EvalExpr(m, b, Simplify(e)) == EvalExpr(m, b, e)
    ensures Fits(Simplify(e), r)
    ensures Size(Simplify(e)) <= Size(e)
    decreases e, 1
  {
    if e.rest == [] && e.first.Prim? {
      PrimaryKeeps(m, b, e.first.p, r);
    } else {
      OperandKeeps(m, b, e.first, r);
      RestKeeps(m, b, e.rest, r);
    }
  }

  lemma {:induction false} PrimaryKeeps<V>(m: Model<V>, b: Bind<V>, p: Primary, r: Role)
    requires OperandFits(Prim(p), r)
    ensures EvalOperand(m, b, Prim(SimplifyPrimary(p))) == EvalOperand(m, b, Prim(p))
    ensures OperandFits(Prim(SimplifyPrimary(p)), r)
    ensures OperandSize(Prim(SimplifyPrimary(p))) <= OperandSize(Prim(p))
    decreases p, 1
  {
    match p
    case Paren(e) =>
      if e.rest == [] && e.first.Prim? { PrimaryKeeps(m, b, e.first.p, r); }
      else { SimplifyKeeps(m, b, e, r); }
    case Apply(c) => ArgsKeep(m, b, c.args, r);
    case List(es) => ArgsKeep(m, b, es, r);
    case _ =>
  }

  lemma {:induction false} OperandKeeps<V>(m: Model<V>, b: Bind<V>, o: Operand, r: Role)
    requires OperandFits(o, r)
    ensures EvalOperand(m, b, SimplifyOperand(o)) == EvalOperand(m, b, o)
    ensures OperandFits(SimplifyOperand(o), r)
    ensures OperandSize(SimplifyOperand(o)) <= OperandSize(o)
    decreases o, 1
  {
    match o
    case NilOperand =>
    case Un(u) => OperandKeeps(m, b, u.arg, r);
    case Prim(p) =>
      if p.Paren? && p.e.rest == [] && p.e.first.Un? {
        var u := p.e.first.u;
        assert Fits(p.e, r) && OperandFits(Un(u), r);
        OperandKeeps(m, b, u.arg, r);
        assert EvalExpr(m, b, p.e) == EvalOperand(m, b, Un(u));
        assert Size(p.e) == 1 + OperandSize(Un(u));
      } else {
        PrimaryKeeps(m, b, p, r);
      }
  }

  lemma {:induction false} RestKeeps<V>(m: Model<V>, b: Bind<V>, ops: seq<Operation>, r: Role)
    requires RestFits(ops, r)
    ensures EvalRest(m, b, SimplifyRest(ops)) == EvalRest(m, b, ops)
    ensures RestFits(SimplifyRest(ops), r)
    ensures RestSize(SimplifyRest(ops)) <= RestSize(ops)
    decreases ops, 0
  {
    if ops != [] {
      ArgSmaller(ops[0]);
      OperandKeeps(m, b, ops[0].arg, r);
      RestKeeps(m, b, ops[1..], r);
    }
  }

  lemma {:induction false} ArgsKeep<V>(m: Model<V>, b: Bind<V>, es: seq<Expr>, r: Role)
    requires AllFit(es, r)
    ensures EvalArgs(m, b, SimplifyArgs(es)) == EvalArgs(m, b, es)
    ensures AllFit(SimplifyArgs(es), r)
    ensures ArgsSize(SimplifyArgs(es)) <= ArgsSize(es)
    decreases es, 0
  {
    if es != [] {
      SimplifyKeeps(m, b, es[0], r);
      ArgsKeep(m, b, es[1..], r);
      assert SimplifyArgs(es)[0] == Simplify(es[0]) && SimplifyArgs(es)[1..] == SimplifyArgs(es[1..]);
    }
  }

  // ---------------------------------------------------------------------
  // Two passes reach a fixed point

  /** Main result: a third pass never changes anything. */
  lemma {:induction false} SimplifySettles(e: Expr)
    ensures Simplify(Simplify(Simplify(e))) == Simplify(Simplify(e))
    decreases e, 1
  {
    if e.rest == [] && e.first.Prim? {
      PrimarySettles(e.first.p);
    } else if e.rest == [] {
      OperandSettles(e.first);
    } else {
      OperandSettles(e.first);
      var s := SimplifyRest(e.rest);
      forall k | 0 <= k < |e.rest| ensures SimplifyRest(SimplifyRest(s))[k] == SimplifyRest(s)[k] {
        ArgSmaller(e.rest[k]);
        OperandSettles(e.rest[k].arg);
      }
    }
  }

  lemma {:induction false} PrimarySettles(p: Primary)
    ensures SimplifyPrimary(SimplifyPrimary(SimplifyPrimary(p))) == SimplifyPrimary(SimplifyPrimary(p))
    ensures SimplifyOperand(SimplifyOperand(Prim(SimplifyPrimary(p)))) == SimplifyOperand(Prim(SimplifyPrimary(p)))
    decreases p, 1
  {
    match p
    case Paren(e) =>
      if e.rest == [] && e.first.Prim? { PrimarySettles(e.first.p); }
      else { ParenSettles(e); }
    case Apply(c) => ArgsSettle(c.args);
    case List(es) => ArgsSettle(es);
    case _ =>
  }

  lemma {:induction false} ParenSettles(e: Expr)
    requires e.rest != [] || !e.first.Prim?
    ensures var p := SimplifyPrimary(Paren(e));
      && SimplifyPrimary(SimplifyPrimary(p)) == SimplifyPrimary(p)
      && SimplifyOperand(SimplifyOperand(Prim(p))) == SimplifyOperand(Prim(p))
    decreases e, 2
  {
    var e1 := Simplify(e);
    var e2 := Simplify(e1);
    assert SimplifyPrimary(Paren(e)) == Paren(e1);
    assert |e1.rest| == |e.rest| && |e2.rest| == |e.rest|;
    SimplifySettles(e);
    if e.rest == [] {
      match e.first
      case NilOperand =>
      case Un(u) =>
        var a1 := SimplifyOperand(u.arg);
        assert e1 == Expr(Un(Unary(u.op, a1)), []);
        assert SimplifyOperand(Prim(Paren(e1))) == Un(Unary(u.op, SimplifyOperand(a1)));
        OperandSettles(u.arg);
    }
  }

  lemma {:induction false} OperandSettles(o: Operand)
    ensures SimplifyOperand(SimplifyOperand(SimplifyOperand(o))) == SimplifyOperand(SimplifyOperand(o))
    decreases o, 1
  {
    match o
    case NilOperand =>
    case Un(u) => OperandSettles(u.arg);
    case Prim(p) =>
      if p.Paren? && p.e.rest == [] && p.e.first.Un? { OperandSettles(p.e.first.u.arg); }
      else { PrimarySettles(p); }
  }

  lemma {:induction false} ArgsSettle(es: seq<Expr>)
    ensures SimplifyArgs(SimplifyArgs(SimplifyArgs(es))) == SimplifyArgs(SimplifyArgs(es))
    decreases es, 0
  {
    forall k | 0 <= k < |es|
      ensures SimplifyArgs(SimplifyArgs(SimplifyArgs(es)))[k] == SimplifyArgs(SimplifyArgs(es))[k]
    {
      SimplifySettles(es[k]);
    }
  }

  // ---------------------------------------------------------------------
  // When one pass is enough

  /** A unary expression in at least one pair of parentheses. */
  predicate WrapsUnary(p: Primary) {
    p.Paren? && Core(Prim(p)).Un?
  }

  /** No operand that follows an operator or a unary token, or comes first in a
      list of two or more, is a unary expression in two or more pairs of parentheses; at any depth. */
  predicate Once(e: Expr)
    decreases e, 1
  {
    if e.rest == [] && e.first.Prim? then OncePrimary(e.first.p)
    else OnceOperand(e.first) && OnceRest(e.rest)
  }

  predicate OncePrimary(p: Primary)
    decreases p, 1
  {
    match p
    case Paren(e) => Once(e)
    case Apply(c) => OnceArgs(c.args)
    case List(es) => OnceArgs(es)
    case _ => true
  }

  predicate OnceOperand(o: Operand)
    decreases o, 1
  {
    match o
    case NilOperand => true
    case Un(u) => OnceOperand(u.arg)
    case Prim(p) => OncePrimary(p) && !(p.Paren? && p.e.rest == [] && p.e.first.Prim? && WrapsUnary(p.e.first.p))
  }

  predicate OnceOperation(op: Operation)
    decreases op, 2
  {
    OnceOperand(op.arg)
  }

  predicate OnceRest(ops: seq<Operation>)
    decreases ops, 0
  {
    forall k | 0 <= k < |ops| :: OnceOperation(ops[k])
  }

  predicate OnceArgs(es: seq<Expr>)
    decreases es, 0
  {
    forall k | 0 <= k < |es| :: Once(es[k])
  }

  /** Main result: one pass is enough exactly for these. */
  lemma {:induction false} OnePassIsEnough(e: Expr)
    ensures Simplify(Simplify(e)) == Simplify(e) <==> Once(e)
    decreases e, 1
  {
    if e.rest == [] && e.first.Prim? {
      PrimaryOnce(e.first.p);
    } else {
      OperandOnce(e.first);
      var s := SimplifyRest(e.rest);
      forall k | 0 <= k < |e.rest| ensures SimplifyRest(s)[k] == s[k] <==> OnceOperation(e.rest[k]) {
        ArgSmaller(e.rest[k]);
        OperandOnce(e.rest[k].arg);
      }
      if e.rest == [] { SingleOnce(e); }
    }
  }

  /** A list that is not a single primary expression stays one. */
  lemma SingleOnce(e: Expr)
    requires e.rest == [] && !e.first.Prim?
    ensures Simplify(e) == OfOperand(SimplifyOperand(e.first)) && !Simplify(e).first.Prim?
  {}

  lemma {:induction false} PrimaryOnce(p: Primary)
    ensures SimplifyPrimary(SimplifyPrimary(p)) == SimplifyPrimary(p) <==> OncePrimary(p)
    ensures SimplifyOperand(Prim(SimplifyPrimary(p))) == Prim(SimplifyPrimary(p))
       <==> OncePrimary(p) && !WrapsUnary(p)
    decreases p, 1
  {
    match p
    case Paren(e) =>
      if e.rest == [] && e.first.Prim? {
        PrimaryOnce(e.first.p);
        WrapsInner(e);
      } else {
        ParenOnce(e);
      }
    case Apply(c) => ArgsOnce(c.args);
    case List(es) => ArgsOnce(es);
    case _ =>
  }

  lemma WrapsInner(e: Expr)
    requires e.rest == []
    ensures WrapsUnary(Paren(e)) <==> e.first.Un? || (e.first.Prim? && WrapsUnary(e.first.p))
  {
    assert Core(Prim(Paren(e))) == Core(e.first);
  }

  lemma {:induction false} ParenOnce(e: Expr)
    requires e.rest != [] || !e.first.Prim?
    ensures SimplifyPrimary(SimplifyPrimary(Paren(e))) == SimplifyPrimary(Paren(e)) <==> Once(e)
    ensures SimplifyOperand(Prim(SimplifyPrimary(Paren(e)))) == Prim(SimplifyPrimary(Paren(e)))
       <==> Once(e) && !WrapsUnary(Paren(e))
    decreases e, 2
  {
    var e1 := Simplify(e);
    assert SimplifyPrimary(Paren(e)) == Paren(e1);
    assert |e1.rest| == |e.rest|;
    OnePassIsEnough(e);
    if e.rest == [] {
      SingleOnce(e);
      WrapsInner(e);
      if e.first.Un? { assert SimplifyOperand(Prim(Paren(e1))).Un?; }
    } else {
      assert Core(Prim(Paren(e))) == Prim(Paren(e));
    }
  }

  lemma {:induction false} OperandOnce(o: Operand)
    ensures SimplifyOperand(SimplifyOperand(o)) == SimplifyOperand(o) <==> OnceOperand(o)
    decreases o, 1
  {
    match o
    case NilOperand =>
    case Un(u) => OperandOnce(u.arg);
    case Prim(p) =>
      if p.Paren? && p.e.rest == [] && p.e.first.Un? {
        var u := p.e.first.u;
        OperandOnce(u.arg);
        assert SimplifyOperand(o) == Un(Unary(u.op, SimplifyOperand(u.arg)));
        assert OncePrimary(p) == Once(p.e) == OnceOperand(p.e.first);
      } else if p.Paren? && p.e.rest == [] && p.e.first.Prim? {
        PrimaryOnce(p.e.first.p);
        assert OncePrimary(p) == Once(p.e) == OncePrimary(p.e.first.p);
      } else {
        PrimaryOnce(p);
        if p.Paren? && p.e.rest == [] { WrapsInner(p.e); }
        assert !WrapsUnary(p) && SimplifyOperand(o) == Prim(SimplifyPrimary(p));
      }
  }

  lemma {:induction false} ArgsOnce(es: seq<Expr>)
    ensures SimplifyArgs(SimplifyArgs(es)) == SimplifyArgs(es) <==> OnceArgs(es)
    decreases es, 0
  {
    var s := SimplifyArgs(es);
    forall k | 0 <= k < |es| ensures SimplifyArgs(s)[k] == s[k] <==> Once(es[k]) { OnePassIsEnough(es[k]); }
  }

  /** One pass is not always enough: a unary expression in two pairs of
      parentheses after an operator keeps one of them for the second pass. */
  lemma OnePassIsNotEnough(x: Operand, op: Op, u: Unary)
    ensures var e := Expr(x, [Operation(op, Prim(Paren(OfPrimary(Paren(OfOperand(Un(u)))))))]);
      Simplify(Simplify(e)) != Simplify(e)
  {
    var twice := Prim(Paren(OfPrimary(Paren(OfOperand(Un(u))))));
    var e := Expr(x, [Operation(op, twice)]);
    assert !OnceOperand(twice) by { assert Core(twice.p.e.first) == Un(u); }
    assert !OnceOperation(e.rest[0]);
    OnePassIsEnough(e);
  }
}
