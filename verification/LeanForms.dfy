/** What simplification is for: redundant parentheses go away. */
module LeanForms {
  import opened Ast
  import opened Semantics
  import opened Match
  import opened Rewrite
  import opened SimplifySound

  /** A single primary expression, which needs no parentheses. */
  predicate IsLone(e: Expr) { e.rest == [] && e.first.Prim? }

  /** Nowhere is a single primary expression in parentheses. */
  predicate Lean(e: Expr)
    decreases e, 1
  {
    LeanOperand(e.first) && LeanRest(e.rest)
  }

  predicate LeanOperand(o: Operand)
    decreases o, 1
  {
    match o
    case NilOperand => true
    case Un(u) => LeanOperand(u.arg)
    case Prim(Paren(x)) => !IsLone(x) && Lean(x)
    case Prim(Apply(c)) => AllLean(c.args)
    case Prim(List(es)) => AllLean(es)
    case _ => true
  }

  predicate LeanOperation(op: Operation)
    decreases op, 2
  {
    LeanOperand(op.arg)
  }

  predicate LeanRest(ops: seq<Operation>)
    decreases ops, 0
  {
    forall k | 0 <= k < |ops| :: LeanOperation(ops[k])
  }

  predicate AllLean(es: seq<Expr>)
    decreases es, 0
  {
    forall k | 0 <= k < |es| :: Lean(es[k])
  }

  /** Main result: one pass removes every pair of parentheses around a single
      primary expression, at whatever depth, and every call attribute with them. */
  lemma {:induction false} SimplifyIsLean(e: Expr)
    ensures Lean(Simplify(e)) && Fits(Simplify(e), Plain)
    decreases e, 1
  {
    if e.rest == [] && e.first.Prim? {
      PrimaryIsLean(e.first.p);
    } else {
      OperandIsLean(e.first);
      forall k | 0 <= k < |e.rest| ensures LeanOperation(SimplifyRest(e.rest)[k])
        ensures OperationFits(SimplifyRest(e.rest)[k], Plain)
      {
        ArgSmaller(e.rest[k]);
        OperandIsLean(e.rest[k].arg);
      }
    }
  }

  lemma StaysApart(e: Expr)
    requires !IsLone(e)
    ensures !IsLone(Simplify(e))
  {
    assert |Simplify(e).rest| == |e.rest|;
  }

  lemma {:induction false} PrimaryIsLean(p: Primary)
    ensures LeanOperand(Prim(SimplifyPrimary(p))) && OperandFits(Prim(SimplifyPrimary(p)), Plain)
    decreases p, 1
  {
    match p
    case Paren(e) =>
      if e.rest == [] && e.first.Prim? {
        PrimaryIsLean(e.first.p);
      } else {
        SimplifyIsLean(e);
        StaysApart(e);
        assert SimplifyPrimary(p) == Paren(Simplify(e));
      }
    case Apply(c) => ArgsAreLean(c.args);
    case List(es) => ArgsAreLean(es);
    case _ =>
  }

  lemma {:induction false} OperandIsLean(o: Operand)
    ensures LeanOperand(SimplifyOperand(o)) && OperandFits(SimplifyOperand(o), Plain)
    decreases o, 1
  {
    match o
    case NilOperand =>
    case Un(u) => OperandIsLean(u.arg);
    case Prim(p) =>
      if p.Paren? && p.e.rest == [] && p.e.first.Un? { OperandIsLean(p.e.first.u.arg); }
      else if p.Paren? && p.e.rest == [] && p.e.first.Prim? { PrimaryIsLean(p.e.first.p); }
      else { PrimaryIsLean(p); }
  }

  lemma {:induction false} ArgsAreLean(es: seq<Expr>)
    ensures AllLean(SimplifyArgs(es)) && AllFit(SimplifyArgs(es), Plain)
    decreases es, 0
  {
    forall k | 0 <= k < |es| ensures Lean(SimplifyArgs(es)[k]) && Fits(SimplifyArgs(es)[k], Plain) { SimplifyIsLean(es[k]); }
  }

  /** Main result: so does rewriting, whether or not the rule matches anywhere. */
  lemma TransformIsLean(e: Expr, rule: Rule)
    ensures Lean(TransformAst(e, rule)) && Fits(TransformAst(e, rule), Plain)
  {
    if MatchExpr(e, rule.lhs).Matched? {
      SimplifyIsLean(TransduceAll(rule.rhs, InsertAll([], MatchExpr(e, rule.lhs).binds)));
    } else {
      SimplifyIsLean(Expr(TransformOperand(e.first, rule), TransformRest(e.rest, rule)));
    }
  }

  // ---------------------------------------------------------------------
  // What substitution adds

  ghost predicate LeanPieces(s: Sigma) {
    forall n | n in s.exprs :: Lean(s.exprs[n]) && Fits(s.exprs[n], Plain)
  }

  /** Substituting adds parentheses only where they are needed, and drops call
      attributes. */
  lemma {:induction false} SubstIsLean(e: Expr, s: Sigma)
    requires LeanPieces(s)
    ensures Lean(e) ==> Lean(Subst(e, s))
    ensures Fits(Subst(e, s), Plain)
    decreases e, 1
  {
    SubstOperandIsLean(e.first, s);
    forall k | 0 <= k < |e.rest|
      ensures OperationFits(SubstRest(e.rest, s)[k], Plain)
      ensures Lean(e) ==> LeanOperation(SubstRest(e.rest, s)[k])
    {
      assert Lean(e) ==> LeanRest(e.rest) && LeanOperation(e.rest[k]);
      ArgSmaller(e.rest[k]);
      SubstOperandIsLean(e.rest[k].arg, s);
    }
  }

  lemma {:induction false} SubstOperandIsLean(o: Operand, s: Sigma)
    requires LeanPieces(s)
    ensures LeanOperand(o) ==> LeanOperand(SubstOperand(o, s))
    ensures OperandFits(SubstOperand(o, s), Plain)
    decreases o, 1
  {
    match o
    case NilOperand =>
    case Un(u) => SubstOperandIsLean(u.arg, s);
    case Prim(Paren(x)) =>
      SubstIsLean(x, s);
      if LeanOperand(o) { ParenStaysLean(x, s); }
    case Prim(Apply(c)) => SubstArgsAreLean(c.args, s);
    case Prim(List(es)) => SubstArgsAreLean(es, s);
    case _ =>
  }

  lemma ParenStaysLean(x: Expr, s: Sigma)
    requires !IsLone(x)
    ensures !IsLone(Subst(x, s))
  {
    assert ExprIsIdentifier(x) ==> Core(x.first).Prim? && x.rest == [];
  }

  lemma {:induction false} SubstArgsAreLean(es: seq<Expr>, s: Sigma)
    requires LeanPieces(s)
    ensures AllLean(es) ==> AllLean(SubstArgs(es, s))
    ensures AllFit(SubstArgs(es, s), Plain)
    decreases es, 0
  {
    forall k | 0 <= k < |es|
      ensures Fits(SubstArgs(es, s)[k], Plain) && (Lean(es[k]) ==> Lean(SubstArgs(es, s)[k]))
    {
      SubstIsLean(es[k], s);
    }
  }

  // ---------------------------------------------------------------------
  // What two passes leave

  /** In operator position even a unary expression stands without parentheses. */
  predicate Bare(e: Expr)
    decreases e, 1
  {
    if e.rest == [] && e.first.Prim? then BarePrimary(e.first.p)
    else BareOperand(e.first) && BareRest(e.rest)
  }

  predicate BarePrimary(p: Primary)
    decreases p, 1
  {
    match p
    case Paren(e) => !IsLone(e) && Bare(e)
    case Apply(c) => AllBare(c.args)
    case List(es) => AllBare(es)
    case _ => true
  }

  predicate BareOperand(o: Operand)
    decreases o, 1
  {
    match o
    case NilOperand => true
    case Un(u) => BareOperand(u.arg)
    case Prim(p) => !(p.Paren? && p.e.rest == [] && p.e.first.Un?) && BarePrimary(p)
  }

  predicate BareOperation(op: Operation)
    decreases op, 2
  {
    BareOperand(op.arg)
  }

  predicate BareRest(ops: seq<Operation>)
    decreases ops, 0
  {
    forall k | 0 <= k < |ops| :: BareOperation(ops[k])
  }

  predicate AllBare(es: seq<Expr>)
    decreases es, 0
  {
    forall k | 0 <= k < |es| :: Bare(es[k])
  }

  /** What a pass does not change is bare. */
  lemma {:induction false} SettledIsBare(e: Expr)
    ensures Simplify(e) == e ==> Bare(e)
    decreases e, 1
  {
    if e.rest == [] && e.first.Prim? {
      PrimarySettled(e.first.p);
    } else if Simplify(e) == e {
      OperandSettled(e.first);
      forall k | 0 <= k < |e.rest| ensures BareOperation(e.rest[k]) {
        assert SimplifyRest(e.rest)[k] == e.rest[k];
        ArgSmaller(e.rest[k]);
        OperandSettled(e.rest[k].arg);
      }
    }
  }

  lemma {:induction false} PrimarySettled(p: Primary)
    ensures SimplifyPrimary(p) == p ==> BarePrimary(p)
    decreases p, 1
  {
    PrimaryIsLean(p);
    match p
    case Paren(e) => SettledIsBare(e);
    case Apply(c) => ArgsSettled(c.args);
    case List(es) => ArgsSettled(es);
    case _ =>
  }

  lemma {:induction false} OperandSettled(o: Operand)
    ensures SimplifyOperand(o) == o ==> BareOperand(o)
    decreases o, 1
  {
    OperandIsLean(o);
    match o
    case NilOperand =>
    case Un(u) => OperandSettled(u.arg);
    case Prim(p) => PrimarySettled(p);
  }

  lemma {:induction false} ArgsSettled(es: seq<Expr>)
    ensures SimplifyArgs(es) == es ==> AllBare(es)
    decreases es, 0
  {
    if SimplifyArgs(es) == es {
      forall k | 0 <= k < |es| ensures Bare(es[k]) {
        assert SimplifyArgs(es)[k] == es[k];
        SettledIsBare(es[k]);
      }
    }
  }

  /** Main result: and what is bare, and free of call attributes, a pass does not
      change. */
  lemma {:induction false} BareIsSettled(e: Expr)
    requires Bare(e) && Fits(e, Plain)
    ensures Simplify(e) == e
    decreases e, 1
  {
    if e.rest == [] && e.first.Prim? {
      BarePrimarySettles(e.first.p);
    } else {
      BareOperandSettles(e.first);
      forall k | 0 <= k < |e.rest| ensures SimplifyRest(e.rest)[k] == e.rest[k] {
        assert BareOperation(e.rest[k]) && OperationFits(e.rest[k], Plain);
        ArgSmaller(e.rest[k]);
        BareOperandSettles(e.rest[k].arg);
      }
    }
  }

  lemma {:induction false} BarePrimarySettles(p: Primary)
    requires BarePrimary(p) && OperandFits(Prim(p), Plain)
    ensures SimplifyPrimary(p) == p
    decreases p, 1
  {
    match p
    case Paren(e) => BareIsSettled(e);
    case Apply(c) => BareArgsSettle(c.args);
    case List(es) => BareArgsSettle(es);
    case _ =>
  }

  lemma {:induction false} BareOperandSettles(o: Operand)
    requires BareOperand(o) && OperandFits(o, Plain)
    ensures SimplifyOperand(o) == o
    decreases o, 1
  {
    match o
    case NilOperand =>
    case Un(u) => BareOperandSettles(u.arg);
    case Prim(p) => BarePrimarySettles(p);
  }

  lemma {:induction false} BareArgsSettle(es: seq<Expr>)
    requires AllBare(es) && AllFit(es, Plain)
    ensures SimplifyArgs(es) == es
    decreases es, 0
  {
    forall k | 0 <= k < |es| ensures SimplifyArgs(es)[k] == es[k] { BareIsSettled(es[k]); }
  }

  /** Main result: after two passes no parentheses are left but around lists, and
      around a unary expression that stands alone. */
  lemma TwoPassesAreBare(e: Expr)
    ensures Bare(Simplify(Simplify(e)))
  {
    SimplifySettles(e);
    SettledIsBare(Simplify(Simplify(e)));
  }
}
