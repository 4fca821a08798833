/** Rewriting an instance of a rule's left side gives the instance of its right
    side: `add(A, B)` under `add(_1, _2) : _1 + _2` becomes `A + B`. */
module Instances {
  import opened Ast
  import opened Semantics
  import opened Match
  import opened MatchShape
  import opened MatchSound
  import opened MatchExact
  import opened MatchComplete
  import opened FreeModel
  import opened Rewrite
  import opened RewriteSound
  import opened TransformSound
  import opened Basics

  // ---------------------------------------------------------------------
  // Values depend on what is bound

  ghost predicate SameBinds<V(!new)>(m: Model<V>, b: Bind<V>, c: Bind<V>, ids: set<string>, funs: set<string>) {
    && BindsPlaceholders(b) && BindsPlaceholders(c)
    && (forall n | n in ids :: IdValue(m, b, n) == IdValue(m, c, n))
    && (forall n | n in funs :: FunName(b, n) == FunName(c, n))
  }

  lemma {:induction false} SameValue<V(!new)>(
      m: Model<V>, b: Bind<V>, c: Bind<V>, ids: set<string>, funs: set<string>, e: Expr)
    requires SameBinds(m, b, c, ids, funs) && Fits(e, Template(ids, funs))
    ensures EvalExpr(m, b, e) == EvalExpr(m, c, e)
    decreases e, 1
  {
    SameOperandValue(m, b, c, ids, funs, e.first);
    forall k | 0 <= k < |e.rest| ensures EvalRest(m, b, e.rest)[k] == EvalRest(m, c, e.rest)[k] {
      assert OperationFits(e.rest[k], Template(ids, funs));
      ArgSmaller(e.rest[k]);
      SameOperandValue(m, b, c, ids, funs, e.rest[k].arg);
    }
    assert EvalRest(m, b, e.rest) == EvalRest(m, c, e.rest);
  }

  lemma {:induction false} SameOperandValue<V(!new)>(
      m: Model<V>, b: Bind<V>, c: Bind<V>, ids: set<string>, funs: set<string>, o: Operand)
    requires SameBinds(m, b, c, ids, funs) && OperandFits(o, Template(ids, funs))
    ensures EvalOperand(m, b, o) == EvalOperand(m, c, o)
    decreases o, 1
  {
    match o
    case Un(u) => SameOperandValue(m, b, c, ids, funs, u.arg);
    case Prim(Paren(e)) => SameValue(m, b, c, ids, funs, e);
    case Prim(Apply(f)) => SameArgsValue(m, b, c, ids, funs, f.args);
    case Prim(List(es)) => SameArgsValue(m, b, c, ids, funs, es);
    case _ =>
  }

  lemma {:induction false} SameArgsValue<V(!new)>(
      m: Model<V>, b: Bind<V>, c: Bind<V>, ids: set<string>, funs: set<string>, es: seq<Expr>)
    requires SameBinds(m, b, c, ids, funs) && AllFit(es, Template(ids, funs))
    ensures EvalArgs(m, b, es) == EvalArgs(m, c, es)
    decreases es, 0
  {
    if es != [] {
      SameValue(m, b, c, ids, funs, es[0]);
      SameArgsValue(m, b, c, ids, funs, es[1..]);
    }
  }

  // ---------------------------------------------------------------------
  // What an instance binds

  /** Where a placeholder stands for a function, it stands for its name elsewhere. */
  ghost predicate Coherent(s: Sigma) {
    Filling(s) && forall n | n in s.funs ::
      n in s.exprs && EvalExpr(Free(), NoBind(), s.exprs[n]) == NameTerm(s.funs[n])
  }

  /** A pattern of which every filling is an instance that matches. */
  ghost predicate Matchable(p: Expr, s: Sigma) {
    Coherent(s) && Fits(p, Pattern) && Fits(p, Filled(s)) && Live(p)
  }

  /** The binding has the value, or in function position the name, that was filled in. */
  ghost predicate FilledBy(s: Sigma, slot: Slot, x: Binding) {
    && x.name == slot.name && x.name in s.exprs
    && EvalExpr(Free(), NoBind(), x.value) == EvalExpr(Free(), NoBind(), s.exprs[x.name])
    && (slot.fun ==> ExprIsIdentifier(x.value) && x.name in s.funs && ExprName(x.value) == s.funs[x.name])
  }

  lemma InstanceAgrees(p: Expr, s: Sigma)
    requires Matchable(p, s)
    ensures var e := Subst(p, s);
      && Fits(e, Subject) && MatchExpr(e, p).Matched? && NoneDrops(FacedExpr(e, p))
      && AllAgree(Free(), BindOf(Free(), s), FacedExpr(e, p))
  {
    FilledCarries(s);
    SubstFits(p, s, Filled(s), Subject);
    InstanceMatches(p, s);
    LosesNothing(Subst(p, s), p);
    PlainExpr(p, Pattern);
    SubstEval(Free(), p, s);
    ExprExact(Free(), BindOf(Free(), s), Subst(p, s), p);
  }

  lemma FacedIsFilled(s: Sigma, f: Faced)
    requires Coherent(s) && Agrees(Free(), BindOf(Free(), s), f) && GoodFace(f, None) && !f.Drops()
    requires f.slot.name in if f.slot.fun then s.funs.Keys else s.exprs.Keys
    ensures FilledBy(s, f.slot, Binding(f.slot.name, f.Kept()))
  {
    KeptValue(Free(), f);
    if f.slot.fun { IdentifierValue(f.value); }
  }

  /** Every place is bound to something of the value it was filled with. */
  lemma InstanceBinds(p: Expr, s: Sigma, k: nat)
    requires Matchable(p, s)
    requires MatchExpr(Subst(p, s), p).Matched? && k < |MatchExpr(Subst(p, s), p).binds|
    ensures k < |SlotsExpr(p)| && FilledBy(s, SlotsExpr(p)[k], MatchExpr(Subst(p, s), p).binds[k])
  {
    var fs := FacedExpr(Subst(p, s), p);
    InstanceAgrees(p, s);
    ExprShape(Subst(p, s), p, None);
    SlotsFit(p, s.exprs.Keys, s.funs.Keys);
    assert Agrees(Free(), BindOf(Free(), s), fs[k]) && GoodFace(fs[k], None);
    FacedIsFilled(s, fs[k]);
  }

  lemma IdentifierValue(e: Expr)
    requires ExprIsIdentifier(e)
    ensures EvalExpr(Free(), NoBind(), e) == NameTerm(ExprName(e))
  {
    EvalCore(Free(), NoBind(), e.first);
  }

  // ---------------------------------------------------------------------
  // The instance of the right side

  lemma {:induction false} FirstFunIsSome(bs: seq<Binding>, n: string)
    requires n in First(bs).funs
    ensures exists k | 0 <= k < |bs| ::
      bs[k].name == n && ExprIsIdentifier(bs[k].value) && ExprName(bs[k].value) == First(bs).funs[n]
    decreases |bs|
  {
    if n !in One(bs[0]).funs {
      FirstFunIsSome(bs[1..], n);
      var k :| 0 <= k < |bs| - 1 && bs[1..][k].name == n && ExprIsIdentifier(bs[1..][k].value)
        && ExprName(bs[1..][k].value) == First(bs[1..]).funs[n];
      assert bs[k + 1] == bs[1..][k];
    }
  }

  /** The bindings of an instance give back what it was filled with. */
  lemma InstanceBindsBack<V(!new)>(m: Model<V>, p: Expr, s: Sigma)
    requires Matchable(p, s) && MatchExpr(Subst(p, s), p).Matched?
    ensures var t := First(MatchExpr(Subst(p, s), p).binds);
      SameBinds(m, BindOf(m, t), BindOf(m, s), TemplateOf(p).ids, TemplateOf(p).funs)
  {
    var bs := MatchExpr(Subst(p, s), p).binds;
    InstanceAgrees(p, s);
    MatchFills(Subst(p, s), p);
    MatchBinds(m, Subst(p, s), p);
    TemplateIsBound(bs, p);
    TemplateIsFilled(p, s);
    forall n | n in TemplateOf(p).ids
      ensures IdValue(m, BindOf(m, First(bs)), n) == IdValue(m, BindOf(m, s), n)
    {
      IdBindsBack(m, p, s, n);
    }
    forall n | n in TemplateOf(p).funs
      ensures FunName(BindOf(m, First(bs)), n) == FunName(BindOf(m, s), n)
    {
      FunBindsBack(p, s, n);
    }
  }

  lemma TemplateIsFilled(p: Expr, s: Sigma)
    requires Fits(p, Filled(s))
    ensures TemplateOf(p).funs <= s.funs.Keys
  {
    SlotsFit(p, s.exprs.Keys, s.funs.Keys);
  }

  lemma IdBindsBack<V>(m: Model<V>, p: Expr, s: Sigma, n: string)
    requires Matchable(p, s) && MatchExpr(Subst(p, s), p).Matched?
    requires n in First(MatchExpr(Subst(p, s), p).binds).exprs
    ensures IdValue(m, BindOf(m, First(MatchExpr(Subst(p, s), p).binds)), n) == IdValue(m, BindOf(m, s), n)
  {
    var bs := MatchExpr(Subst(p, s), p).binds;
    FirstIsSome(bs, n);
    var k :| 0 <= k < |bs| && bs[k].name == n && bs[k].value == First(bs).exprs[n];
    InstanceBinds(p, s, k);
    ExprFactors(m, bs[k].value);
    ExprFactors(m, s.exprs[n]);
  }

  lemma FunBindsBack(p: Expr, s: Sigma, n: string)
    requires Matchable(p, s) && MatchExpr(Subst(p, s), p).Matched? && n in s.funs
    requires n in First(MatchExpr(Subst(p, s), p).binds).funs
    ensures First(MatchExpr(Subst(p, s), p).binds).funs[n] == s.funs[n]
  {
    var bs := MatchExpr(Subst(p, s), p).binds;
    FirstFunIsSome(bs, n);
    var k :| 0 <= k < |bs| && bs[k].name == n && ExprIsIdentifier(bs[k].value)
      && ExprName(bs[k].value) == First(bs).funs[n];
    InstanceBinds(p, s, k);
    IdentifierValue(bs[k].value);
  }

  /** Main result: a rule rewrites an instance of its left side to what has the
      value of the same instance of its right side, in every model. */
  lemma InstanceIsRewritten<V(!new)>(m: Model<V>, rule: Rule, s: Sigma)
    requires Closed(rule) && Matchable(rule.lhs, s)
    ensures EvalExpr(m, NoBind(), TransformAst(Subst(rule.lhs, s), rule)) == EvalExpr(m, NoBind(), Subst(rule.rhs, s))
  {
    var e, t := Subst(rule.lhs, s), TemplateOf(rule.lhs);
    InstanceAgrees(rule.lhs, s);
    InstanceBindsBack(m, rule.lhs, s);
    RootValue(m, e, rule, Plain);
    SameValue(m, BindOf(m, First(MatchExpr(e, rule.lhs).binds)), BindOf(m, s), t.ids, t.funs, rule.rhs);
    SubstEval(m, rule.rhs, s);
  }
}
