/** Rewriting keeps the value of an expression. */
module RewriteSound {
  import opened Ast
  import opened Semantics
  import opened Match
  import opened MatchExact
  import opened Rewrite

  // ---------------------------------------------------------------------
  // The multimap keeps, for every name, the binding inserted first

  ghost predicate Sorted(ph: seq<Binding>) {
    forall i, j | 0 <= i < j < |ph| :: !NameLess(ph[j].name, ph[i].name)
  }

  lemma {:induction false} NameLessIsOrder(a: string, b: string, c: string)
    ensures !NameLess(a, a)
    ensures NameLess(a, b) && NameLess(b, c) ==> NameLess(a, c)
    decreases |a|
  {
    if a != [] {
      NameLessIsOrder(a[1..], if b == [] then [] else b[1..], if c == [] then [] else c[1..]);
    }
  }

  /** The order is that of dictionaries. */
  lemma {:induction false} NameLessIsLexical(p: string, x: char, a: string, y: char, b: string)
    ensures NameLess(p, p + [x] + a)
    ensures x < y ==> NameLess(p + [x] + a, p + [y] + b)
    decreases |p|
  {
    if p != "" {
      NameLessIsLexical(p[1..], x, a, y, b);
      assert (p + [x] + a)[1..] == p[1..] + [x] + a && (p + [y] + b)[1..] == p[1..] + [y] + b;
    }
  }

  lemma {:induction false} NameLessIsTotal(a: string, b: string)
    ensures a == b || NameLess(a, b) || NameLess(b, a)
    decreases |a|
  {
    if a != "" && b != "" && a[0] == b[0] { NameLessIsTotal(a[1..], b[1..]); }
  }

  lemma {:induction false} InsertHas(ph: seq<Binding>, x: Binding)
    ensures |Insert(ph, x)| == |ph| + 1
    ensures forall y :: y in Insert(ph, x) <==> y in ph || y == x
    decreases |ph|
  {
    if ph != [] { InsertHas(ph[1..], x); }
  }

  lemma {:induction false} InsertSorted(ph: seq<Binding>, x: Binding)
    requires Sorted(ph)
    ensures Sorted(Insert(ph, x))
    decreases |ph|
  {
    if ph == [] {
    } else if NameLess(x.name, ph[0].name) {
      forall j | 0 <= j < |ph| ensures !NameLess(ph[j].name, x.name) {
        NameLessIsOrder(ph[j].name, x.name, ph[0].name);
        NameLessIsOrder(ph[0].name, x.name, ph[0].name);
      }
    } else {
      InsertSorted(ph[1..], x);
      InsertHas(ph[1..], x);
      var r := Insert(ph[1..], x);
      forall j | 0 <= j < |r| ensures !NameLess(r[j].name, ph[0].name) {
        assert r[j] in r;
      }
    }
  }

  lemma MapAssoc<T>(a: map<string, T>, b: map<string, T>, c: map<string, T>)
    ensures a + b + c == a + (b + c)
  {}

  lemma UnderAssoc(a: Sigma, b: Sigma, c: Sigma)
    ensures a.Under(b).Under(c) == a.Under(b.Under(c))
  {
    MapAssoc(a.exprs, b.exprs, c.exprs);
    MapAssoc(a.funs, b.funs, c.funs);
  }

  lemma UnderDisjoint(a: Sigma, b: Sigma)
    requires a.exprs.Keys !! b.exprs.Keys && a.funs.Keys !! b.funs.Keys
    ensures a.Under(b) == b.Under(a)
  {}

  /** A name already present keeps the binding it has. */
  lemma {:induction false} InsertKeepsFirst(ph: seq<Binding>, x: Binding)
    requires Sorted(ph)
    ensures First(Insert(ph, x)) == One(x).Under(First(ph))
    decreases |ph|
  {
    if ph == [] {
    } else if NameLess(x.name, ph[0].name) {
      NewName(ph, x);
      assert ([x] + ph)[1..] == ph;
      UnderDisjoint(One(x), First(ph));
    } else {
      InsertKeepsFirst(ph[1..], x);
      assert Insert(ph, x)[1..] == Insert(ph[1..], x);
      UnderAssoc(One(x), First(ph[1..]), One(ph[0]));
    }
  }

  lemma NewName(ph: seq<Binding>, x: Binding)
    requires Sorted(ph) && ph != [] && NameLess(x.name, ph[0].name)
    ensures x.name !in First(ph).exprs && x.name !in First(ph).funs
  {
    FirstNames(ph);
    forall j | 0 <= j < |ph| ensures ph[j].name != x.name {
      NameLessIsOrder(x.name, ph[0].name, x.name);
    }
  }

  lemma {:induction false} InsertAllHas(ph: seq<Binding>, bs: seq<Binding>)
    ensures forall y :: y in InsertAll(ph, bs) <==> y in ph || y in bs
    decreases |bs|
  {
    if bs != [] {
      InsertHas(ph, bs[0]);
      InsertAllHas(Insert(ph, bs[0]), bs[1..]);
    }
  }

  /** Whatever was inserted, and in whatever order: for every name the
      multimap hands out first what was bound first. */
  lemma {:induction false} InsertAllKeepsFirst(ph: seq<Binding>, bs: seq<Binding>)
    requires Sorted(ph)
    ensures First(InsertAll(ph, bs)) == First(bs).Under(First(ph))
    decreases |bs|
  {
    if bs != [] {
      InsertSorted(ph, bs[0]);
      InsertKeepsFirst(ph, bs[0]);
      InsertAllKeepsFirst(Insert(ph, bs[0]), bs[1..]);
      UnderAssoc(First(bs[1..]), One(bs[0]), First(ph));
    }
  }

  // ---------------------------------------------------------------------
  // One name at a time, or all at once

  /** Substitutions of placeholders by pieces of the subject. */
  ghost predicate Grounded(s: Sigma) {
    && (forall n | n in s.exprs :: IsPlaceholderName(n) && Fits(s.exprs[n], Subject))
    && (forall n | n in s.funs :: IsPlaceholderName(n) && !IsPlaceholderName(s.funs[n]) && s.funs[n] != "")
  }

  lemma {:induction false} SubstKeeps(e: Expr, s: Sigma, r: Role)
    requires Fits(e, r) && (r == Subject || s == NOTHING) && Grounded(s)
    ensures Subst(e, s) == e
    decreases e, 1
  {
    if ExprIsIdentifier(e) { CoreFits(e.first, r); }
    SubstOperandKeeps(e.first, s, r);
    SubstRestKeeps(e.rest, s, r);
  }

  lemma {:induction false} SubstOperandKeeps(o: Operand, s: Sigma, r: Role)
    requires OperandFits(o, r) && (r == Subject || s == NOTHING) && Grounded(s)
    ensures SubstOperand(o, s) == o
    decreases o, 1
  {
    match o
    case Un(u) => SubstOperandKeeps(u.arg, s, r);
    case Prim(Paren(e)) => SubstKeeps(e, s, r);
    case Prim(Apply(c)) => SubstArgsKeeps(c.args, s, r);
    case Prim(List(es)) => SubstArgsKeeps(es, s, r);
    case _ =>
  }

  lemma {:induction false} SubstRestKeeps(ops: seq<Operation>, s: Sigma, r: Role)
    requires RestFits(ops, r) && (r == Subject || s == NOTHING) && Grounded(s)
    ensures SubstRest(ops, s) == ops
    decreases ops, 0
  {
    if ops != [] {
      ArgSmaller(ops[0]);
      SubstOperandKeeps(ops[0].arg, s, r);
      SubstRestKeeps(ops[1..], s, r);
    }
  }

  lemma {:induction false} SubstArgsKeeps(es: seq<Expr>, s: Sigma, r: Role)
    requires AllFit(es, r) && (r == Subject || s == NOTHING) && Grounded(s)
    ensures SubstArgs(es, s) == es
    decreases es, 0
  {
    if es != [] {
      SubstKeeps(es[0], s, r);
      SubstArgsKeeps(es[1..], s, r);
    }
  }

  /** An identifier of `t` that shows up after `s` was there before. */
  lemma {:induction false} SubstCore(o: Operand, s: Sigma, n: string)
    requires Grounded(s) && IsPlaceholderName(n)
    ensures Core(SubstOperand(o, s)) == Prim(Id(n)) <==> Core(o) == Prim(Id(n)) && n !in s.exprs
    decreases o
  {
    match o
    case Prim(Id(x)) =>
      if x in s.exprs {
        var p := AsPrimary(s.exprs[x]);
        assert OperandFits(Prim(p), Subject);
        SubjectHasNone(Prim(p));
      }
    case Prim(Paren(e)) =>
      SubstCore(e.first, s, n);
      if ExprIsIdentifier(e) && ExprName(e) in s.exprs {
        SubjectHasNone(s.exprs[ExprName(e)].first);
      }
    case _ =>
  }

  lemma {:induction false} SubstTwice(e: Expr, s: Sigma, t: Sigma)
    requires Grounded(s) && Grounded(t)
    ensures Subst(Subst(e, s), t) == Subst(e, t.Under(s))
    decreases e, 1
  {
    if ExprIsIdentifier(e) && ExprName(e) in s.exprs {
      SubstKeeps(s.exprs[ExprName(e)], t, Subject);
    } else {
      var e' := Subst(e, s);
      SubstOperandTwice(e.first, s, t);
      SubstRestTwice(e.rest, s, t);
      if ExprIsIdentifier(e) && ExprName(e) in t.exprs { SubstCore(e.first, s, ExprName(e)); }
      if ExprIsIdentifier(e') && ExprName(e') in t.exprs { SubstCore(e.first, s, ExprName(e')); }
    }
  }

  lemma {:induction false} SubstOperandTwice(o: Operand, s: Sigma, t: Sigma)
    requires Grounded(s) && Grounded(t)
    ensures SubstOperand(SubstOperand(o, s), t) == SubstOperand(o, t.Under(s))
    decreases o, 1
  {
    match o
    case Un(u) => SubstOperandTwice(u.arg, s, t);
    case Prim(Id(n)) => SubstIdTwice(n, s, t);
    case Prim(Paren(e)) => SubstTwice(e, s, t);
    case Prim(Apply(c)) => SubstCallTwice(c, s, t);
    case Prim(List(es)) => SubstArgsTwice(es, s, t);
    case _ =>
  }

  lemma SubstIdTwice(n: string, s: Sigma, t: Sigma)
    requires Grounded(s) && Grounded(t)
    ensures SubstOperand(SubstOperand(Prim(Id(n)), s), t) == SubstOperand(Prim(Id(n)), t.Under(s))
  {
    if n in s.exprs {
      assert OperandFits(Prim(AsPrimary(s.exprs[n])), Subject);
      SubstOperandKeeps(Prim(AsPrimary(s.exprs[n])), t, Subject);
    }
  }

  lemma {:induction false} SubstCallTwice(c: Call, s: Sigma, t: Sigma)
    requires Grounded(s) && Grounded(t)
    ensures SubstOperand(SubstOperand(Prim(Apply(c)), s), t) == SubstOperand(Prim(Apply(c)), t.Under(s))
    decreases c, 1
  {
    assert SubstName(SubstName(c.name, s), t) == SubstName(c.name, t.Under(s));
    SubstArgsTwice(c.args, s, t);
  }

  lemma {:induction false} SubstRestTwice(ops: seq<Operation>, s: Sigma, t: Sigma)
    requires Grounded(s) && Grounded(t)
    ensures SubstRest(SubstRest(ops, s), t) == SubstRest(ops, t.Under(s))
    decreases ops, 0
  {
    if ops != [] {
      ArgSmaller(ops[0]);
      SubstOperandTwice(ops[0].arg, s, t);
      SubstRestTwice(ops[1..], s, t);
    }
  }

  lemma {:induction false} SubstArgsTwice(es: seq<Expr>, s: Sigma, t: Sigma)
    requires Grounded(s) && Grounded(t)
    ensures SubstArgs(SubstArgs(es, s), t) == SubstArgs(es, t.Under(s))
    decreases es, 0
  {
    if es != [] {
      SubstTwice(es[0], s, t);
      SubstArgsTwice(es[1..], s, t);
    }
  }

  /** Placeholders bound to pieces of the subject. */
  ghost predicate Pieces(bs: seq<Binding>) {
    forall k | 0 <= k < |bs| :: IsPlaceholderName(bs[k].name) && Fits(bs[k].value, Subject)
  }

  lemma GroundedOne(x: Binding)
    requires IsPlaceholderName(x.name) && Fits(x.value, Subject)
    ensures Grounded(One(x))
  {
    SubjectHasNone(x.value.first);
  }

  lemma GroundedUnder(a: Sigma, b: Sigma)
    requires Grounded(a) && Grounded(b)
    ensures Grounded(a.Under(b))
  {}

  lemma {:induction false} GroundedFirst(bs: seq<Binding>)
    requires Pieces(bs)
    ensures Grounded(First(bs))
    decreases |bs|
  {
    if bs != [] {
      GroundedFirst(bs[1..]);
      GroundedOne(bs[0]);
      GroundedUnder(First(bs[1..]), One(bs[0]));
    }
  }

  lemma {:induction false} TransduceAllIs(e: Expr, ph: seq<Binding>, s: Sigma)
    requires Pieces(ph) && Grounded(s)
    ensures TransduceAll(Subst(e, s), ph) == Subst(e, First(ph).Under(s))
    decreases |ph|
  {
    if ph == [] {
      UnderNothing(s);
    } else {
      GroundedOne(ph[0]);
      GroundedUnder(One(ph[0]), s);
      SubstTwice(e, s, One(ph[0]));
      TransduceAllIs(e, ph[1..], One(ph[0]).Under(s));
      UnderAssoc(First(ph[1..]), One(ph[0]), s);
    }
  }

  lemma UnderNothing(s: Sigma)
    ensures NOTHING.Under(s) == s && s.Under(NOTHING) == s
  {}

  /** Main result: substituting one name after the other, in the order of the
      multimap, is the simultaneous substitution of every name by what it was
      bound to first. */
  lemma TransduceIsSimultaneous(e: Expr, bs: seq<Binding>)
    requires Fits(e, Plain) && Pieces(bs)
    ensures TransduceAll(e, InsertAll([], bs)) == Subst(e, First(bs))
  {
    var ph := InsertAll([], bs);
    InsertAllHas([], bs);
    InsertAllKeepsFirst([], bs);
    forall k | 0 <= k < |ph| ensures IsPlaceholderName(ph[k].name) && Fits(ph[k].value, Subject) {
      assert ph[k] in ph;
    }
    SubstKeeps(e, NOTHING, Plain);
    TransduceAllIs(e, ph, NOTHING);
    UnderNothing(First(ph));
    UnderNothing(First(bs));
  }

  // ---------------------------------------------------------------------
  // Substitution is evaluation in the extended environment

  lemma {:induction false} SubstEval<V>(m: Model<V>, e: Expr, s: Sigma)
    requires Fits(e, Plain)
    ensures EvalExpr(m, NoBind(), Subst(e, s)) == EvalExpr(m, BindOf(m, s), e)
    decreases e, 1
  {
    if ExprIsIdentifier(e) && ExprName(e) in s.exprs {
      EvalCore(m, BindOf(m, s), e.first);
    } else {
      SubstOperandEval(m, e.first, s);
      SubstRestEval(m, e.rest, s);
    }
  }

  lemma {:induction false} SubstOperandEval<V>(m: Model<V>, o: Operand, s: Sigma)
    requires OperandFits(o, Plain)
    ensures EvalOperand(m, NoBind(), SubstOperand(o, s)) == EvalOperand(m, BindOf(m, s), o)
    decreases o, 1
  {
    match o
    case Un(u) => SubstOperandEval(m, u.arg, s);
    case Prim(Paren(e)) => SubstEval(m, e, s);
    case Prim(Apply(c)) => SubstArgsEval(m, c.args, s);
    case Prim(List(es)) => SubstArgsEval(m, es, s);
    case _ =>
  }

  lemma {:induction false} SubstRestEval<V>(m: Model<V>, ops: seq<Operation>, s: Sigma)
    requires RestFits(ops, Plain)
    ensures EvalRest(m, NoBind(), SubstRest(ops, s)) == EvalRest(m, BindOf(m, s), ops)
    decreases ops, 0
  {
    if ops != [] {
      ArgSmaller(ops[0]);
      SubstOperandEval(m, ops[0].arg, s);
      SubstRestEval(m, ops[1..], s);
    }
  }

  lemma {:induction false} SubstArgsEval<V>(m: Model<V>, es: seq<Expr>, s: Sigma)
    requires AllFit(es, Plain)
    ensures EvalArgs(m, NoBind(), SubstArgs(es, s)) == EvalArgs(m, BindOf(m, s), es)
    decreases es, 0
  {
    if es != [] {
      SubstEval(m, es[0], s);
      SubstArgsEval(m, es[1..], s);
    }
  }

  // ---------------------------------------------------------------------
  // What substitution leaves

  /** `s` turns what fits `from` into what fits `to`. */
  ghost predicate Carries(s: Sigma, from: Role, to: Role) {
    && (forall n | n in s.exprs :: Fits(s.exprs[n], to))
    && (forall n | n in s.funs :: FunOk(to, s.funs[n]))
    && (forall n | IdOk(from, n) && n !in s.exprs :: IdOk(to, n))
    && (forall n | FunOk(from, n) && n !in s.funs :: FunOk(to, n))
    && (forall t | StrOk(from, t) :: StrOk(to, t))
  }

  lemma {:induction false} SubstFits(e: Expr, s: Sigma, from: Role, to: Role)
    requires Fits(e, from) && Carries(s, from, to)
    ensures Fits(Subst(e, s), to)
    decreases e, 1
  {
    SubstOperandFits(e.first, s, from, to);
    SubstRestFits(e.rest, s, from, to);
  }

  lemma {:induction false} SubstOperandFits(o: Operand, s: Sigma, from: Role, to: Role)
    requires OperandFits(o, from) && Carries(s, from, to)
    ensures OperandFits(SubstOperand(o, s), to)
    decreases o, 1
  {
    match o
    case Un(u) => SubstOperandFits(u.arg, s, from, to);
    case Prim(Paren(e)) => SubstFits(e, s, from, to);
    case Prim(Apply(c)) => SubstArgsFits(c.args, s, from, to);
    case Prim(List(es)) => SubstArgsFits(es, s, from, to);
    case _ =>
  }

  lemma {:induction false} SubstRestFits(ops: seq<Operation>, s: Sigma, from: Role, to: Role)
    requires RestFits(ops, from) && Carries(s, from, to)
    ensures RestFits(SubstRest(ops, s), to)
    decreases ops, 0
  {
    if ops != [] {
      ArgSmaller(ops[0]);
      SubstOperandFits(ops[0].arg, s, from, to);
      SubstRestFits(ops[1..], s, from, to);
    }
  }

  lemma {:induction false} SubstArgsFits(es: seq<Expr>, s: Sigma, from: Role, to: Role)
    requires AllFit(es, from) && Carries(s, from, to)
    ensures AllFit(SubstArgs(es, s), to)
    decreases es, 0
  {
    if es != [] {
      SubstFits(es[0], s, from, to);
      SubstArgsFits(es[1..], s, from, to);
    }
  }

  /** Everything that fits a vocabulary fits `Plain`: substituting nothing shows it. */
  lemma PlainOperand(o: Operand, r: Role)
    requires OperandFits(o, r)
    ensures OperandFits(o, Plain)
  {
    SubstOperandKeeps(o, NOTHING, r);
    SubstOperandFits(o, NOTHING, r, Plain);
  }

  lemma PlainExpr(e: Expr, r: Role)
    requires Fits(e, r)
    ensures Fits(e, Plain)
  {
    SubstKeeps(e, NOTHING, r);
    SubstFits(e, NOTHING, r, Plain);
  }
}
