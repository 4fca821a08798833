/** Matching succeeds where it should: on every instance of a pattern that can
    match at all, and rewriting then gives the instance of the right side. */
module MatchComplete {
  import opened Ast
  import opened Semantics
  import opened Match
  import opened MatchShape
  import opened MatchSound
  import opened Rewrite
  import opened RewriteSound

  // ---------------------------------------------------------------------
  // Patterns that can match

  /** No nil, number or string literal, no unnamed function: these match nothing.
      And no placeholder before a tighter operator: it would have taken what follows. */
  predicate Live(e: Expr)
    decreases e, 1
  {
    LiveOperand(e.first) && LiveRest(e.rest)
  }

  predicate LiveOperand(o: Operand)
    decreases o, 1
  {
    match o
    case Un(u) => LiveOperand(u.arg)
    case Prim(Id(_)) => true
    case Prim(Paren(e)) => Live(e)
    case Prim(Apply(c)) => c.name != "" && AllLive(c.args)
    case Prim(List(es)) => AllLive(es)
    case _ => false
  }

  predicate LiveOperation(op: Operation)
    decreases op, 2
  {
    LiveOperand(op.arg)
  }

  predicate LiveRest(ops: seq<Operation>)
    decreases ops, 0
  {
    ops == [] || (LiveOperation(ops[0]) && HoleIsLast(ops) && LiveRest(ops[1..]))
  }

  predicate HoleIsLast(ops: seq<Operation>)
    requires ops != []
  {
    |ops| > 1 && IsPlaceholder(ops[0].arg) ==> Precedence(ops[1].op) <= Precedence(ops[0].op)
  }

  predicate AllLive(es: seq<Expr>)
    decreases es, 0
  {
    forall k | 0 <= k < |es| :: Live(es[k])
  }

  lemma {:induction false} LiveCore(o: Operand)
    ensures LiveOperand(Core(o)) <==> LiveOperand(o)
    decreases o
  {
    if o.Prim? && o.p.Paren? && o.p.e.rest == [] {
      LiveCore(o.p.e.first);
      assert LiveOperand(o) == Live(o.p.e) == (LiveOperand(o.p.e.first) && LiveRest(o.p.e.rest));
    }
  }

  lemma {:induction false} LiveExtract(e: Expr)
    ensures Live(Extract(e)) <==> Live(e)
    decreases e
  {
    if e.rest == [] && e.first.Prim? && e.first.p.Paren? { LiveExtract(e.first.p.e); }
  }

  lemma PlaceholderIsLive(o: Operand)
    requires OperandFits(o, Pattern) && IsPlaceholder(o)
    ensures LiveOperand(o)
  {
    PatternHasNoEllipsis(o);
    LiveCore(o);
  }

  /** Main result: only such patterns match anything. */
  lemma {:induction false} MatchedIsLive(e1: Expr, e2: Expr)
    requires Fits(e1, Subject) && Fits(e2, Pattern) && MatchExpr(e1, e2).Matched?
    ensures Live(e2)
    decreases e1, e2, 1
  {
    SubjectHasNone(e1.first);
    ExtractFits(e1, Subject);
    ExtractFits(e2, Pattern);
    LiveExtract(e2);
    var s1, s2 := Extract(e1), Extract(e2);
    if ExprIsPlaceholder(e2) {
      PlaceholderIsLive(e2.first);
    } else {
      OperandIsLive(s1.first, s2.first);
      if s2.rest != [] { WalkIsLive(s1.rest, s2.rest); }
    }
  }

  lemma {:induction false} OperandIsLive(o1: Operand, o2: Operand)
    requires OperandFits(o1, Subject) && OperandFits(o2, Pattern) && MatchOperand(o1, o2).Matched?
    ensures LiveOperand(o2)
    decreases o1, o2, 2
  {
    match (o1, o2)
    case (Prim(p1), Prim(p2)) => PrimaryIsLive(p1, p2);
    case (Un(u1), Un(u2)) => OperandIsLive(u1.arg, u2.arg);
    case (Un(_), Prim(_)) => PlaceholderIsLive(o2);
    case _ => assert false;
  }

  lemma {:induction false} PrimaryIsLive(p1: Primary, p2: Primary)
    requires OperandFits(Prim(p1), Subject) && OperandFits(Prim(p2), Pattern) && MatchPrimary(p1, p2).Matched?
    ensures LiveOperand(Prim(p2))
    decreases p1, p2, 1
  {
    match (p1, p2)
    case (_, Id(_)) =>
    case (Paren(e1), Paren(e2)) => MatchedIsLive(e1, e2);
    case (Apply(c1), Apply(c2)) =>
      ArgsAreLive(c1.args, c2.args);
    case (List(l1), List(l2)) => ListsAreLive(l1, l2);
    case _ => assert false;
  }

  lemma {:induction false} ArgsAreLive(a1: seq<Expr>, a2: seq<Expr>)
    requires AllFit(a1, Subject) && AllFit(a2, Pattern) && MatchArgs(a1, a2).Matched?
    ensures AllLive(a2)
    decreases a1, a2, 0
  {
    if a1 != [] { SubjectHasNone(a1[0].first); }
    if a2 != [] { PatternHasNoEllipsis(a2[0].first); }
    if a1 != [] && a2 != [] {
      MatchedIsLive(a1[0], a2[0]);
      ArgsAreLive(a1[1..], a2[1..]);
    }
  }

  lemma {:induction false} ListsAreLive(l1: seq<Expr>, l2: seq<Expr>)
    requires |l1| == |l2| && AllFit(l1, Subject) && AllFit(l2, Pattern) && MatchLists(l1, l2).Matched?
    ensures AllLive(l2)
    decreases l1, l2, 0
  {
    if l1 != [] {
      MatchedIsLive(l1[0], l2[0]);
      ListsAreLive(l1[1..], l2[1..]);
    }
  }

  lemma {:induction false} WalkIsLive(r1: seq<Operation>, r2: seq<Operation>)
    requires RestFits(r1, Subject) && RestFits(r2, Pattern) && Walk(r1, r2).Matched?
    ensures LiveRest(r2)
    decreases r1, r2, 0
  {
    WalkStep(r1, r2);
    if r1 != [] {
      if IsPlaceholder(r2[0].arg) {
        PlaceholderIsLive(r2[0].arg);
        WalkGoesOn(r1, r2);
      } else {
        ArgSmaller(r1[0]);
        OperandIsLive(r1[0].arg, r2[0].arg);
      }
      assert LiveOperation(r2[0]) && HoleIsLast(r2);
      WalkIsLive(r1[Taken(r1, r2)..], r2[1..]);
    }
  }

  /** After a run nothing tighter comes, and the operators are the same. */
  lemma WalkGoesOn(r1: seq<Operation>, r2: seq<Operation>)
    requires RestFits(r1, Subject) && RestFits(r2, Pattern) && Walk(r1, r2).Matched?
    requires r1 != [] && r2 != [] && IsPlaceholder(r2[0].arg)
    ensures HoleIsLast(r2)
  {
    var tail := r1[Taken(r1, r2)..];
    WalkStep(r1, r2);
    if |r2| > 1 {
      WalkStep(tail, r2[1..]);
      assert tail[0] == r1[1..][Taken(r1, r2) - 1];
    }
  }

  // ---------------------------------------------------------------------
  // Instances

  /** A substitution of placeholders by pieces of a subject.  Nil may stand for a
      placeholder only where it is a whole expression, so it is left out. */
  ghost predicate Filling(s: Sigma) {
    Grounded(s) && forall n | n in s.exprs :: s.exprs[n] != OfPrimary(NilPrimary)
  }

  /** The vocabulary in which every placeholder is bound by `s`. */
  function Filled(s: Sigma): Role {
    Template(s.exprs.Keys, s.funs.Keys)
  }

  lemma FilledCarries(s: Sigma)
    requires Grounded(s)
    ensures Carries(s, Filled(s), Subject)
  {}

  /** Substituting goes through redundant parentheses. */
  lemma {:induction false} SubstExtract(p: Expr, s: Sigma)
    requires Filling(s) && Fits(p, Pattern) && !ExprIsPlaceholder(p)
    ensures Extract(Subst(p, s)) == Subst(Extract(p), s)
    ensures Extract(Subst(p, s)).first == SubstOperand(Extract(p).first, s)
    ensures Extract(Subst(p, s)).rest == SubstRest(Extract(p).rest, s)
    decreases p
  {
    if ExprIsIdentifier(p) { NamedIsNotBound(p, s); }
    if p.rest == [] && p.first.Prim? && p.first.p.Paren? {
      SubstExtract(p.first.p.e, s);
    }
  }

  lemma NamedIsNotBound(p: Expr, s: Sigma)
    requires Filling(s) && ExprIsIdentifier(p) && !ExprIsPlaceholder(p)
    ensures ExprName(p) !in s.exprs
  {}

  /** Main result: every instance of a live pattern matches it, and loses nothing. */
  lemma {:induction false} InstanceMatches(p: Expr, s: Sigma)
    requires Filling(s) && Fits(p, Pattern) && Fits(p, Filled(s)) && Live(p)
    ensures Kept(MatchExpr(Subst(p, s), p))
    decreases p, 1
  {
    FilledCarries(s);
    SubstFits(p, s, Filled(s), Subject);
    SubjectHasNone(Subst(p, s).first);
    if !ExprIsPlaceholder(p) {
      var e := Extract(p);
      SubstExtract(p, s);
      ExtractFits(p, Pattern);
      ExtractFits(p, Filled(s));
      LiveExtract(p);
      OperandInstance(e.first, s);
      if e.rest != [] { WalkInstance(e.rest, s); }
    }
  }

  /** A match that loses nothing. */
  ghost predicate Kept(o: Outcome) { o.Matched? && o.lost == [] }

  lemma {:induction false} OperandInstance(o: Operand, s: Sigma)
    requires Filling(s) && OperandFits(o, Pattern) && OperandFits(o, Filled(s))
    requires LiveOperand(o)
    ensures Kept(MatchOperand(SubstOperand(o, s), o))
    decreases o, 1
  {
    match o
    case Un(u) => OperandInstance(u.arg, s);
    case Prim(Id(n)) =>
    case Prim(Paren(e)) => InstanceMatches(e, s);
    case Prim(Apply(c)) => ArgsInstance(c.args, s);
    case Prim(List(es)) => ListsInstance(es, s);
  }

  lemma {:induction false} ArgsInstance(es: seq<Expr>, s: Sigma)
    requires Filling(s) && AllFit(es, Pattern) && AllFit(es, Filled(s)) && AllLive(es)
    ensures Kept(MatchArgs(SubstArgs(es, s), es))
    decreases es, 0
  {
    if es != [] {
      FilledCarries(s);
      SubstFits(es[0], s, Filled(s), Subject);
      SubjectHasNone(Subst(es[0], s).first);
      PatternHasNoEllipsis(es[0].first);
      InstanceMatches(es[0], s);
      ArgsInstance(es[1..], s);
      assert SubstArgs(es, s)[1..] == SubstArgs(es[1..], s);
    }
  }

  lemma {:induction false} ListsInstance(es: seq<Expr>, s: Sigma)
    requires Filling(s) && AllFit(es, Pattern) && AllFit(es, Filled(s)) && AllLive(es)
    ensures Kept(MatchLists(SubstArgs(es, s), es))
    decreases es, 0
  {
    if es != [] {
      InstanceMatches(es[0], s);
      ListsInstance(es[1..], s);
      assert SubstArgs(es, s)[1..] == SubstArgs(es[1..], s);
    }
  }

  lemma {:induction false} WalkInstance(ops: seq<Operation>, s: Sigma)
    requires Filling(s) && RestFits(ops, Pattern) && RestFits(ops, Filled(s))
    requires LiveRest(ops)
    ensures Kept(Walk(SubstRest(ops, s), ops))
    decreases ops, 0
  {
    if ops != [] {
      assert OperationFits(ops[0], Pattern) && OperationFits(ops[0], Filled(s));
      ArgIsPlain(ops[0].arg, s);
      WalkInstance(ops[1..], s);
      assert SubstRest(ops, s)[1..] == SubstRest(ops[1..], s);
      if IsPlaceholder(ops[0].arg) {
        RunIsOne(ops, s);
      } else {
        ArgSmaller(ops[0]);
        OperandInstance(ops[0].arg, s);
      }
    }
  }

  lemma ArgIsPlain(o: Operand, s: Sigma)
    requires Filling(s) && OperandFits(o, Pattern) && OperandFits(o, Filled(s))
    ensures !IsPlaceholder(SubstOperand(o, s)) && !IsEllipsis(o)
  {
    FilledCarries(s);
    SubstOperandFits(o, s, Filled(s), Subject);
    SubjectHasNone(SubstOperand(o, s));
    PatternHasNoEllipsis(o);
  }

  lemma RunIsOne(ops: seq<Operation>, s: Sigma)
    requires ops != [] && IsPlaceholder(ops[0].arg) && HoleIsLast(ops)
    ensures var run := RunAt(SubstRest(ops, s), Precedence(ops[0].op)); run.len == 1 && run.lost == []
  {
    var r := SubstRest(ops, s);
    assert |ops| > 1 ==> r[1..][0] == r[1];
    assert RunLength(r[1..], Precedence(ops[0].op)) == 0;
  }

  // ---------------------------------------------------------------------
  // Exactly the live patterns match something

  ghost predicate SlotsWithin(slots: seq<Slot>, ids: set<string>, funs: set<string>) {
    forall k | 0 <= k < |slots| :: slots[k].name in if slots[k].fun then funs else ids
  }

  lemma {:induction false} SlotsFit(e: Expr, ids: set<string>, funs: set<string>)
    requires Fits(e, Template(ids, funs))
    ensures SlotsWithin(SlotsExpr(e), ids, funs)
    decreases e, 1
  {
    OperandSlotsFit(e.first, ids, funs);
    RestSlotsFit(e.rest, ids, funs);
  }

  lemma {:induction false} OperandSlotsFit(o: Operand, ids: set<string>, funs: set<string>)
    requires OperandFits(o, Template(ids, funs))
    ensures SlotsWithin(SlotsOperand(o), ids, funs)
    decreases o, 1
  {
    match o
    case Un(u) => OperandSlotsFit(u.arg, ids, funs);
    case Prim(Paren(e)) => SlotsFit(e, ids, funs);
    case Prim(Apply(c)) => ArgsSlotsFit(c.args, ids, funs);
    case Prim(List(es)) => ArgsSlotsFit(es, ids, funs);
    case _ =>
  }

  lemma {:induction false} RestSlotsFit(ops: seq<Operation>, ids: set<string>, funs: set<string>)
    requires RestFits(ops, Template(ids, funs))
    ensures SlotsWithin(SlotsRest(ops), ids, funs)
    decreases ops, 0
  {
    if ops != [] {
      ArgSmaller(ops[0]);
      OperandSlotsFit(ops[0].arg, ids, funs);
      RestSlotsFit(ops[1..], ids, funs);
    }
  }

  lemma {:induction false} ArgsSlotsFit(es: seq<Expr>, ids: set<string>, funs: set<string>)
    requires AllFit(es, Template(ids, funs))
    ensures SlotsWithin(SlotsArgs(es), ids, funs)
    decreases es, 0
  {
    if es != [] {
      SlotsFit(es[0], ids, funs);
      ArgsSlotsFit(es[1..], ids, funs);
    }
  }

  /** A live pattern has no other placeholders than its slots. */
  lemma {:induction false} SlotsFill(e: Expr, ids: set<string>, funs: set<string>)
    requires Fits(e, Pattern) && Live(e) && SlotsWithin(SlotsExpr(e), ids, funs)
    ensures Fits(e, Template(ids, funs))
    decreases e, 1
  {
    SlotsSplit(SlotsOperand(e.first), SlotsRest(e.rest), ids, funs);
    OperandSlotsFill(e.first, ids, funs);
    RestSlotsFill(e.rest, ids, funs);
  }

  lemma SlotsSplit(a: seq<Slot>, b: seq<Slot>, ids: set<string>, funs: set<string>)
    requires SlotsWithin(a + b, ids, funs)
    ensures SlotsWithin(a, ids, funs) && SlotsWithin(b, ids, funs)
  {
    forall k | 0 <= k < |a| ensures a[k].name in if a[k].fun then funs else ids { assert (a + b)[k] == a[k]; }
    forall k | 0 <= k < |b| ensures b[k].name in if b[k].fun then funs else ids { assert (a + b)[|a| + k] == b[k]; }
  }

  lemma {:induction false} OperandSlotsFill(o: Operand, ids: set<string>, funs: set<string>)
    requires OperandFits(o, Pattern) && LiveOperand(o) && SlotsWithin(SlotsOperand(o), ids, funs)
    ensures OperandFits(o, Template(ids, funs))
    decreases o, 1
  {
    match o
    case Un(u) => OperandSlotsFill(u.arg, ids, funs);
    case Prim(Id(n)) => IdSlotFills(n, false, ids, funs);
    case Prim(Paren(e)) => SlotsFill(e, ids, funs);
    case Prim(Apply(c)) =>
      SlotsSplit(SlotsId(c.name, true), SlotsArgs(c.args), ids, funs);
      IdSlotFills(c.name, true, ids, funs);
      ArgsSlotsFill(c.args, ids, funs);
    case Prim(List(es)) => ArgsSlotsFill(es, ids, funs);
  }

  lemma IdSlotFills(n: string, fun: bool, ids: set<string>, funs: set<string>)
    requires SlotsWithin(SlotsId(n, fun), ids, funs)
    ensures IsPlaceholderName(n) ==> n in if fun then funs else ids
  {
    if IsPlaceholderName(n) { assert SlotsId(n, fun)[0] == Slot(n, fun); }
  }

  lemma {:induction false} RestSlotsFill(ops: seq<Operation>, ids: set<string>, funs: set<string>)
    requires RestFits(ops, Pattern) && LiveRest(ops) && SlotsWithin(SlotsRest(ops), ids, funs)
    ensures RestFits(ops, Template(ids, funs))
    decreases ops, 0
  {
    if ops != [] {
      SlotsSplit(SlotsOperation(ops[0]), SlotsRest(ops[1..]), ids, funs);
      assert OperationFits(ops[0], Pattern) && LiveOperation(ops[0]);
      ArgSmaller(ops[0]);
      OperandSlotsFill(ops[0].arg, ids, funs);
      RestSlotsFill(ops[1..], ids, funs);
    }
  }

  lemma {:induction false} ArgsSlotsFill(es: seq<Expr>, ids: set<string>, funs: set<string>)
    requires AllFit(es, Pattern) && AllLive(es) && SlotsWithin(SlotsArgs(es), ids, funs)
    ensures AllFit(es, Template(ids, funs))
    decreases es, 0
  {
    if es != [] {
      SlotsSplit(SlotsExpr(es[0]), SlotsArgs(es[1..]), ids, funs);
      SlotsFill(es[0], ids, funs);
      ArgsSlotsFill(es[1..], ids, funs);
    }
  }

  /** The instance in which every placeholder stands for `A`. */
  function AllA(p: Expr): Sigma {
    var names := set k | 0 <= k < |SlotsExpr(p)| && IsPlaceholderName(SlotsExpr(p)[k].name) :: SlotsExpr(p)[k].name;
    Sigma(map n | n in names :: OfId("A"), map n | n in names :: "A")
  }

  lemma {:induction false} SlotsAreNames(e: Expr)
    ensures forall k | 0 <= k < |SlotsExpr(e)| :: IsPlaceholderName(SlotsExpr(e)[k].name)
    decreases e, 1
  {
    OperandSlotsAreNames(e.first);
    RestSlotsAreNames(e.rest);
  }

  lemma {:induction false} OperandSlotsAreNames(o: Operand)
    ensures forall k | 0 <= k < |SlotsOperand(o)| :: IsPlaceholderName(SlotsOperand(o)[k].name)
    decreases o, 1
  {
    match o
    case Un(u) => OperandSlotsAreNames(u.arg);
    case Prim(Paren(e)) => SlotsAreNames(e);
    case Prim(Apply(c)) => ArgsSlotsAreNames(c.args);
    case Prim(List(es)) => ArgsSlotsAreNames(es);
    case _ =>
  }

  lemma {:induction false} RestSlotsAreNames(ops: seq<Operation>)
    ensures forall k | 0 <= k < |SlotsRest(ops)| :: IsPlaceholderName(SlotsRest(ops)[k].name)
    decreases ops, 0
  {
    if ops != [] {
      ArgSmaller(ops[0]);
      OperandSlotsAreNames(ops[0].arg);
      RestSlotsAreNames(ops[1..]);
      assert SlotsRest(ops) == SlotsOperand(ops[0].arg) + SlotsRest(ops[1..]);
    }
  }

  lemma {:induction false} ArgsSlotsAreNames(es: seq<Expr>)
    ensures forall k | 0 <= k < |SlotsArgs(es)| :: IsPlaceholderName(SlotsArgs(es)[k].name)
    decreases es, 0
  {
    if es != [] {
      SlotsAreNames(es[0]);
      ArgsSlotsAreNames(es[1..]);
    }
  }

  /** Main result: a pattern matches some subject if and only if it is live. */
  lemma LiveMatchesSomething(p: Expr)
    requires Fits(p, Pattern)
    ensures (exists e :: Fits(e, Subject) && MatchExpr(e, p).Matched?) <==> Live(p)
  {
    if Live(p) {
      var s := AllA(p);
      SlotsAreNames(p);
      FillingWithA(p);
      SlotsFill(p, s.exprs.Keys, s.funs.Keys);
      InstanceMatches(p, s);
      FilledCarries(s);
      SubstFits(p, s, Filled(s), Subject);
    }
    if exists e :: Fits(e, Subject) && MatchExpr(e, p).Matched? {
      var e :| Fits(e, Subject) && MatchExpr(e, p).Matched?;
      MatchedIsLive(e, p);
    }
  }

  lemma FillingWithA(p: Expr)
    ensures Filling(AllA(p))
  {
    assert !IsPlaceholderName("A");
    assert OperandFits(OfId("A").first, Subject) && RestFits([], Subject);
    assert Fits(OfId("A"), Subject);
  }
}
