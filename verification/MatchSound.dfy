/** A successful match means something: where the placeholders of the pattern
    have the values of what they face, and in an injective model only there,
    the pattern has the value of the subject. */
module MatchSound {
  import opened Ast
  import opened Grouping
  import opened Semantics
  import opened Match
  import opened MatchShape

  /** The placeholder has the value, or in function position the name, of what
      it faces. */
  predicate Agrees<V(==)>(m: Model<V>, b: Bind<V>, f: Faced) {
    if f.slot.fun then FunName(b, f.slot.name) == ExprName(f.value)
    else IdValue(m, b, f.slot.name) == EvalExpr(m, NoBind(), f.value)
  }

  predicate AllAgree<V(==)>(m: Model<V>, b: Bind<V>, fs: seq<Faced>) {
    forall k | 0 <= k < |fs| :: Agrees(m, b, fs[k])
  }

  lemma AgreeBoth<V>(m: Model<V>, b: Bind<V>, x: seq<Faced>, y: seq<Faced>)
    ensures AllAgree(m, b, x + y) <==> AllAgree(m, b, x) && AllAgree(m, b, y)
  {
    if AllAgree(m, b, x + y) {
      forall k | 0 <= k < |x| ensures Agrees(m, b, x[k]) { assert (x + y)[k] == x[k]; }
      forall k | 0 <= k < |y| ensures Agrees(m, b, y[k]) { assert (x + y)[|x| + k] == y[k]; }
    }
  }

  lemma AgreeOne<V>(m: Model<V>, b: Bind<V>, f: Faced)
    ensures AllAgree(m, b, [f]) <==> Agrees(m, b, f)
  {
    assert AllAgree(m, b, [f]) ==> Agrees(m, b, [f][0]);
  }

  /** Different parts make different values. */
  ghost predicate Injective<V(!new)>(m: Model<V>) {
    && (forall op, x, y :: m.unary(op, x) == m.unary(op, y) ==> x == y)
    && (forall op, x, y, x', y' :: m.binary(op, x, y) == m.binary(op, x', y') ==> x == x' && y == y')
    && (forall f, g, xs, ys :: m.call(f, "", xs) == m.call(g, "", ys) ==> f == g && xs == ys)
    && (forall xs, ys :: m.list(xs) == m.list(ys) ==> xs == ys)
  }

  /** In an injective model a flat list can be read off its value. */
  lemma {:induction false} GroupInjective<V(!new)>(m: Model<V>, x: V, a: seq<Item<V>>, y: V, b: seq<Item<V>>)
    requires Injective(m) && |a| == |b| && forall k | 0 <= k < |a| :: a[k].op == b[k].op
    requires Group(m.binary, x, a) == Group(m.binary, y, b)
    ensures x == y && a == b
    decreases |a|
  {
    if a != [] {
      var k := Lowest(a);
      SameOpsLowest(a, b);
      GroupInjective(m, x, a[..k], y, b[..k]);
      GroupInjective(m, a[k].val, a[k + 1..], b[k].val, b[k + 1..]);
      SameParts(a, b, k);
    }
  }

  lemma SameParts<T>(a: seq<T>, b: seq<T>, k: nat)
    requires k < |a| && |a| == |b| && a[..k] == b[..k] && a[k] == b[k] && a[k + 1..] == b[k + 1..]
    ensures a == b
  {
    assert a == a[..k] + [a[k]] + a[k + 1..] && b == b[..k] + [b[k]] + b[k + 1..];
  }

  /** `agree` is enough for `equal`, and in an injective model nothing less is. */
  ghost predicate Exact<V(!new)>(m: Model<V>, agree: bool, equal: bool) {
    (agree ==> equal) && (Injective(m) && equal ==> agree)
  }

  lemma GroupExact<V(!new)>(m: Model<V>, x: V, a: seq<Item<V>>, y: V, b: seq<Item<V>>, first: bool, rest: bool)
    requires |a| == |b| && forall k | 0 <= k < |a| :: a[k].op == b[k].op
    requires Exact(m, first, x == y) && Exact(m, rest, a == b)
    ensures Exact(m, first && rest, Group(m.binary, x, a) == Group(m.binary, y, b))
  {
    if Injective(m) && Group(m.binary, x, a) == Group(m.binary, y, b) { GroupInjective(m, x, a, y, b); }
  }

  // ---------------------------------------------------------------------
  // Runs

  /** The subject's operations, with what each placeholder of the pattern faces
      in parentheses. */
  function Regrouped(r1: seq<Operation>, r2: seq<Operation>): seq<Operation>
    decreases |r2|
  {
    if r1 == [] || r2 == [] then []
    else [RegroupedHead(r1, r2)] + Regrouped(r1[Taken(r1, r2)..], r2[1..])
  }

  function RegroupedHead(r1: seq<Operation>, r2: seq<Operation>): Operation
    requires r1 != [] && r2 != []
  {
    if IsPlaceholder(r2[0].arg) then Operation(r1[0].op, Prim(Paren(Expr(r1[0].arg, r1[1..Taken(r1, r2)]))))
    else r1[0]
  }

  /** Grouping the run first, as the placeholder does, changes nothing. */
  lemma CollapseRun<V>(m: Model<V>, x: V, pre: seq<Item<V>>, r1: seq<Operation>)
    requires r1 != []
    ensures var n := RunAt(r1, Precedence(r1[0].op)).len;
      Group(m.binary, x, pre + EvalRest(m, NoBind(), r1))
        == Group(m.binary, x, pre + [Item(r1[0].op, EvalExpr(m, NoBind(), Expr(r1[0].arg, r1[1..n])))]
                                  + EvalRest(m, NoBind(), r1[n..]))
  {
    var p := Precedence(r1[0].op);
    var n := RunAt(r1, p).len;
    assert n == 1 + RunLength(r1[1..], p);
    var items := EvalRest(m, NoBind(), r1);
    assert items[1..n] == EvalRest(m, NoBind(), r1[1..n]);
    assert items[n..] == EvalRest(m, NoBind(), r1[n..]);
    forall k | 0 <= k < n - 1 ensures Precedence(items[1..n][k].op) > p {
      assert items[1..n][k].op == r1[1..][k].op;
    }
    if n < |r1| { assert r1[n] == r1[1..][n - 1]; }
    CollapseFront(m.binary, x, pre, items, n);
  }

  /** What a successful walk leaves to do after its first step. */
  lemma WalkStep(r1: seq<Operation>, r2: seq<Operation>)
    requires RestFits(r1, Subject) && RestFits(r2, Pattern) && Walk(r1, r2).Matched?
    ensures r1 == [] <==> r2 == []
    ensures r1 != [] ==>
      && OperationFits(r1[0], Subject) && OperationFits(r2[0], Pattern) && r1[0].op == r2[0].op
      && (!IsPlaceholder(r2[0].arg) ==> MatchOperand(r1[0].arg, r2[0].arg).Matched?)
      && RestFits(r1[Taken(r1, r2)..], Subject) && Walk(r1[Taken(r1, r2)..], r2[1..]).Matched?
  {
    if r1 != [] {
      assert OperationFits(r1[0], Subject);
      SubjectHasNone(r1[0].arg);
    }
    if r2 != [] {
      assert OperationFits(r2[0], Pattern);
      PatternHasNoEllipsis(r2[0].arg);
    }
  }

  lemma RunHeadValue<V>(m: Model<V>, b: Bind<V>, op: Op, e: Expr)
    ensures EvalOperation(m, b, Operation(op, Prim(Paren(e)))) == Item(op, EvalExpr(m, b, e))
  {}

  /** One operation for each of the pattern's, under the same operator. */
  lemma {:induction false} RegroupedOps(r1: seq<Operation>, r2: seq<Operation>)
    requires RestFits(r1, Subject) && RestFits(r2, Pattern) && Walk(r1, r2).Matched?
    ensures |Regrouped(r1, r2)| == |r2| && forall k | 0 <= k < |r2| :: Regrouped(r1, r2)[k].op == r2[k].op
    decreases |r2|
  {
    WalkStep(r1, r2);
    if r2 != [] {
      RegroupedOps(r1[Taken(r1, r2)..], r2[1..]);
    }
  }

  /** Regrouping along a match keeps the value of the subject. */
  lemma {:induction false} RegroupedKeeps<V>(
      m: Model<V>, x: V, pre: seq<Item<V>>, r1: seq<Operation>, r2: seq<Operation>)
    requires RestFits(r1, Subject) && RestFits(r2, Pattern) && Walk(r1, r2).Matched?
    ensures Group(m.binary, x, pre + EvalRest(m, NoBind(), r1))
         == Group(m.binary, x, pre + EvalRest(m, NoBind(), Regrouped(r1, r2)))
    decreases |r2|
  {
    WalkStep(r1, r2);
    if r2 != [] {
      var head, tail := EvalOperation(m, NoBind(), RegroupedHead(r1, r2)), r1[Taken(r1, r2)..];
      RegroupedStep(m, x, pre, r1, r2);
      RegroupedKeeps(m, x, pre + [head], tail, r2[1..]);
      RegroupedEval(m, r1, r2);
      PushFront(pre, head, EvalRest(m, NoBind(), Regrouped(tail, r2[1..])));
    } else {
      assert Regrouped(r1, r2) == r1;
    }
  }

  lemma RegroupedStep<V>(m: Model<V>, x: V, pre: seq<Item<V>>, r1: seq<Operation>, r2: seq<Operation>)
    requires r1 != [] && r2 != []
    ensures Group(m.binary, x, pre + EvalRest(m, NoBind(), r1))
         == Group(m.binary, x, pre + [EvalOperation(m, NoBind(), RegroupedHead(r1, r2))]
                                   + EvalRest(m, NoBind(), r1[Taken(r1, r2)..]))
  {
    if IsPlaceholder(r2[0].arg) {
      CollapseRun(m, x, pre, r1);
      RunHeadValue(m, NoBind(), r1[0].op, Expr(r1[0].arg, r1[1..Taken(r1, r2)]));
    } else {
      FrontValue(m, r1);
      PushFront(pre, EvalOperation(m, NoBind(), r1[0]), EvalRest(m, NoBind(), r1[1..]));
    }
  }

  lemma FrontValue<V>(m: Model<V>, r: seq<Operation>)
    requires r != []
    ensures EvalRest(m, NoBind(), r) == [EvalOperation(m, NoBind(), r[0])] + EvalRest(m, NoBind(), r[1..])
  {}

  lemma RegroupedEval<V>(m: Model<V>, r1: seq<Operation>, r2: seq<Operation>)
    requires r1 != [] && r2 != []
    ensures EvalRest(m, NoBind(), Regrouped(r1, r2))
         == [EvalOperation(m, NoBind(), RegroupedHead(r1, r2))]
            + EvalRest(m, NoBind(), Regrouped(r1[Taken(r1, r2)..], r2[1..]))
  {
    FrontValue(m, Regrouped(r1, r2));
    assert Regrouped(r1, r2)[1..] == Regrouped(r1[Taken(r1, r2)..], r2[1..]);
  }

  /** The value of a matched subject, regrouped. */
  lemma SubjectRegrouped<V>(m: Model<V>, s1: Expr, s2: Expr)
    requires Fits(s1, Subject) && Fits(s2, Pattern) && Walk(s1.rest, s2.rest).Matched?
    ensures var g := Regrouped(s1.rest, s2.rest);
      EvalExpr(m, NoBind(), s1) == Group(m.binary, EvalOperand(m, NoBind(), s1.first), EvalRest(m, NoBind(), g))
  {
    RegroupedKeeps(m, EvalOperand(m, NoBind(), s1.first), [], s1.rest, s2.rest);
    NoFront(EvalRest(m, NoBind(), s1.rest));
    NoFront(EvalRest(m, NoBind(), Regrouped(s1.rest, s2.rest)));
  }

  // ---------------------------------------------------------------------
  // Exactness

  lemma PlaceholderExact<V(!new)>(m: Model<V>, b: Bind<V>, o: Operand, v: Expr, run: bool)
    requires OperandFits(o, Pattern) && IsPlaceholder(o) && Fits(v, Subject)
    ensures AllAgree(m, b, [Faced(Slot(PlaceholderId(o), false), v, run)])
       <==> EvalOperand(m, b, o) == EvalExpr(m, NoBind(), v)
  {
    PlaceholderBinds(o, v);
    AgreeOne(m, b, Faced(Slot(PlaceholderId(o), false), v, run));
    EvalCore(m, b, o);
  }

  lemma IdExact<V(!new)>(m: Model<V>, b: Bind<V>, n1: string, n2: string, fun: bool)
    requires BindsPlaceholders(b) && MatchId(n1, n2).Matched? && !IsPlaceholderName(n1) && (fun ==> n1 != "")
    ensures AllAgree(m, b, FacedId(n1, n2, fun))
       <==> if fun then FunName(b, n2) == n1 else IdValue(m, b, n2) == m.ident(n1)
  {
    if IsPlaceholderName(n2) { AgreeOne(m, b, Faced(Slot(n2, fun), OfId(n1), false)); }
    assert EvalExpr(m, NoBind(), OfId(n1)) == m.ident(n1);
  }

  /** Main result: a matched pattern has the value of the subject wherever its
      placeholders have the values of what they face, lost operators included;
      in an injective model, only there. */
  lemma {:induction false} ExprExact<V(!new)>(m: Model<V>, b: Bind<V>, e1: Expr, e2: Expr)
    requires BindsPlaceholders(b) && Fits(e1, Subject) && Fits(e2, Pattern) && MatchExpr(e1, e2).Matched?
    ensures Exact(m, AllAgree(m, b, FacedExpr(e1, e2)), EvalExpr(m, b, e2) == EvalExpr(m, NoBind(), e1))
    decreases e1, e2, 1
  {
    SubjectHasNone(e1.first);
    EvalExtract(m, NoBind<V>(), e1);
    EvalExtract(m, b, e2);
    ExtractFits(e1, Subject);
    ExtractFits(e2, Pattern);
    if ExprIsPlaceholder(e2) {
      PlaceholderExact(m, b, e2.first, Extract(e1), false);
    } else {
      PeeledExact(m, b, Extract(e1), Extract(e2));
    }
  }

  lemma {:induction false} PeeledExact<V(!new)>(m: Model<V>, b: Bind<V>, s1: Expr, s2: Expr)
    requires BindsPlaceholders(b) && Fits(s1, Subject) && Fits(s2, Pattern)
    requires MatchOperand(s1.first, s2.first).Matched? && Walk(s1.rest, s2.rest).Matched?
    ensures Exact(m, AllAgree(m, b, FacedOperand(s1.first, s2.first) + FacedRest(s1.rest, s2.rest)),
                  EvalExpr(m, b, s2) == EvalExpr(m, NoBind(), s1))
    decreases s1, s2, 0
  {
    PartsExact(m, b, s1, s2);
    AgreeBoth(m, b, FacedOperand(s1.first, s2.first), FacedRest(s1.rest, s2.rest));
    SubjectRegrouped(m, s1, s2);
  }

  lemma {:induction false} PartsExact<V(!new)>(m: Model<V>, b: Bind<V>, s1: Expr, s2: Expr)
    requires BindsPlaceholders(b) && Fits(s1, Subject) && Fits(s2, Pattern)
    requires MatchOperand(s1.first, s2.first).Matched? && Walk(s1.rest, s2.rest).Matched?
    ensures Exact(m, AllAgree(m, b, FacedOperand(s1.first, s2.first)) && AllAgree(m, b, FacedRest(s1.rest, s2.rest)),
      Group(m.binary, EvalOperand(m, b, s2.first), EvalRest(m, b, s2.rest))
        == Group(m.binary, EvalOperand(m, NoBind(), s1.first), EvalRest(m, NoBind(), Regrouped(s1.rest, s2.rest))))
    decreases s1, s2, -1
  {
    OperandExact(m, b, s1.first, s2.first);
    WalkExact(m, b, s1.rest, s2.rest);
    RegroupedOps(s1.rest, s2.rest);
    GroupExact(m, EvalOperand(m, b, s2.first), EvalRest(m, b, s2.rest),
      EvalOperand(m, NoBind(), s1.first), EvalRest(m, NoBind(), Regrouped(s1.rest, s2.rest)),
      AllAgree(m, b, FacedOperand(s1.first, s2.first)), AllAgree(m, b, FacedRest(s1.rest, s2.rest)));
  }

  lemma {:induction false} OperandExact<V(!new)>(m: Model<V>, b: Bind<V>, o1: Operand, o2: Operand)
    requires BindsPlaceholders(b) && OperandFits(o1, Subject) && OperandFits(o2, Pattern)
    requires MatchOperand(o1, o2).Matched?
    ensures Exact(m, AllAgree(m, b, FacedOperand(o1, o2)), EvalOperand(m, b, o2) == EvalOperand(m, NoBind(), o1))
    decreases o1, o2, 2
  {
    match (o1, o2)
    case (Prim(p1), Prim(p2)) => PrimaryExact(m, b, p1, p2);
    case (Un(u1), Un(u2)) => OperandExact(m, b, u1.arg, u2.arg);
    case (Un(u1), Prim(p2)) => PlaceholderExact(m, b, o2, OfOperand(o1), false);
    case _ => assert false;
  }

  lemma {:induction false} PrimaryExact<V(!new)>(m: Model<V>, b: Bind<V>, p1: Primary, p2: Primary)
    requires BindsPlaceholders(b) && OperandFits(Prim(p1), Subject) && OperandFits(Prim(p2), Pattern)
    requires MatchPrimary(p1, p2).Matched?
    ensures Exact(m, AllAgree(m, b, FacedPrimary(p1, p2)),
                  EvalOperand(m, b, Prim(p2)) == EvalOperand(m, NoBind(), Prim(p1)))
    decreases p1, p2, 1
  {
    match (p1, p2)
    case (NilPrimary, _) => assert false;
    case (Id(n1), Id(n2)) => IdExact(m, b, n1, n2, false);
    case (_, Id(n)) => PlaceholderExact(m, b, Prim(p2), Unwrapped(p1), false);
    case (Paren(e1), Paren(e2)) => ExprExact(m, b, e1, e2);
    case (Apply(c1), Apply(c2)) => CallExact(m, b, c1, c2);
    case (List(l1), List(l2)) => ArgsExact(m, b, l1, l2);
    case _ => assert false;
  }

  lemma {:induction false} CallExact<V(!new)>(m: Model<V>, b: Bind<V>, c1: Call, c2: Call)
    requires BindsPlaceholders(b) && OperandFits(Prim(Apply(c1)), Subject) && OperandFits(Prim(Apply(c2)), Pattern)
    requires MatchId(c1.name, c2.name).Matched? && MatchArgs(c1.args, c2.args).Matched?
    ensures Exact(m, AllAgree(m, b, FacedId(c1.name, c2.name, true) + FacedArgs(c1.args, c2.args)),
                  EvalOperand(m, b, Prim(Apply(c2))) == EvalOperand(m, NoBind(), Prim(Apply(c1))))
    decreases c1, c2, 1
  {
    IdExact(m, b, c1.name, c2.name, true);
    ArgsMatched(c1.args, c2.args);
    ArgsExact(m, b, c1.args, c2.args);
    AgreeBoth(m, b, FacedId(c1.name, c2.name, true), FacedArgs(c1.args, c2.args));
  }

  /** Without ellipses, argument lists match one for one, as lists do. */
  lemma {:induction false} ArgsMatched(a1: seq<Expr>, a2: seq<Expr>)
    requires AllFit(a1, Subject) && AllFit(a2, Pattern) && MatchArgs(a1, a2).Matched?
    ensures |a1| == |a2| && MatchLists(a1, a2).Matched?
    decreases |a1|
  {
    if a1 != [] { SubjectHasNone(a1[0].first); }
    if a2 != [] { PatternHasNoEllipsis(a2[0].first); }
    if a1 != [] && a2 != [] { ArgsMatched(a1[1..], a2[1..]); }
  }

  lemma {:induction false} ArgsExact<V(!new)>(m: Model<V>, b: Bind<V>, l1: seq<Expr>, l2: seq<Expr>)
    requires BindsPlaceholders(b) && AllFit(l1, Subject) && AllFit(l2, Pattern)
    requires |l1| == |l2| && MatchLists(l1, l2).Matched?
    ensures Exact(m, AllAgree(m, b, FacedArgs(l1, l2)), EvalArgs(m, b, l2) == EvalArgs(m, NoBind(), l1))
    decreases l1, l2, 0
  {
    if l1 != [] {
      ExprExact(m, b, l1[0], l2[0]);
      ArgsExact(m, b, l1[1..], l2[1..]);
      AgreeBoth(m, b, FacedExpr(l1[0], l2[0]), FacedArgs(l1[1..], l2[1..]));
      assert EvalArgs(m, b, l2)[1..] == EvalArgs(m, b, l2[1..]);
      assert EvalArgs(m, NoBind(), l1)[1..] == EvalArgs(m, NoBind(), l1[1..]);
    }
  }

  /** The walk pairs every pattern operation with a regrouped one of the subject. */
  lemma {:induction false} WalkExact<V(!new)>(m: Model<V>, b: Bind<V>, r1: seq<Operation>, r2: seq<Operation>)
    requires BindsPlaceholders(b) && RestFits(r1, Subject) && RestFits(r2, Pattern) && Walk(r1, r2).Matched?
    ensures Exact(m, AllAgree(m, b, FacedRest(r1, r2)),
                  EvalRest(m, b, r2) == EvalRest(m, NoBind(), Regrouped(r1, r2)))
    decreases r1, r2, 0
  {
    WalkStep(r1, r2);
    if r2 != [] {
      var tail := r1[Taken(r1, r2)..];
      HeadExact(m, b, r1, r2);
      WalkExact(m, b, tail, r2[1..]);
      AgreeBoth(m, b, FacedHead(r1, r2), FacedRest(tail, r2[1..]));
      RegroupedEval(m, r1, r2);
      ConsExact(EvalOperation(m, b, r2[0]), EvalRest(m, b, r2[1..]),
        EvalOperation(m, NoBind(), RegroupedHead(r1, r2)), EvalRest(m, NoBind(), Regrouped(tail, r2[1..])));
    }
  }

  lemma ConsExact<T>(x: T, a: seq<T>, y: T, b: seq<T>)
    ensures [x] + a == [y] + b <==> x == y && a == b
  {
    if [x] + a == [y] + b {
      assert ([x] + a)[0] == ([y] + b)[0] && ([x] + a)[1..] == ([y] + b)[1..];
    }
  }

  lemma {:induction false} HeadExact<V(!new)>(m: Model<V>, b: Bind<V>, r1: seq<Operation>, r2: seq<Operation>)
    requires BindsPlaceholders(b) && RestFits(r1, Subject) && RestFits(r2, Pattern) && Walk(r1, r2).Matched? && r2 != []
    requires r1 != []
    ensures Exact(m, AllAgree(m, b, FacedHead(r1, r2)),
                  EvalOperation(m, b, r2[0]) == EvalOperation(m, NoBind(), RegroupedHead(r1, r2)))
    decreases r1, r2, -1
  {
    WalkStep(r1, r2);
    if IsPlaceholder(r2[0].arg) {
      RunHeadExact(m, b, r1, r2[0]);
    } else {
      ArgSmaller(r1[0]);
      OperandExact(m, b, r1[0].arg, r2[0].arg);
      assert FacedHead(r1, r2) == FacedOperand(r1[0].arg, r2[0].arg);
      assert EvalOperation(m, b, r2[0]) == Item(r2[0].op, EvalOperand(m, b, r2[0].arg));
    }
  }

  lemma RunHeadExact<V(!new)>(m: Model<V>, b: Bind<V>, r1: seq<Operation>, p: Operation)
    requires r1 != [] && RestFits(r1, Subject) && OperationFits(p, Pattern) && IsPlaceholder(p.arg) && p.op == r1[0].op
    ensures var e := Expr(r1[0].arg, r1[1..RunAt(r1, Precedence(r1[0].op)).len]);
      AllAgree(m, b, [Faced(Slot(PlaceholderId(p.arg), false), e, true)])
      <==> EvalOperation(m, b, p) == EvalOperation(m, NoBind(), Operation(r1[0].op, Prim(Paren(e))))
  {
    var e := Expr(r1[0].arg, r1[1..RunAt(r1, Precedence(r1[0].op)).len]);
    RunFits(r1, Precedence(r1[0].op));
    PlaceholderExact(m, b, p.arg, e, true);
    RunHeadValue(m, NoBind(), r1[0].op, e);
  }

}
