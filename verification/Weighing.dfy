/** Weighing an expression, whatever its operators, calls and leaves weigh, is
    evaluating it in a model; grouping does not matter to it.  It shows how much
    a match loses. */
module Weighing {
  import opened Ast
  import opened Grouping
  import opened Semantics
  import opened Match
  import opened MatchShape
  import opened MatchSound
  import opened MatchExact
  import opened Basics

  /** A binary operator weighs one more than is given here, so it weighs something. */
  datatype Weights = Weights(
    nil: nat, lit: Literal -> nat, text: string -> nat, name: string -> nat,
    unary: Op -> nat, binary: Op -> nat, call: string -> nat, list: nat)

  function Sum(xs: seq<int>): int { if xs == [] then 0 else xs[0] + Sum(xs[1..]) }

  function Weighed(w: Weights): Model<int> {
    Model(w.nil, v => w.lit(v), s => w.text(s), n => w.name(n),
      (op, x) => w.unary(op) + x, (op, x, y) => x + y + 1 + w.binary(op),
      (f, a, xs) => w.call(f) + Sum(xs), xs => w.list + Sum(xs))
  }

  function Weight(w: Weights, items: seq<Item<int>>): int {
    if items == [] then 0 else 1 + w.binary(items[0].op) + items[0].val + Weight(w, items[1..])
  }

  /** The weight of operations and of everything in their operands. */
  function RestWeight(w: Weights, ops: seq<Operation>): int {
    Weight(w, EvalRest(Weighed(w), NoBind(), ops))
  }

  lemma {:induction false} WeightAppend(w: Weights, a: seq<Item<int>>, b: seq<Item<int>>)
    ensures Weight(w, a + b) == Weight(w, a) + Weight(w, b)
    decreases |a|
  {
    if a == [] {
      assert a + b == b;
    } else {
      assert (a + b)[1..] == a[1..] + b;
      WeightAppend(w, a[1..], b);
    }
  }

  lemma RestWeightAppend(w: Weights, a: seq<Operation>, b: seq<Operation>)
    ensures RestWeight(w, a + b) == RestWeight(w, a) + RestWeight(w, b)
  {
    EvalRestAppend(Weighed(w), NoBind(), a, b);
    WeightAppend(w, EvalRest(Weighed(w), NoBind(), a), EvalRest(Weighed(w), NoBind(), b));
  }

  /** However a list groups, everything is weighed once. */
  lemma {:induction false} GroupWeighs(w: Weights, x: int, items: seq<Item<int>>)
    ensures Group(Weighed(w).binary, x, items) == x + Weight(w, items)
    decreases |items|
  {
    if items != [] {
      var k := Lowest(items);
      GroupWeighs(w, x, items[..k]);
      GroupWeighs(w, items[k].val, items[k + 1..]);
      WeightAt(w, items, k);
    }
  }

  lemma WeightAt(w: Weights, items: seq<Item<int>>, k: nat)
    requires k < |items|
    ensures Weight(w, items)
         == Weight(w, items[..k]) + 1 + w.binary(items[k].op) + items[k].val + Weight(w, items[k + 1..])
  {
    assert items == items[..k] + items[k..];
    WeightAppend(w, items[..k], items[k..]);
    assert items[k..][1..] == items[k + 1..];
  }

  lemma ExprWeighs(w: Weights, b: Bind<int>, e: Expr)
    ensures EvalExpr(Weighed(w), b, e)
         == EvalOperand(Weighed(w), b, e.first) + Weight(w, EvalRest(Weighed(w), b, e.rest))
  {
    GroupWeighs(w, EvalOperand(Weighed(w), b, e.first), EvalRest(Weighed(w), b, e.rest));
  }

  // ---------------------------------------------------------------------
  // No weight is negative

  lemma {:induction false} ExprIsHeavy(w: Weights, e: Expr)
    ensures EvalExpr(Weighed(w), NoBind(), e) >= 0
    decreases e, 1
  {
    OperandIsHeavy(w, e.first);
    RestIsHeavy(w, e.rest);
    ExprWeighs(w, NoBind(), e);
  }

  lemma {:induction false} OperandIsHeavy(w: Weights, o: Operand)
    ensures EvalOperand(Weighed(w), NoBind(), o) >= 0
    decreases o, 1
  {
    match o
    case Un(u) => OperandIsHeavy(w, u.arg);
    case Prim(Paren(e)) => ExprIsHeavy(w, e);
    case Prim(Apply(c)) => ArgsAreHeavy(w, c.args);
    case Prim(List(es)) => ArgsAreHeavy(w, es);
    case _ =>
  }

  lemma {:induction false} RestIsHeavy(w: Weights, ops: seq<Operation>)
    ensures RestWeight(w, ops) >= |ops|
    decreases ops, 0
  {
    if ops != [] {
      ArgSmaller(ops[0]);
      OperandIsHeavy(w, ops[0].arg);
      RestIsHeavy(w, ops[1..]);
    }
  }

  lemma {:induction false} ArgsAreHeavy(w: Weights, es: seq<Expr>)
    ensures Sum(EvalArgs(Weighed(w), NoBind(), es)) >= 0
    decreases es, 0
  {
    if es != [] {
      ExprIsHeavy(w, es[0]);
      ArgsAreHeavy(w, es[1..]);
    }
  }

  // ---------------------------------------------------------------------
  // What a match loses

  /** By how much what a placeholder faces outweighs what it stands for. */
  function FaceExcess(w: Weights, b: Bind<int>, f: Faced): int {
    if f.slot.fun then w.call(ExprName(f.value)) - w.call(FunName(b, f.slot.name))
    else EvalExpr(Weighed(w), NoBind(), f.value) - IdValue(Weighed(w), b, f.slot.name)
  }

  function Excess(w: Weights, b: Bind<int>, fs: seq<Faced>): int {
    if fs == [] then 0 else FaceExcess(w, b, fs[0]) + Excess(w, b, fs[1..])
  }

  lemma {:induction false} ExcessAppend(w: Weights, b: Bind<int>, x: seq<Faced>, y: seq<Faced>)
    ensures Excess(w, b, x + y) == Excess(w, b, x) + Excess(w, b, y)
    decreases |x|
  {
    if x == [] {
      assert x + y == y;
    } else {
      assert (x + y)[1..] == x[1..] + y;
      ExcessAppend(w, b, x[1..], y);
    }
  }

  lemma ExcessOne(w: Weights, b: Bind<int>, f: Faced)
    ensures Excess(w, b, [f]) == FaceExcess(w, b, f)
  {
    assert [f][1..] == [];
  }

  lemma PlaceholderExcess(w: Weights, b: Bind<int>, o: Operand, v: Expr, run: bool)
    requires OperandFits(o, Pattern) && IsPlaceholder(o) && Fits(v, Subject)
    ensures EvalOperand(Weighed(w), b, o) + Excess(w, b, [Faced(Slot(PlaceholderId(o), false), v, run)])
         == EvalExpr(Weighed(w), NoBind(), v)
  {
    PlaceholderBinds(o, v);
    ExcessOne(w, b, Faced(Slot(PlaceholderId(o), false), v, run));
    EvalCore(Weighed(w), b, o);
  }

  lemma IdExcess(w: Weights, b: Bind<int>, n1: string, n2: string, fun: bool)
    requires BindsPlaceholders(b) && MatchId(n1, n2).Matched? && !IsPlaceholderName(n1)
    ensures if fun then w.call(FunName(b, n2)) + Excess(w, b, FacedId(n1, n2, fun)) == w.call(n1)
            else IdValue(Weighed(w), b, n2) + Excess(w, b, FacedId(n1, n2, fun)) == w.name(n1)
  {
    if IsPlaceholderName(n2) { ExcessOne(w, b, Faced(Slot(n2, fun), OfId(n1), false)); }
    assert EvalExpr(Weighed(w), NoBind(), OfId(n1)) == w.name(n1);
  }

  /** Main result: the subject outweighs the matched pattern by what its
      placeholders face in excess of what they stand for. */
  lemma {:induction false} ExprExcess(w: Weights, b: Bind<int>, e1: Expr, e2: Expr)
    requires BindsPlaceholders(b) && Fits(e1, Subject) && Fits(e2, Pattern) && MatchExpr(e1, e2).Matched?
    ensures EvalExpr(Weighed(w), b, e2) + Excess(w, b, FacedExpr(e1, e2)) == EvalExpr(Weighed(w), NoBind(), e1)
    decreases e1, e2, 1
  {
    SubjectHasNone(e1.first);
    EvalExtract(Weighed(w), NoBind(), e1);
    EvalExtract(Weighed(w), b, e2);
    ExtractFits(e1, Subject);
    ExtractFits(e2, Pattern);
    var s1, s2 := Extract(e1), Extract(e2);
    if ExprIsPlaceholder(e2) {
      PlaceholderExcess(w, b, e2.first, s1, false);
    } else {
      OperandExcess(w, b, s1.first, s2.first);
      WalkExcess(w, b, s1.rest, s2.rest);
      RegroupedWeight(w, s1.rest, s2.rest);
      ExcessAppend(w, b, FacedOperand(s1.first, s2.first), FacedRest(s1.rest, s2.rest));
      ExprWeighs(w, NoBind(), s1);
      ExprWeighs(w, b, s2);
    }
  }

  lemma {:induction false} OperandExcess(w: Weights, b: Bind<int>, o1: Operand, o2: Operand)
    requires BindsPlaceholders(b) && OperandFits(o1, Subject) && OperandFits(o2, Pattern)
    requires MatchOperand(o1, o2).Matched?
    ensures EvalOperand(Weighed(w), b, o2) + Excess(w, b, FacedOperand(o1, o2))
         == EvalOperand(Weighed(w), NoBind(), o1)
    decreases o1, o2, 2
  {
    match (o1, o2)
    case (Prim(p1), Prim(p2)) => PrimaryExcess(w, b, p1, p2);
    case (Un(u1), Un(u2)) => OperandExcess(w, b, u1.arg, u2.arg);
    case (Un(u1), Prim(p2)) => PlaceholderExcess(w, b, o2, OfOperand(o1), false);
    case _ => assert false;
  }

  lemma {:induction false} PrimaryExcess(w: Weights, b: Bind<int>, p1: Primary, p2: Primary)
    requires BindsPlaceholders(b) && OperandFits(Prim(p1), Subject) && OperandFits(Prim(p2), Pattern)
    requires MatchPrimary(p1, p2).Matched?
    ensures EvalOperand(Weighed(w), b, Prim(p2)) + Excess(w, b, FacedPrimary(p1, p2))
         == EvalOperand(Weighed(w), NoBind(), Prim(p1))
    decreases p1, p2, 1
  {
    match (p1, p2)
    case (NilPrimary, _) => assert false;
    case (Id(n1), Id(n2)) => IdExcess(w, b, n1, n2, false);
    case (_, Id(n)) => PlaceholderExcess(w, b, Prim(p2), Unwrapped(p1), false);
    case (Paren(e1), Paren(e2)) => ExprExcess(w, b, e1, e2);
    case (Apply(c1), Apply(c2)) =>
      IdExcess(w, b, c1.name, c2.name, true);
      ArgsMatched(c1.args, c2.args);
      ArgsExcess(w, b, c1.args, c2.args);
      ExcessAppend(w, b, FacedId(c1.name, c2.name, true), FacedArgs(c1.args, c2.args));
    case (List(l1), List(l2)) => ArgsExcess(w, b, l1, l2);
    case _ => assert false;
  }

  lemma {:induction false} ArgsExcess(w: Weights, b: Bind<int>, l1: seq<Expr>, l2: seq<Expr>)
    requires BindsPlaceholders(b) && AllFit(l1, Subject) && AllFit(l2, Pattern)
    requires |l1| == |l2| && MatchLists(l1, l2).Matched?
    ensures Sum(EvalArgs(Weighed(w), b, l2)) + Excess(w, b, FacedArgs(l1, l2))
         == Sum(EvalArgs(Weighed(w), NoBind(), l1))
    decreases l1, l2, 0
  {
    if l1 != [] {
      ExprExcess(w, b, l1[0], l2[0]);
      ArgsExcess(w, b, l1[1..], l2[1..]);
      ExcessAppend(w, b, FacedExpr(l1[0], l2[0]), FacedArgs(l1[1..], l2[1..]));
    }
  }

  lemma RegroupedWeight(w: Weights, r1: seq<Operation>, r2: seq<Operation>)
    requires RestFits(r1, Subject) && RestFits(r2, Pattern) && Walk(r1, r2).Matched?
    ensures RestWeight(w, Regrouped(r1, r2)) == RestWeight(w, r1)
  {
    var items, again := EvalRest(Weighed(w), NoBind(), r1), EvalRest(Weighed(w), NoBind(), Regrouped(r1, r2));
    RegroupedKeeps(Weighed(w), 0, [], r1, r2);
    NoFront(items);
    NoFront(again);
    GroupWeighs(w, 0, items);
    GroupWeighs(w, 0, again);
  }

  lemma {:induction false} WalkExcess(w: Weights, b: Bind<int>, r1: seq<Operation>, r2: seq<Operation>)
    requires BindsPlaceholders(b) && RestFits(r1, Subject) && RestFits(r2, Pattern) && Walk(r1, r2).Matched?
    ensures Weight(w, EvalRest(Weighed(w), b, r2)) + Excess(w, b, FacedRest(r1, r2)) == RestWeight(w, Regrouped(r1, r2))
    decreases r1, r2, 0
  {
    WalkStep(r1, r2);
    if r2 != [] {
      var tail := r1[Taken(r1, r2)..];
      HeadExcess(w, b, r1, r2);
      WalkExcess(w, b, tail, r2[1..]);
      ExcessAppend(w, b, FacedHead(r1, r2), FacedRest(tail, r2[1..]));
      RegroupedEval(Weighed(w), r1, r2);
      WeightCons(w, EvalOperation(Weighed(w), NoBind(), RegroupedHead(r1, r2)),
        EvalRest(Weighed(w), NoBind(), Regrouped(tail, r2[1..])));
      WeightCons(w, EvalOperation(Weighed(w), b, r2[0]), EvalRest(Weighed(w), b, r2[1..]));
    }
  }

  lemma WeightCons(w: Weights, x: Item<int>, items: seq<Item<int>>)
    ensures Weight(w, [x] + items) == 1 + w.binary(x.op) + x.val + Weight(w, items)
  {
    assert ([x] + items)[1..] == items;
  }

  lemma HoleExcess(w: Weights, b: Bind<int>, r1: seq<Operation>, r2: seq<Operation>)
    requires r1 != [] && r2 != [] && RestFits(r1, Subject)
    requires OperationFits(r2[0], Pattern) && IsPlaceholder(r2[0].arg)
    ensures EvalOperand(Weighed(w), b, r2[0].arg) + Excess(w, b, FacedHead(r1, r2))
         == EvalOperand(Weighed(w), NoBind(), RegroupedHead(r1, r2).arg)
  {
    var x := Expr(r1[0].arg, r1[1..Taken(r1, r2)]);
    RunFits(r1, Precedence(r1[0].op));
    assert OperationFits(r1[0], Subject);
    PlaceholderExcess(w, b, r2[0].arg, x, true);
  }

  lemma {:induction false} HeadExcess(w: Weights, b: Bind<int>, r1: seq<Operation>, r2: seq<Operation>)
    requires BindsPlaceholders(b) && RestFits(r1, Subject) && RestFits(r2, Pattern) && Walk(r1, r2).Matched?
    requires r1 != [] && r2 != []
    ensures EvalOperand(Weighed(w), b, r2[0].arg) + Excess(w, b, FacedHead(r1, r2))
         == EvalOperand(Weighed(w), NoBind(), RegroupedHead(r1, r2).arg)
    decreases r1, r2, -1
  {
    WalkStep(r1, r2);
    if IsPlaceholder(r2[0].arg) {
      HoleExcess(w, b, r1, r2);
    } else {
      ArgSmaller(r1[0]);
      OperandExcess(w, b, r1[0].arg, r2[0].arg);
    }
  }

  // ---------------------------------------------------------------------
  // Consistent bindings

  /** What a placeholder keeps and what it drops are together what it faces. */
  lemma KeptWeight(w: Weights, f: Faced)
    ensures EvalExpr(Weighed(w), NoBind(), f.value)
         == EvalExpr(Weighed(w), NoBind(), f.Kept()) + RestWeight(w, if f.Drops() then f.value.rest else [])
  {
    if f.run && IsCompound(f.value.first) {
      EvalCore(Weighed(w), NoBind(), f.value.first);
      ExprWeighs(w, NoBind(), f.value);
    }
  }

  lemma {:induction false} LostExcess(w: Weights, b: Bind<int>, fs: seq<Faced>)
    requires forall k | 0 <= k < |fs| :: KeptAgrees(w, b, fs[k])
    ensures Excess(w, b, fs) == RestWeight(w, LostIn(fs))
    decreases |fs|
  {
    if fs != [] {
      KeptWeight(w, fs[0]);
      assert KeptAgrees(w, b, fs[0]);
      LostExcess(w, b, fs[1..]);
      RestWeightAppend(w, if fs[0].Drops() then fs[0].value.rest else [], LostIn(fs[1..]));
    }
  }

  /** The placeholder stands for what it was bound to. */
  ghost predicate KeptAgrees(w: Weights, b: Bind<int>, f: Faced) {
    if f.slot.fun then !f.Drops() && FunName(b, f.slot.name) == ExprName(f.value)
    else IdValue(Weighed(w), b, f.slot.name) == EvalExpr(Weighed(w), NoBind(), f.Kept())
  }

  /** Main result: with consistent bindings, what a match loses is exactly what
      the pattern lacks. */
  lemma MatchLoses(w: Weights, e1: Expr, e2: Expr)
    requires Fits(e1, Subject) && Fits(e2, Pattern)
    requires MatchExpr(e1, e2).Matched? && Consistent(MatchExpr(e1, e2).binds)
    ensures EvalExpr(Weighed(w), BindOf(Weighed(w), First(MatchExpr(e1, e2).binds)), e2)
              + RestWeight(w, MatchExpr(e1, e2).lost)
         == EvalExpr(Weighed(w), NoBind(), e1)
  {
    var b, fs := BindOf(Weighed(w), First(MatchExpr(e1, e2).binds)), FacedExpr(e1, e2);
    ExprShape(e1, e2, None);
    MatchBinds(Weighed(w), e1, e2);
    ExprExcess(w, b, e1, e2);
    forall k | 0 <= k < |fs| ensures KeptAgrees(w, b, fs[k]) { ConsistentValue(Weighed(w), e1, e2, k); }
    LostExcess(w, b, fs);
  }
}
