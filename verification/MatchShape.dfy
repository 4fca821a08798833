/** What the placeholders of a pattern face in a subject.  This is read off the
    two alone; what a match binds and what it loses then follows. */
module MatchShape {
  import opened Ast
  import opened Semantics
  import opened Match
  import opened Basics

  /** A place of a pattern that takes a binding; `fun` in function position. */
  datatype Slot = Slot(name: string, fun: bool)

  function SlotsExpr(e: Expr): seq<Slot>
    decreases e, 1
  {
    SlotsOperand(e.first) + SlotsRest(e.rest)
  }

  function SlotsOperand(o: Operand): seq<Slot>
    decreases o, 1
  {
    match o
    case Un(u) => SlotsOperand(u.arg)
    case Prim(Id(n)) => SlotsId(n, false)
    case Prim(Paren(e)) => SlotsExpr(e)
    case Prim(Apply(c)) => SlotsId(c.name, true) + SlotsArgs(c.args)
    case Prim(List(es)) => SlotsArgs(es)
    case _ => []
  }

  function SlotsId(n: string, fun: bool): seq<Slot> {
    if IsPlaceholderName(n) then [Slot(n, fun)] else []
  }

  function SlotsOperation(op: Operation): seq<Slot>
    decreases op, 2
  {
    SlotsOperand(op.arg)
  }

  function SlotsRest(ops: seq<Operation>): seq<Slot>
    decreases ops, 0
  {
    if ops == [] then [] else SlotsOperation(ops[0]) + SlotsRest(ops[1..])
  }

  function SlotsArgs(es: seq<Expr>): seq<Slot>
    decreases es, 0
  {
    if es == [] then [] else SlotsExpr(es[0]) + SlotsArgs(es[1..])
  }

  lemma {:induction false} SlotsCore(o: Operand)
    ensures SlotsOperand(Core(o)) == SlotsOperand(o)
    decreases o
  {
    if o.Prim? && o.p.Paren? && o.p.e.rest == [] {
      SlotsCore(o.p.e.first);
      assert SlotsExpr(o.p.e) == SlotsOperand(o.p.e.first);
    }
  }

  lemma {:induction false} SlotsExtract(e: Expr)
    ensures SlotsExpr(Extract(e)) == SlotsExpr(e)
    decreases e
  {
    if e.rest == [] && e.first.Prim? && e.first.p.Paren? { SlotsExtract(e.first.p.e); }
  }

  /** No placeholder occurs twice. */
  ghost predicate Linear(e: Expr) {
    forall i, j | 0 <= i < j < |SlotsExpr(e)| :: SlotsExpr(e)[i].name != SlotsExpr(e)[j].name
  }

  // ---------------------------------------------------------------------
  // Subjects with nothing tighter after a parenthesised operand

  /** What must not stand before a tighter operator: a parenthesised list of two
      or more operands; anything in parentheses; or, in the right side of a rule,
      a placeholder as well. */
  datatype Care = Compounds | Parentheses | Holes

  predicate Risky(o: Operand, c: Care) {
    match c
    case Compounds => IsCompound(o)
    case Parentheses => o.Prim? && o.p.Paren?
    case Holes => o.Prim? && (o.p.Paren? || (o.p.Id? && IsPlaceholderName(o.p.name)))
  }

  lemma CompoundIsRisky(o: Operand, c: Care)
    requires IsCompound(o)
    ensures Risky(o, c)
  {}

  predicate TightFree(e: Expr, c: Care)
    decreases e, 1
  {
    RestTightFree(e.rest, c) && OperandTightFree(e.first, c)
  }

  predicate OperandTightFree(o: Operand, c: Care)
    decreases o, 1
  {
    match o
    case Un(u) => OperandTightFree(u.arg, c)
    case Prim(Paren(e)) => TightFree(e, c)
    case Prim(Apply(f)) => AllTightFree(f.args, c)
    case Prim(List(es)) => AllTightFree(es, c)
    case _ => true
  }

  predicate OperationTightFree(op: Operation, c: Care)
    decreases op, 2
  {
    OperandTightFree(op.arg, c)
  }

  predicate NoDrop(ops: seq<Operation>, c: Care) {
    forall k | 0 <= k < |ops| - 1 ::
      Risky(ops[k].arg, c) ==> Precedence(ops[k + 1].op) <= Precedence(ops[k].op)
  }

  predicate RestTightFree(ops: seq<Operation>, c: Care)
    decreases ops, 0
  {
    NoDrop(ops, c) && forall k | 0 <= k < |ops| :: OperationTightFree(ops[k], c)
  }

  predicate AllTightFree(es: seq<Expr>, c: Care)
    decreases es, 0
  {
    forall k | 0 <= k < |es| :: TightFree(es[k], c)
  }

  lemma {:induction false} ExtractTightFree(e: Expr, c: Care)
    requires TightFree(e, c)
    ensures TightFree(Extract(e), c)
    decreases e
  {
    if e.rest == [] && e.first.Prim? && e.first.p.Paren? { ExtractTightFree(e.first.p.e, c); }
  }

  lemma {:induction false} CoreTightFree(o: Operand, c: Care)
    requires OperandTightFree(o, c)
    ensures OperandTightFree(Core(o), c)
    decreases o
  {
    if o.Prim? && o.p.Paren? && o.p.e.rest == [] { CoreTightFree(o.p.e.first, c); }
  }

  lemma SliceTightFree(ops: seq<Operation>, i: nat, j: nat, c: Care)
    requires i <= j <= |ops| && RestTightFree(ops, c)
    ensures RestTightFree(ops[i..j], c)
  {
    var s := ops[i..j];
    forall k | 0 <= k < |s| ensures OperationTightFree(s[k], c) { assert s[k] == ops[i + k]; }
    forall k | 0 <= k < |s| - 1
      ensures Risky(s[k].arg, c) ==> Precedence(s[k + 1].op) <= Precedence(s[k].op)
    {
      assert s[k] == ops[i + k] && s[k + 1] == ops[i + k + 1];
    }
  }

  /** A tight-free list loses nothing when a run is taken from it, and what it
      falls into is tight-free again. */
  lemma RunKeepsAll(r1: seq<Operation>, c: Care)
    requires r1 != [] && RestTightFree(r1, c)
    ensures var run := RunAt(r1, Precedence(r1[0].op));
      run.lost == [] && TightFree(Expr(r1[0].arg, r1[1..run.len]), c) && RestTightFree(r1[run.len..], c)
  {
    var n := RunAt(r1, Precedence(r1[0].op)).len;
    CompoundEndsRun(r1, c);
    SliceTightFree(r1, 1, n, c);
    SliceTightFree(r1, n, |r1|, c);
    assert r1[n..|r1|] == r1[n..];
  }

  lemma CompoundEndsRun(r1: seq<Operation>, c: Care)
    requires r1 != [] && RestTightFree(r1, c)
    ensures RunAt(r1, Precedence(r1[0].op)).lost == [] && OperandTightFree(r1[0].arg, c)
  {
    assert OperationTightFree(r1[0], c);
    if IsCompound(r1[0].arg) {
      CompoundIsRisky(r1[0].arg, c);
      assert |r1| > 1 ==> r1[1..][0] == r1[1];
      assert RunLength(r1[1..], Precedence(r1[0].op)) == 0;
    }
  }

  // ---------------------------------------------------------------------
  // What the placeholders of a pattern face

  /** A placeholder and what it faces: a `run` is an operand with all the tighter
      operations after it. */
  datatype Faced = Faced(slot: Slot, value: Expr, run: bool) {
    /** The run starts with a parenthesised list and goes on after it. */
    predicate Drops() { run && IsCompound(value.first) && value.rest != [] }

    /** What the placeholder gets. */
    function Kept(): Expr {
      if run && IsCompound(value.first) then Core(value.first).p.e else value
    }
  }

  function FacedExpr(e1: Expr, e2: Expr): seq<Faced>
    decreases e1, e2, 1
  {
    if ExprIsPlaceholder(e2) then [Faced(Slot(ExprPlaceholderId(e2), false), Extract(e1), false)]
    else
      var s1, s2 := Extract(e1), Extract(e2);
      FacedOperand(s1.first, s2.first) + FacedRest(s1.rest, s2.rest)
  }

  function FacedOperand(o1: Operand, o2: Operand): seq<Faced>
    decreases o1, o2, 2
  {
    match (o1, o2)
    case (Prim(p1), Prim(p2)) => FacedPrimary(p1, p2)
    case (Un(u1), Un(u2)) => FacedOperand(u1.arg, u2.arg)
    case _ => [Faced(Slot(PlaceholderId(o2), false), OfOperand(o1), false)]
  }

  function FacedId(n1: string, n2: string, fun: bool): seq<Faced> {
    if IsPlaceholderName(n2) then [Faced(Slot(n2, fun), OfId(n1), false)] else []
  }

  function FacedPrimary(p1: Primary, p2: Primary): seq<Faced>
    decreases p1, p2, 1
  {
    match (p1, p2)
    case (Id(n1), Id(n2)) => FacedId(n1, n2, false)
    case (_, Id(n)) => [Faced(Slot(n, false), Unwrapped(p1), false)]
    case (Paren(e1), Paren(e2)) => FacedExpr(e1, e2)
    case (Apply(c1), Apply(c2)) => FacedId(c1.name, c2.name, true) + FacedArgs(c1.args, c2.args)
    case (List(l1), List(l2)) => FacedArgs(l1, l2)
    case _ => []
  }

  function FacedArgs(a1: seq<Expr>, a2: seq<Expr>): seq<Faced>
    decreases a1, a2, 0
  {
    if a1 == [] || a2 == [] then [] else FacedExpr(a1[0], a2[0]) + FacedArgs(a1[1..], a2[1..])
  }

  /** How many operations of the subject the first one of the pattern takes. */
  function Taken(r1: seq<Operation>, r2: seq<Operation>): (n: nat)
    requires r1 != [] && r2 != []
    ensures 1 <= n <= |r1|
  {
    if IsPlaceholder(r2[0].arg) then RunAt(r1, Precedence(r1[0].op)).len else 1
  }

  function FacedHead(r1: seq<Operation>, r2: seq<Operation>): seq<Faced>
    requires r1 != [] && r2 != []
    decreases r1, r2, 0
  {
    if IsPlaceholder(r2[0].arg) then
      [Faced(Slot(PlaceholderId(r2[0].arg), false), Expr(r1[0].arg, r1[1..Taken(r1, r2)]), true)]
    else FacedOperation(r1[0], r2[0])
  }

  function FacedRest(r1: seq<Operation>, r2: seq<Operation>): seq<Faced>
    decreases r1, r2, 1
  {
    if r1 == [] || r2 == [] then []
    else FacedHead(r1, r2) + FacedRest(r1[Taken(r1, r2)..], r2[1..])
  }

  function FacedOperation(x1: Operation, x2: Operation): seq<Faced>
    decreases x1, x2, 3
  {
    FacedOperand(x1.arg, x2.arg)
  }

  // ---------------------------------------------------------------------
  // Every successful match has this shape

  /** `care` is what the subject is known to be free of. */
  ghost predicate GoodFace(f: Faced, care: Option<Care>) {
    && IsPlaceholderName(f.slot.name) && Fits(f.value, Subject) && Fits(f.Kept(), Subject)
    && (f.slot.fun ==> ExprIsIdentifier(f.value) && !f.run)
    && (care.Some? ==> !f.Drops() && TightFree(f.Kept(), care.value))
  }

  function SlotsIn(fs: seq<Faced>): (slots: seq<Slot>)
    ensures |slots| == |fs| && forall k | 0 <= k < |fs| :: slots[k] == fs[k].slot
  {
    seq(|fs|, k requires 0 <= k < |fs| => fs[k].slot)
  }

  function BoundIn(fs: seq<Faced>): (bs: seq<Binding>)
    ensures |bs| == |fs| && forall k | 0 <= k < |fs| :: bs[k] == Binding(fs[k].slot.name, fs[k].Kept())
  {
    seq(|fs|, k requires 0 <= k < |fs| => Binding(fs[k].slot.name, fs[k].Kept()))
  }

  predicate NoneDrops(fs: seq<Faced>) {
    forall k | 0 <= k < |fs| :: !fs[k].Drops()
  }

  /** The operations after the parenthesised lists. */
  function LostIn(fs: seq<Faced>): seq<Operation> {
    if fs == [] then [] else (if fs[0].Drops() then fs[0].value.rest else []) + LostIn(fs[1..])
  }

  lemma {:induction false} LostInAppend(a: seq<Faced>, b: seq<Faced>)
    ensures LostIn(a + b) == LostIn(a) + LostIn(b)
    decreases |a|
  {
    if a == [] {
      assert a + b == b;
    } else {
      assert (a + b)[1..] == a[1..] + b;
      LostInAppend(a[1..], b);
    }
  }

  lemma {:induction false} LostInNothing(fs: seq<Faced>)
    ensures LostIn(fs) == [] <==> NoneDrops(fs)
    decreases |fs|
  {
    if fs != [] {
      LostInNothing(fs[1..]);
      assert forall k | 1 <= k < |fs| :: fs[k] == fs[1..][k - 1];
      assert fs[0].Drops() ==> !NoneDrops(fs);
    }
  }

  /** The outcome, and the places of the pattern, are read off what is faced. */
  ghost predicate Shaped(o: Outcome, slots: seq<Slot>, fs: seq<Faced>, care: Option<Care>) {
    && o == Matched(BoundIn(fs), LostIn(fs)) && slots == SlotsIn(fs)
    && forall k | 0 <= k < |fs| :: GoodFace(fs[k], care)
  }

  lemma ShapedThen(a: Outcome, sa: seq<Slot>, fa: seq<Faced>, b: Outcome, sb: seq<Slot>, fb: seq<Faced>,
      care: Option<Care>)
    requires Shaped(a, sa, fa, care) && Shaped(b, sb, fb, care)
    ensures Shaped(a.Then(b), sa + sb, fa + fb, care)
  {
    LostInAppend(fa, fb);
    assert BoundIn(fa + fb) == BoundIn(fa) + BoundIn(fb) && SlotsIn(fa + fb) == SlotsIn(fa) + SlotsIn(fb);
  }

  lemma YesIsNeutral(o: Outcome)
    ensures YES.Then(o) == o == o.Then(YES)
  {
    if o.Matched? {
      assert [] + o.binds == o.binds == o.binds + [];
      assert [] + o.lost == o.lost == o.lost + [];
    }
  }

  lemma ShapedIf(c: bool, b: Outcome, sb: seq<Slot>, fb: seq<Faced>, care: Option<Care>)
    requires If(c).Then(b).Matched? && Shaped(b, sb, fb, care)
    ensures Shaped(If(c).Then(b), sb, fb, care) && Shaped(b.Then(If(c)), sb, fb, care)
  {
    YesIsNeutral(b);
  }

  lemma ShapedOne(b: Binding, lost: seq<Operation>, f: Faced, care: Option<Care>)
    requires b == Binding(f.slot.name, f.Kept()) && GoodFace(f, care)
    requires lost == if f.Drops() then f.value.rest else []
    ensures Shaped(Matched([b], lost), [f.slot], [f], care)
  {
    assert [f][1..] == [];
    assert LostIn([f]) == lost + LostIn([]);
    assert BoundIn([f]) == [b] && SlotsIn([f]) == [f.slot];
  }

  /** A pattern placeholder is bound to the subject facing it, under its own name. */
  lemma PlaceholderBinds(o: Operand, v: Expr)
    requires OperandFits(o, Pattern) && IsPlaceholder(o) && Fits(v, Subject)
    ensures Core(o).Prim? && Core(o).p == Id(PlaceholderId(o)) && IsPlaceholderName(PlaceholderId(o))
    ensures OnMatch(v, OfOperand(o)) == [Binding(PlaceholderId(o), v)]
    ensures OnMatch(v, OfId(PlaceholderId(o))) == [Binding(PlaceholderId(o), v)]
    ensures SlotsOperand(o) == [Slot(PlaceholderId(o), false)]
  {
    SubjectHasNone(v.first);
    PatternHasNoEllipsis(o);
    CoreFits(o, Pattern);
    SlotsCore(o);
  }

  lemma PlaceholderShape(o: Operand, v: Expr, care: Option<Care>)
    requires OperandFits(o, Pattern) && IsPlaceholder(o) && Fits(v, Subject)
    requires care.Some? ==> TightFree(v, care.value)
    ensures var fs := [Faced(Slot(PlaceholderId(o), false), v, false)];
      && Shaped(Matched(OnMatch(v, OfOperand(o)), []), SlotsOperand(o), fs, care)
      && Shaped(Matched(OnMatch(v, OfId(PlaceholderId(o))), []), SlotsOperand(o), fs, care)
  {
    PlaceholderBinds(o, v);
    ShapedOne(Binding(PlaceholderId(o), v), [], Faced(Slot(PlaceholderId(o), false), v, false), care);
  }

  lemma IdShape(n1: string, n2: string, fun: bool, care: Option<Care>)
    requires MatchId(n1, n2).Matched?
    requires !IsPlaceholderName(n1) && !IsEllipsisName(n2) && (fun ==> n1 != "")
    ensures Shaped(MatchId(n1, n2), SlotsId(n2, fun), FacedId(n1, n2, fun), care)
  {
    if IsPlaceholderName(n2) {
      assert OnMatch(OfId(n1), OfId(n2)) == [Binding(n2, OfId(n1))];
      assert OperandFits(OfId(n1).first, Subject) && Core(OfId(n1).first) == Prim(Id(n1));
      ShapedOne(Binding(n2, OfId(n1)), [], Faced(Slot(n2, fun), OfId(n1), false), care);
    }
  }

  lemma RunFits(r1: seq<Operation>, prec: nat)
    requires r1 != [] && RestFits(r1, Subject)
    ensures var run := RunAt(r1, prec);
      Fits(run.value, Subject) && Fits(Expr(r1[0].arg, r1[1..run.len]), Subject) && RestFits(r1[run.len..], Subject)
  {
    assert OperationFits(r1[0], Subject);
    CoreFits(r1[0].arg, Subject);
  }

  /** A placeholder after an operator. */
  lemma RunShape(r1: seq<Operation>, o: Operand, care: Option<Care>)
    requires r1 != [] && RestFits(r1, Subject) && OperandFits(o, Pattern) && IsPlaceholder(o)
    requires care.Some? ==> RestTightFree(r1, care.value)
    ensures var run := RunAt(r1, Precedence(r1[0].op));
      var f := Faced(Slot(PlaceholderId(o), false), Expr(r1[0].arg, r1[1..run.len]), true);
      && f.Kept() == run.value
      && Shaped(Matched(OnMatch(run.value, OfOperand(o)), run.lost), SlotsOperand(o), [f], care)
      && (care.Some? ==> RestTightFree(r1[run.len..], care.value))
  {
    var run := RunAt(r1, Precedence(r1[0].op));
    var f := Faced(Slot(PlaceholderId(o), false), Expr(r1[0].arg, r1[1..run.len]), true);
    RunFits(r1, Precedence(r1[0].op));
    PlaceholderBinds(o, run.value);
    if care.Some? {
      RunKeepsAll(r1, care.value);
      CoreTightFree(r1[0].arg, care.value);
    }
    ShapedOne(Binding(PlaceholderId(o), run.value), run.lost, f, care);
  }

  /** Main result: the bindings are the pattern's placeholders in order, each
      bound to what it faces, less what is dropped; nothing else is lost; and a
      tight-free subject loses nothing. */
  lemma {:induction false} ExprShape(e1: Expr, e2: Expr, care: Option<Care>)
    requires Fits(e1, Subject) && Fits(e2, Pattern) && (care.Some? ==> TightFree(e1, care.value))
    requires MatchExpr(e1, e2).Matched?
    ensures Shaped(MatchExpr(e1, e2), SlotsExpr(e2), FacedExpr(e1, e2), care)
    decreases e1, e2, 1
  {
    SubjectHasNone(e1.first);
    var s1, s2 := Extract(e1), Extract(e2);
    ExtractFits(e1, Subject);
    ExtractFits(e2, Pattern);
    if care.Some? { ExtractTightFree(e1, care.value); }
    SlotsExtract(e2);
    if ExprIsPlaceholder(e2) {
      PlaceholderShape(e2.first, s1, care);
      assert SlotsExpr(e2) == SlotsOperand(e2.first);
    } else {
      OperandShape(s1.first, s2.first, care);
      var a, sa, fa := MatchOperand(s1.first, s2.first), SlotsOperand(s2.first), FacedOperand(s1.first, s2.first);
      if s1.rest == [] || s2.rest == [] {
        ShapedThen(a, sa, fa, YES, [], [], care);
      } else {
        WalkShape(s1.rest, s2.rest, care);
        ShapedThen(a, sa, fa, Walk(s1.rest, s2.rest), SlotsRest(s2.rest), FacedRest(s1.rest, s2.rest), care);
      }
    }
  }

  lemma {:induction false} OperandShape(o1: Operand, o2: Operand, care: Option<Care>)
    requires OperandFits(o1, Subject) && OperandFits(o2, Pattern)
    requires care.Some? ==> OperandTightFree(o1, care.value)
    requires MatchOperand(o1, o2).Matched?
    ensures Shaped(MatchOperand(o1, o2), SlotsOperand(o2), FacedOperand(o1, o2), care)
    decreases o1, o2, 2
  {
    match (o1, o2)
    case (Prim(p1), Prim(p2)) => PrimaryShape(p1, p2, care);
    case (Un(u1), Un(u2)) =>
      OperandShape(u1.arg, u2.arg, care);
      ShapedIf(true, MatchOperand(u1.arg, u2.arg), SlotsOperand(u2.arg), FacedOperand(u1.arg, u2.arg), care);
    case (Un(_), Prim(_)) => PlaceholderShape(o2, OfOperand(o1), care);
    case _ => assert false;
  }

  lemma {:induction false} PrimaryShape(p1: Primary, p2: Primary, care: Option<Care>)
    requires OperandFits(Prim(p1), Subject) && OperandFits(Prim(p2), Pattern)
    requires care.Some? ==> OperandTightFree(Prim(p1), care.value)
    requires MatchPrimary(p1, p2).Matched?
    ensures Shaped(MatchPrimary(p1, p2), SlotsOperand(Prim(p2)), FacedPrimary(p1, p2), care)
    decreases p1, p2, 1
  {
    match (p1, p2)
    case (Id(n1), Id(n2)) => IdShape(n1, n2, false, care);
    case (_, Id(n)) => PlaceholderShape(Prim(p2), Unwrapped(p1), care);
    case (Paren(e1), Paren(e2)) => ExprShape(e1, e2, care);
    case (Apply(c1), Apply(c2)) =>
      IdShape(c1.name, c2.name, true, care);
      ArgsShape(c1.args, c2.args, care);
      ShapedThen(MatchId(c1.name, c2.name), SlotsId(c2.name, true), FacedId(c1.name, c2.name, true),
        MatchArgs(c1.args, c2.args), SlotsArgs(c2.args), FacedArgs(c1.args, c2.args), care);
    case (List(l1), List(l2)) =>
      ListsShape(l1, l2, care);
      ShapedIf(true, MatchLists(l1, l2), SlotsArgs(l2), FacedArgs(l1, l2), care);
    case _ => assert false;
  }

  lemma {:induction false} ArgsShape(a1: seq<Expr>, a2: seq<Expr>, care: Option<Care>)
    requires AllFit(a1, Subject) && AllFit(a2, Pattern) && (care.Some? ==> AllTightFree(a1, care.value))
    requires MatchArgs(a1, a2).Matched?
    ensures Shaped(MatchArgs(a1, a2), SlotsArgs(a2), FacedArgs(a1, a2), care)
    decreases a1, a2, 0
  {
    if a1 != [] { SubjectHasNone(a1[0].first); }
    if a2 != [] { PatternHasNoEllipsis(a2[0].first); }
    if a1 != [] && a2 != [] {
      ExprShape(a1[0], a2[0], care);
      ArgsShape(a1[1..], a2[1..], care);
      ShapedThen(MatchExpr(a1[0], a2[0]), SlotsExpr(a2[0]), FacedExpr(a1[0], a2[0]),
        MatchArgs(a1[1..], a2[1..]), SlotsArgs(a2[1..]), FacedArgs(a1[1..], a2[1..]), care);
    }
  }

  lemma {:induction false} ListsShape(l1: seq<Expr>, l2: seq<Expr>, care: Option<Care>)
    requires |l1| == |l2|
    requires AllFit(l1, Subject) && AllFit(l2, Pattern) && (care.Some? ==> AllTightFree(l1, care.value))
    requires MatchLists(l1, l2).Matched?
    ensures Shaped(MatchLists(l1, l2), SlotsArgs(l2), FacedArgs(l1, l2), care)
    decreases l1, l2, 0
  {
    if l1 != [] {
      ExprShape(l1[0], l2[0], care);
      ListsShape(l1[1..], l2[1..], care);
      ShapedThen(MatchExpr(l1[0], l2[0]), SlotsExpr(l2[0]), FacedExpr(l1[0], l2[0]),
        MatchLists(l1[1..], l2[1..]), SlotsArgs(l2[1..]), FacedArgs(l1[1..], l2[1..]), care);
    }
  }

  lemma {:induction false} WalkShape(r1: seq<Operation>, r2: seq<Operation>, care: Option<Care>)
    requires RestFits(r1, Subject) && RestFits(r2, Pattern) && (care.Some? ==> RestTightFree(r1, care.value))
    requires Walk(r1, r2).Matched?
    ensures Shaped(Walk(r1, r2), SlotsRest(r2), FacedRest(r1, r2), care)
    decreases r1, r2, 0
  {
    if r1 != [] {
      assert OperationFits(r1[0], Subject);
      SubjectHasNone(r1[0].arg);
    }
    if r2 != [] {
      assert OperationFits(r2[0], Pattern);
      PatternHasNoEllipsis(r2[0].arg);
    }
    if r1 != [] && r2 != [] {
      if IsPlaceholder(r2[0].arg) {
        WalkShapeRun(r1, r2, care);
      } else {
        ArgSmaller(r1[0]);
        OperandShape(r1[0].arg, r2[0].arg, care);
        ShapedIf(r1[0].op == r2[0].op, MatchOperand(r1[0].arg, r2[0].arg), SlotsOperand(r2[0].arg),
          FacedOperand(r1[0].arg, r2[0].arg), care);
        WalkShape(r1[1..], r2[1..], care);
        ShapedThen(MatchOperation(r1[0], r2[0]), SlotsOperation(r2[0]), FacedOperation(r1[0], r2[0]),
          Walk(r1[1..], r2[1..]), SlotsRest(r2[1..]), FacedRest(r1[1..], r2[1..]), care);
      }
    }
  }

  lemma {:induction false} WalkShapeRun(r1: seq<Operation>, r2: seq<Operation>, care: Option<Care>)
    requires RestFits(r1, Subject) && RestFits(r2, Pattern) && (care.Some? ==> RestTightFree(r1, care.value))
    requires r1 != [] && r2 != [] && IsPlaceholder(r2[0].arg) && !IsPlaceholder(r1[0].arg) && !IsEllipsis(r2[0].arg)
    requires Walk(r1, r2).Matched?
    ensures Shaped(Walk(r1, r2), SlotsRest(r2), FacedRest(r1, r2), care)
    decreases r1, r2, -1
  {
    var run := RunAt(r1, Precedence(r1[0].op));
    var here := Matched(OnMatch(run.value, OfOperand(r2[0].arg)), run.lost);
    var f := Faced(Slot(PlaceholderId(r2[0].arg), false), Expr(r1[0].arg, r1[1..run.len]), true);
    assert OperationFits(r2[0], Pattern);
    RunFits(r1, Precedence(r1[0].op));
    RunShape(r1, r2[0].arg, care);
    ShapedIf(r1[0].op == r2[0].op, here, SlotsOperation(r2[0]), [f], care);
    WalkShape(r1[run.len..], r2[1..], care);
    ShapedThen(here.Then(If(r1[0].op == r2[0].op)), SlotsOperation(r2[0]), [f],
      Walk(r1[run.len..], r2[1..]), SlotsRest(r2[1..]), FacedRest(r1[run.len..], r2[1..]), care);
  }

  /** A match loses operations exactly when some placeholder of the pattern faces
      a parenthesised list that is followed by a tighter operator. */
  lemma LosesNothing(e1: Expr, e2: Expr)
    requires Fits(e1, Subject) && Fits(e2, Pattern) && MatchExpr(e1, e2).Matched?
    ensures MatchExpr(e1, e2).lost == [] <==> NoneDrops(FacedExpr(e1, e2))
  {
    ExprShape(e1, e2, None);
    LostInNothing(FacedExpr(e1, e2));
  }
}
