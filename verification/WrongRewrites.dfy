/** The two ways in which rewriting can change a value.  Under `_1 + _2 : _2 + _1`,
    a rule of ordinary arithmetic, `A + (B * C) * D` becomes `(B * C) + A`; and
    `_1 + _1` matches `A + B`. */
module WrongRewrites {
  import opened Ast
  import opened Grouping
  import opened Semantics
  import opened Match
  import opened MatchShape
  import opened MatchExact
  import opened Rewrite
  import opened RewriteSound
  import opened TransformSound
  import opened TransformExact
  import opened MatchSound
  import opened FreeModel
  import opened Weighing

  function Arithmetic(): Model<int> {
    Model(0, v => 0, t => 0,
      n => if n == "" then 0 else 1 + n[0] as int - 'A' as int,
      (op, x) => -x,
      (op: Op, x, y) => if op == Plus then x + y else if op == Times then x * y else 0,
      (f, a, xs) => 0, xs => 0)
  }

  function Binary(x: Operand, op: Op, y: Operand): Expr {
    Expr(x, [Operation(op, y)])
  }

  function Name(n: string): Operand { Prim(Id(n)) }

  const PRODUCT := Binary(Name("B"), Times, Name("C"))
  const SUM := Operation(Plus, Prim(Paren(PRODUCT)))
  const TAIL := Operation(Times, Name("D"))
  const SUBJECT := Expr(Name("A"), [SUM, TAIL])
  const SWAP := Rule(Binary(Name("_1"), Plus, Name("_2")), Binary(Name("_2"), Plus, Name("_1")))

  const BINDS := [Binding("_1", OfId("A"))] + [Binding("_2", PRODUCT)]

  lemma BinaryValue<V>(m: Model<V>, b: Bind<V>, x: Operand, op: Op, y: Operand)
    ensures EvalExpr(m, b, Binary(x, op, y)) == m.binary(op, EvalOperand(m, b, x), EvalOperand(m, b, y))
  {
    var vx, it := EvalOperand(m, b, x), EvalOperation(m, b, Operation(op, y));
    var rest := Binary(x, op, y).rest;
    assert rest[1..] == [];
    assert EvalRest(m, b, rest) == [it] + [];
    GroupHead(m.binary, vx, it, []);
  }

  lemma BinaryFits(x: Operand, op: Op, y: Operand, r: Role)
    requires OperandFits(x, r) && OperandFits(y, r)
    ensures Fits(Binary(x, op, y), r)
  {
    assert OperationFits(Operation(op, y), r);
  }

  lemma SwapIsClosed()
    ensures Closed(SWAP)
  {
    var slots := SlotsExpr(SWAP.lhs);
    assert SWAP.lhs.rest[1..] == [];
    assert slots == [Slot("_1", false), Slot("_2", false)];
    var t := TemplateOf(SWAP.lhs);
    assert slots[0].name in t.ids && slots[1].name in t.ids;
    BinaryFits(Name("_1"), Plus, Name("_2"), Pattern);
    BinaryFits(Name("_2"), Plus, Name("_1"), Plain);
    BinaryFits(Name("_2"), Plus, Name("_1"), t);
  }

  lemma Commutes(m: Model<int>, x: int, y: int)
    requires m == Arithmetic()
    ensures m.binary(Plus, x, y) == m.binary(Plus, y, x)
  {}

  lemma SwapIsValid(m: Model<int>)
    requires m == Arithmetic()
    ensures Valid(m, SWAP)
  {
    forall b: Bind<int> | BindsPlaceholders(b) ensures EvalExpr(m, b, SWAP.lhs) == EvalExpr(m, b, SWAP.rhs) {
      var x, y := Name("_1"), Name("_2");
      BinaryValue(m, b, x, Plus, y);
      BinaryValue(m, b, y, Plus, x);
      Commutes(m, EvalOperand(m, b, x), EvalOperand(m, b, y));
    }
  }

  /** Swapping keeps every weight. */
  lemma SwapIsNeutral(w: Weights)
    ensures Neutral(w, SWAP)
  {
    SwapIsClosed();
    LeftIsLinear();
    var m := Weighed(w);
    forall b: Bind<int> | BindsPlaceholders(b) ensures EvalExpr(m, b, SWAP.lhs) == EvalExpr(m, b, SWAP.rhs) {
      BinaryValue(m, b, Name("_1"), Plus, Name("_2"));
      BinaryValue(m, b, Name("_2"), Plus, Name("_1"));
    }
  }

  lemma LeftIsLinear()
    ensures Linear(SWAP.lhs)
  {
    assert SWAP.lhs.rest[1..] == [];
    assert SlotsExpr(SWAP.lhs) == [Slot("_1", false), Slot("_2", false)];
  }

  /** An operator turned into a call: `_1 + _2 : add(_1, _2)`. */
  const ADD := Rule(SWAP.lhs, OfPrimary(Apply(Call("add", "", [OfId("_1")] + [OfId("_2")]))))

  lemma CallValue(w: Weights, b: Bind<int>, f: string, x: Expr, y: Expr)
    requires f !in b.funs
    ensures EvalExpr(Weighed(w), b, OfPrimary(Apply(Call(f, "", [x] + [y]))))
         == w.call(f) + EvalExpr(Weighed(w), b, x) + EvalExpr(Weighed(w), b, y)
  {
    ArgsValue(Weighed(w), b, x, y);
    SumTwo(EvalExpr(Weighed(w), b, x), EvalExpr(Weighed(w), b, y));
  }

  lemma ArgsValue<V>(m: Model<V>, b: Bind<V>, x: Expr, y: Expr)
    ensures EvalArgs(m, b, [x] + [y]) == [EvalExpr(m, b, x)] + [EvalExpr(m, b, y)]
  {
    var args := [x] + [y];
    assert args[1..] == [y] && [y][1..] == [];
    assert EvalArgs(m, b, [y]) == [EvalExpr(m, b, y)];
  }

  lemma SumTwo(x: int, y: int)
    ensures Sum([x] + [y]) == x + y
  {
    var both, last: seq<int> := [x] + [y], [y];
    assert both[1..] == last && last[1..] == [] && Sum([]) == 0;
    assert Sum(last) == y;
  }

  lemma AddFits()
    ensures RuleFits(ADD)
  {
    SwapIsClosed();
    var args := [OfId("_1")] + [OfId("_2")];
    assert Fits(OfId("_1"), Plain) && Fits(OfId("_2"), Plain);
    assert AllFit(args, Plain);
    assert OperandFits(ADD.rhs.first, Plain) && RestFits(ADD.rhs.rest, Plain);
  }

  /** A call may weigh what the operator weighs. */
  lemma AddIsNeutral(w: Weights)
    requires w.call("add") == 1 + w.binary(Plus)
    ensures Neutral(w, ADD)
  {
    AddFits();
    LeftIsLinear();
    forall b: Bind<int> | BindsPlaceholders(b)
      ensures EvalExpr(Weighed(w), b, ADD.lhs) == EvalExpr(Weighed(w), b, ADD.rhs)
    {
      BinaryValue(Weighed(w), b, Name("_1"), Plus, Name("_2"));
      assert !IsPlaceholderName("add");
      CallValue(w, b, "add", OfId("_1"), OfId("_2"));
    }
  }

  /** So this rule loses meaning on the same subject, in some model of its own. */
  lemma AddLosesAnOperator(w: Weights)
    requires w.call("add") == 1 + w.binary(Plus)
    ensures !SameMeaning(SUBJECT, TransformAst(SUBJECT, ADD), ADD)
  {
    AddIsNeutral(w);
    SubjectFits();
    MatchLosesTail();
    SwapIsClosed();
    LinearIsConsistent(SUBJECT, ADD.lhs);
    ConsistentExactness(SUBJECT, ADD.lhs);
    TransformExactness(w, SUBJECT, ADD);
  }

  lemma SubjectFits()
    ensures Fits(SUBJECT, Subject)
  {
    BinaryFits(Name("B"), Times, Name("C"), Subject);
    assert OperationFits(SUM, Subject) && OperationFits(TAIL, Subject);
  }

  /** Two operations, the second one tighter. */
  lemma TighterValue<V>(m: Model<V>, b: Bind<V>, x: Operand, s: Operation, t: Operation)
    requires Precedence(t.op) > Precedence(s.op)
    ensures EvalExpr(m, b, Expr(x, [s, t]))
         == m.binary(s.op, EvalOperand(m, b, x), m.binary(t.op, EvalOperand(m, b, s.arg), EvalOperand(m, b, t.arg)))
  {
    var i, j := EvalOperation(m, b, s), EvalOperation(m, b, t);
    assert EvalRest(m, b, [s, t]) == [i] + ([j] + []);
    GroupHead(m.binary, EvalOperand(m, b, x), i, [j] + []);
    GroupHead(m.binary, i.val, j, []);
  }

  lemma NameValue(m: Model<int>, c: char)
    requires m == Arithmetic()
    ensures EvalOperand(m, NoBind(), Name([c])) == 1 + c as int - 'A' as int
  {}

  lemma ProductValue(m: Model<int>)
    requires m == Arithmetic()
    ensures EvalExpr(m, NoBind(), PRODUCT) == 6
  {
    BinaryValue(m, NoBind(), Name("B"), Times, Name("C"));
    NameValue(m, 'B');
    NameValue(m, 'C');
  }

  lemma ParenValue<V>(m: Model<V>, b: Bind<V>, e: Expr)
    ensures EvalOperand(m, b, Prim(Paren(e))) == EvalExpr(m, b, e)
  {}

  lemma ParenThenTighter<V>(m: Model<V>, b: Bind<V>, x: Operand, p: Expr, y: Operand)
    ensures EvalExpr(m, b, Expr(x, [Operation(Plus, Prim(Paren(p))), Operation(Times, y)]))
         == m.binary(Plus, EvalOperand(m, b, x), m.binary(Times, EvalExpr(m, b, p), EvalOperand(m, b, y)))
  {
    var s, t := Operation(Plus, Prim(Paren(p))), Operation(Times, y);
    assert Precedence(t.op) > Precedence(s.op);
    TighterValue(m, b, x, s, t);
    ParenValue(m, b, p);
  }

  lemma SumValue(m: Model<int>)
    requires m == Arithmetic()
    ensures m.binary(Plus, 1, m.binary(Times, 6, 4)) == 25 && m.binary(Plus, 6, 1) == 7
  {}

  lemma SubjectValue(m: Model<int>)
    requires m == Arithmetic()
    ensures EvalExpr(m, NoBind(), SUBJECT) == 25
  {
    ParenThenTighter(m, NoBind(), Name("A"), PRODUCT, Name("D"));
    NameValue(m, 'A');
    NameValue(m, 'D');
    ProductValue(m);
    SumValue(m);
  }

  /** A parenthesised compound operand loses the tighter operation after it. */
  lemma RunLoses(s: Operation, t: Operation)
    requires Precedence(t.op) > Precedence(s.op) && IsCompound(s.arg)
    ensures RunAt([s, t], Precedence(s.op)) == Run(Core(s.arg).p.e, 2, [t])
  {
    assert [s, t][1..] == [t] && [t][1..] == [];
    assert RunLength([t], Precedence(s.op)) == 1;
  }

  lemma {:induction false} WalkOnce(r: seq<Operation>, p: Operation)
    requires r != [] && !IsPlaceholder(r[0].arg) && r[0].op == p.op
    requires IsPlaceholder(p.arg) && !IsEllipsis(p.arg)
    requires RunAt(r, Precedence(p.op)).len == |r|
    ensures var run := RunAt(r, Precedence(p.op));
      Walk(r, [p]) == Matched(OnMatch(run.value, OfOperand(p.arg)), run.lost)
  {
    var run := RunAt(r, Precedence(p.op));
    assert r[run.len..] == [] && [p][1..] == [];
    assert Walk([], []) == YES;
  }

  lemma WalkLosesTail()
    ensures Walk([SUM, TAIL], [Operation(Plus, Name("_2"))]) == Matched([Binding("_2", PRODUCT)], [TAIL])
  {
    RunLoses(SUM, TAIL);
    WalkOnce([SUM, TAIL], Operation(Plus, Name("_2")));
    assert OnMatch(PRODUCT, OfOperand(Name("_2"))) == [Binding("_2", PRODUCT)];
  }

  lemma MatchByWalk(e1: Expr, e2: Expr)
    requires e1.rest != [] && e2.rest != []
    ensures MatchExpr(e1, e2) == MatchOperand(e1.first, e2.first).Then(Walk(e1.rest, e2.rest))
  {}

  lemma MatchLosesTail()
    ensures MatchExpr(SUBJECT, SWAP.lhs) == Matched(BINDS, [TAIL])
  {
    WalkLosesTail();
    MatchByWalk(SUBJECT, SWAP.lhs);
    FirstMatches();
    assert [] + [TAIL] == [TAIL];
  }

  lemma FirstMatches()
    ensures MatchOperand(SUBJECT.first, SWAP.lhs.first) == Matched([Binding("_1", OfId("A"))], [])
  {
    assert SWAP.lhs.first == Prim(Id("_1")) && IsPlaceholderName("_1");
    assert MatchPrimary(Id("A"), Id("_1")) == MatchId("A", "_1");
    assert OnMatch(OfId("A"), OfId("_1")) == [Binding("_1", OfId("A"))];
  }

  lemma FirstOfTwo(x: Binding, y: Binding)
    ensures First([x] + [y]) == One(y).Under(One(x))
  {
    var bs: seq<Binding> := [x] + [y];
    assert bs[0] == x && bs[1..] == [y];
    assert [y][1..] == [] && First([]) == NOTHING;
    UnderNothing(One(y));
    assert First([y]) == One(y);
  }

  lemma FirstOfNames(n1: string, e1: Expr, n2: string, e2: Expr)
    requires n1 != n2
    ensures var s := First([Binding(n1, e1)] + [Binding(n2, e2)]);
      n1 in s.exprs && s.exprs[n1] == e1 && n2 in s.exprs && s.exprs[n2] == e2
  {
    FirstOfTwo(Binding(n1, e1), Binding(n2, e2));
  }

  lemma BindingValues(m: Model<int>, s: Sigma)
    requires m == Arithmetic() && s == First(BINDS)
    ensures EvalOperand(m, BindOf(m, s), Name("_2")) == 6 && EvalOperand(m, BindOf(m, s), Name("_1")) == 1
  {
    FirstOfNames("_1", OfId("A"), "_2", PRODUCT);
    BoundValue(m, s, "_1");
    BoundValue(m, s, "_2");
    ProductValue(m);
    AloneValue(m, 'A');
  }

  lemma AloneValue(m: Model<int>, c: char)
    requires m == Arithmetic()
    ensures EvalExpr(m, NoBind(), OfId([c])) == 1 + c as int - 'A' as int
  {
    NameValue(m, c);
  }

  lemma BoundValue<V>(m: Model<V>, s: Sigma, n: string)
    requires n in s.exprs
    ensures EvalOperand(m, BindOf(m, s), Name(n)) == EvalExpr(m, NoBind(), s.exprs[n])
  {}

  lemma RewrittenValue(m: Model<int>, s: Sigma)
    requires m == Arithmetic() && s == First(BINDS)
    ensures EvalExpr(m, BindOf(m, s), SWAP.rhs) == 7
  {
    BindingValues(m, s);
    BinaryValue(m, BindOf(m, s), Name("_2"), Plus, Name("_1"));
  }

  /** The product with `D` is gone: 25 becomes 7. */
  lemma RewritingCanLoseAnOperator()
    ensures (forall w :: Neutral(w, SWAP)) && Closed(SWAP) && Valid(Arithmetic(), SWAP) && Fits(SUBJECT, Subject)
    ensures MatchExpr(SUBJECT, SWAP.lhs).Matched? && MatchExpr(SUBJECT, SWAP.lhs).lost == [TAIL]
    ensures EvalExpr(Arithmetic(), NoBind(), SUBJECT) == 25
    ensures EvalExpr(Arithmetic(), NoBind(), TransformAst(SUBJECT, SWAP)) == 7
  {
    SwapIsClosed();
    forall w ensures Neutral(w, SWAP) { SwapIsNeutral(w); }
    SwapIsValid(Arithmetic());
    SubjectFits();
    SubjectValue(Arithmetic());
    MatchLosesTail();
    RewrittenValue(Arithmetic(), First(BINDS));
    RootValue(Arithmetic(), SUBJECT, SWAP, Plain);
  }

  function Pair(x: string, y: string): Expr { Binary(Name(x), Plus, Name(y)) }

  /** A subject for `n + n`: an operand, and one run after it. */
  ghost predicate IsTwice(p: Primary, r: seq<Operation>, n: string) {
    && IsPlaceholderName(n) && !IsEllipsisName(n) && !p.NilPrimary?
    && OperandFits(Prim(p), Subject) && RestFits(r, Subject)
    && r != [] && r[0].op == Plus && RunAt(r, Precedence(Plus)).len == |r|
  }

  lemma TwiceFits(p: Primary, r: seq<Operation>, n: string)
    requires IsTwice(p, r, n)
    ensures Fits(Expr(Prim(p), r), Subject) && Fits(Pair(n, n), Pattern)
    ensures !IsPlaceholder(Prim(p)) && !IsPlaceholder(r[0].arg) && IsPlaceholder(Name(n)) && !IsEllipsis(Name(n))
  {
    BinaryFits(Name(n), Plus, Name(n), Pattern);
    assert OperationFits(r[0], Subject);
    SubjectHasNone(Prim(p));
    SubjectHasNone(r[0].arg);
  }

  lemma TwiceFirst(p: Primary, n: string)
    requires IsPlaceholderName(n) && !IsEllipsisName(n) && !p.NilPrimary? && OperandFits(Prim(p), Subject)
    ensures MatchOperand(Prim(p), Name(n)) == Matched([Binding(n, Unwrapped(p))], [])
    ensures FacedOperand(Prim(p), Name(n)) == [Faced(Slot(n, false), Unwrapped(p), false)]
  {
    PlaceholderBinds(Name(n), Unwrapped(p));
  }

  lemma TwiceRest(p: Primary, r: seq<Operation>, n: string)
    requires IsTwice(p, r, n)
    ensures var run := RunAt(r, Precedence(Plus)); var rest := [Operation(Plus, Name(n))];
      && Walk(r, rest) == Matched([Binding(n, run.value)], run.lost)
      && FacedRest(r, rest) == [Faced(Slot(n, false), Expr(r[0].arg, r[1..]), true)]
  {
    var run := RunAt(r, Precedence(Plus));
    TwiceFits(p, r, n);
    WalkOnce(r, Operation(Plus, Name(n)));
    RunFits(r, Precedence(Plus));
    PlaceholderBinds(Name(n), run.value);
    assert r[1..run.len] == r[1..] && r[run.len..] == [] && [Operation(Plus, Name(n))][1..] == [];
  }

  /** What `n + n` binds, and what its placeholder faces. */
  lemma TwiceMatches(p: Primary, r: seq<Operation>, n: string)
    requires IsTwice(p, r, n)
    ensures var run := RunAt(r, Precedence(Plus));
      MatchExpr(Expr(Prim(p), r), Pair(n, n)) == Matched([Binding(n, Unwrapped(p))] + [Binding(n, run.value)], run.lost)
    ensures FacedExpr(Expr(Prim(p), r), Pair(n, n))
         == [Faced(Slot(n, false), Unwrapped(p), false)] + [Faced(Slot(n, false), Expr(r[0].arg, r[1..]), true)]
  {
    TwiceFirst(p, n);
    TwiceRest(p, r, n);
    MatchByWalk(Expr(Prim(p), r), Pair(n, n));
    NoFront(RunAt(r, Precedence(Plus)).lost);
  }

  /** `n + n` keeps meaning exactly when both operands have the same value. */
  lemma TwiceExact(p: Primary, r: seq<Operation>, n: string)
    requires IsTwice(p, r, n)
    ensures MatchExpr(Expr(Prim(p), r), Pair(n, n)).Matched?
    ensures Faithful(Expr(Prim(p), r), Pair(n, n))
       <==> EvalExpr(Free(), NoBind(), Unwrapped(p)) == EvalExpr(Free(), NoBind(), Expr(r[0].arg, r[1..]))
  {
    var x, y := Binding(n, Unwrapped(p)), Binding(n, RunAt(r, Precedence(Plus)).value);
    var f, g := Faced(Slot(n, false), Unwrapped(p), false), Faced(Slot(n, false), Expr(r[0].arg, r[1..]), true);
    var b := BindOf(Free(), First([x] + [y]));
    TwiceMatches(p, r, n);
    FirstOfTwo(x, y);
    assert n in First([x] + [y]).exprs && First([x] + [y]).exprs[n] == x.value;
    AgreeBoth(Free(), b, [f], [g]);
    AgreeOne(Free(), b, f);
    AgreeOne(Free(), b, g);
    assert Agrees(Free(), b, f);
  }

  /** What a repeated placeholder is bound to is never compared: `_1 + _1`
      matches `A + B`, and reads `A + A`. */
  lemma RepeatedNamesAreNotCompared<V(!new)>(m: Model<V>, x: string, y: string, n: string)
    requires IsPlaceholderName(n) && !IsEllipsisName(n) && !IsPlaceholderName(x) && !IsPlaceholderName(y)
    ensures var o := MatchExpr(Pair(x, y), Pair(n, n));
      && o.Matched? && o.lost == [] && (Faithful(Pair(x, y), Pair(n, n)) <==> x == y)
      && EvalExpr(m, BindOf(m, First(o.binds)), Pair(n, n)) == m.binary(Plus, m.ident(x), m.ident(x))
    ensures EvalExpr(m, NoBind(), Pair(x, y)) == m.binary(Plus, m.ident(x), m.ident(y))
  {
    var r := [Operation(Plus, Name(y))];
    assert r[1..] == [];
    BinaryFits(Name(x), Plus, Name(y), Subject);
    assert RunAt(r, Precedence(Plus)) == Run(OfId(y), 1, []);
    TwiceMatches(Id(x), r, n);
    TwiceExact(Id(x), r, n);
    assert EvalExpr(Free(), NoBind(), OfId(x)) == NameTerm(x) && EvalExpr(Free(), NoBind(), OfId(y)) == NameTerm(y);
    var s := First([Binding(n, OfId(x))] + [Binding(n, OfId(y))]);
    FirstOfTwo(Binding(n, OfId(x)), Binding(n, OfId(y)));
    BoundValue(m, s, n);
    BinaryValue(m, BindOf(m, s), Name(n), Plus, Name(n));
    BinaryValue(m, NoBind(), Name(x), Plus, Name(y));
  }

  /** Bindings need not be the same to have the same value: `_1 + _1` on `A + (A)`. */
  lemma ParenthesesAreHarmless(x: string, n: string)
    requires IsPlaceholderName(n) && !IsEllipsisName(n) && !IsPlaceholderName(x)
    ensures var s := Binary(Name(x), Plus, Prim(Paren(OfId(x))));
      var o := MatchExpr(s, Pair(n, n));
      o.Matched? && o.lost == [] && !Consistent(o.binds) && Faithful(s, Pair(n, n))
  {
    var arg := Prim(Paren(OfId(x)));
    var r := [Operation(Plus, arg)];
    assert r[1..] == [];
    assert OperandFits(arg, Subject) by {
      assert OperandFits(OfId(x).first, Subject) && RestFits([], Subject);
    }
    assert Core(OfId(x).first) == Prim(Id(x)) == Core(arg);
    BinaryFits(Name(x), Plus, arg, Subject);
    assert RunAt(r, Precedence(Plus)) == Run(OfOperand(arg), 1, []);
    TwiceMatches(Id(x), r, n);
    TwiceExact(Id(x), r, n);
    ParenValue(Free(), NoBind(), OfId(x));
    var bs := [Binding(n, OfId(x))] + [Binding(n, OfOperand(arg))];
    assert bs[0].name == bs[1].name && bs[0].value != bs[1].value;
  }

  /** Nor is every loss a loss of meaning: `_1 + _1` on `(E * Y) + E * Y`, where
      `E` is a list in parentheses. */
  lemma LossCanBeHarmless(e: Expr, y: Operand, n: string)
    requires IsPlaceholderName(n) && !IsEllipsisName(n) && Fits(e, Subject) && e.rest != [] && OperandFits(y, Subject)
    ensures var arg, tail := Prim(Paren(e)), Operation(Times, y);
      var s := Expr(Prim(Paren(Expr(arg, [tail]))), [Operation(Plus, arg), tail]);
      var o := MatchExpr(s, Pair(n, n));
      o.Matched? && o.lost == [tail] && Faithful(s, Pair(n, n))
  {
    var arg, tail := Prim(Paren(e)), Operation(Times, y);
    var p, r := Paren(Expr(arg, [tail])), [Operation(Plus, arg), tail];
    assert r[1..] == [tail];
    assert OperationFits(tail, Subject) && OperationFits(r[0], Subject);
    BinaryFits(arg, Times, y, Subject);
    RunLoses(r[0], tail);
    TwiceMatches(p, r, n);
    TwiceExact(p, r, n);
  }
}
