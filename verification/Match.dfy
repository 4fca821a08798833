/** Matching a subject against a rule pattern: what it computes.  Flat lists
    are compared by one plain walk from left to right. */
module Match {
  import opened Ast

  datatype Binding = Binding(name: string, value: Expr)

  /** `lost` records the operations `extract_subexpression` stepped over
      without keeping them. */
  datatype Outcome = NoMatch | Matched(binds: seq<Binding>, lost: seq<Operation>) {
    function Then(next: Outcome): Outcome {
      if NoMatch? || next.NoMatch? then NoMatch
      else Matched(binds + next.binds, lost + next.lost)
    }
  }

  const YES := Matched([], [])

  function If(c: bool): Outcome { if c then YES else NoMatch }

  // ---------------------------------------------------------------------
  // The callback and the extraction of tighter runs

  function BoundName(e: Expr): string {
    var n := ExprName(e);
    if ExprIsEllipsis(e) && n != "" then n[1..] else n
  }

  /** `on_placeholder_match`: whichever side is a placeholder gets the other. */
  function OnMatch(a: Expr, b: Expr): seq<Binding> {
    if ExprIsPlaceholder(a) then [Binding(BoundName(a), b)]
    else if ExprIsPlaceholder(b) then [Binding(BoundName(b), a)]
    else []
  }

  /** The number of leading operations tighter than `prec`. */
  function RunLength(ops: seq<Operation>, prec: nat): (n: nat)
    ensures n <= |ops|
    ensures forall k | 0 <= k < n :: Precedence(ops[k].op) > prec
    ensures n < |ops| ==> Precedence(ops[n].op) <= prec
  {
    if ops != [] && Precedence(ops[0].op) > prec then 1 + RunLength(ops[1..], prec) else 0
  }

  datatype Run = Run(value: Expr, len: nat, lost: seq<Operation>)

  /** `extract_subexpression`: an operand with the tighter operations after it.
      When the operand is itself a parenthesised list, those operations are
      stepped over and do not become part of the value. */
  function RunAt(ops: seq<Operation>, prec: nat): (r: Run)
    requires ops != []
    ensures 1 <= r.len <= |ops|
  {
    var n := 1 + RunLength(ops[1..], prec);
    if IsCompound(ops[0].arg) then Run(Core(ops[0].arg).p.e, n, ops[1..n])
    else Run(Expr(ops[0].arg, ops[1..n]), n, [])
  }

  // ---------------------------------------------------------------------
  // What matching computes

  /** The alternative held by a primary expression, as an expression. */
  function Unwrapped(p: Primary): Expr {
    if p.Paren? then p.e else OfPrimary(p)
  }

  function MatchExpr(e1: Expr, e2: Expr): Outcome
    decreases e1, e2, 1
  {
    if ExprIsPlaceholder(e1) then
      Matched(OnMatch(OfId(ExprPlaceholderId(e1)), Extract(e2)), [])
    else if ExprIsPlaceholder(e2) then
      Matched(OnMatch(Extract(e1), OfId(ExprPlaceholderId(e2))), [])
    else
      var s1, s2 := Extract(e1), Extract(e2);
      MatchOperand(s1.first, s2.first).Then(
        if s1.rest == [] || s2.rest == [] then If(|s1.rest| == |s2.rest|)
        else Walk(s1.rest, s2.rest))
  }

  function MatchOperand(o1: Operand, o2: Operand): Outcome
    decreases o1, o2, 2
  {
    match (o1, o2)
    case (Prim(p1), Prim(p2)) => MatchPrimary(p1, p2)
    case (Un(u1), Un(u2)) => If(u1.op == u2.op).Then(MatchOperand(u1.arg, u2.arg))
    case (Un(_), Prim(_)) =>
      if IsPlaceholder(o2) then Matched(OnMatch(OfOperand(o1), OfId(PlaceholderId(o2))), [])
      else NoMatch
    case _ => NoMatch
  }

  function MatchId(n1: string, n2: string): Outcome {
    if IsPlaceholderName(n1) || IsPlaceholderName(n2) || n1 == n2
    then Matched(OnMatch(OfId(n1), OfId(n2)), [])
    else NoMatch
  }

  /** Literals never match literals. */
  function MatchPrimary(p1: Primary, p2: Primary): Outcome
    decreases p1, p2, 1
  {
    match (p1, p2)
    case (Id(n1), Id(n2)) => MatchId(n1, n2)
    case (_, Id(n)) =>
      if !p1.NilPrimary? && IsPlaceholderName(n) then Matched(OnMatch(Unwrapped(p1), OfId(n)), [])
      else NoMatch
    case (Paren(e1), Paren(e2)) => MatchExpr(e1, e2)
    case (Apply(c1), Apply(c2)) => MatchId(c1.name, c2.name).Then(MatchArgs(c1.args, c2.args))
    case (List(l1), List(l2)) => If(|l1| == |l2|).Then(MatchLists(l1, l2))
    case _ => NoMatch
  }

  function MatchArgs(a1: seq<Expr>, a2: seq<Expr>): Outcome
    decreases a1, a2, 0
  {
    if a1 == [] then If(a2 == [] || ExprIsEllipsis(a2[0]))
    else if a2 == [] then If(ExprIsEllipsis(a1[0]))
    else if ExprIsEllipsis(a1[0]) then
      Matched(OnMatch(a1[0], a2[0]), []).Then(MatchArgs(a1, a2[1..]))
    else if ExprIsEllipsis(a2[0]) then
      Matched(OnMatch(a1[0], a2[0]), []).Then(MatchArgs(a1[1..], a2))
    else
      MatchExpr(a1[0], a2[0]).Then(MatchArgs(a1[1..], a2[1..]))
  }

  function MatchLists(l1: seq<Expr>, l2: seq<Expr>): Outcome
    decreases l1, l2, 0
  {
    if l1 == [] || l2 == [] then YES
    else MatchExpr(l1[0], l2[0]).Then(MatchLists(l1[1..], l2[1..]))
  }

  /** One pair of operations at a time, left to right; precedence only decides
      how much a placeholder takes. */
  function Walk(r1: seq<Operation>, r2: seq<Operation>): Outcome
    decreases r1, r2, 0
  {
    if r1 == [] then If(r2 == [] || IsEllipsis(r2[0].arg))
    else if r2 == [] then If(IsEllipsis(r1[0].arg))
    else
      var Operation(op1, arg1), Operation(op2, arg2) := r1[0], r2[0];
      if IsPlaceholder(arg1) then
        var run := RunAt(r2, Precedence(op1));
        var tail := r2[run.len..];
        Matched(OnMatch(OfOperand(arg1), run.value), run.lost)
          .Then(If(op1 == op2))
          .Then(Walk(if !IsEllipsis(arg1) || tail == [] then r1[1..] else r1, tail))
      else if IsPlaceholder(arg2) then
        var run := RunAt(r1, Precedence(op1));
        var tail := r1[run.len..];
        Matched(OnMatch(run.value, OfOperand(arg2)), run.lost)
          .Then(If(op1 == op2))
          .Then(Walk(tail, if !IsEllipsis(arg2) || tail == [] then r2[1..] else r2))
      else
        MatchOperation(r1[0], r2[0]).Then(Walk(r1[1..], r2[1..]))
  }

  function MatchOperation(x1: Operation, x2: Operation): Outcome
    decreases x1, x2, 3
  {
    MatchOperand(x1.arg, x2.arg).Then(If(x1.op == x2.op))
  }

  // ---------------------------------------------------------------------
  // The substitution a list of bindings stands for

  /** `funs` replaces names in function position, where only identifiers fit. */
  datatype Sigma = Sigma(exprs: map<string, Expr>, funs: map<string, string>) {
    /** Where both bind a name, `first` counts. */
    function Under(first: Sigma): Sigma {
      Sigma(exprs + first.exprs, funs + first.funs)
    }
  }

  const NOTHING := Sigma(map[], map[])

  function One(x: Binding): Sigma {
    Sigma(map[x.name := x.value],
          if ExprIsIdentifier(x.value) then map[x.name := ExprName(x.value)] else map[])
  }

  /** For every name the first binding that fits. */
  function First(bs: seq<Binding>): Sigma {
    if bs == [] then NOTHING else First(bs[1..]).Under(One(bs[0]))
  }

  // ---------------------------------------------------------------------
  // The multimap: ordered by name, equal names in order of insertion

  predicate NameLess(a: string, b: string) {
    b != [] && (a == [] || a[0] < b[0] || (a[0] == b[0] && NameLess(a[1..], b[1..])))
  }

  function Insert(ph: seq<Binding>, x: Binding): seq<Binding> {
    if ph == [] || NameLess(x.name, ph[0].name) then [x] + ph
    else [ph[0]] + Insert(ph[1..], x)
  }

  function InsertAll(ph: seq<Binding>, bs: seq<Binding>): seq<Binding>
    decreases |bs|
  {
    if bs == [] then ph else InsertAll(Insert(ph, bs[0]), bs[1..])
  }

  lemma {:induction false} InsertAllAppend(ph: seq<Binding>, a: seq<Binding>, b: seq<Binding>)
    ensures InsertAll(InsertAll(ph, a), b) == InsertAll(ph, a + b)
    decreases |a|
  {
    if a == [] {
      assert a + b == b;
    } else {
      assert (a + b)[1..] == a[1..] + b;
      InsertAllAppend(Insert(ph, a[0]), a[1..], b);
    }
  }
}
