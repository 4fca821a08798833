/** Matching the way the program runs it: nested precedence climbing over
    iterators shared between the calls, and a multimap filled on the way.
    Every method is proved to compute what `Match` says, and to terminate
    without reading past an end, for every subject and pattern. */
module MatchLoops {
  import opened Ast
  import opened Match

  ghost predicate Agrees(o: Outcome, ph: seq<Binding>, ok: bool, ph': seq<Binding>) {
    ok == o.Matched? && (ok ==> ph' == InsertAll(ph, o.binds))
  }

  lemma ThenAssoc(a: Outcome, b: Outcome, c: Outcome)
    ensures a.Then(b).Then(c) == a.Then(b.Then(c))
    ensures a.Then(YES) == a == YES.Then(a)
  {
    if a.Matched? && b.Matched? && c.Matched? {
      assert a.binds + b.binds + c.binds == a.binds + (b.binds + c.binds);
      assert a.lost + b.lost + c.lost == a.lost + (b.lost + c.lost);
    }
  }

  /** Agreement composes along `Then`. */
  lemma AgreesThen(a: Outcome, b: Outcome, ph: seq<Binding>, ph1: seq<Binding>, ok: bool, ph2: seq<Binding>)
    requires Agrees(a, ph, true, ph1) && Agrees(b, ph1, ok, ph2)
    ensures Agrees(a.Then(b), ph, ok, ph2)
  {
    if ok { InsertAllAppend(ph, a.binds, b.binds); }
  }

  /** The run that starts at `it`, counted from there. */
  lemma RunFrom(ops: seq<Operation>, it: nat, prec: nat) returns (n: nat)
    requires it < |ops|
    ensures it + 1 + n <= |ops| && RunAt(ops[it..], prec).len == 1 + n
    ensures forall k | it < k <= it + n :: Precedence(ops[k].op) > prec
    ensures it + 1 + n < |ops| ==> Precedence(ops[it + 1 + n].op) <= prec
    ensures RunAt(ops[it..], prec).value
         == if IsCompound(ops[it].arg) then Core(ops[it].arg).p.e
            else Expr(ops[it].arg, ops[it + 1..it + 1 + n])
  {
    assert ops[it..][1..] == ops[it + 1..];
    n := RunLength(ops[it + 1..], prec);
    assert ops[it..][1..1 + n] == ops[it + 1..it + 1 + n];
    forall k | it < k <= it + n ensures Precedence(ops[k].op) > prec {
      assert ops[k] == ops[it + 1..][k - it - 1];
    }
  }

  /** The loop shared by the overloads of `extract_subexpression`. */
  method SkipRun(prec: nat, ops: seq<Operation>, it: nat) returns (it': nat)
    requires it < |ops|
    ensures it' == it + RunAt(ops[it..], prec).len
  {
    ghost var n := RunFrom(ops, it, prec);
    it' := it + 1;
    while it' < |ops| && Precedence(ops[it'].op) > prec
      invariant it + 1 <= it' <= it + 1 + n
    {
      it' := it' + 1;
    }
  }

  /** `it` moves past the operand and the tighter operations after it. */
  method ExtractSubexpression(o: Operand, prec: nat, ops: seq<Operation>, it: nat)
    returns (e: Expr, it': nat)
    requires it < |ops| && Core(o) == Core(ops[it].arg)
    ensures e == RunAt(ops[it..], prec).value
    ensures it' == it + RunAt(ops[it..], prec).len
    decreases o
  {
    ghost var n := RunFrom(ops, it, prec);
    if o.Prim? && o.p.Paren? {
      var expr := o.p.e;
      if expr.rest == [] {
        e, it' := ExtractSubexpression(expr.first, prec, ops, it);
      } else {
        it' := SkipRun(prec, ops, it);
        e := expr;
      }
      return;
    }
    e, it' := AppendRun(prec, ops, it);
  }

  /** The loop of the other overloads: the run is appended to the operand. */
  method AppendRun(prec: nat, ops: seq<Operation>, it: nat) returns (e: Expr, it': nat)
    requires it < |ops|
    ensures it' == it + RunAt(ops[it..], prec).len && e == Expr(ops[it].arg, ops[it + 1..it'])
  {
    ghost var n := RunFrom(ops, it, prec);
    e, it' := OfOperand(ops[it].arg), it + 1;
    while it' < |ops| && Precedence(ops[it'].op) > prec
      invariant it + 1 <= it' <= it + 1 + n
      invariant e == Expr(ops[it].arg, ops[it + 1..it'])
    {
      e := e.(rest := e.rest + [ops[it']]);
      it' := it' + 1;
    }
  }

  method TryExpr(e1: Expr, e2: Expr, ph: seq<Binding>) returns (ok: bool, ph': seq<Binding>)
    ensures Agrees(MatchExpr(e1, e2), ph, ok, ph')
    decreases e1, e2, 1
  {
    if ExprIsPlaceholder(e1) {
      return true, InsertAll(ph, OnMatch(OfId(ExprPlaceholderId(e1)), Extract(e2)));
    }
    if ExprIsPlaceholder(e2) {
      return true, InsertAll(ph, OnMatch(Extract(e1), OfId(ExprPlaceholderId(e2))));
    }
    var s1, s2 := Extract(e1), Extract(e2);
    ok, ph' := TryOperand(s1.first, s2.first, ph);
    if !ok { return; }
    ghost var m1, ph1 := MatchOperand(s1.first, s2.first), ph';
    if s1.rest == [] || s2.rest == [] {
      ok := |s1.rest| == |s2.rest|;
      AgreesThen(m1, If(ok), ph, ph1, ok, ph');
      return;
    }
    ghost var d;
    var it1, it2;
    ok, it1, it2, ph', d := TryExpression(0, s1.rest, 0, s2.rest, 0, ph');
    assert s1.rest[0..] == s1.rest && s2.rest[0..] == s2.rest;
    if ok { ThenAssoc(d, YES, YES); }
    AgreesThen(m1, Walk(s1.rest, s2.rest), ph, ph1, ok, ph');
  }

  method TryOperand(o1: Operand, o2: Operand, ph: seq<Binding>) returns (ok: bool, ph': seq<Binding>)
    ensures Agrees(MatchOperand(o1, o2), ph, ok, ph')
    decreases o1, o2, 2
  {
    match (o1, o2) {
      case (Prim(p1), Prim(p2)) => ok, ph' := TryPrimary(p1, p2, ph);
      case (Un(u1), Un(u2)) =>
        if u1.op != u2.op { return false, ph; }
        ok, ph' := TryOperand(u1.arg, u2.arg, ph);
        ThenAssoc(MatchOperand(u1.arg, u2.arg), YES, YES);
      case (Un(_), Prim(_)) =>
        if IsPlaceholder(o2) {
          return true, InsertAll(ph, OnMatch(OfOperand(o1), OfId(PlaceholderId(o2))));
        }
        return false, ph;
      case _ => return false, ph;
    }
  }

  method TryPrimary(p1: Primary, p2: Primary, ph: seq<Binding>) returns (ok: bool, ph': seq<Binding>)
    ensures Agrees(MatchPrimary(p1, p2), ph, ok, ph')
    decreases p1, p2, 1
  {
    match (p1, p2) {
      case (Id(n1), Id(n2)) => ok, ph' := TryId(n1, n2, ph);
      case (_, Id(n)) =>
        if !p1.NilPrimary? && IsPlaceholderName(n) {
          return true, InsertAll(ph, OnMatch(Unwrapped(p1), OfId(n)));
        }
        return false, ph;
      case (Paren(e1), Paren(e2)) => ok, ph' := TryExpr(e1, e2, ph);
      case (Apply(c1), Apply(c2)) => ok, ph' := TryCall(c1, c2, ph);
      case (List(l1), List(l2)) =>
        if |l1| != |l2| { return false, ph; }
        ok, ph' := TryLists(l1, l2, ph);
        ThenAssoc(MatchLists(l1, l2), YES, YES);
      case _ => return false, ph;
    }
  }

  method TryId(n1: string, n2: string, ph: seq<Binding>) returns (ok: bool, ph': seq<Binding>)
    ensures Agrees(MatchId(n1, n2), ph, ok, ph')
  {
    if IsPlaceholderName(n1) || IsPlaceholderName(n2) || n1 == n2 {
      return true, InsertAll(ph, OnMatch(OfId(n1), OfId(n2)));
    }
    return false, ph;
  }

  /** Consumes both argument lists; an ellipsis stays while the other side advances. */
  method TryCall(c1: Call, c2: Call, ph: seq<Binding>) returns (ok: bool, ph': seq<Binding>)
    ensures Agrees(MatchId(c1.name, c2.name).Then(MatchArgs(c1.args, c2.args)), ph, ok, ph')
    decreases c1, c2, 1
  {
    ok, ph' := TryId(c1.name, c2.name, ph);
    if !ok { return; }
    var a1, a2 := c1.args, c2.args;
    ghost var d := MatchId(c1.name, c2.name);
    ghost var all := d.Then(MatchArgs(a1, a2));
    var it1, it2 := 0, 0;
    assert a1[0..] == a1 && a2[0..] == a2;
    while it1 < |a1| && it2 < |a2|
      invariant it1 <= |a1| && it2 <= |a2|
      invariant Agrees(d, ph, true, ph')
      invariant all == d.Then(MatchArgs(a1[it1..], a2[it2..]))
      decreases |a1| - it1 + |a2| - it2
    {
      assert a1[it1..][1..] == a1[it1 + 1..] && a2[it2..][1..] == a2[it2 + 1..];
      ghost var d0, ph0, i1, i2 := d, ph', it1, it2;
      ghost var step;
      if ExprIsEllipsis(a1[it1]) {
        step := Matched(OnMatch(a1[it1], a2[it2]), []);
        ph' := InsertAll(ph', OnMatch(a1[it1], a2[it2]));
        it2 := it2 + 1;
      } else if ExprIsEllipsis(a2[it2]) {
        step := Matched(OnMatch(a1[it1], a2[it2]), []);
        ph' := InsertAll(ph', OnMatch(a1[it1], a2[it2]));
        it1 := it1 + 1;
      } else {
        step := MatchExpr(a1[it1], a2[it2]);
        ok, ph' := TryExpr(a1[it1], a2[it2], ph');
        if !ok { return; }
        it1, it2 := it1 + 1, it2 + 1;
      }
      assert MatchArgs(a1[i1..], a2[i2..]) == step.Then(MatchArgs(a1[it1..], a2[it2..]));
      d := d0.Then(step);
      ThenAssoc(d0, step, MatchArgs(a1[it1..], a2[it2..]));
      AgreesThen(d0, step, ph, ph0, true, ph');
    }
    ThenAssoc(d, YES, YES);
    if it1 == |a1| {
      ok := it2 == |a2| || ExprIsEllipsis(a2[it2]);
    } else {
      ok := ExprIsEllipsis(a1[it1]);
    }
  }

  method TryLists(l1: seq<Expr>, l2: seq<Expr>, ph: seq<Binding>) returns (ok: bool, ph': seq<Binding>)
    requires |l1| == |l2|
    ensures Agrees(MatchLists(l1, l2), ph, ok, ph')
    decreases l1, l2, 0
  {
    ghost var d := YES;
    ph' := ph;
    assert l1[0..] == l1 && l2[0..] == l2;
    ThenAssoc(MatchLists(l1, l2), YES, YES);
    for i := 0 to |l1|
      invariant Agrees(d, ph, true, ph')
      invariant MatchLists(l1, l2) == d.Then(MatchLists(l1[i..], l2[i..]))
    {
      assert l1[i..][1..] == l1[i + 1..] && l2[i..][1..] == l2[i + 1..];
      ghost var d0, step, ph0 := d, MatchExpr(l1[i], l2[i]), ph';
      ok, ph' := TryExpr(l1[i], l2[i], ph');
      if !ok { return; }
      d := d0.Then(step);
      ThenAssoc(d0, step, MatchLists(l1[i + 1..], l2[i + 1..]));
      AgreesThen(d0, step, ph, ph0, true, ph');
    }
    ThenAssoc(d, YES, YES);
    ok := true;
  }

  lemma UnfoldPair(r1: seq<Operation>, i1: nat, r2: seq<Operation>, i2: nat)
    requires i1 < |r1| && i2 < |r2| && !IsPlaceholder(r1[i1].arg) && !IsPlaceholder(r2[i2].arg)
    ensures Walk(r1[i1..], r2[i2..]) == MatchOperation(r1[i1], r2[i2]).Then(Walk(r1[i1 + 1..], r2[i2 + 1..]))
  {
    assert r1[i1..][1..] == r1[i1 + 1..] && r2[i2..][1..] == r2[i2 + 1..];
  }

  lemma UnfoldFromPattern(r1: seq<Operation>, i1: nat, j1: nat, r2: seq<Operation>, i2: nat, j2: nat, run: Run)
    requires i1 < |r1| && i2 < |r2| && IsPlaceholder(r1[i1].arg)
    requires run == RunAt(r2[i2..], Precedence(r1[i1].op)) && j2 == i2 + run.len
    requires j1 == if !IsEllipsis(r1[i1].arg) || j2 == |r2| then i1 + 1 else i1
    ensures var here := Matched(OnMatch(OfOperand(r1[i1].arg), run.value), run.lost);
      Walk(r1[i1..], r2[i2..]) == here.Then(If(r1[i1].op == r2[i2].op)).Then(Walk(r1[j1..], r2[j2..]))
  {
    assert r1[i1..][1..] == r1[i1 + 1..] && r2[i2..][run.len..] == r2[j2..];
  }

  lemma UnfoldFromSubject(r1: seq<Operation>, i1: nat, j1: nat, r2: seq<Operation>, i2: nat, j2: nat, run: Run)
    requires i1 < |r1| && i2 < |r2| && !IsPlaceholder(r1[i1].arg) && IsPlaceholder(r2[i2].arg)
    requires run == RunAt(r1[i1..], Precedence(r1[i1].op)) && j1 == i1 + run.len
    requires j2 == if !IsEllipsis(r2[i2].arg) || j1 == |r1| then i2 + 1 else i2
    ensures var here := Matched(OnMatch(run.value, OfOperand(r2[i2].arg)), run.lost);
      Walk(r1[i1..], r2[i2..]) == here.Then(If(r1[i1].op == r2[i2].op)).Then(Walk(r1[j1..], r2[j2..]))
  {
    assert r2[i2..][1..] == r2[i2 + 1..] && r1[i1..][run.len..] == r1[j1..];
  }

  /** Progress of the two iterators: `d` has been matched between `(i1, i2)`
      and `(j1, j2)`, turning the multimap `ph` into `ph'`. */
  ghost predicate Moved(r1: seq<Operation>, i1: nat, j1: nat, r2: seq<Operation>, i2: nat, j2: nat,
      ph: seq<Binding>, ph': seq<Binding>, d: Outcome)
  {
    && i1 <= j1 <= |r1| && i2 <= j2 <= |r2|
    && Agrees(d, ph, true, ph')
    && Walk(r1[i1..], r2[i2..]) == d.Then(Walk(r1[j1..], r2[j2..]))
  }

  lemma MovedNowhere(r1: seq<Operation>, i1: nat, r2: seq<Operation>, i2: nat, ph: seq<Binding>)
    requires i1 <= |r1| && i2 <= |r2|
    ensures Moved(r1, i1, i1, r2, i2, i2, ph, ph, YES)
  {
    ThenAssoc(Walk(r1[i1..], r2[i2..]), YES, YES);
  }

  lemma MovedOn(r1: seq<Operation>, i1: nat, j1: nat, k1: nat, r2: seq<Operation>, i2: nat, j2: nat, k2: nat,
      ph: seq<Binding>, ph1: seq<Binding>, ph2: seq<Binding>, a: Outcome, b: Outcome)
    requires Moved(r1, i1, j1, r2, i2, j2, ph, ph1, a)
    requires Moved(r1, j1, k1, r2, j2, k2, ph1, ph2, b)
    ensures Moved(r1, i1, k1, r2, i2, k2, ph, ph2, a.Then(b))
  {
    ThenAssoc(a, b, Walk(r1[k1..], r2[k2..]));
    AgreesThen(a, b, ph, ph1, true, ph2);
  }

  /** The subject holds a placeholder: it takes a run of the pattern. */
  method TakeFromPattern(r1: seq<Operation>, i1: nat, r2: seq<Operation>, i2: nat, ph: seq<Binding>)
    returns (ok: bool, j1: nat, j2: nat, ph': seq<Binding>, ghost d: Outcome)
    requires i1 < |r1| && i2 < |r2| && IsPlaceholder(r1[i1].arg)
    ensures i1 <= j1 <= |r1| && i2 <= j2 <= |r2| && i1 + i2 < j1 + j2
    ensures if ok then Moved(r1, i1, j1, r2, i2, j2, ph, ph', d) else Walk(r1[i1..], r2[i2..]).NoMatch?
  {
    var prec := Precedence(r1[i1].op);
    ghost var run := RunAt(r2[i2..], prec);
    var value;
    value, j2 := ExtractSubexpression(r2[i2].arg, prec, r2, i2);
    ph' := InsertAll(ph, OnMatch(OfOperand(r1[i1].arg), value));
    d := Matched(OnMatch(OfOperand(r1[i1].arg), value), run.lost);
    ThenAssoc(d, YES, YES);
    ok := r1[i1].op == r2[i2].op;
    j1 := i1;
    if !IsEllipsis(r1[i1].arg) || j2 == |r2| { j1 := i1 + 1; }
    UnfoldFromPattern(r1, i1, j1, r2, i2, j2, run);
  }

  /** The pattern holds a placeholder: it takes a run of the subject. */
  method TakeFromSubject(r1: seq<Operation>, i1: nat, r2: seq<Operation>, i2: nat, ph: seq<Binding>)
    returns (ok: bool, j1: nat, j2: nat, ph': seq<Binding>, ghost d: Outcome)
    requires i1 < |r1| && i2 < |r2| && !IsPlaceholder(r1[i1].arg) && IsPlaceholder(r2[i2].arg)
    ensures i1 <= j1 <= |r1| && i2 <= j2 <= |r2| && i1 + i2 < j1 + j2
    ensures if ok then Moved(r1, i1, j1, r2, i2, j2, ph, ph', d) else Walk(r1[i1..], r2[i2..]).NoMatch?
  {
    var prec := Precedence(r1[i1].op);
    ghost var run := RunAt(r1[i1..], prec);
    var value;
    value, j1 := ExtractSubexpression(r1[i1].arg, prec, r1, i1);
    ph' := InsertAll(ph, OnMatch(value, OfOperand(r2[i2].arg)));
    d := Matched(OnMatch(value, OfOperand(r2[i2].arg)), run.lost);
    ThenAssoc(d, YES, YES);
    ok := r1[i1].op == r2[i2].op;
    j2 := i2;
    if !IsEllipsis(r2[i2].arg) || j1 == |r1| { j2 := i2 + 1; }
    UnfoldFromSubject(r1, i1, j1, r2, i2, j2, run);
  }

  /** Neither side holds a placeholder: the operands match first, then
      everything tighter that follows, and the operators last. */
  method MatchPair(r1: seq<Operation>, i1: nat, r2: seq<Operation>, i2: nat, ph: seq<Binding>)
    returns (ok: bool, j1: nat, j2: nat, ph': seq<Binding>, ghost d: Outcome)
    requires i1 < |r1| && i2 < |r2| && !IsPlaceholder(r1[i1].arg) && !IsPlaceholder(r2[i2].arg)
    ensures i1 <= j1 <= |r1| && i2 <= j2 <= |r2| && i1 + i2 < j1 + j2
    ensures if ok then Moved(r1, i1, j1, r2, i2, j2, ph, ph', d) else Walk(r1[i1..], r2[i2..]).NoMatch?
    decreases r1, r2, 0, |r1| - i1 + |r2| - i2, 0
  {
    j1, j2, d := i1 + 1, i2 + 1, YES;
    UnfoldPair(r1, i1, r2, i2);
    var curr1, curr2 := r1[i1], r2[i2];
    var prec := Precedence(curr1.op);
    ArgSmaller(curr1);
    ok, ph' := TryOperand(curr1.arg, curr2.arg, ph);
    if !ok { return; }
    ghost var ph1 := ph';
    MovedNowhere(r1, j1, r2, j2, ph');
    while j1 < |r1| && j2 < |r2| && Precedence(r1[j1].op) > prec
      invariant Moved(r1, i1 + 1, j1, r2, i2 + 1, j2, ph1, ph', d)
      decreases |r1| - j1 + |r2| - j2
    {
      ghost var phi, nested, l1, l2 := ph', YES, j1, j2;
      ok, j1, j2, ph', nested := TryExpression(Precedence(r1[j1].op), r1, j1, r2, j2, ph');
      if !ok { return; }
      MovedOn(r1, i1 + 1, l1, j1, r2, i2 + 1, l2, j2, ph1, phi, ph', d, nested);
      d := d.Then(nested);
    }
    ok := curr1.op == curr2.op;
    if !ok { return; }
    ghost var step := MatchOperation(curr1, curr2);
    ThenAssoc(MatchOperand(curr1.arg, curr2.arg), YES, YES);
    MovedOn(r1, i1, i1 + 1, j1, r2, i2, i2 + 1, j2, ph, ph1, ph', step, d);
    d := step.Then(d);
  }

  /** Precedence climbing over both lists.  The ghost result `d` is what this
      call has matched. */
  method TryExpression(min: nat, r1: seq<Operation>, i1: nat, r2: seq<Operation>, i2: nat, ph: seq<Binding>)
    returns (ok: bool, j1: nat, j2: nat, ph': seq<Binding>, ghost d: Outcome)
    requires i1 <= |r1| && i2 <= |r2|
    ensures i1 <= j1 <= |r1| && i2 <= j2 <= |r2|
    ensures if ok then Moved(r1, i1, j1, r2, i2, j2, ph, ph', d) else Walk(r1[i1..], r2[i2..]).NoMatch?
    ensures ok ==>
      if j1 == |r1| || j2 == |r2| then Walk(r1[j1..], r2[j2..]) == YES
      else Precedence(r1[j1].op) < min
    ensures ok && i1 < |r1| && i2 < |r2| && Precedence(r1[i1].op) >= min ==> i1 + i2 < j1 + j2
    decreases r1, r2, 0, |r1| - i1 + |r2| - i2, 1
  {
    ok, j1, j2, ph', d := true, i1, i2, ph, YES;
    MovedNowhere(r1, i1, r2, i2, ph);
    while j1 < |r1| && j2 < |r2| && Precedence(r1[j1].op) >= min
      invariant Moved(r1, i1, j1, r2, i2, j2, ph, ph', d)
      invariant ok && ((j1 == i1 && j2 == i2) || i1 + i2 < j1 + j2)
      decreases |r1| - j1 + |r2| - j2
    {
      ghost var step, l1, l2, phi := YES, j1, j2, ph';
      if IsPlaceholder(r1[j1].arg) {
        ok, j1, j2, ph', step := TakeFromPattern(r1, j1, r2, j2, ph');
      } else if IsPlaceholder(r2[j2].arg) {
        ok, j1, j2, ph', step := TakeFromSubject(r1, j1, r2, j2, ph');
      } else {
        ok, j1, j2, ph', step := MatchPair(r1, j1, r2, j2, ph');
      }
      if !ok { return; }
      MovedOn(r1, i1, l1, j1, r2, i2, l2, j2, ph, phi, ph', d, step);
      d := d.Then(step);
    }
    if j1 == |r1| {
      ok := j2 == |r2| || IsEllipsis(r2[j2].arg);
    } else if j2 == |r2| {
      ok := IsEllipsis(r1[j1].arg);
    }
  }
}
