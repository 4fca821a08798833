/** Exactly when a match preserves meaning, for every pattern: each placeholder
    must have been bound, by its first occurrence, to the value of what each of
    its occurrences faces. */
module MatchExact {
  import opened Ast
  import opened Grouping
  import opened Semantics
  import opened Match
  import opened MatchSound
  import opened MatchShape
  import opened FreeModel
  import opened Basics

  /** The values and function names a substitution gives to placeholders. */
  function BindOf<V>(m: Model<V>, s: Sigma): Bind<V> {
    Bind(map n | n in s.exprs :: EvalExpr(m, NoBind(), s.exprs[n]), s.funs)
  }

  /** A name that is bound more than once is bound to the same expression. */
  predicate Consistent(bs: seq<Binding>) {
    forall i, j | 0 <= i < j < |bs| :: bs[i].name == bs[j].name ==> bs[i].value == bs[j].value
  }

  lemma {:induction false} FirstNames(bs: seq<Binding>)
    ensures First(bs).funs.Keys <= First(bs).exprs.Keys
    ensures forall n | n in First(bs).exprs :: exists k | 0 <= k < |bs| :: bs[k].name == n
    decreases |bs|
  {
    if bs != [] {
      FirstNames(bs[1..]);
      forall n | n in First(bs).exprs ensures exists k | 0 <= k < |bs| :: bs[k].name == n {
        if n == bs[0].name {
        } else {
          var k :| 0 <= k < |bs[1..]| && bs[1..][k].name == n;
          assert bs[k + 1].name == n;
        }
      }
    }
  }

  lemma {:induction false} FirstIsSome(bs: seq<Binding>, n: string)
    requires n in First(bs).exprs
    ensures exists k | 0 <= k < |bs| :: bs[k].name == n && bs[k].value == First(bs).exprs[n]
    decreases |bs|
  {
    if n != bs[0].name {
      FirstIsSome(bs[1..], n);
      var k :| 0 <= k < |bs| - 1 && bs[1..][k].name == n && bs[1..][k].value == First(bs[1..]).exprs[n];
      assert bs[k + 1] == bs[1..][k];
    }
  }

  lemma {:induction false} FirstHas(bs: seq<Binding>, k: nat)
    requires k < |bs|
    ensures bs[k].name in First(bs).exprs
    ensures ExprIsIdentifier(bs[k].value) ==> bs[k].name in First(bs).funs
    decreases |bs|
  {
    if k > 0 {
      FirstHas(bs[1..], k - 1);
      assert bs[k] == bs[1..][k - 1];
    }
  }

  lemma {:induction false} FirstOf(bs: seq<Binding>)
    requires Consistent(bs)
    ensures forall k | 0 <= k < |bs| ::
      && bs[k].name in First(bs).exprs && First(bs).exprs[bs[k].name] == bs[k].value
      && (ExprIsIdentifier(bs[k].value) ==>
            bs[k].name in First(bs).funs && First(bs).funs[bs[k].name] == ExprName(bs[k].value))
    decreases |bs|
  {
    if bs != [] {
      FirstOf(bs[1..]);
      forall k | 0 < k < |bs|
        ensures bs[k].name in First(bs).exprs && First(bs).exprs[bs[k].name] == bs[k].value
        ensures ExprIsIdentifier(bs[k].value) ==>
            bs[k].name in First(bs).funs && First(bs).funs[bs[k].name] == ExprName(bs[k].value)
      {
        assert bs[k] == bs[1..][k - 1];
        assert bs[k].name == bs[0].name ==> bs[0].value == bs[k].value;
      }
    }
  }

  /** Every place of the pattern has a binding. */
  ghost predicate Fills(bs: seq<Binding>, slots: seq<Slot>) {
    && |bs| == |slots|
    && forall k | 0 <= k < |bs| ::
         && bs[k].name == slots[k].name && IsPlaceholderName(bs[k].name)
         && Fits(bs[k].value, Subject)
         && (slots[k].fun ==> ExprIsIdentifier(bs[k].value))
  }

  lemma MatchFills(e1: Expr, e2: Expr)
    requires Fits(e1, Subject) && Fits(e2, Pattern) && MatchExpr(e1, e2).Matched?
    ensures Fills(MatchExpr(e1, e2).binds, SlotsExpr(e2))
  {
    ExprShape(e1, e2, None);
  }

  /** Only placeholders are bound by a match. */
  lemma MatchBinds<V>(m: Model<V>, e1: Expr, e2: Expr)
    requires Fits(e1, Subject) && Fits(e2, Pattern) && MatchExpr(e1, e2).Matched?
    ensures BindsPlaceholders(BindOf(m, First(MatchExpr(e1, e2).binds)))
  {
    var bs := MatchExpr(e1, e2).binds;
    MatchFills(e1, e2);
    FirstNames(bs);
    forall n | n in First(bs).exprs ensures IsPlaceholderName(n) {
      var k :| 0 <= k < |bs| && bs[k].name == n;
    }
  }

  /** A pattern that names no placeholder twice binds consistently. */
  lemma LinearIsConsistent(e1: Expr, e2: Expr)
    requires Fits(e1, Subject) && Fits(e2, Pattern) && Linear(e2) && MatchExpr(e1, e2).Matched?
    ensures Consistent(MatchExpr(e1, e2).binds)
  {
    MatchFills(e1, e2);
  }

  // ---------------------------------------------------------------------
  // The exact condition

  /** Every placeholder, wherever it occurs, faces what it was first bound to: the
      same value as a term, lost operations included, or in function position the
      same name. */
  predicate Faithful(e1: Expr, e2: Expr)
    requires MatchExpr(e1, e2).Matched?
  {
    AllAgree(Free(), BindOf(Free(), First(MatchExpr(e1, e2).binds)), FacedExpr(e1, e2))
  }

  lemma FaithfulInAll<V>(m: Model<V>, e1: Expr, e2: Expr)
    requires Fits(e1, Subject) && Fits(e2, Pattern) && MatchExpr(e1, e2).Matched? && Faithful(e1, e2)
    ensures AllAgree(m, BindOf(m, First(MatchExpr(e1, e2).binds)), FacedExpr(e1, e2))
  {
    var bs, fs := MatchExpr(e1, e2).binds, FacedExpr(e1, e2);
    ExprShape(e1, e2, None);
    forall k | 0 <= k < |fs| ensures Agrees(m, BindOf(m, First(bs)), fs[k]) {
      assert Agrees(Free(), BindOf(Free(), First(bs)), fs[k]);
      FirstHas(bs, k);
      AgreesInAll(m, First(bs), fs[k]);
    }
  }

  lemma AgreesInAll<V>(m: Model<V>, s: Sigma, f: Faced)
    requires f.slot.name in s.exprs && Agrees(Free(), BindOf(Free(), s), f)
    ensures Agrees(m, BindOf(m, s), f)
  {
    if !f.slot.fun {
      ExprFactors(m, s.exprs[f.slot.name]);
      ExprFactors(m, f.value);
    }
  }

  /** Reading its placeholders as bound, a faithfully matched pattern has the
      subject's value in every model. */
  lemma MatchPreserves<V(!new)>(m: Model<V>, e1: Expr, e2: Expr)
    requires Fits(e1, Subject) && Fits(e2, Pattern) && MatchExpr(e1, e2).Matched? && Faithful(e1, e2)
    ensures EvalExpr(m, BindOf(m, First(MatchExpr(e1, e2).binds)), e2) == EvalExpr(m, NoBind(), e1)
  {
    FaithfulInAll(m, e1, e2);
    MatchBinds(m, e1, e2);
    ExprExact(m, BindOf(m, First(MatchExpr(e1, e2).binds)), e1, e2);
  }

  ghost predicate SameValueEverywhere(e1: Expr, e2: Expr, s: Sigma) {
    forall m: Model<Term> :: EvalExpr(m, BindOf(m, s), e2) == EvalExpr(m, NoBind(), e1)
  }

  /** Main result: whatever the pattern, a match preserves meaning exactly when
      it is faithful. */
  lemma MatchExactness(e1: Expr, e2: Expr)
    requires Fits(e1, Subject) && Fits(e2, Pattern) && MatchExpr(e1, e2).Matched?
    ensures SameValueEverywhere(e1, e2, First(MatchExpr(e1, e2).binds)) <==> Faithful(e1, e2)
  {
    var s := First(MatchExpr(e1, e2).binds);
    if SameValueEverywhere(e1, e2, s) {
      MatchBinds(Free(), e1, e2);
      ExprExact(Free(), BindOf(Free(), s), e1, e2);
    }
    if Faithful(e1, e2) {
      forall m: Model<Term> ensures EvalExpr(m, BindOf(m, s), e2) == EvalExpr(m, NoBind(), e1) {
        MatchPreserves(m, e1, e2);
      }
    }
  }

  // ---------------------------------------------------------------------
  // Consistent bindings

  /** What is kept has the value of what is faced, if nothing is dropped. */
  lemma KeptValue<V>(m: Model<V>, f: Faced)
    ensures f.Drops() || EvalExpr(m, NoBind(), f.Kept()) == EvalExpr(m, NoBind(), f.value)
  {
    if f.run && IsCompound(f.value.first) { EvalCore(m, NoBind(), f.value.first); }
  }

  /** The value of the first binding of a name is that of any of them. */
  lemma ConsistentValue<V>(m: Model<V>, e1: Expr, e2: Expr, k: nat)
    requires Fits(e1, Subject) && Fits(e2, Pattern) && MatchExpr(e1, e2).Matched?
    requires Consistent(MatchExpr(e1, e2).binds) && k < |FacedExpr(e1, e2)|
    ensures var b := BindOf(m, First(MatchExpr(e1, e2).binds)); var f := FacedExpr(e1, e2)[k];
      && IdValue(m, b, f.slot.name) == EvalExpr(m, NoBind(), f.Kept())
      && (f.slot.fun ==> !f.Drops() && FunName(b, f.slot.name) == ExprName(f.value))
  {
    var bs := MatchExpr(e1, e2).binds;
    ExprShape(e1, e2, None);
    FirstOf(bs);
    assert bs[k].value == FacedExpr(e1, e2)[k].Kept();
  }

  /** With consistent bindings, a match is faithful exactly when no placeholder
      faces a parenthesised list before a tighter operator, and that is when
      nothing is lost. */
  lemma ConsistentExactness(e1: Expr, e2: Expr)
    requires Fits(e1, Subject) && Fits(e2, Pattern)
    requires MatchExpr(e1, e2).Matched? && Consistent(MatchExpr(e1, e2).binds)
    ensures Faithful(e1, e2) <==> MatchExpr(e1, e2).lost == []
    ensures MatchExpr(e1, e2).lost == [] <==> NoneDrops(FacedExpr(e1, e2))
  {
    LosesNothing(e1, e2);
    var fs, b := FacedExpr(e1, e2), BindOf(Free(), First(MatchExpr(e1, e2).binds));
    forall k | 0 <= k < |fs| ensures Agrees(Free(), b, fs[k]) <==> !fs[k].Drops() {
      ConsistentValue(Free(), e1, e2, k);
      KeptValue(Free(), fs[k]);
      if fs[k].Drops() { DropShows(fs[k]); }
    }
    assert Faithful(e1, e2) <==> forall k | 0 <= k < |fs| :: Agrees(Free(), b, fs[k]);
  }

  // ---------------------------------------------------------------------
  // Lost operations are missed

  /** The nodes of a term. */
  function TermSize(t: Term): nat {
    match t
    case UnaryTerm(_, x) => 1 + TermSize(x)
    case BinaryTerm(_, x, y) => 1 + TermSize(x) + TermSize(y)
    case _ => 1
  }

  lemma BinarySize(f: (Op, Term, Term) -> Term, op: Op, x: Term, y: Term)
    requires f == Free().binary
    ensures TermSize(f(op, x, y)) == 1 + TermSize(x) + TermSize(y)
  {}

  /** A longer list has a larger term. */
  lemma {:induction false} GroupGrows(f: (Op, Term, Term) -> Term, x: Term, items: seq<Item<Term>>)
    requires f == Free().binary
    ensures TermSize(Group(f, x, items)) >= TermSize(x) + |items|
    decreases |items|
  {
    if items != [] {
      var k := Lowest(items);
      GroupGrows(f, x, items[..k]);
      GroupGrows(f, items[k].val, items[k + 1..]);
      BinarySize(f, items[k].op, Group(f, x, items[..k]), Group(f, items[k].val, items[k + 1..]));
    }
  }

  lemma DropShows(f: Faced)
    requires f.Drops()
    ensures EvalExpr(Free(), NoBind(), f.Kept()) != EvalExpr(Free(), NoBind(), f.value)
  {
    var first, rest := EvalOperand(Free(), NoBind(), f.value.first), EvalRest(Free(), NoBind(), f.value.rest);
    EvalCore(Free(), NoBind(), f.value.first);
    GroupGrows(Free().binary, first, rest);
    assert TermSize(EvalExpr(Free(), NoBind(), f.value)) > TermSize(first);
  }
}
