/** What placeholders take, on either side, and what nothing takes. */
module Placeholders {
  import opened Ast
  import opened Semantics
  import opened Match
  import Ellipses

  /** Whichever side holds the placeholder, it gets the other. */
  lemma ExprMirrors(p: Expr, e: Expr)
    requires ExprIsPlaceholder(p) && Fits(e, Subject)
    ensures MatchExpr(p, e) == MatchExpr(e, p) && MatchExpr(p, e).Matched?
  {
    SubjectHasNone(e.first);
    ExtractFits(e, Subject);
    SubjectHasNone(Extract(e).first);
  }

  ghost predicate AllPlaceholders(ops: seq<Operation>) {
    forall k | 0 <= k < |ops| :: IsPlaceholder(ops[k].arg)
  }

  lemma {:induction false} WalkMirrors(r1: seq<Operation>, r2: seq<Operation>)
    requires AllPlaceholders(r1) && RestFits(r2, Subject)
    ensures Walk(r1, r2) == Walk(r2, r1)
    decreases |r1| + |r2|
  {
    if r2 != [] {
      assert OperationFits(r2[0], Subject);
      SubjectHasNone(r2[0].arg);
    }
    if r1 != [] && r2 != [] {
      Ellipses.RunIsPlain(r2);
      if r1[0].op == r2[0].op {
        var tail := r2[RunAt(r2, Precedence(r2[0].op)).len..];
        assert RestFits(tail, Subject);
        WalkMirrors(if !IsEllipsis(r1[0].arg) || tail == [] then r1[1..] else r1, tail);
      }
    }
  }

  /** Where both sides are placeholders, the subject's one is bound. */
  lemma SubjectSideWins(a: string, b: string)
    requires IsPlaceholderName(a) && !IsEllipsisName(a) && IsPlaceholderName(b)
    ensures MatchId(a, b) == MatchExpr(OfId(a), OfId(b)) == Matched([Binding(a, OfId(b))], [])
  {
    assert Core(OfId(a).first) == Prim(Id(a));
    assert Extract(OfId(b)) == OfId(b);
  }

  /** A string literal spelled like a placeholder is one. */
  lemma StringsArePlaceholders(e: Expr, text: string)
    requires Fits(e, Subject) && IsPlaceholderName(text) && !IsEllipsisName(text)
    ensures MatchExpr(e, OfPrimary(Str(text))) == Matched([Binding(text, Extract(e))], [])
  {
    SubjectHasNone(e.first);
    ExtractFits(e, Subject);
    SubjectHasNone(Extract(e).first);
    assert Core(OfPrimary(Str(text)).first) == Prim(Str(text));
    assert Core(OfId(text).first) == Prim(Id(text));
  }

  /** Nil as an operand is not taken by anything; as a whole expression it is. */
  lemma NilIsNotTaken(o: Operand, n: string)
    requires IsPlaceholderName(n) && !IsEllipsisName(n)
    ensures MatchOperand(NilOperand, o).NoMatch? && MatchOperand(Prim(NilPrimary), Prim(Id(n))).NoMatch?
    ensures MatchExpr(OfPrimary(NilPrimary), OfId(n)) == Matched([Binding(n, OfPrimary(NilPrimary))], [])
  {
    assert Core(OfId(n).first) == Prim(Id(n));
    assert Core(OfPrimary(NilPrimary).first) == Prim(NilPrimary);
  }

  /** A single operand matches no list of two or more, nor the other way round; not
      even where the list goes on with an ellipsis. */
  lemma SizesMustAgree(e1: Expr, e2: Expr)
    requires !ExprIsPlaceholder(e1) && !ExprIsPlaceholder(e2) && MatchExpr(e1, e2).Matched?
    ensures Extract(e1).rest == [] <==> Extract(e2).rest == []
  {}
}
