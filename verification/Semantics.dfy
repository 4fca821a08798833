/** The value of an expression in an arbitrary model: operators, literals and
    calls are uninterpreted, calls are pure.  Placeholders take their value
    (or, in function position, their function name) from a `Bind`. */
module Semantics {
  import opened Ast
  import opened Grouping

  datatype Model<!V> = Model(
    nilValue: V,
    lit: Literal -> V,
    str: string -> V,
    ident: string -> V,
    unary: (Op, V) -> V,
    binary: (Op, V, V) -> V,
    call: (string, string, seq<V>) -> V,
    list: seq<V> -> V)

  datatype Bind<+V> = Bind(vals: map<string, V>, funs: map<string, string>)

  function NoBind<V>(): Bind<V> { Bind(map[], map[]) }

  /** Only placeholders are ever bound. */
  ghost predicate BindsPlaceholders<V>(b: Bind<V>) {
    && (forall n | n in b.vals :: IsPlaceholderName(n))
    && (forall n | n in b.funs :: IsPlaceholderName(n))
  }

  function IdValue<V>(m: Model<V>, b: Bind<V>, name: string): V {
    if name in b.vals then b.vals[name] else m.ident(name)
  }

  function FunName<V>(b: Bind<V>, name: string): string {
    if name in b.funs then b.funs[name] else name
  }

  function EvalExpr<V>(m: Model<V>, b: Bind<V>, e: Expr): V
    decreases e, 1
  {
    Group(m.binary, EvalOperand(m, b, e.first), EvalRest(m, b, e.rest))
  }

  function EvalOperand<V>(m: Model<V>, b: Bind<V>, o: Operand): V
    decreases o, 1
  {
    match o
    case NilOperand => m.nilValue
    case Un(u) => m.unary(u.op, EvalOperand(m, b, u.arg))
    case Prim(NilPrimary) => m.nilValue
    case Prim(Lit(v)) => m.lit(v)
    case Prim(Id(n)) => IdValue(m, b, n)
    case Prim(Str(s)) => m.str(s)
    case Prim(Paren(e)) => EvalExpr(m, b, e)
    case Prim(Apply(c)) => m.call(FunName(b, c.name), c.attr, EvalArgs(m, b, c.args))
    case Prim(List(es)) => m.list(EvalArgs(m, b, es))
  }

  function EvalOperation<V>(m: Model<V>, b: Bind<V>, op: Operation): Item<V>
    decreases op, 2
  {
    Item(op.op, EvalOperand(m, b, op.arg))
  }

  function EvalRest<V>(m: Model<V>, b: Bind<V>, ops: seq<Operation>): (r: seq<Item<V>>)
    ensures |r| == |ops|
    ensures forall k | 0 <= k < |ops| :: r[k] == EvalOperation(m, b, ops[k])
    decreases ops, 0
  {
    if ops == [] then [] else [EvalOperation(m, b, ops[0])] + EvalRest(m, b, ops[1..])
  }

  function EvalArgs<V>(m: Model<V>, b: Bind<V>, es: seq<Expr>): (r: seq<V>)
    ensures |r| == |es|
    ensures forall k | 0 <= k < |es| :: r[k] == EvalExpr(m, b, es[k])
    decreases es, 0
  {
    if es == [] then [] else [EvalExpr(m, b, es[0])] + EvalArgs(m, b, es[1..])
  }

  lemma EvalRestAppend<V>(m: Model<V>, b: Bind<V>, x: seq<Operation>, y: seq<Operation>)
    ensures EvalRest(m, b, x + y) == EvalRest(m, b, x) + EvalRest(m, b, y)
  {}

  /** Parentheses around a single operand are transparent. */
  lemma {:induction false} EvalCore<V>(m: Model<V>, b: Bind<V>, o: Operand)
    ensures EvalOperand(m, b, Core(o)) == EvalOperand(m, b, o)
    decreases o
  {
    if o.Prim? && o.p.Paren? && o.p.e.rest == [] {
      EvalCore(m, b, o.p.e.first);
    }
  }

  lemma {:induction false} EvalExtract<V>(m: Model<V>, b: Bind<V>, e: Expr)
    ensures EvalExpr(m, b, Extract(e)) == EvalExpr(m, b, e)
    decreases e
  {
    if e.rest == [] && e.first.Prim? && e.first.p.Paren? {
      EvalExtract(m, b, e.first.p.e);
    }
  }

  // ---------------------------------------------------------------------
  // What may occur in an expression

  /** Vocabularies: `Subject` is what gets rewritten, `Pattern` the left side of
      a rule, `Template` a right side whose placeholders are all bound by the
      left side (`funs` in function position), `Plain` anything.  Every one of
      them leaves call attributes empty. */
  datatype Role = Subject | Pattern | Template(ids: set<string>, funs: set<string>) | Plain

  predicate IdOk(r: Role, n: string) {
    match r
    case Subject => !IsPlaceholderName(n)
    case Pattern => !IsEllipsisName(n)
    case Template(ids, _) => IsPlaceholderName(n) ==> n in ids
    case Plain => true
  }

  predicate FunOk(r: Role, n: string) {
    match r
    case Subject => !IsPlaceholderName(n) && n != ""
    case Pattern => !IsEllipsisName(n)
    case Template(_, funs) => (IsPlaceholderName(n) ==> n in funs) && n != ""
    case Plain => true
  }

  predicate StrOk(r: Role, s: string) {
    r.Plain? || !IsPlaceholderName(s)
  }

  predicate Fits(e: Expr, r: Role)
    decreases e, 1
  {
    OperandFits(e.first, r) && RestFits(e.rest, r)
  }

  predicate OperandFits(o: Operand, r: Role)
    decreases o, 1
  {
    match o
    case Un(u) => OperandFits(u.arg, r)
    case Prim(Id(n)) => IdOk(r, n)
    case Prim(Str(s)) => StrOk(r, s)
    case Prim(Paren(e)) => Fits(e, r)
    case Prim(Apply(c)) => FunOk(r, c.name) && c.attr == "" && AllFit(c.args, r)
    case Prim(List(es)) => AllFit(es, r)
    case _ => true
  }

  predicate OperationFits(op: Operation, r: Role)
    decreases op, 2
  {
    OperandFits(op.arg, r)
  }

  predicate RestFits(ops: seq<Operation>, r: Role)
    decreases ops, 0
  {
    forall k | 0 <= k < |ops| :: OperationFits(ops[k], r)
  }

  predicate AllFit(es: seq<Expr>, r: Role)
    decreases es, 0
  {
    forall k | 0 <= k < |es| :: Fits(es[k], r)
  }

  lemma {:induction false} CoreFits(o: Operand, r: Role)
    requires OperandFits(o, r)
    ensures OperandFits(Core(o), r)
    decreases o
  {
    if o.Prim? && o.p.Paren? && o.p.e.rest == [] {
      CoreFits(o.p.e.first, r);
    }
  }

  lemma {:induction false} ExtractFits(e: Expr, r: Role)
    requires Fits(e, r)
    ensures Fits(Extract(e), r)
    decreases e
  {
    if e.rest == [] && e.first.Prim? && e.first.p.Paren? {
      ExtractFits(e.first.p.e, r);
    }
  }

  /** A subject operand is never taken for a placeholder. */
  lemma SubjectHasNone(o: Operand)
    requires OperandFits(o, Subject)
    ensures !IsPlaceholder(o) && !IsEllipsis(o)
  {
    CoreFits(o, Subject);
  }

  lemma PatternHasNoEllipsis(o: Operand)
    requires OperandFits(o, Pattern)
    ensures !IsEllipsis(o)
    ensures IsPlaceholder(o) ==> Core(o).Prim? && Core(o).p.Id?
  {
    CoreFits(o, Pattern);
  }
}
