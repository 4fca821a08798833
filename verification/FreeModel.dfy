/** The model of terms, in which nothing is equal that need not be: what has the
    same value there has the same value in every model. */
module FreeModel {
  import opened Ast
  import opened Grouping
  import opened Semantics

  datatype Term =
    | NilTerm
    | LitTerm(value: Literal)
    | TextTerm(text: string)
    | NameTerm(name: string)
    | UnaryTerm(op: Op, arg: Term)
    | BinaryTerm(op: Op, left: Term, right: Term)
    | CallTerm(fun: string, attr: string, args: seq<Term>)
    | ListTerm(items: seq<Term>)

  function Free(): Model<Term> {
    Model(NilTerm, v => LitTerm(v), s => TextTerm(s), n => NameTerm(n),
      (op, x) => UnaryTerm(op, x), (op, x, y) => BinaryTerm(op, x, y),
      (f, a, xs) => CallTerm(f, a, xs), xs => ListTerm(xs))
  }

  /** What a term means in another model. */
  function Interp<V>(m: Model<V>, t: Term): V
    decreases t, 1
  {
    match t
    case NilTerm => m.nilValue
    case LitTerm(v) => m.lit(v)
    case TextTerm(s) => m.str(s)
    case NameTerm(n) => m.ident(n)
    case UnaryTerm(op, x) => m.unary(op, Interp(m, x))
    case BinaryTerm(op, x, y) => m.binary(op, Interp(m, x), Interp(m, y))
    case CallTerm(f, a, xs) => m.call(f, a, InterpAll(m, xs))
    case ListTerm(xs) => m.list(InterpAll(m, xs))
  }

  function InterpAll<V>(m: Model<V>, ts: seq<Term>): seq<V>
    decreases ts, 0
  {
    if ts == [] then [] else [Interp(m, ts[0])] + InterpAll(m, ts[1..])
  }

  function InterpItems<V>(m: Model<V>, items: seq<Item<Term>>): (r: seq<Item<V>>)
    ensures |r| == |items| && forall k | 0 <= k < |r| :: r[k] == Item(items[k].op, Interp(m, items[k].val))
  {
    seq(|items|, k requires 0 <= k < |items| => Item(items[k].op, Interp(m, items[k].val)))
  }

  lemma GroupInterp<V>(m: Model<V>, x: Term, items: seq<Item<Term>>)
    ensures Interp(m, Group(Free().binary, x, items)) == Group(m.binary, Interp(m, x), InterpItems(m, items))
  {
    var f, h := Free().binary, (t: Term) => Interp(m, t);
    forall op, y, z ensures Respects(f, m.binary, h, op, y, z) {}
    GroupMaps(f, m.binary, h, x, items, InterpItems(m, items));
  }

  /** Main result: every model is an image of the free one. */
  lemma {:induction false} ExprFactors<V>(m: Model<V>, e: Expr)
    ensures EvalExpr(m, NoBind(), e) == Interp(m, EvalExpr(Free(), NoBind(), e))
    decreases e, 1
  {
    OperandFactors(m, e.first);
    RestFactors(m, e.rest);
    GroupInterp(m, EvalOperand(Free(), NoBind(), e.first), EvalRest(Free(), NoBind(), e.rest));
  }

  lemma {:induction false} OperandFactors<V>(m: Model<V>, o: Operand)
    ensures EvalOperand(m, NoBind(), o) == Interp(m, EvalOperand(Free(), NoBind(), o))
    decreases o, 1
  {
    match o
    case Un(u) => OperandFactors(m, u.arg);
    case Prim(Paren(e)) => ExprFactors(m, e);
    case Prim(Apply(c)) => CallFactors(m, c);
    case Prim(List(es)) =>
      ArgsFactor(m, es);
      InterpList(m, EvalArgs(Free(), NoBind(), es));
    case _ =>
  }

  lemma {:induction false} CallFactors<V>(m: Model<V>, c: Call)
    ensures EvalOperand(m, NoBind(), Prim(Apply(c))) == Interp(m, EvalOperand(Free(), NoBind(), Prim(Apply(c))))
    decreases c, 1
  {
    ArgsFactor(m, c.args);
    InterpCall(m, c.name, c.attr, EvalArgs(Free(), NoBind(), c.args));
  }

  lemma InterpCall<V>(m: Model<V>, f: string, a: string, xs: seq<Term>)
    ensures Interp(m, Free().call(f, a, xs)) == m.call(f, a, InterpAll(m, xs))
  {}

  lemma InterpList<V>(m: Model<V>, xs: seq<Term>)
    ensures Interp(m, Free().list(xs)) == m.list(InterpAll(m, xs))
  {}

  lemma {:induction false} RestFactors<V>(m: Model<V>, ops: seq<Operation>)
    ensures EvalRest(m, NoBind(), ops) == InterpItems(m, EvalRest(Free(), NoBind(), ops))
    decreases ops, 0
  {
    forall k | 0 <= k < |ops|
      ensures EvalRest(m, NoBind(), ops)[k] == InterpItems(m, EvalRest(Free(), NoBind(), ops))[k]
    {
      ArgSmaller(ops[k]);
      OperandFactors(m, ops[k].arg);
    }
  }

  lemma {:induction false} ArgsFactor<V>(m: Model<V>, es: seq<Expr>)
    ensures EvalArgs(m, NoBind(), es) == InterpAll(m, EvalArgs(Free(), NoBind(), es))
    decreases es, 0
  {
    if es != [] {
      ExprFactors(m, es[0]);
      ArgsFactor(m, es[1..]);
    }
  }
}
