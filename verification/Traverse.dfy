/** Traversal of an expression in postfix order, and the stack machine that
    reads it back. */
module Traverse {
  import opened Ast
  import opened Grouping
  import opened Semantics

  datatype Atom = NilAtom | LitAtom(value: Literal) | NameAtom(name: string) | TextAtom(text: string)

  /** What a visitor sees that keeps every leaf and operator, and the end of
      every call and list. */
  datatype Token =
    | Push(atom: Atom)
    | Operator(op: Op)
    | EndCall(name: string, attr: string, count: nat)
    | EndList(count: nat)

  function Join(op: Op, left: seq<Token>, right: seq<Token>): seq<Token> {
    left + right + [Operator(op)]
  }

  // ---------------------------------------------------------------------
  // The postfix form: the grouping of the flat list, written operands first

  function Postfix(e: Expr): seq<Token>
    decreases e, 1
  {
    Group(Join, OperandPostfix(e.first), RestPostfix(e.rest))
  }

  function OperandPostfix(o: Operand): seq<Token>
    decreases o, 1
  {
    match o
    case NilOperand => [Push(NilAtom)]
    case Un(u) => OperandPostfix(u.arg) + [Operator(u.op)]
    case Prim(NilPrimary) => [Push(NilAtom)]
    case Prim(Lit(v)) => [Push(LitAtom(v))]
    case Prim(Id(n)) => [Push(NameAtom(n))]
    case Prim(Str(s)) => [Push(TextAtom(s))]
    case Prim(Paren(e)) => Postfix(e)
    case Prim(Apply(c)) =>
      CallHead(c) + ArgsPostfix(c.args) + [EndCall(c.name, c.attr, |c.args|)]
    case Prim(List(es)) => ArgsPostfix(es) + [EndList(|es|)]
  }

  /** A call visits its name, and its attribute if it has one, as leaves. */
  function CallHead(c: Call): seq<Token> {
    [Push(NameAtom(c.name))] + if c.attr == "" then [] else [Push(TextAtom(c.attr))]
  }

  function OperationPostfix(op: Operation): Item<seq<Token>>
    decreases op, 2
  {
    Item(op.op, OperandPostfix(op.arg))
  }

  function RestPostfix(ops: seq<Operation>): (r: seq<Item<seq<Token>>>)
    ensures |r| == |ops|
    ensures forall k | 0 <= k < |ops| :: r[k] == OperationPostfix(ops[k])
    decreases ops, 0
  {
    if ops == [] then [] else [OperationPostfix(ops[0])] + RestPostfix(ops[1..])
  }

  function ArgsPostfix(es: seq<Expr>): seq<Token>
    decreases es, 0
  {
    if es == [] then [] else Postfix(es[0]) + ArgsPostfix(es[1..])
  }

  // ---------------------------------------------------------------------
  // The traversal of the program

  lemma Assoc<T>(x: seq<T>, l: seq<T>, r: seq<T>, o: seq<T>)
    ensures x + l + r + o == x + (l + r + o)
  {}

  /** What already stands before the run does not matter to the tokens after it. */
  lemma {:induction false} JoinShifts(x: seq<Token>, items: seq<Item<seq<Token>>>)
    ensures Group(Join, x, items) == x + Group(Join, [], items)
    decreases |items|
  {
    if items != [] {
      var k := Lowest(items);
      JoinShifts(x, items[..k]);
      var l, r := Group(Join, [], items[..k]), Group(Join, items[k].val, items[k + 1..]);
      Assoc(x, l, r, [Operator(items[k].op)]);
    } else {
      assert x + [] == x;
    }
  }

  /** One more operator that is at most as tight as everything before it,
      with the tighter run that belongs to it. */
  lemma JoinNext(done: seq<Item<seq<Token>>>, it: Item<seq<Token>>, run: seq<Item<seq<Token>>>)
    requires AllAtLeast(done, Precedence(it.op)) && AllTighter(run, Precedence(it.op))
    ensures Group(Join, [], done + ([it] + run))
         == Group(Join, [], done) + (it.val + Group(Join, [], run)) + [Operator(it.op)]
  {
    GroupPrefix(Join, [], done, [it] + run);
    GroupHead(Join, Group(Join, [], done), it, run);
    JoinShifts(it.val, run);
  }

  /** The tokens of `ops[i..j]` when something already stands to their left. */
  ghost function Emitted(ops: seq<Operation>, i: nat, j: nat): seq<Token>
    requires i <= j <= |ops|
  {
    Group(Join, [], RestPostfix(ops[i..j]))
  }

  ghost predicate AtLeast(ops: seq<Operation>, i: nat, j: nat, prec: int)
    requires i <= j <= |ops|
  {
    forall k | i <= k < j :: Precedence(ops[k].op) >= prec
  }

  lemma SliceAtLeast(ops: seq<Operation>, i: nat, j: nat, prec: nat)
    requires i <= j <= |ops| && AtLeast(ops, i, j, prec)
    ensures AllAtLeast(RestPostfix(ops[i..j]), prec)
    ensures prec > 0 ==> AllTighter(RestPostfix(ops[i..j]), prec - 1)
  {
    var items := RestPostfix(ops[i..j]);
    forall k | 0 <= k < |items| ensures Precedence(items[k].op) >= prec { assert ops[i..j][k] == ops[i + k]; }
  }

  lemma RestAppend(x: seq<Operation>, y: seq<Operation>)
    ensures RestPostfix(x + y) == RestPostfix(x) + RestPostfix(y)
  {}

  lemma Slices(ops: seq<Operation>, i: nat, c: nat, j: nat)
    requires i <= c <= j <= |ops|
    ensures ops[i..j] == ops[i..c] + ops[c..j]
    ensures c < j ==> ops[c..j] == [ops[c]] + ops[c + 1..j]
  {}

  lemma SliceJoins(ops: seq<Operation>, i: nat, c: nat, j: nat)
    requires i <= c < j <= |ops|
    ensures RestPostfix(ops[i..j])
         == RestPostfix(ops[i..c]) + ([OperationPostfix(ops[c])] + RestPostfix(ops[c + 1..j]))
  {
    Slices(ops, i, c, j);
    RestAppend(ops[i..c], ops[c..j]);
    assert ([ops[c]] + ops[c + 1..j])[1..] == ops[c + 1..j];
  }

  lemma EmittedNext(ops: seq<Operation>, i: nat, c: nat, j: nat)
    requires i <= c < j <= |ops|
    requires AtLeast(ops, i, c, Precedence(ops[c].op)) && AtLeast(ops, c + 1, j, Precedence(ops[c].op) + 1)
    ensures Emitted(ops, i, j)
         == Emitted(ops, i, c) + (OperandPostfix(ops[c].arg) + Emitted(ops, c + 1, j)) + [Operator(ops[c].op)]
  {
    var p := Precedence(ops[c].op);
    SliceAtLeast(ops, i, c, p);
    SliceAtLeast(ops, c + 1, j, p + 1);
    SliceJoins(ops, i, c, j);
    JoinNext(RestPostfix(ops[i..c]), OperationPostfix(ops[c]), RestPostfix(ops[c + 1..j]));
  }

  lemma EmittedAppend(ops: seq<Operation>, i: nat, c: nat, j: nat)
    requires i <= c <= j <= |ops|
    requires c < j ==> AtLeast(ops, i, c, Precedence(ops[c].op))
    ensures Emitted(ops, i, j) == Emitted(ops, i, c) + Emitted(ops, c, j)
  {
    var a, b := RestPostfix(ops[i..c]), RestPostfix(ops[c..j]);
    Slices(ops, i, c, j);
    RestAppend(ops[i..c], ops[c..j]);
    if c < j { SliceAtLeast(ops, i, c, Precedence(ops[c].op)); }
    GroupPrefix(Join, [], a, b);
    JoinShifts(Group(Join, [], a), b);
  }

  /** `out` is what the operations from `it` up to `j` emit; the next one, if
      any, is no tighter than any of them. */
  ghost predicate Climbed(ops: seq<Operation>, it: nat, j: nat, min: int, out: seq<Token>) {
    && it <= j <= |ops| && out == Emitted(ops, it, j)
    && AtLeast(ops, it, j, min)
    && (j < |ops| ==> AtLeast(ops, it, j, Precedence(ops[j].op)))
  }

  lemma ClimbNext(ops: seq<Operation>, it: nat, c: nat, j: nat, min: int, out: seq<Token>, run: seq<Token>)
    requires c < |ops| && Climbed(ops, it, c, min, out) && Precedence(ops[c].op) >= min
    requires c < j <= |ops| && run == Emitted(ops, c + 1, j) && AtLeast(ops, c + 1, j, Precedence(ops[c].op) + 1)
    requires j < |ops| ==> Precedence(ops[j].op) <= Precedence(ops[c].op)
    ensures Climbed(ops, it, j, min, out + (OperandPostfix(ops[c].arg) + run) + [Operator(ops[c].op)])
  {
    EmittedNext(ops, it, c, j);
  }

  /** Precedence climbing.  `level` counts the nested calls: it never passes
      the minimum precedence, so nesting stops at the number of levels. */
  method TraverseExpression(min: nat, ops: seq<Operation>, it: nat, ghost level: nat)
    returns (out: seq<Token>, it': nat)
    requires it < |ops| && level <= min <= MAX_PRECEDENCE
    ensures it <= it' <= |ops| && out == Emitted(ops, it, it')
    ensures AtLeast(ops, it, it', min)
    ensures it' < |ops| ==> Precedence(ops[it'].op) < min
    ensures Precedence(ops[it].op) >= min ==> it < it'
    decreases ops, 0, |ops| - it, 1
  {
    out, it' := [], it;
    while it' < |ops| && Precedence(ops[it'].op) >= min
      invariant Climbed(ops, it, it', min, out)
      decreases |ops| - it'
    {
      ghost var c, before := it', out;
      var curr := ops[it'];
      ArgSmaller(curr);
      var operand := TraverseOperand(curr.arg);
      var run;
      run, it' := TraverseTighter(ops, it', level);
      ClimbNext(ops, it, c, it', min, before, run);
      out := out + (operand + run) + [Operator(curr.op)];
    }
  }

  /** The inner loop: every tighter operation after the one at `c`. */
  method TraverseTighter(ops: seq<Operation>, c: nat, ghost level: nat) returns (run: seq<Token>, it': nat)
    requires c < |ops| && level <= Precedence(ops[c].op)
    ensures c < it' <= |ops| && run == Emitted(ops, c + 1, it')
    ensures AtLeast(ops, c + 1, it', Precedence(ops[c].op) + 1)
    ensures it' < |ops| ==> Precedence(ops[it'].op) <= Precedence(ops[c].op)
    decreases ops, 0, |ops| - c, 0
  {
    run, it' := [], c + 1;
    var prec := Precedence(ops[c].op);
    while it' < |ops| && Precedence(ops[it'].op) > prec
      invariant c < it' <= |ops| && run == Emitted(ops, c + 1, it')
      invariant AtLeast(ops, c + 1, it', prec + 1)
      invariant it' < |ops| ==> AtLeast(ops, c + 1, it', Precedence(ops[it'].op))
      decreases |ops| - it'
    {
      ghost var a := it';
      var inner;
      inner, it' := TraverseExpression(Precedence(ops[it'].op), ops, it', level + 1);
      EmittedAppend(ops, c + 1, a, it');
      run := run + inner;
    }
  }

  method TraverseExpr(e: Expr) returns (out: seq<Token>)
    ensures out == Postfix(e)
    decreases e, 1
  {
    out := TraverseOperand(e.first);
    JoinShifts(out, RestPostfix(e.rest));
    if e.rest != [] {
      ghost var head := out;
      var rest, it := TraverseExpression(0, e.rest, 0, 0);
      assert e.rest[0..it] == e.rest;
      out := out + rest;
    }
  }

  method TraverseOperand(o: Operand) returns (out: seq<Token>)
    ensures out == OperandPostfix(o)
    decreases o, 1
  {
    match o {
      case NilOperand => out := [Push(NilAtom)];
      case Un(u) =>
        out := TraverseOperand(u.arg);
        out := out + [Operator(u.op)];
      case Prim(NilPrimary) => out := [Push(NilAtom)];
      case Prim(Lit(v)) => out := [Push(LitAtom(v))];
      case Prim(Id(n)) => out := [Push(NameAtom(n))];
      case Prim(Str(s)) => out := [Push(TextAtom(s))];
      case Prim(Paren(e)) => out := TraverseExpr(e);
      case Prim(Apply(c)) =>
        var args := TraverseArgs(c.args);
        out := CallHead(c) + args + [EndCall(c.name, c.attr, |c.args|)];
      case Prim(List(es)) =>
        out := TraverseArgs(es);
        out := out + [EndList(|es|)];
    }
  }

  method TraverseArgs(es: seq<Expr>) returns (out: seq<Token>)
    ensures out == ArgsPostfix(es)
    decreases es, 0
  {
    out := [];
    assert es[0..] == es;
    for i := 0 to |es|
      invariant out + ArgsPostfix(es[i..]) == ArgsPostfix(es)
    {
      assert es[i..][1..] == es[i + 1..];
      var arg := TraverseExpr(es[i]);
      assert out + (arg + ArgsPostfix(es[i + 1..])) == out + arg + ArgsPostfix(es[i + 1..]);
      out := out + arg;
    }
    assert out + [] == out;
  }

  // ---------------------------------------------------------------------
  // The stack machine

  function AtomValue<V>(m: Model<V>, a: Atom): V {
    match a
    case NilAtom => m.nilValue
    case LitAtom(v) => m.lit(v)
    case NameAtom(n) => m.ident(n)
    case TextAtom(s) => m.str(s)
  }

  /** One token on a stack whose top is its last element. */
  function Step<V>(m: Model<V>, t: Token, st: seq<V>): seq<V> {
    var n := |st|;
    match t
    case Push(a) => st + [AtomValue(m, a)]
    case Operator(op) =>
      if IsUnaryOp(op) then if n < 1 then [] else st[..n - 1] + [m.unary(op, st[n - 1])]
      else if n < 2 then [] else st[..n - 2] + [m.binary(op, st[n - 2], st[n - 1])]
    case EndCall(f, attr, count) =>
      var heads := if attr == "" then 1 else 2;
      if n < count + heads then []
      else st[..n - count - heads] + [m.call(f, attr, st[n - count..])]
    case EndList(count) =>
      if n < count then [] else st[..n - count] + [m.list(st[n - count..])]
  }

  function Run<V>(m: Model<V>, ts: seq<Token>, st: seq<V>): seq<V> {
    if ts == [] then st else Run(m, ts[1..], Step(m, ts[0], st))
  }

  lemma {:induction false} RunAppend<V>(m: Model<V>, a: seq<Token>, b: seq<Token>, st: seq<V>)
    ensures Run(m, a + b, st) == Run(m, b, Run(m, a, st))
    decreases |a|
  {
    if a == [] {
      assert a + b == b;
    } else {
      assert (a + b)[1..] == a[1..] + b;
      RunAppend(m, a[1..], b, Step(m, a[0], st));
    }
  }

  lemma RunOne<V>(m: Model<V>, t: Token, st: seq<V>)
    ensures Run(m, [t], st) == Step(m, t, st)
  {
    assert [t][1..] == [];
  }

  /** The grammar spells unary and binary operators with different tokens. */
  predicate Spelled(e: Expr)
    decreases e, 1
  {
    OperandSpelled(e.first) && RestSpelled(e.rest)
  }

  predicate OperandSpelled(o: Operand)
    decreases o, 1
  {
    match o
    case Un(u) => IsUnaryOp(u.op) && OperandSpelled(u.arg)
    case Prim(Paren(e)) => Spelled(e)
    case Prim(Apply(c)) => AllSpelled(c.args)
    case Prim(List(es)) => AllSpelled(es)
    case _ => true
  }

  predicate OperationSpelled(op: Operation)
    decreases op, 2
  {
    !IsUnaryOp(op.op) && OperandSpelled(op.arg)
  }

  predicate RestSpelled(ops: seq<Operation>)
    decreases ops, 0
  {
    ops == [] || (OperationSpelled(ops[0]) && RestSpelled(ops[1..]))
  }

  predicate AllSpelled(es: seq<Expr>)
    decreases es, 0
  {
    es == [] || (Spelled(es[0]) && AllSpelled(es[1..]))
  }

  /** `ts` leaves exactly one more value on any stack. */
  ghost predicate Leaves<V(!new)>(m: Model<V>, ts: seq<Token>, v: V) {
    forall st: seq<V> :: Run(m, ts, st) == st + [v]
  }

  lemma BinaryLeaves<V(!new)>(m: Model<V>, a: seq<Token>, x: V, b: seq<Token>, y: V, op: Op)
    requires Leaves(m, a, x) && Leaves(m, b, y) && !IsUnaryOp(op)
    ensures Leaves(m, Join(op, a, b), m.binary(op, x, y))
  {
    forall st: seq<V> ensures Run(m, Join(op, a, b), st) == st + [m.binary(op, x, y)] {
      RunAppend(m, a + b, [Operator(op)], st);
      RunAppend(m, a, b, st);
      var top := st + [x] + [y];
      RunOne(m, Operator(op), top);
      assert top[..|top| - 2] == st;
    }
  }

  /** Token lists and values of the same flat list. */
  ghost predicate Alike<V(!new)>(m: Model<V>, items: seq<Item<seq<Token>>>, vals: seq<Item<V>>) {
    && |items| == |vals|
    && forall k | 0 <= k < |items| ::
         items[k].op == vals[k].op && !IsUnaryOp(items[k].op) && Leaves(m, items[k].val, vals[k].val)
  }

  lemma AlikeAt<V(!new)>(m: Model<V>, items: seq<Item<seq<Token>>>, vals: seq<Item<V>>, k: nat)
    requires Alike(m, items, vals) && IsLowest(items, k)
    ensures Lowest(vals) == k
    ensures Alike(m, items[..k], vals[..k]) && Alike(m, items[k + 1..], vals[k + 1..])
  {
    assert IsLowest(vals, k);
  }

  lemma {:induction false} GroupLeaves<V(!new)>(
      m: Model<V>, ts: seq<Token>, x: V, items: seq<Item<seq<Token>>>, vals: seq<Item<V>>)
    requires Leaves(m, ts, x) && Alike(m, items, vals)
    ensures Leaves(m, Group(Join, ts, items), Group(m.binary, x, vals))
    decreases |items|
  {
    if items != [] {
      var k := Lowest(items);
      AlikeAt(m, items, vals, k);
      GroupLeaves(m, ts, x, items[..k], vals[..k]);
      GroupLeaves(m, items[k].val, vals[k].val, items[k + 1..], vals[k + 1..]);
      BinaryLeaves(m, Group(Join, ts, items[..k]), Group(m.binary, x, vals[..k]),
        Group(Join, items[k].val, items[k + 1..]), Group(m.binary, vals[k].val, vals[k + 1..]), items[k].op);
    }
  }

  /** Main result: running the traversal of an expression leaves one value,
      the value of the expression. */
  lemma {:induction false} PostfixEvaluates<V(!new)>(m: Model<V>, e: Expr)
    requires Spelled(e)
    ensures Leaves(m, Postfix(e), EvalExpr(m, NoBind(), e))
    decreases e, 1
  {
    OperandEvaluates(m, e.first);
    RestEvaluates(m, e.rest);
    GroupLeaves(m, OperandPostfix(e.first), EvalOperand(m, NoBind(), e.first),
      RestPostfix(e.rest), EvalRest(m, NoBind(), e.rest));
  }

  lemma {:induction false} OperandEvaluates<V(!new)>(m: Model<V>, o: Operand)
    requires OperandSpelled(o)
    ensures Leaves(m, OperandPostfix(o), EvalOperand(m, NoBind(), o))
    decreases o, 1
  {
    match o
    case Un(u) =>
      OperandEvaluates(m, u.arg);
      UnaryLeaves(m, OperandPostfix(u.arg), EvalOperand(m, NoBind(), u.arg), u.op);
    case Prim(Paren(e)) => PostfixEvaluates(m, e);
    case Prim(Apply(c)) => CallEvaluates(m, c);
    case Prim(List(es)) => ListEvaluates(m, es);
    case _ =>
      forall st: seq<V> ensures Run(m, OperandPostfix(o), st) == st + [EvalOperand(m, NoBind(), o)] {
        RunOne(m, OperandPostfix(o)[0], st);
      }
  }

  lemma UnaryLeaves<V(!new)>(m: Model<V>, ts: seq<Token>, x: V, op: Op)
    requires Leaves(m, ts, x) && IsUnaryOp(op)
    ensures Leaves(m, ts + [Operator(op)], m.unary(op, x))
  {
    forall st: seq<V> ensures Run(m, ts + [Operator(op)], st) == st + [m.unary(op, x)] {
      RunAppend(m, ts, [Operator(op)], st);
      RunOne(m, Operator(op), st + [x]);
    }
  }

  lemma {:induction false} ListEvaluates<V(!new)>(m: Model<V>, es: seq<Expr>)
    requires AllSpelled(es)
    ensures Leaves(m, OperandPostfix(Prim(List(es))), m.list(EvalArgs(m, NoBind(), es)))
    decreases es, 1
  {
    var args := EvalArgs(m, NoBind(), es);
    forall st: seq<V> ensures Run(m, ArgsPostfix(es) + [EndList(|es|)], st) == st + [m.list(args)] {
      ArgsEvaluate(m, es, st);
      RunAppend(m, ArgsPostfix(es), [EndList(|es|)], st);
      var top := st + args;
      RunOne(m, EndList(|es|), top);
      assert top[..|top| - |es|] == st && top[|top| - |es|..] == args;
    }
  }

  lemma {:induction false} CallEvaluates<V(!new)>(m: Model<V>, c: Call)
    requires AllSpelled(c.args)
    ensures Leaves(m, OperandPostfix(Prim(Apply(c))), EvalOperand(m, NoBind(), Prim(Apply(c))))
    decreases c, 1
  {
    var args, end := EvalArgs(m, NoBind(), c.args), EndCall(c.name, c.attr, |c.args|);
    forall st: seq<V>
      ensures Run(m, OperandPostfix(Prim(Apply(c))), st) == st + [EvalOperand(m, NoBind(), Prim(Apply(c)))]
    {
      var head := HeadRuns(m, c, st);
      RunAppend(m, CallHead(c) + ArgsPostfix(c.args), [end], st);
      RunAppend(m, CallHead(c), ArgsPostfix(c.args), st);
      ArgsEvaluate(m, c.args, st + head);
      var top := st + head + args;
      RunOne(m, end, top);
      assert top[..|top| - |args| - |head|] == st && top[|top| - |args|..] == args;
    }
  }

  lemma HeadRuns<V>(m: Model<V>, c: Call, st: seq<V>) returns (head: seq<V>)
    ensures |head| == if c.attr == "" then 1 else 2
    ensures Run(m, CallHead(c), st) == st + head
  {
    var name, text := Push(NameAtom(c.name)), Push(TextAtom(c.attr));
    RunOne(m, name, st);
    if c.attr == "" {
      head := [m.ident(c.name)];
      assert CallHead(c) == [name];
    } else {
      head := [m.ident(c.name), m.str(c.attr)];
      RunAppend(m, [name], [text], st);
      RunOne(m, text, st + [m.ident(c.name)]);
    }
  }

  lemma {:induction false} RestEvaluates<V(!new)>(m: Model<V>, ops: seq<Operation>)
    requires RestSpelled(ops)
    ensures Alike(m, RestPostfix(ops), EvalRest(m, NoBind(), ops))
    decreases ops, 0
  {
    if ops != [] {
      ArgSmaller(ops[0]);
      OperandEvaluates(m, ops[0].arg);
      RestEvaluates(m, ops[1..]);
      AlikeFront(m, OperationPostfix(ops[0]), EvalOperation(m, NoBind(), ops[0]),
        RestPostfix(ops[1..]), EvalRest(m, NoBind(), ops[1..]));
    }
  }

  lemma AlikeFront<V(!new)>(
      m: Model<V>, it: Item<seq<Token>>, v: Item<V>, items: seq<Item<seq<Token>>>, vals: seq<Item<V>>)
    requires it.op == v.op && !IsUnaryOp(it.op) && Leaves(m, it.val, v.val) && Alike(m, items, vals)
    ensures Alike(m, [it] + items, [v] + vals)
  {}

  lemma {:induction false} ArgsEvaluate<V(!new)>(m: Model<V>, es: seq<Expr>, st: seq<V>)
    requires AllSpelled(es)
    ensures Run(m, ArgsPostfix(es), st) == st + EvalArgs(m, NoBind(), es)
    decreases es, 0
  {
    if es != [] {
      PostfixEvaluates(m, es[0]);
      var v, rest := EvalExpr(m, NoBind(), es[0]), EvalArgs(m, NoBind(), es[1..]);
      RunAppend(m, Postfix(es[0]), ArgsPostfix(es[1..]), st);
      assert Run(m, Postfix(es[0]), st) == st + [v];
      ArgsEvaluate(m, es[1..], st + [v]);
      PushFront(st, v, rest);
    }
  }
}
