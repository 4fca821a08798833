/** A traversal visits everything exactly once, and the operands in source order. */
module Visits {
  import opened Ast
  import opened Grouping
  import opened Traverse

  /** The leaves of a token list, in order. */
  function Atoms(ts: seq<Token>): seq<Atom> {
    if ts == [] then [] else (if ts[0].Push? then [ts[0].atom] else []) + Atoms(ts[1..])
  }

  function Operators(ts: seq<Token>): multiset<Op> {
    if ts == [] then multiset{} else (if ts[0].Operator? then multiset{ts[0].op} else multiset{}) + Operators(ts[1..])
  }

  lemma {:induction false} VisitAppend(a: seq<Token>, b: seq<Token>)
    ensures Atoms(a + b) == Atoms(a) + Atoms(b)
    ensures Operators(a + b) == Operators(a) + Operators(b)
    decreases |a|
  {
    if a == [] {
      assert a + b == b;
    } else {
      assert (a + b)[1..] == a[1..] + b;
      VisitAppend(a[1..], b);
    }
  }

  function ItemAtoms(items: seq<Item<seq<Token>>>): seq<Atom> {
    if items == [] then [] else Atoms(items[0].val) + ItemAtoms(items[1..])
  }

  function ItemOperators(items: seq<Item<seq<Token>>>): multiset<Op> {
    if items == [] then multiset{}
    else multiset{items[0].op} + Operators(items[0].val) + ItemOperators(items[1..])
  }

  lemma Shifted<T>(s: seq<T>, k: nat)
    requires 0 < k < |s|
    ensures s[1..][..k - 1] == s[..k][1..] && s[1..][k - 1] == s[k] && s[1..][k..] == s[k + 1..] && s[..k][0] == s[0]
  {}

  lemma {:induction false} ItemsSplit(items: seq<Item<seq<Token>>>, k: nat)
    requires k < |items|
    ensures ItemAtoms(items) == ItemAtoms(items[..k]) + (Atoms(items[k].val) + ItemAtoms(items[k + 1..]))
    ensures ItemOperators(items)
         == ItemOperators(items[..k]) + multiset{items[k].op} + (Operators(items[k].val) + ItemOperators(items[k + 1..]))
    decreases k
  {
    if k > 0 {
      ItemsSplit(items[1..], k - 1);
      Shifted(items, k);
      FirstAtoms(items[..k]);
      FirstOperators(items[..k]);
      var it, left, mid, right := items[0], items[..k][1..], items[k], items[k + 1..];
      SeqAssoc(Atoms(it.val), ItemAtoms(left), Atoms(mid.val) + ItemAtoms(right));
    } else {
      assert items[..0] == [];
    }
  }

  lemma FirstAtoms(items: seq<Item<seq<Token>>>)
    requires items != []
    ensures ItemAtoms(items) == Atoms(items[0].val) + ItemAtoms(items[1..])
  {}

  lemma FirstOperators(items: seq<Item<seq<Token>>>)
    requires items != []
    ensures ItemOperators(items) == multiset{items[0].op} + Operators(items[0].val) + ItemOperators(items[1..])
  {}

  /** Main result: postfix order keeps the operands of a flat list in source
      order, each once, and emits every operator exactly once. */
  lemma {:induction false} VisitsInOrder(x: seq<Token>, items: seq<Item<seq<Token>>>)
    ensures Atoms(Group(Join, x, items)) == Atoms(x) + ItemAtoms(items)
    ensures Operators(Group(Join, x, items)) == Operators(x) + ItemOperators(items)
    decreases |items|
  {
    if items == [] {
      assert Atoms(x) + [] == Atoms(x);
    } else {
      var k := Lowest(items);
      var l, r := Group(Join, x, items[..k]), Group(Join, items[k].val, items[k + 1..]);
      VisitsInOrder(x, items[..k]);
      VisitsInOrder(items[k].val, items[k + 1..]);
      VisitJoin(items[k].op, l, r);
      ItemsSplit(items, k);
      SeqAssoc(Atoms(x), ItemAtoms(items[..k]), Atoms(r));
      BagAssoc(Operators(x), ItemOperators(items[..k]), multiset{items[k].op}, Operators(r));
    }
  }

  lemma SeqAssoc<T>(a: seq<T>, b: seq<T>, c: seq<T>)
    ensures a + b + c == a + (b + c)
  {}

  lemma BagAssoc<T>(a: multiset<T>, b: multiset<T>, c: multiset<T>, d: multiset<T>)
    ensures a + b + c + d == a + (b + c + d)
  {}

  lemma VisitJoin(op: Op, a: seq<Token>, b: seq<Token>)
    ensures Atoms(Join(op, a, b)) == Atoms(a) + Atoms(b)
    ensures Operators(Join(op, a, b)) == Operators(a) + multiset{op} + Operators(b)
  {
    VisitAppend(a + b, [Operator(op)]);
    VisitAppend(a, b);
    assert [Operator(op)][1..] == [];
  }

  // ---------------------------------------------------------------------
  // Whole expressions

  /** The leaves of an expression as they stand, left to right. */
  function AtomsOf(e: Expr): seq<Atom>
    decreases e, 1
  {
    OperandAtoms(e.first) + RestAtoms(e.rest)
  }

  function OperandAtoms(o: Operand): seq<Atom>
    decreases o, 1
  {
    match o
    case NilOperand => [NilAtom]
    case Un(u) => OperandAtoms(u.arg)
    case Prim(NilPrimary) => [NilAtom]
    case Prim(Lit(v)) => [LitAtom(v)]
    case Prim(Id(n)) => [NameAtom(n)]
    case Prim(Str(s)) => [TextAtom(s)]
    case Prim(Paren(e)) => AtomsOf(e)
    case Prim(Apply(c)) =>
      [NameAtom(c.name)] + (if c.attr == "" then [] else [TextAtom(c.attr)]) + ArgsAtoms(c.args)
    case Prim(List(es)) => ArgsAtoms(es)
  }

  function OperationAtoms(op: Operation): seq<Atom>
    decreases op, 2
  {
    OperandAtoms(op.arg)
  }

  function RestAtoms(ops: seq<Operation>): seq<Atom>
    decreases ops, 0
  {
    if ops == [] then [] else OperationAtoms(ops[0]) + RestAtoms(ops[1..])
  }

  function ArgsAtoms(es: seq<Expr>): seq<Atom>
    decreases es, 0
  {
    if es == [] then [] else AtomsOf(es[0]) + ArgsAtoms(es[1..])
  }

  /** All operators of an expression, binary and unary, at any depth. */
  function OperatorsOf(e: Expr): multiset<Op>
    decreases e, 1
  {
    OperandOperators(e.first) + RestOperators(e.rest)
  }

  function OperandOperators(o: Operand): multiset<Op>
    decreases o, 1
  {
    match o
    case Un(u) => OperandOperators(u.arg) + multiset{u.op}
    case Prim(Paren(e)) => OperatorsOf(e)
    case Prim(Apply(c)) => ArgsOperators(c.args)
    case Prim(List(es)) => ArgsOperators(es)
    case _ => multiset{}
  }

  function OperationOperators(op: Operation): multiset<Op>
    decreases op, 2
  {
    multiset{op.op} + OperandOperators(op.arg)
  }

  function RestOperators(ops: seq<Operation>): multiset<Op>
    decreases ops, 0
  {
    if ops == [] then multiset{} else OperationOperators(ops[0]) + RestOperators(ops[1..])
  }

  function ArgsOperators(es: seq<Expr>): multiset<Op>
    decreases es, 0
  {
    if es == [] then multiset{} else OperatorsOf(es[0]) + ArgsOperators(es[1..])
  }

  /** Main result: the traversal of an expression visits all its leaves in source
      order and all its operators, each once, at whatever depth they stand. */
  lemma {:induction false} VisitsAll(e: Expr)
    ensures Atoms(Postfix(e)) == AtomsOf(e) && Operators(Postfix(e)) == OperatorsOf(e)
    decreases e, 1
  {
    OperandVisits(e.first);
    RestVisits(e.rest);
    VisitsInOrder(OperandPostfix(e.first), RestPostfix(e.rest));
  }

  lemma {:induction false} OperandVisits(o: Operand)
    ensures Atoms(OperandPostfix(o)) == OperandAtoms(o) && Operators(OperandPostfix(o)) == OperandOperators(o)
    decreases o, 1
  {
    match o
    case NilOperand =>
    case Un(u) =>
      OperandVisits(u.arg);
      VisitAppend(OperandPostfix(u.arg), [Operator(u.op)]);
      VisitOne(Operator(u.op));
    case Prim(Paren(e)) => VisitsAll(e);
    case Prim(Apply(c)) => CallVisits(c);
    case Prim(List(es)) => ListVisits(es);
    case _ => VisitOne(OperandPostfix(o)[0]);
  }

  lemma {:induction false} ListVisits(es: seq<Expr>)
    ensures Atoms(OperandPostfix(Prim(List(es)))) == ArgsAtoms(es)
    ensures Operators(OperandPostfix(Prim(List(es)))) == ArgsOperators(es)
    decreases es, 1
  {
    ArgsVisit(es);
    VisitAppend(ArgsPostfix(es), [EndList(|es|)]);
    EndVisitsNothing(EndList(|es|));
  }

  lemma VisitOne(t: Token)
    ensures Atoms([t]) == (if t.Push? then [t.atom] else [])
    ensures Operators([t]) == if t.Operator? then multiset{t.op} else multiset{}
  {
    assert [t][1..] == [];
  }

  lemma EndVisitsNothing(t: Token)
    requires t.EndCall? || t.EndList?
    ensures Atoms([t]) == [] && Operators([t]) == multiset{}
  {
    VisitOne(t);
  }

  lemma HeadVisits(c: Call)
    ensures Atoms(CallHead(c)) == [NameAtom(c.name)] + (if c.attr == "" then [] else [TextAtom(c.attr)])
    ensures Operators(CallHead(c)) == multiset{}
  {
    var rest := if c.attr == "" then [] else [Push(TextAtom(c.attr))];
    VisitAppend([Push(NameAtom(c.name))], rest);
    VisitOne(Push(NameAtom(c.name)));
    VisitOne(Push(TextAtom(c.attr)));
  }

  lemma {:induction false} CallVisits(c: Call)
    ensures Atoms(OperandPostfix(Prim(Apply(c)))) == OperandAtoms(Prim(Apply(c)))
    ensures Operators(OperandPostfix(Prim(Apply(c)))) == OperandOperators(Prim(Apply(c)))
    decreases c, 1
  {
    var end := EndCall(c.name, c.attr, |c.args|);
    HeadVisits(c);
    ArgsVisit(c.args);
    VisitAppend(CallHead(c), ArgsPostfix(c.args));
    VisitAppend(CallHead(c) + ArgsPostfix(c.args), [end]);
    EndVisitsNothing(end);
  }

  lemma {:induction false} RestVisits(ops: seq<Operation>)
    ensures ItemAtoms(RestPostfix(ops)) == RestAtoms(ops) && ItemOperators(RestPostfix(ops)) == RestOperators(ops)
    decreases ops, 0
  {
    if ops != [] {
      ArgSmaller(ops[0]);
      OperandVisits(ops[0].arg);
      RestVisits(ops[1..]);
      FirstAtoms(RestPostfix(ops));
      FirstOperators(RestPostfix(ops));
      assert RestPostfix(ops)[1..] == RestPostfix(ops[1..]);
    }
  }

  lemma {:induction false} ArgsVisit(es: seq<Expr>)
    ensures Atoms(ArgsPostfix(es)) == ArgsAtoms(es) && Operators(ArgsPostfix(es)) == ArgsOperators(es)
    decreases es, 0
  {
    if es != [] {
      VisitsAll(es[0]);
      ArgsVisit(es[1..]);
      VisitAppend(Postfix(es[0]), ArgsPostfix(es[1..]));
    }
  }
}
