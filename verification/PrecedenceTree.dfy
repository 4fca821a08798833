/** `Group` agrees with the textbook notion: every flat list has exactly one
    tree in which operators of equal precedence associate to the left and
    tighter operators sit deeper. */
module PrecedenceTree {
  import opened Ast
  import opened Grouping

  datatype Tree<T> = Leaf(val: T) | Node(op: Op, left: Tree<T>, right: Tree<T>)

  function Head<T>(t: Tree<T>): T {
    match t
    case Leaf(v) => v
    case Node(_, l, _) => Head(l)
  }

  function Rest<T>(t: Tree<T>): seq<Item<T>> {
    match t
    case Leaf(_) => []
    case Node(op, l, r) => Rest(l) + [Item(op, Head(r))] + Rest(r)
  }

  ghost predicate Grouped<T>(t: Tree<T>) {
    match t
    case Leaf(_) => true
    case Node(op, l, r) =>
      && Grouped(l) && Grouped(r)
      && AllAtLeast(Rest(l), Precedence(op)) && AllTighter(Rest(r), Precedence(op))
  }

  function Value<T>(f: (Op, T, T) -> T, t: Tree<T>): T {
    match t
    case Leaf(v) => v
    case Node(op, l, r) => f(op, Value(f, l), Value(f, r))
  }

  /** The root of a grouped tree is the rightmost lowest operator of its list. */
  lemma RootIsLowest<T>(t: Tree<T>)
    requires Grouped(t) && t.Node?
    ensures IsLowest(Rest(t), |Rest(t.left)|)
  {
    var s, l, r := Rest(t), Rest(t.left), Rest(t.right);
    assert s[|l|].op == t.op;
    forall j | 0 <= j < |s|
      ensures Precedence(t.op) <= Precedence(s[j].op)
      ensures j > |l| ==> Precedence(t.op) < Precedence(s[j].op)
    {
      if j < |l| { assert s[j] == l[j]; } else if j > |l| { assert s[j] == r[j - |l| - 1]; }
    }
  }

  /** Main result: the value of the tree is the value of the flat list. */
  lemma {:induction false} TreeValue<T>(f: (Op, T, T) -> T, t: Tree<T>)
    requires Grouped(t)
    ensures Value(f, t) == Group(f, Head(t), Rest(t))
    decreases t
  {
    match t
    case Leaf(v) =>
    case Node(op, l, r) =>
      RootIsLowest(t);
      GroupAt(f, Head(l), Rest(l), Item(op, Head(r)), Rest(r));
      TreeValue(f, l);
      TreeValue(f, r);
  }

  lemma {:induction false} TreeExists<T>(x: T, ops: seq<Item<T>>) returns (t: Tree<T>)
    ensures Grouped(t) && Head(t) == x && Rest(t) == ops
    decreases |ops|
  {
    if ops == [] {
      t := Leaf(x);
    } else {
      var k := Lowest(ops);
      var l := TreeExists(x, ops[..k]);
      var r := TreeExists(ops[k].val, ops[k + 1..]);
      t := Node(ops[k].op, l, r);
      assert ops == ops[..k] + [ops[k]] + ops[k + 1..];
    }
  }

  lemma OnlyLowest<T>(ops: seq<Item<T>>, j: nat, k: nat)
    requires IsLowest(ops, j) && IsLowest(ops, k)
    ensures j == k
  {
    assert Precedence(ops[j].op) == Precedence(ops[k].op);
  }

  lemma {:induction false} TreeUnique<T>(t: Tree<T>, u: Tree<T>)
    requires Grouped(t) && Grouped(u) && Head(t) == Head(u) && Rest(t) == Rest(u)
    ensures t == u
    decreases t
  {
    if t.Node? && u.Node? {
      RootIsLowest(t);
      RootIsLowest(u);
      var k := |Rest(t.left)|;
      OnlyLowest(Rest(t), k, |Rest(u.left)|);
      assert Rest(t)[..k] == Rest(t.left) && Rest(u)[..k] == Rest(u.left);
      assert Rest(t)[k] == Item(t.op, Head(t.right)) && Rest(u)[k] == Item(u.op, Head(u.right));
      assert Rest(t)[k + 1..] == Rest(t.right) && Rest(u)[k + 1..] == Rest(u.right);
      TreeUnique(t.left, u.left);
      TreeUnique(t.right, u.right);
    }
  }
}
