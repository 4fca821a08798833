/** What a flat list of operands and operators means.  `Group` is the one
    definition of grouping used everywhere: evaluation, postfix order and
    matching are all read off it. */
module Grouping {
  import opened Ast

  datatype Item<+T> = Item(op: Op, val: T)

  ghost predicate AllTighter<T>(ops: seq<Item<T>>, prec: nat) {
    forall k | 0 <= k < |ops| :: Precedence(ops[k].op) > prec
  }

  ghost predicate AllAtLeast<T>(ops: seq<Item<T>>, prec: nat) {
    forall k | 0 <= k < |ops| :: Precedence(ops[k].op) >= prec
  }

  /** `k` is the rightmost operator of lowest precedence. */
  ghost predicate IsLowest<T>(ops: seq<Item<T>>, k: nat) {
    && k < |ops|
    && (forall j | 0 <= j < |ops| :: Precedence(ops[k].op) <= Precedence(ops[j].op))
    && (forall j | k < j < |ops| :: Precedence(ops[k].op) < Precedence(ops[j].op))
  }

  function Lowest<T>(ops: seq<Item<T>>): (k: nat)
    requires ops != []
    ensures IsLowest(ops, k)
  {
    if |ops| == 1 then 0
    else
      var k := Lowest(ops[..|ops| - 1]);
      if Precedence(ops[|ops| - 1].op) <= Precedence(ops[k].op) then |ops| - 1 else k
  }

  /** The value of `x op0 v0 op1 v1 ...`: the operator applied last is the
      rightmost one of lowest precedence (all operators associate to the left). */
  function Group<T>(f: (Op, T, T) -> T, x: T, ops: seq<Item<T>>): T
    decreases |ops|
  {
    if ops == [] then x
    else
      var k := Lowest(ops);
      f(ops[k].op, Group(f, x, ops[..k]), Group(f, ops[k].val, ops[k + 1..]))
  }

  lemma SameOpsLowest<V, W>(a: seq<Item<V>>, b: seq<Item<W>>)
    requires a != [] && |a| == |b| && forall k | 0 <= k < |a| :: a[k].op == b[k].op
    ensures Lowest(a) == Lowest(b)
  {
    var j, k := Lowest(a), Lowest(b);
    assert Precedence(a[j].op) == Precedence(a[k].op) == Precedence(b[j].op);
  }

  ghost predicate Respects<T, U>(f: (Op, T, T) -> T, g: (Op, U, U) -> U, h: T -> U, op: Op, y: T, z: T) {
    h(f(op, y, z)) == g(op, h(y), h(z))
  }

  ghost predicate AreImages<T, U>(h: T -> U, items: seq<Item<T>>, images: seq<Item<U>>) {
    |images| == |items| && forall k | 0 <= k < |items| :: images[k] == Item(items[k].op, h(items[k].val))
  }

  lemma ImagesSplit<T, U>(h: T -> U, items: seq<Item<T>>, images: seq<Item<U>>, k: nat)
    requires k < |items| && AreImages(h, items, images)
    ensures AreImages(h, items[..k], images[..k]) && AreImages(h, items[k + 1..], images[k + 1..])
    ensures images[k] == Item(items[k].op, h(items[k].val))
  {}

  /** What respects the operators respects grouping. */
  lemma {:induction false} GroupMaps<T, U>(
      f: (Op, T, T) -> T, g: (Op, U, U) -> U, h: T -> U, x: T, items: seq<Item<T>>, images: seq<Item<U>>)
    requires forall op, y, z :: Respects(f, g, h, op, y, z)
    requires AreImages(h, items, images)
    ensures h(Group(f, x, items)) == Group(g, h(x), images)
    decreases |items|
  {
    if items != [] {
      var k := Lowest(items);
      SameOpsLowest(items, images);
      ImagesSplit(h, items, images, k);
      GroupMaps(f, g, h, x, items[..k], images[..k]);
      GroupMaps(f, g, h, items[k].val, items[k + 1..], images[k + 1..]);
      assert Respects(f, g, h, items[k].op, Group(f, x, items[..k]), Group(f, items[k].val, items[k + 1..]));
    }
  }

  /** Unfolds `Group` at an operator known to be the lowest one. */
  lemma GroupAt<T>(f: (Op, T, T) -> T, x: T, left: seq<Item<T>>, mid: Item<T>, right: seq<Item<T>>)
    requires IsLowest(left + [mid] + right, |left|)
    ensures Group(f, x, left + [mid] + right) == f(mid.op, Group(f, x, left), Group(f, mid.val, right))
  {
    var s := left + [mid] + right;
    assert Lowest(s) == |left|;
    assert s[..|left|] == left && s[|left|] == mid && s[|left| + 1..] == right;
  }

  /** A prefix that binds at least as tightly as what follows may be grouped first. */
  lemma {:induction false} GroupPrefix<T>(f: (Op, T, T) -> T, x: T, a: seq<Item<T>>, b: seq<Item<T>>)
    requires b != [] ==> AllAtLeast(a, Precedence(b[0].op))
    ensures Group(f, x, a + b) == Group(f, Group(f, x, a), b)
    decreases |b|
  {
    if b == [] {
      assert a + b == a;
    } else {
      var k := Lowest(b);
      SplitAfterPrefix(f, x, a, b, k);
      GroupPrefix(f, x, a, b[..k]);
    }
  }

  lemma SplitAfterPrefix<T>(f: (Op, T, T) -> T, x: T, a: seq<Item<T>>, b: seq<Item<T>>, k: nat)
    requires IsLowest(b, k)
    requires AllAtLeast(a, Precedence(b[0].op))
    ensures Group(f, x, a + b) == f(b[k].op, Group(f, x, a + b[..k]), Group(f, b[k].val, b[k + 1..]))
  {
    PrefixLowest(a, b, k);
    assert a + b == (a + b[..k]) + [b[k]] + b[k + 1..];
    GroupAt(f, x, a + b[..k], b[k], b[k + 1..]);
  }

  lemma PrefixLowest<T>(a: seq<Item<T>>, b: seq<Item<T>>, k: nat)
    requires IsLowest(b, k)
    requires AllAtLeast(a, Precedence(b[0].op))
    ensures IsLowest(a + b, |a| + k)
  {
    var s := a + b;
    assert s[|a| + k] == b[k];
    forall j | 0 <= j < |s|
      ensures Precedence(b[k].op) <= Precedence(s[j].op)
      ensures j > |a| + k ==> Precedence(b[k].op) < Precedence(s[j].op)
    {
      if j < |a| { assert s[j] == a[j]; } else { assert s[j] == b[j - |a|]; }
    }
  }

  /** `x op (y run)` when every operator of the run is strictly tighter than `op`. */
  lemma GroupHead<T>(f: (Op, T, T) -> T, x: T, it: Item<T>, run: seq<Item<T>>)
    requires AllTighter(run, Precedence(it.op))
    ensures Group(f, x, [it] + run) == f(it.op, x, Group(f, it.val, run))
  {
    assert [] + [it] + run == [it] + run;
    GroupAt(f, x, [], it, run);
  }

  /** The grouping lemma: a maximal run of operators tighter than the one
      before it may be collapsed into that operator's operand. */
  lemma {:induction false} Collapse<T>(
      f: (Op, T, T) -> T, x: T, pre: seq<Item<T>>, it: Item<T>, run: seq<Item<T>>, post: seq<Item<T>>)
    requires AllTighter(run, Precedence(it.op))
    requires post != [] ==> Precedence(post[0].op) <= Precedence(it.op)
    ensures Group(f, x, pre + [it] + run + post)
         == Group(f, x, pre + [Item(it.op, Group(f, it.val, run))] + post)
    decreases |pre| + |post|
  {
    var one := Item(it.op, Group(f, it.val, run));
    var k := Lowest(pre + [one] + post);
    if k < |pre| {
      CollapseRight(f, x, pre, it, one, run, post, k);
      Collapse(f, pre[k].val, pre[k + 1..], it, run, post);
    } else if k == |pre| {
      CollapseHere(f, x, pre, it, one, run, post);
    } else {
      CollapseLeft(f, x, pre, it, one, run, post, k);
      Collapse(f, x, pre, it, run, post[..k - |pre| - 1]);
    }
  }

  /** The same, for a list whose operand at the front starts the run. */
  lemma CollapseFront<T>(f: (Op, T, T) -> T, x: T, pre: seq<Item<T>>, items: seq<Item<T>>, n: nat)
    requires 1 <= n <= |items|
    requires AllTighter(items[1..n], Precedence(items[0].op))
    requires n < |items| ==> Precedence(items[n].op) <= Precedence(items[0].op)
    ensures Group(f, x, pre + items)
         == Group(f, x, pre + [Item(items[0].op, Group(f, items[0].val, items[1..n]))] + items[n..])
  {
    Cut(pre, items, n);
    Collapse(f, x, pre, items[0], items[1..n], items[n..]);
  }

  lemma Cut<T>(pre: seq<T>, items: seq<T>, n: nat)
    requires 1 <= n <= |items|
    ensures pre + items == pre + [items[0]] + items[1..n] + items[n..]
  {}

  lemma NoFront<T>(s: seq<T>)
    ensures [] + s == s
  {}

  lemma PushFront<T>(pre: seq<T>, head: T, rest: seq<T>)
    ensures pre + ([head] + rest) == pre + [head] + rest
  {}

  /** The lowest operator stands before the run. */
  lemma CollapseRight<T>(f: (Op, T, T) -> T, x: T, pre: seq<Item<T>>,
      it: Item<T>, one: Item<T>, run: seq<Item<T>>, post: seq<Item<T>>, k: nat)
    requires one.op == it.op && AllTighter(run, Precedence(it.op))
    requires IsLowest(pre + [one] + post, k) && k < |pre|
    ensures Group(f, x, pre + [it] + run + post)
         == f(pre[k].op, Group(f, x, pre[..k]), Group(f, pre[k].val, pre[k + 1..] + [it] + run + post))
    ensures Group(f, x, pre + [one] + post)
         == f(pre[k].op, Group(f, x, pre[..k]), Group(f, pre[k].val, pre[k + 1..] + [one] + post))
  {
    SameLowest(pre, it, one, run, post, k, k);
    var l, r := pre[..k], pre[k + 1..];
    assert pre + [it] + run + post == l + [pre[k]] + (r + [it] + run + post);
    assert pre + [one] + post == l + [pre[k]] + (r + [one] + post);
    GroupAt(f, x, l, pre[k], r + [it] + run + post);
    GroupAt(f, x, l, pre[k], r + [one] + post);
  }

  /** The lowest operator is the one before the run, so the run ends the list. */
  lemma CollapseHere<T>(f: (Op, T, T) -> T, x: T, pre: seq<Item<T>>,
      it: Item<T>, one: Item<T>, run: seq<Item<T>>, post: seq<Item<T>>)
    requires one == Item(it.op, Group(f, it.val, run)) && AllTighter(run, Precedence(it.op))
    requires post != [] ==> Precedence(post[0].op) <= Precedence(it.op)
    requires IsLowest(pre + [one] + post, |pre|)
    ensures Group(f, x, pre + [it] + run + post) == Group(f, x, pre + [one] + post)
  {
    assert (pre + [one] + post)[|pre|] == one;
    assert post != [] ==> (pre + [one] + post)[|pre| + 1] == post[0];
    SameLowest(pre, it, one, run, post, |pre|, |pre|);
    assert pre + [it] + run + post == pre + [it] + run;
    assert pre + [one] + post == pre + [one] + [];
    GroupAt(f, x, pre, it, run);
    GroupAt(f, x, pre, one, []);
  }

  /** The lowest operator stands after the run. */
  lemma CollapseLeft<T>(f: (Op, T, T) -> T, x: T, pre: seq<Item<T>>,
      it: Item<T>, one: Item<T>, run: seq<Item<T>>, post: seq<Item<T>>, k: nat)
    requires one.op == it.op && AllTighter(run, Precedence(it.op))
    requires IsLowest(pre + [one] + post, k) && k > |pre|
    ensures var i := k - |pre| - 1;
      && Group(f, x, pre + [it] + run + post)
         == f(post[i].op, Group(f, x, pre + [it] + run + post[..i]), Group(f, post[i].val, post[i + 1..]))
      && Group(f, x, pre + [one] + post)
         == f(post[i].op, Group(f, x, pre + [one] + post[..i]), Group(f, post[i].val, post[i + 1..]))
  {
    var i := k - |pre| - 1;
    SameLowest(pre, it, one, run, post, k, k + |run|);
    assert pre + [it] + run + post == (pre + [it] + run + post[..i]) + [post[i]] + post[i + 1..];
    assert pre + [one] + post == (pre + [one] + post[..i]) + [post[i]] + post[i + 1..];
    GroupAt(f, x, pre + [it] + run + post[..i], post[i], post[i + 1..]);
    GroupAt(f, x, pre + [one] + post[..i], post[i], post[i + 1..]);
  }

  /** Collapsing a run does not move the lowest operator. */
  lemma SameLowest<T>(
      pre: seq<Item<T>>, it: Item<T>, one: Item<T>, run: seq<Item<T>>, post: seq<Item<T>>, k: nat, k': nat)
    requires one.op == it.op
    requires AllTighter(run, Precedence(it.op))
    requires IsLowest(pre + [one] + post, k)
    requires k' == if k <= |pre| then k else k + |run|
    ensures IsLowest(pre + [it] + run + post, k')
  {
    var s, t := pre + [it] + run + post, pre + [one] + post;
    assert s[k'].op == t[k].op;
    assert t[|pre|] == one;
    forall j | 0 <= j < |s|
      ensures Precedence(s[k'].op) <= Precedence(s[j].op)
      ensures j > k' ==> Precedence(s[k'].op) < Precedence(s[j].op)
    {
      if j <= |pre| {
        assert s[j].op == t[j].op;
      } else if j <= |pre| + |run| {
        assert s[j] == run[j - |pre| - 1];
      } else {
        assert s[j] == t[j - |run|];
      }
    }
  }
}
