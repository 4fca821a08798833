/** Integer ranges: iterators, closed-form sizes and explicit index lists
    enumerate the same numbers. */
module Ranges {
  import opened Basics

  // ---------------------------------------------------------------------
  // The division of the source language truncates toward zero

  function Div(a: int, b: int): int
    requires b != 0
  {
    if a >= 0 then a / b else -((-a) / b)
  }

  function Rem(a: int, b: int): int
    requires b != 0
  {
    a - Div(a, b) * b
  }

  /** The quotient and remainder of the source language: the remainder is smaller than
      the divisor and has the sign of the dividend. */
  lemma TruncatedDivision(a: int, b: int)
    requires b != 0
    ensures a == Div(a, b) * b + Rem(a, b)
    ensures if b > 0 then -b < Rem(a, b) < b else b < Rem(a, b) < -b
    ensures if a >= 0 then Rem(a, b) >= 0 else Rem(a, b) <= 0
  {}

  /** Start, stop and step of a slice; `singleValue` makes the other two ignored. */
  class SlicingIndices {
    var start_: int
    var stop_: int
    var step_: int
    var singleValue: bool

    constructor (start: int, stop: int, step: int)
      ensures start_ == start && stop_ == stop && step_ == step && !singleValue
    {
      start_, stop_, step_, singleValue := start, stop, step, false;
    }

    constructor Single(start: int, single: bool)
      ensures start_ == start && stop_ == 0 && step_ == 0 && singleValue == single
    {
      start_, stop_, step_, singleValue := start, 0, 0, single;
    }

    method SetStart(val: int)
      modifies this`start_
      ensures start_ == val
    {
      start_ := val;
    }

    method SetStartAs(val: int, single: bool)
      modifies this`start_, this`singleValue
      ensures start_ == val && singleValue == single
    {
      singleValue := single;
      start_ := val;
    }

    method SetStop(val: int)
      modifies this`stop_
      ensures stop_ == val
    {
      stop_ := val;
    }

    method SetStopAs(val: int, single: bool)
      modifies this`stop_, this`singleValue
      ensures stop_ == val && singleValue == single
    {
      singleValue := single;
      stop_ := val;
    }

    method SetStep(val: int)
      modifies this`step_
      ensures step_ == val
    {
      step_ := val;
    }

    method SetStepAs(val: int, single: bool)
      modifies this`step_, this`singleValue
      ensures step_ == val && singleValue == single
    {
      singleValue := single;
      step_ := val;
    }

    function Stop(): int
      reads this
    {
      if singleValue then start_ + 1 else stop_
    }

    function Step(): int
      reads this
    {
      if singleValue then 1 else step_
    }

    function Size(): int
      requires singleValue || step_ != 0
      reads this
    {
      if singleValue then 1 else SliceSize(start_, stop_, step_)
    }
  }

  /** The closed form of `slicing_indices::size`. */
  function SliceSize(start: int, stop: int, step: int): int
    requires step != 0
  {
    if step > 0 then Div(stop - start + step - 1, step) else Div(start - stop - step - 1, -step)
  }

  // ---------------------------------------------------------------------
  // The numbers of a range

  /** A step that leads from `start` towards `stop`. */
  predicate Pointed(start: int, stop: int, step: int) {
    (step > 0 && start <= stop) || (step < 0 && stop <= start)
  }

  /** How many steps it takes to reach or pass `stop`. */
  function Count(start: int, stop: int, step: int): nat
    requires Pointed(start, stop, step)
    decreases if step > 0 then stop - start else start - stop
  {
    if start == stop then 0
    else if Pointed(start + step, stop, step) then 1 + Count(start + step, stop, step)
    else 1
  }

  predicate Before(x: int, stop: int, step: int) {
    if step > 0 then x < stop else x > stop
  }

  lemma MulSign(k: nat, step: int)
    ensures step > 0 ==> k * step >= 0 && (k > 0 ==> k * step >= step)
    ensures step < 0 ==> k * step <= 0 && (k > 0 ==> k * step <= step)
  {
    if k > 0 { assert k * step == step + (k - 1) * step; }
  }

  lemma NoneBefore(start: int, stop: int, step: int)
    requires Pointed(start, stop, step) && start == stop
    ensures forall k: nat :: !Before(start + k * step, stop, step)
  {
    forall k: nat ensures !Before(start + k * step, stop, step) { MulSign(k, step); }
  }

  lemma OnlyFirstBefore(start: int, stop: int, step: int)
    requires Pointed(start, stop, step) && start != stop && !Pointed(start + step, stop, step)
    ensures forall k: nat :: k < 1 <==> Before(start + k * step, stop, step)
  {
    forall k: nat ensures k < 1 <==> Before(start + k * step, stop, step) { MulSign(k, step); }
  }

  lemma OneMoreBefore(start: int, stop: int, step: int, n: nat)
    requires Pointed(start, stop, step) && start != stop
    requires forall k: nat :: k < n <==> Before(start + step + k * step, stop, step)
    ensures forall k: nat :: k < n + 1 <==> Before(start + k * step, stop, step)
  {
    forall k: nat ensures k < n + 1 <==> Before(start + k * step, stop, step) {
      if k > 0 {
        assert start + step + (k - 1) * step == start + k * step;
        assert (k - 1) < n <==> Before(start + step + (k - 1) * step, stop, step);
      }
    }
  }

  /** Main result: the counted numbers are exactly those before `stop`. */
  lemma {:induction false} CountIsBefore(start: int, stop: int, step: int)
    requires Pointed(start, stop, step)
    ensures forall k: nat :: k < Count(start, stop, step) <==> Before(start + k * step, stop, step)
    decreases if step > 0 then stop - start else start - stop
  {
    if start == stop {
      NoneBefore(start, stop, step);
    } else if Pointed(start + step, stop, step) {
      CountIsBefore(start + step, stop, step);
      OneMoreBefore(start, stop, step, Count(start + step, stop, step));
    } else {
      OnlyFirstBefore(start, stop, step);
    }
  }

  /** The arithmetic progression of `n` numbers. */
  function Progression(start: int, step: int, n: nat): (s: seq<int>)
    ensures |s| == n && forall k | 0 <= k < n :: s[k] == start + k * step
  {
    seq(n, k => start + k * step)
  }

  /** What a range stands for. */
  function Numbers(start: int, stop: int, step: int): seq<int>
    requires Pointed(start, stop, step)
  {
    Progression(start, step, Count(start, stop, step))
  }

  // ---------------------------------------------------------------------
  // Closed forms

  /** The count is the distance divided by the step, rounded up. */
  lemma {:induction false} CountIsCeiling(start: int, stop: int, step: int)
    requires Pointed(start, stop, step)
    ensures var n := Count(start, stop, step);
      var dist, width := if step > 0 then stop - start else start - stop, if step > 0 then step else -step;
      n * width < dist + width && dist <= n * width
    decreases if step > 0 then stop - start else start - stop
  {
    if start != stop && Pointed(start + step, stop, step) {
      CountIsCeiling(start + step, stop, step);
      var n := Count(start + step, stop, step);
      var width := if step > 0 then step else -step;
      assert (n + 1) * width == n * width + width;
    }
  }

  /** Euclidean division is the only one that fits. */
  lemma QuotientIs(a: int, b: int, q: int)
    requires b > 0 && q * b <= a < q * b + b
    ensures a / b == q
  {
    var r := a - q * b;
    assert a == q * b + r;
    QuotientUnique(a / b, a % b, q, r, b);
  }

  lemma MulGap(a: int, b: int, w: int)
    requires w > 0
    ensures a < b ==> a * w + w <= b * w
  {
    if a < b {
      MulSign(b - a, w);
      assert (b - a) * w == b * w - a * w;
    }
  }

  lemma QuotientUnique(q1: int, r1: int, q2: int, r2: int, b: int)
    requires 0 <= r1 < b && 0 <= r2 < b && q1 * b + r1 == q2 * b + r2
    ensures q1 == q2
  {
    MulGap(q1, q2, b);
    MulGap(q2, q1, b);
  }

  /** Main result: the closed form of a slice counts its numbers. */
  lemma SliceSizeIsCount(start: int, stop: int, step: int)
    requires Pointed(start, stop, step)
    ensures SliceSize(start, stop, step) == Count(start, stop, step)
  {
    CountIsCeiling(start, stop, step);
    var n := Count(start, stop, step);
    if step > 0 {
      QuotientIs(stop - start + step - 1, step, n);
    } else {
      QuotientIs(start - stop - step - 1, -step, n);
    }
  }

  /** `range::size`. */
  function RangeSize(start: int, stop: int, step: int): int
    requires step != 0
  {
    var dist := stop - start;
    if (dist > 0) != (step > 0) then 0
    else Div(dist, step) + if Rem(dist, step) > 0 then 1 else 0
  }

  /** Truncated division, by the width of the step. */
  lemma DivByWidth(dist: int, step: int)
    requires step != 0 && (step > 0 ==> dist >= 0) && (step < 0 ==> dist <= 0)
    ensures var d, w := if step > 0 then dist else -dist, if step > 0 then step else -step;
      Div(dist, step) == d / w && Rem(dist, step) == if step > 0 then d % w else -(d % w)
  {
    if step < 0 && dist < 0 {
      var d, w := -dist, -step;
      var q, r := d / w, d % w;
      assert d == q * w + r;
      assert d == (-q) * step + r;
      DivNegative(d, step, q, r);
    }
  }

  lemma DivNegative(d: int, b: int, q: int, r: int)
    requires b < 0 && 0 <= r < -b && d == (-q) * b + r
    ensures d / b == -q
  {
    var q', r' := d / b, d % b;
    assert d == q' * b + r' && 0 <= r' < -b;
    assert q' * b == (-q') * (-b) && (-q) * b == q * (-b);
    QuotientUnique(-q', r', q, r, -b);
  }

  /** Main result: for a range that points the right way, `range::size` is the
      number of its elements exactly when the step is positive or divides the
      distance; otherwise it is one short. */
  lemma RangeSizeIsCount(start: int, stop: int, step: int)
    requires Pointed(start, stop, step)
    ensures RangeSize(start, stop, step) == Count(start, stop, step)
       <==> step > 0 || Rem(stop - start, step) == 0
    ensures step < 0 && Rem(stop - start, step) != 0 ==>
      RangeSize(start, stop, step) == Count(start, stop, step) - 1
  {
    var dist := stop - start;
    CountIsCeiling(start, stop, step);
    DivByWidth(dist, step);
    var d, w := if step > 0 then dist else -dist, if step > 0 then step else -step;
    CeilingOf(d, w, Count(start, stop, step));
  }

  lemma CeilingOf(d: nat, w: nat, n: nat)
    requires w > 0 && n * w < d + w && d <= n * w
    ensures n == d / w + if d % w == 0 then 0 else 1
  {
    var q, r := d / w, d % w;
    assert d == q * w + r;
    var m := if r == 0 then q else q + 1;
    NextMultiple(q, w);
    MulGap(n, m, w);
    MulGap(m, n, w);
  }

  // ---------------------------------------------------------------------
  // Iterators

  /** Both iterators store where they stand and the step. */
  class RangeIterator {
    var at: int
    const step: int
    const reverse: bool

    constructor (start: int, step: int, reverse: bool)
      ensures at == start && this.step == step && this.reverse == reverse
    {
      this.at, this.step, this.reverse := start, step, reverse;
    }

    /** A reverse iterator steps backwards. */
    method Increment()
      modifies this
      ensures at == old(at) + if reverse then -step else step
    {
      at := if reverse then at - step else at + step;
    }
  }

  /** The position of `range::end`. */
  function EndOf(start: int, stop: int, step: int): int
    requires step != 0
  {
    var dist := stop - start;
    start + Div(dist, step) * step + if Rem(dist, step) != 0 then step else 0
  }

  /** The position of `range::rbegin`. */
  function LastOf(start: int, stop: int, step: int): int
    requires step != 0
  {
    var dist := stop - start;
    start + Div(dist, step) * step + if Rem(dist, step) != 0 then 0 else -step
  }

  lemma EndsFit(start: int, stop: int, step: int)
    requires Pointed(start, stop, step)
    ensures var n := Count(start, stop, step);
      EndOf(start, stop, step) == start + n * step && LastOf(start, stop, step) == start + n * step - step
  {
    var dist, n := stop - start, Count(start, stop, step);
    CountIsCeiling(start, stop, step);
    DivByWidth(dist, step);
    var d, w := if step > 0 then dist else -dist, if step > 0 then step else -step;
    CeilingOf(d, w, n);
    NextMultiple(Div(dist, step), step);
  }

  lemma NextMultiple(q: int, step: int)
    ensures (q + 1) * step == q * step + step
  {}

  lemma ProgressionNext(start: int, step: int, n: nat)
    ensures Progression(start, step, n + 1) == Progression(start, step, n) + [start + n * step]
    ensures start + (n + 1) * step == start + n * step + step
  {
    NextMultiple(n, step);
  }

  lemma SameMultiple(i: nat, n: nat, step: int)
    requires step != 0
    ensures i * step == n * step <==> i == n
  {
    if i < n { MulSign(n - i, step); assert (n - i) * step == n * step - i * step; }
    if i > n { MulSign(i - n, step); assert (i - n) * step == i * step - n * step; }
  }

  /** `range::copy`: iterating from `begin` meets `end` exactly and yields the
      numbers of the range. */
  method Copy(start: int, stop: int, step: int) returns (result: seq<int>)
    requires Pointed(start, stop, step)
    ensures result == Numbers(start, stop, step)
  {
    result := [];
    var it := new RangeIterator(start, step, false);
    var end := EndOf(start, stop, step);
    ghost var n := Count(start, stop, step);
    EndsFit(start, stop, step);
    SameMultiple(0, n, step);
    while it.at != end
      invariant |result| <= n && it.step == step && !it.reverse
      invariant it.at == start + |result| * step
      invariant result == Progression(start, step, |result|)
      invariant it.at == end <==> |result| == n
      decreases n - |result|
    {
      result := result + [it.at];
      it.Increment();
      assert it.at == start + |result| * step by {
        assert |result| * step == (|result| - 1) * step + step;
      }
      SameMultiple(|result|, n, step);
    }
  }

  function Reversed(s: seq<int>): (r: seq<int>)
    ensures |r| == |s| && forall k | 0 <= k < |s| :: r[k] == s[|s| - 1 - k]
  {
    seq(|s|, k requires 0 <= k < |s| => s[|s| - 1 - k])
  }

  /** From `rbegin` to `rend`: the same numbers backwards. */
  method CopyReversed(start: int, stop: int, step: int) returns (result: seq<int>)
    requires Pointed(start, stop, step)
    ensures result == Reversed(Numbers(start, stop, step))
  {
    result := [];
    var it := new RangeIterator(LastOf(start, stop, step), step, true);
    var rend := start - step;
    ghost var all := Numbers(start, stop, step);
    ghost var n := |all|;
    EndsFit(start, stop, step);
    assert n * step - step == (n - 1) * step;
    BackAt(start, step, n, 0);
    while it.at != rend
      invariant |result| <= n && it.step == step && it.reverse
      invariant it.at == start + (n - 1 - |result|) * step
      invariant it.at == rend <==> |result| == n
      invariant forall k | 0 <= k < |result| :: result[k] == all[n - 1 - k]
      decreases n - |result|
    {
      assert it.at == all[n - 1 - |result|];
      result := result + [it.at];
      it.Increment();
      BackAt(start, step, n, |result|);
      assert (n - 1 - |result|) * step == (n - |result|) * step - step;
    }
  }

  lemma BackAt(start: int, step: int, n: nat, i: nat)
    requires i <= n && step != 0
    ensures start + (n - 1 - i) * step == start - step <==> i == n
  {
    assert (n - 1 - i) * step == (n - i) * step - step;
    SameMultiple(n - i, 0, step);
  }

  // ---------------------------------------------------------------------
  // Index lists

  /** `create_list_slice`; a zero step yields nothing. */
  method CreateListSlice(start: int, stop: int, step: int) returns (result: seq<int>)
    ensures Pointed(start, stop, step) ==> result == Numbers(start, stop, step)
    ensures !Pointed(start, stop, step) ==> result == []
  {
    result := [];
    var i := start;
    ghost var n: nat := 0;
    if step > 0 {
      while i < stop
        invariant Listed(start, stop, step, result, n, i)
        decreases stop - i
      {
        ListedNext(start, stop, step, result, n, i);
        result := result + [i];
        i, n := i + step, n + 1;
      }
    } else if step < 0 {
      while i > stop
        invariant Listed(start, stop, step, result, n, i)
        decreases i - stop
      {
        ListedNext(start, stop, step, result, n, i);
        result := result + [i];
        i, n := i + step, n + 1;
      }
    }
    ListedAll(start, stop, step, result, n, i);
  }

  lemma ListedNext(start: int, stop: int, step: int, result: seq<int>, n: nat, i: int)
    requires Listed(start, stop, step, result, n, i) && Before(i, stop, step)
    ensures Listed(start, stop, step, result + [i], n + 1, i + step)
  {
    ProgressionNext(start, step, n);
  }

  lemma ListedAll(start: int, stop: int, step: int, result: seq<int>, n: nat, i: int)
    requires Listed(start, stop, step, result, n, i) && (step == 0 ==> n == 0) && (step != 0 ==> !Before(i, stop, step))
    ensures Pointed(start, stop, step) ==> result == Numbers(start, stop, step)
    ensures !Pointed(start, stop, step) ==> result == []
  {
    if Pointed(start, stop, step) {
      LengthIsCount(start, stop, step, n, i);
    } else if n > 0 {
      NextMultiple(n - 1, step);
      MulSign(n - 1, step);
    }
  }

  /** `n` numbers are listed, `i` comes next. */
  ghost predicate Listed(start: int, stop: int, step: int, result: seq<int>, n: nat, i: int) {
    && i == start + n * step && result == Progression(start, step, n)
    && (n == 0 || Before(i - step, stop, step))
  }

  lemma LengthIsCount(start: int, stop: int, step: int, n: nat, i: int)
    requires Pointed(start, stop, step) && i == start + n * step
    requires !Before(i, stop, step) && (n == 0 || Before(i - step, stop, step))
    ensures n == Count(start, stop, step)
  {
    var c := Count(start, stop, step);
    CountIsBefore(start, stop, step);
    assert !(n < c);
    if n > 0 {
      NextMultiple(n - 1, step);
      assert start + (n - 1) * step == i - step;
      assert n - 1 < c;
    }
  }

  // ---------------------------------------------------------------------
  // Slices given as lists of entries

  datatype Entry = Nil | Value(i: int)

  function Get(e: Entry, default: int): int {
    if e.Value? then e.i else default
  }

  function FromEnd(i: int, size: int): int {
    if i < 0 then size + i else i
  }

  /** The step of a list of entries. */
  function ListStep(list: seq<Entry>): int {
    if |list| == 3 then Get(list[2], 1) else 1
  }

  function ListStart(list: seq<Entry>, argSize: nat): int
    requires list != []
  {
    FromEnd(Get(list[0], if ListStep(list) < 0 then -1 else 0), argSize)
  }

  function ListStop(list: seq<Entry>, argSize: nat): int
    requires |list| > 1
  {
    FromEnd(Get(list[1], if ListStep(list) < 0 then -1 - argSize else argSize), argSize)
  }

  /** `extract_slicing`: more than three entries throw; none, or a single nil,
      stand for everything; one entry for a single element. */
  method ExtractSlicing(list: seq<Entry>, argSize: nat) returns (r: Option<SlicingIndices>)
    ensures r.None? <==> |list| > 3
    ensures r.Some? ==> fresh(r.value)
    ensures list == [] || list == [Nil] ==>
      !r.value.singleValue && r.value.start_ == 0 && r.value.stop_ == argSize && r.value.step_ == 1
    ensures 1 <= |list| <= 3 && list != [Nil] ==>
      && r.value.singleValue == (|list| == 1)
      && r.value.start_ == ListStart(list, argSize)
      && (|list| > 1 ==> r.value.stop_ == ListStop(list, argSize) && r.value.step_ == ListStep(list))
  {
    var indices := new SlicingIndices.Single(0, true);
    if |list| > 3 { return None; }
    if |list| == 0 {
      indices.SetStartAs(0, false);
      indices.SetStop(argSize);
      indices.SetStep(1);
      return Some(indices);
    }
    var defaultStart, defaultStop, step := 0, argSize as int, 1;
    if |list| == 3 {
      step := Get(list[2], 1);
      if step < 0 { defaultStart, defaultStop := -1, -1 - argSize; }
    }
    if |list| == 1 && list[0].Nil? {
      indices.SetStartAs(0, false);
      indices.SetStop(argSize);
      indices.SetStep(1);
      return Some(indices);
    }
    indices.SetStartAs(Get(list[0], defaultStart), true);
    if indices.start_ < 0 { indices.SetStart(argSize + indices.start_); }
    if |list| > 1 {
      indices.SetStopAs(Get(list[1], defaultStop), false);
      if indices.Stop() < 0 { indices.SetStop(argSize + indices.Stop()); }
      indices.SetStepAs(step, false);
    }
    return Some(indices);
  }

  /** `slicing_size`: the same entries, without building the indices. */
  method SlicingSize(list: seq<Entry>, argSize: nat) returns (r: Option<int>)
    requires ListStep(list) != 0
    ensures r.None? <==> |list| > 3
    ensures list == [] ==> r == Some(argSize)
    ensures |list| == 1 ==> r == Some(if Get(list[0], 0) < 0 then -list[0].i else 1)
    ensures 1 < |list| <= 3 ==>
      r == Some(SliceSize(ListStart(list, argSize), ListStop(list, argSize), ListStep(list)))
  {
    if |list| > 3 { return None; }
    if |list| == 0 { return Some(argSize); }
    var start, stop, step := 0, argSize as int, 1;
    if |list| == 3 {
      step := Get(list[2], 1);
      if step < 0 { start, stop := -1, -1 - argSize; }
    }
    var single := true;
    start := Get(list[0], start);
    if start < 0 {
      start := start + argSize;
      single := false;
    }
    if |list| > 1 {
      single := false;
      stop := Get(list[1], stop);
      if stop < 0 { stop := stop + argSize; }
    }
    if single { return Some(1); }
    if step > 0 { return Some(Div(stop - start + step - 1, step)); }
    return Some(Div(start - stop - step - 1, -step));
  }

  /** Both ways of sizing a slice, side by side: they agree on every list but
      those of one entry, and there on no nil (unless everything is one element)
      and on nothing below -1. */
  method SizesAgree(list: seq<Entry>, argSize: nat) returns (a: Option<int>, b: Option<int>)
    requires ListStep(list) != 0
    ensures a.None? <==> |list| > 3
    ensures b.None? <==> |list| > 3
    ensures |list| != 1 ==> a == b
    ensures |list| == 1 && list[0].Value? ==> (a == b <==> list[0].i >= -1)
    ensures list == [Nil] ==> (a == b <==> argSize == 1)
  {
    a := SlicingSize(list, argSize);
    var indices := ExtractSlicing(list, argSize);
    b := if indices.Some? then Some(indices.value.Size()) else None;
  }
}
