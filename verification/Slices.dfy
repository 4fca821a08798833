/** Which elements a slice selects. */
module Slices {
  import opened Basics
  import opened Ranges

  /** The selected indices; more than three entries, or a zero step, throw. */
  function Selected(list: seq<Entry>, size: nat): Option<seq<int>> {
    if |list| > 3 then None
    else if list == [] || list == [Nil] then Some(Numbers(0, size, 1))
    else if |list| == 1 then Some([ListStart(list, size)])
    else if ListStep(list) == 0 then None
    else
      var start, stop, step := ListStart(list, size), ListStop(list, size), ListStep(list);
      Some(if Pointed(start, stop, step) then Numbers(start, stop, step) else [])
  }

  /** `slicing1d` and `slice_list`: a single element, or all listed ones. */
  method SelectIndices(list: seq<Entry>, size: nat) returns (r: Option<seq<int>>)
    ensures r == Selected(list, size)
  {
    var indices := ExtractSlicing(list, size);
    if indices.None? { return None; }
    var start := indices.value.start_;
    if indices.value.singleValue { return Some([start]); }
    var stop, step := indices.value.Stop(), indices.value.Step();
    if step == 0 { return None; }
    var s := CreateListSlice(start, stop, step);
    return Some(s);
  }

  /** The `k`-th number is an index. */
  predicate Inside(first: int, step: int, k: nat, size: nat) {
    0 <= first + k * step < size
  }

  /** `s` holds the numbers from `first` on, by `step`, as long as they are indices. */
  ghost predicate ProgressionInside(s: seq<int>, first: int, step: int, size: nat) {
    && (forall k: nat :: k < |s| <==> Inside(first, step, k, size))
    && forall k | 0 <= k < |s| :: s[k] == first + k * step
  }

  function Indices(size: nat): (s: seq<int>)
    ensures |s| == size && forall k | 0 <= k < size :: s[k] == k
  {
    seq(size, k => k)
  }

  // ---------------------------------------------------------------------
  // Nil entries

  /** Main result: nil start and stop take the whole range, from the end that the
      step leads away from. */
  lemma NilTakesAll(list: seq<Entry>, size: nat)
    requires 2 <= |list| <= 3 && list[0] == Nil && list[1] == Nil && ListStep(list) != 0
    ensures var step := ListStep(list); var s := Selected(list, size);
      s.Some? && ProgressionInside(s.value, if step > 0 then 0 else size - 1, step, size)
  {
    var start, stop, step := ListStart(list, size), ListStop(list, size), ListStep(list);
    assert Pointed(start, stop, step);
    CountIsBefore(start, stop, step);
    forall k: nat ensures k < |Numbers(start, stop, step)| <==> Inside(start, step, k, size) {
      MulSign(k, step);
    }
  }

  lemma InsideIsUnique(s: seq<int>, t: seq<int>, first: int, step: int, size: nat)
    requires ProgressionInside(s, first, step, size) && ProgressionInside(t, first, step, size)
    ensures s == t
  {
    var j, k := |s|, |t|;
    assert !Inside(first, step, j, size) && !Inside(first, step, k, size);
  }

  /** With step one that is every index in order, with step minus one all of them
      backwards; the empty list and a single nil stand for every index as well. */
  lemma AllIndices(list: seq<Entry>, size: nat)
    ensures Selected([], size) == Selected([Nil], size) == Some(Indices(size))
    ensures 2 <= |list| <= 3 && list[0] == Nil && list[1] == Nil ==>
      && (ListStep(list) == 1 ==> Selected(list, size) == Some(Indices(size)))
      && (ListStep(list) == -1 ==> Selected(list, size) == Some(Reversed(Indices(size))))
  {
    NilTakesAll([Nil, Nil], size);
    assert ProgressionInside(Indices(size), 0, 1, size);
    InsideIsUnique(Numbers(0, size, 1), Indices(size), 0, 1, size);
    if 2 <= |list| <= 3 && list[0] == Nil && list[1] == Nil {
      if ListStep(list) == 1 {
        NilTakesAll(list, size);
        InsideIsUnique(Selected(list, size).value, Indices(size), 0, 1, size);
      } else if ListStep(list) == -1 {
        NilTakesAll(list, size);
        assert ProgressionInside(Reversed(Indices(size)), size - 1, -1, size);
        InsideIsUnique(Selected(list, size).value, Reversed(Indices(size)), size - 1, -1, size);
      }
    }
  }

  /** A nil step is one. */
  lemma NilStep(a: Entry, b: Entry, size: nat)
    ensures Selected([a, b, Nil], size) == Selected([a, b, Value(1)], size) == Selected([a, b], size)
  {}

  /** A nil start is the first index in the direction of the step. */
  lemma NilStart(b: Entry, c: Entry, size: nat)
    requires size > 0
    ensures Selected([Nil, b, c], size) == Selected([Value(if Get(c, 1) < 0 then size - 1 else 0), b, c], size)
  {}

  // ---------------------------------------------------------------------
  // Given entries

  /** Main result: entries that are not negative mean what they say: the numbers
      from the start on, by the step, before the stop. */
  lemma GivenEntries(i: nat, j: nat, step: int, size: nat)
    requires step != 0
    ensures var s := Selected([Value(i), Value(j), Value(step)], size);
      && s.Some?
      && (Pointed(i, j, step) ==> forall k: nat :: k < |s.value| <==> Before(i + k * step, j, step))
      && (!Pointed(i, j, step) ==> s.value == [])
      && forall k | 0 <= k < |s.value| :: s.value[k] == i + k * step
  {
    if Pointed(i, j, step) { CountIsBefore(i, j, step); }
  }

  /** Main result: an entry that is negative counts from the end. */
  lemma FromTheEnd(list: seq<Entry>, at: nat, i: int, size: nat)
    requires at < 2 && at < |list| <= 3 && -(size as int) <= i < 0
    ensures Selected(list[at := Value(i)], size) == Selected(list[at := Value(i + size)], size)
  {
    var a, b := list[at := Value(i)], list[at := Value(i + size)];
    assert ListStep(a) == ListStep(b);
  }

  /** A single entry selects a single element. */
  lemma SingleEntry(i: int, size: nat)
    ensures Selected([Value(i)], size) == Some([if i < 0 then size + i else i])
  {}

  /** The indices of a single value stand for just that one. */
  lemma SingleIsOne(indices: SlicingIndices)
    requires indices.singleValue
    ensures indices.Size() == 1 && indices.Step() == 1
    ensures Pointed(indices.start_, indices.Stop(), 1) && Numbers(indices.start_, indices.Stop(), 1) == [indices.start_]
  {
    var x := indices.start_;
    assert Count(x, x + 1, 1) == 1 + Count(x + 1, x + 1, 1) == 1;
    assert Progression(x, 1, 1) == [x];
  }

  // ---------------------------------------------------------------------
  // Sizes and bounds

  /** What both size computations count. */
  lemma SizeIsLength(list: seq<Entry>, size: nat)
    requires 2 <= |list| <= 3 && ListStep(list) != 0
    requires Pointed(ListStart(list, size), ListStop(list, size), ListStep(list))
    ensures SliceSize(ListStart(list, size), ListStop(list, size), ListStep(list)) == |Selected(list, size).value|
  {
    SliceSizeIsCount(ListStart(list, size), ListStop(list, size), ListStep(list));
  }

  /** Nothing clips a slice to the elements there are: it stays within them exactly
      when its first and last number do. */
  lemma EndsDecide(list: seq<Entry>, size: nat)
    requires Selected(list, size).Some? && Selected(list, size).value != []
    ensures var s := Selected(list, size).value;
      (forall k | 0 <= k < |s| :: 0 <= s[k] < size) <==> 0 <= s[0] < size && 0 <= s[|s| - 1] < size
  {
    var s := Selected(list, size).value;
    if |list| > 1 {
      var step := ListStep(list);
      forall k | 0 <= k < |s| ensures if step > 0 then s[0] <= s[k] <= s[|s| - 1] else s[|s| - 1] <= s[k] <= s[0] {
        MulSign(k, step);
        MulSign(|s| - 1 - k, step);
        assert (|s| - 1) * step == k * step + (|s| - 1 - k) * step;
      }
    } else if list == [] || list == [Nil] {
      AllIndices(list, size);
    }
  }

  /** It may not: a stop beyond the end selects indices that do not exist. */
  lemma StopsAreNotClipped(size: nat, j: nat)
    requires j > size
    ensures Selected([Nil, Value(j)], size) == Some(Indices(j))
  {
    AllIndices([], j);
    assert Selected([Nil, Value(j)], size) == Some(Numbers(0, j, 1));
  }
}
