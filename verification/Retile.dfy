/** Moving a distributed vector to a new tiling: index arithmetic, and the loop
    that gathers a target span from the tiles that hold parts of it. */
module Retile {
  import opened Tiling

  datatype Indices = Indices(size: int, projectedStart: int, localStart: int)

  function Min(a: int, b: int): int { if a < b then a else b }

  function Max(a: int, b: int): int { if a > b then a else b }

  /** Used for the part that is already here. */
  function IndexCalculation(desStart: int, desStop: int, curStart: int, curStop: int): Indices {
    var relStart := desStart - curStart;
    Indices(Min(desStop, curStop) - Max(desStart, curStart),
            if relStart < 0 then -relStart else 0,
            if relStart > 0 then relStart else 0)
  }

  predicate Overlap(a: Span, b: Span) {
    a.start < b.stop && a.stop > b.start
  }

  /** `result` is written only when the spans overlap. */
  method Intersect(lhs: Span, rhs: Span, result: Span) returns (ok: bool, result': Span)
    ensures ok == Overlap(lhs, rhs)
    ensures ok && lhs.IsValid() && rhs.IsValid() ==> result'.IsValid()
    ensures ok ==> forall x :: result'.Has(x) <==> lhs.Has(x) && rhs.Has(x)
    ensures ok ==> result' == Span(Max(lhs.start, rhs.start), Min(lhs.stop, rhs.stop))
    ensures !ok ==> result' == result && forall x :: !(lhs.Has(x) && rhs.Has(x))
  {
    result' := result;
    ok := lhs.start < rhs.stop && lhs.stop > rhs.start;
    if ok {
      result' := Span(Max(lhs.start, rhs.start), Min(lhs.stop, rhs.stop));
    }
  }

  /** Which part of the tile goes where in the target: for every index both
      hold, and for no other, it names the element and its destination. */
  method RetileCalculation(loc: Span, desStart: int, desStop: int) returns (r: Indices)
    ensures r.size > 0 ==> 0 <= r.localStart && r.localStart + r.size <= loc.Size()
    ensures r.size > 0 ==> 0 <= r.projectedStart && r.projectedStart + r.size <= desStop - desStart
    ensures r.size > 0 ==> loc.start + r.localStart == desStart + r.projectedStart
    ensures forall x :: loc.Has(x) && desStart <= x < desStop <==> 0 <= x - desStart - r.projectedStart < r.size
  {
    var span := Span(desStart, desStop);
    var ok, intersection := Intersect(span, loc, Span(0, 0));
    if ok {
      var relLocStart := intersection.start - loc.start;
      return Indices(intersection.Size(), intersection.start - desStart, relLocStart);
    }
    return Indices(0, 0, 0);
  }

  /** Where the spans overlap, the two calculations agree; elsewhere the first
      one has no positive size. */
  lemma CalculationsAgree(desStart: int, desStop: int, cur: Span)
    ensures var r := IndexCalculation(desStart, desStop, cur.start, cur.stop);
      if Overlap(Span(desStart, desStop), cur) then
        var lo := Max(desStart, cur.start);
        r == Indices(Min(desStop, cur.stop) - lo, lo - desStart, lo - cur.start)
      else r.size <= 0
  {}

  /** A cell of the new vector before anything is copied to it is `Unset`. */
  datatype Cell<T> = Unset | Set(value: T)

  /** `part` holds the elements of `data` that lie in `span`. */
  ghost predicate Holds<T>(span: Span, part: seq<T>, data: seq<T>) {
    && |part| == span.Size()
    && forall x | span.Has(x) :: 0 <= x < |data| && part[x - span.start] == data[x]
  }

  ghost function Wanted<T>(data: seq<T>, x: int): Cell<T> {
    if 0 <= x < |data| then Set(data[x]) else Unset
  }

  /** `blaze::subvector(result, at, n) = blaze::subvector(part, from, n)`. */
  method CopyPart<T>(result: array<Cell<T>>, at: nat, part: seq<T>, from: nat, n: nat)
    requires at + n <= result.Length && from + n <= |part|
    modifies result
    ensures forall k | 0 <= k < result.Length ::
      result[k] == if at <= k < at + n then Set(part[from + k - at]) else old(result[k])
  {
    for i := 0 to n
      invariant forall k | 0 <= k < result.Length ::
        result[k] == if at <= k < at + i then Set(part[from + k - at]) else old(result[k])
    {
      result[at + i] := Set(part[from + i]);
    }
  }

  /** Every target index that one of the first `n` tiles (or tile `me`) has is in place. */
  ghost predicate Gathered<T>(cells: seq<Cell<T>>, spans: seq<Span>, me: nat, n: nat, desStart: int, data: seq<T>) {
    forall k | 0 <= k < |cells| ::
      cells[k] == if exists t | 0 <= t < |spans| && (t < n || t == me) :: spans[t].Has(desStart + k)
                  then Wanted(data, desStart + k) else Unset
  }

  /** `retile1d` on one locality: the new part is the wanted slice of the whole
      vector, element by element; what lies outside the vector is left unset. */
  method Retile1d<T>(spans: seq<Span>, parts: seq<seq<T>>, me: nat, desStart: int, desStop: int, ghost data: seq<T>)
    returns (result: array<Cell<T>>)
    requires |parts| == |spans| && me < |spans| && desStart < desStop
    requires forall t | 0 <= t < |spans| :: Holds(spans[t], parts[t], data)
    requires Judge(spans) == Accepted && MaxStop(spans) == |data|
    ensures fresh(result) && result.Length == desStop - desStart
    ensures forall k | 0 <= k < result.Length :: result[k] == Wanted(data, desStart + k)
  {
    var cur := spans[me];
    assert Holds(cur, parts[me], data);
    result := new Cell<T>[desStop - desStart](i => Unset);
    var relStart := desStart - cur.start;
    if relStart < 0 || desStop > cur.stop {
      CopyLocal(spans, parts[me], me, desStart, desStop, result, data);
      FetchRemote(spans, parts, me, desStart, desStop, result, data);
      GatheredAll(result[..], spans, me, desStart, data);
    } else {
      CopyPart(result, 0, parts[me], relStart, desStop - desStart);
      forall k | 0 <= k < result.Length ensures result[k] == Wanted(data, desStart + k) {
        assert cur.Has(desStart + k);
      }
    }
  }

  /** The part that is already here. */
  method CopyLocal<T>(spans: seq<Span>, part: seq<T>, me: nat, desStart: int, desStop: int,
      result: array<Cell<T>>, ghost data: seq<T>)
    requires me < |spans| && desStart < desStop && result.Length == desStop - desStart
    requires Holds(spans[me], part, data) && forall k | 0 <= k < result.Length :: result[k] == Unset
    modifies result
    ensures Gathered(result[..], spans, me, 0, desStart, data)
  {
    var cur := spans[me];
    if desStart < cur.stop && desStop > cur.start {
      var indices := IndexCalculation(desStart, desStop, cur.start, cur.stop);
      CopyPart(result, indices.projectedStart, part, indices.localStart, indices.size);
    }
    forall k | 0 <= k < result.Length
      ensures result[k] == if cur.Has(desStart + k) then Wanted(data, desStart + k) else Unset
    {
    }
  }

  /** Accepted tiles leave nothing out. */
  lemma GatheredAll<T>(cells: seq<Cell<T>>, spans: seq<Span>, me: nat, desStart: int, data: seq<T>)
    requires spans != [] && Judge(spans) == Accepted && MaxStop(spans) == |data|
    requires Gathered(cells, spans, me, |spans|, desStart, data)
    ensures forall k | 0 <= k < |cells| :: cells[k] == Wanted(data, desStart + k)
  {
    forall k | 0 <= k < |cells| ensures cells[k] == Wanted(data, desStart + k) {
      AcceptedCovers(spans, desStart + k);
      if 0 <= desStart + k < |data| {
        var t :| 0 <= t < |spans| && spans[t].Has(desStart + k);
        assert t < |spans| || t == me;
      }
    }
  }

  /** The gathering loop over the other localities. */
  method FetchRemote<T>(spans: seq<Span>, parts: seq<seq<T>>, me: nat, desStart: int, desStop: int,
      result: array<Cell<T>>, ghost data: seq<T>)
    requires |parts| == |spans| && me < |spans| && result.Length == desStop - desStart
    requires forall t | 0 <= t < |spans| :: Holds(spans[t], parts[t], data)
    requires Gathered(result[..], spans, me, 0, desStart, data)
    modifies result
    ensures Gathered(result[..], spans, me, |spans|, desStart, data)
  {
    for loc := 0 to |spans|
      invariant Gathered(result[..], spans, me, loc, desStart, data)
    {
      if loc != me { FetchPart(spans, parts, me, loc, desStart, desStop, result, data); }
    }
  }

  /** One round of the gathering loop: what tile `loc` has of the target. */
  method FetchPart<T>(spans: seq<Span>, parts: seq<seq<T>>, me: nat, loc: nat, desStart: int, desStop: int,
      result: array<Cell<T>>, ghost data: seq<T>)
    requires |parts| == |spans| && me < |spans| && loc < |spans| && loc != me
    requires result.Length == desStop - desStart
    requires Holds(spans[loc], parts[loc], data)
    requires Gathered(result[..], spans, me, loc, desStart, data)
    modifies result
    ensures Gathered(result[..], spans, me, loc + 1, desStart, data)
  {
    ghost var before := result[..];
    var indices := RetileCalculation(spans[loc], desStart, desStop);
    if indices.size > 0 {
      CopyPart(result, indices.projectedStart, parts[loc], indices.localStart, indices.size);
    }
    forall k | 0 <= k < result.Length
      ensures result[k] == if spans[loc].Has(desStart + k) then Wanted(data, desStart + k) else before[k]
    {
    }
    GatheredNext(before, result[..], spans, me, loc, desStart, data);
  }

  lemma GatheredNext<T>(before: seq<Cell<T>>, after: seq<Cell<T>>, spans: seq<Span>, me: nat, loc: nat,
      desStart: int, data: seq<T>)
    requires loc < |spans| && |before| == |after| && Gathered(before, spans, me, loc, desStart, data)
    requires forall k | 0 <= k < |after| ::
      after[k] == if spans[loc].Has(desStart + k) then Wanted(data, desStart + k) else before[k]
    ensures Gathered(after, spans, me, loc + 1, desStart, data)
  {
    forall k | 0 <= k < |after|
      ensures after[k] == if exists t | 0 <= t < |spans| && (t < loc + 1 || t == me) :: spans[t].Has(desStart + k)
                          then Wanted(data, desStart + k) else Unset
    {
      var x := desStart + k;
      if exists t | 0 <= t < |spans| && (t < loc || t == me) :: spans[t].Has(x) {
        var t :| 0 <= t < |spans| && (t < loc || t == me) && spans[t].Has(x);
        assert t < loc + 1 || t == me;
      }
    }
  }
}
