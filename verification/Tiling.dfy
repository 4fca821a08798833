/** How distributed arrays are cut into tiles: the check that the spans along
    one axis leave no gap, and what the tiling predicates add to it. */
module Tiling {

  datatype Span = Span(start: int, stop: int) {
    predicate IsValid() { start < stop }

    function Size(): int { stop - start }

    predicate Has(x: int) { start <= x < stop }
  }

  /** One span per axis, the slowest axis first. */
  datatype Tile = Tile(spans: seq<Span>)

  datatype Verdict = Accepted | NotFromZero | NotConsecutive

  function Axis(tiles: seq<Tile>, n: nat): (s: seq<Span>)
    requires forall t | 0 <= t < |tiles| :: n < |tiles[t].spans|
    ensures |s| == |tiles|
    ensures forall t | 0 <= t < |tiles| :: s[t] == tiles[t].spans[n]
  {
    seq(|tiles|, t requires 0 <= t < |tiles| => tiles[t].spans[n])
  }

  // ---------------------------------------------------------------------
  // What the check computes, on the spans of one axis

  /** The first span counts whether or not it is valid. */
  function MinStart(s: seq<Span>): int
    requires s != []
  {
    var last := s[|s| - 1];
    if |s| == 1 then last.start
    else if last.IsValid() && last.start < MinStart(s[..|s| - 1]) then last.start
    else MinStart(s[..|s| - 1])
  }

  function MaxStop(s: seq<Span>): int
    requires s != []
  {
    var last := s[|s| - 1];
    if |s| == 1 then last.stop
    else if last.IsValid() && last.stop > MaxStop(s[..|s| - 1]) then last.stop
    else MaxStop(s[..|s| - 1])
  }

  ghost predicate Covered(s: seq<Span>, x: int) {
    exists t | 0 <= t < |s| :: s[t].Has(x)
  }

  /** Every stop is the end, or lies in some span. */
  ghost predicate NoGap(s: seq<Span>)
    requires s != []
  {
    forall t | 0 <= t < |s| :: s[t].stop == MaxStop(s) || Covered(s, s[t].stop)
  }

  ghost function Judge(s: seq<Span>): Verdict
    requires s != []
  {
    if MinStart(s) != 0 then NotFromZero else if NoGap(s) then Accepted else NotConsecutive
  }

  // ---------------------------------------------------------------------
  // The loops of the program

  /** `std::min_element` with the comparison of `validate_dimension`. */
  method MinElement(tiles: seq<Tile>, n: nat) returns (k: nat)
    requires tiles != [] && forall t | 0 <= t < |tiles| :: n < |tiles[t].spans|
    ensures k < |tiles| && tiles[k].spans[n].start == MinStart(Axis(tiles, n))
  {
    k := 0;
    ghost var s := Axis(tiles, n);
    assert s[..1] == [s[0]];
    for i := 1 to |tiles|
      invariant k < i && tiles[k].spans[n].start == MinStart(s[..i])
    {
      assert s[..i + 1][..i] == s[..i];
      var v := tiles[i].spans[n];
      if v.IsValid() && v.start < tiles[k].spans[n].start { k := i; }
    }
    assert s[..|s|] == s;
  }

  method MaxElement(tiles: seq<Tile>, n: nat) returns (k: nat)
    requires tiles != [] && forall t | 0 <= t < |tiles| :: n < |tiles[t].spans|
    ensures k < |tiles| && tiles[k].spans[n].stop == MaxStop(Axis(tiles, n))
  {
    k := 0;
    ghost var s := Axis(tiles, n);
    assert s[..1] == [s[0]];
    for i := 1 to |tiles|
      invariant k < i && tiles[k].spans[n].stop == MaxStop(s[..i])
    {
      assert s[..i + 1][..i] == s[..i];
      var v := tiles[i].spans[n];
      if v.IsValid() && tiles[k].spans[n].stop < v.stop { k := i; }
    }
    assert s[..|s|] == s;
  }

  method AnySpanHas(tiles: seq<Tile>, n: nat, x: int) returns (found: bool)
    requires forall t | 0 <= t < |tiles| :: n < |tiles[t].spans|
    ensures found == Covered(Axis(tiles, n), x)
  {
    ghost var s := Axis(tiles, n);
    for i := 0 to |tiles|
      invariant forall t | 0 <= t < i :: !s[t].Has(x)
    {
      if tiles[i].spans[n].Has(x) {
        assert s[i].Has(x);
        return true;
      }
    }
    return false;
  }

  /** `validate_dimension`: looks at end points only. */
  method ValidateDimension(tiles: seq<Tile>, n: nat) returns (verdict: Verdict)
    requires tiles != [] && forall t | 0 <= t < |tiles| :: n < |tiles[t].spans|
    ensures verdict == Judge(Axis(tiles, n))
  {
    ghost var s := Axis(tiles, n);
    var itMin := MinElement(tiles, n);
    if tiles[itMin].spans[n].start != 0 { return NotFromZero; }
    var itMax := MaxElement(tiles, n);
    var end := tiles[itMax].spans[n].stop;
    for i := 0 to |tiles|
      invariant forall t | 0 <= t < i :: s[t].stop == end || Covered(s, s[t].stop)
    {
      var stopPoint := tiles[i].spans[n].stop;
      if stopPoint != end {
        var found := AnySpanHas(tiles, n, stopPoint);
        if !found {
          assert s[i].stop == stopPoint;
          return NotConsecutive;
        }
      }
    }
    return Accepted;
  }

  // ---------------------------------------------------------------------
  // What acceptance means

  lemma {:induction false} MinStartIsLeast(s: seq<Span>)
    requires s != []
    ensures exists t | 0 <= t < |s| :: s[t].start == MinStart(s)
    ensures forall t | 0 <= t < |s| :: s[t].IsValid() ==> MinStart(s) <= s[t].start
    decreases |s|
  {
    var n := |s| - 1;
    if n == 0 {
      assert s[0].start == MinStart(s);
    } else {
      MinStartIsLeast(s[..n]);
      var k :| 0 <= k < n && s[..n][k].start == MinStart(s[..n]);
      assert s[k].start == MinStart(s[..n]);
      assert s[n].start == MinStart(s) || s[k].start == MinStart(s);
      forall t | 0 <= t < |s| && s[t].IsValid() ensures MinStart(s) <= s[t].start {
        if t < n { assert s[..n][t] == s[t]; }
      }
    }
  }

  lemma {:induction false} MaxStopIsGreatest(s: seq<Span>)
    requires s != []
    ensures exists t | 0 <= t < |s| :: s[t].stop == MaxStop(s)
    ensures forall t | 0 <= t < |s| :: s[t].IsValid() ==> s[t].stop <= MaxStop(s)
    decreases |s|
  {
    var n := |s| - 1;
    if n == 0 {
      assert s[0].stop == MaxStop(s);
    } else {
      MaxStopIsGreatest(s[..n]);
      var k :| 0 <= k < n && s[..n][k].stop == MaxStop(s[..n]);
      assert s[k].stop == MaxStop(s[..n]);
      assert s[n].stop == MaxStop(s) || s[k].stop == MaxStop(s);
      forall t | 0 <= t < |s| && s[t].IsValid() ensures s[t].stop <= MaxStop(s) {
        if t < n { assert s[..n][t] == s[t]; }
      }
    }
  }

  /** A span that stops at or before `x`, as late as possible. */
  lemma {:induction false} LatestStop(s: seq<Span>, x: int) returns (k: int)
    ensures if k == -1 then forall t | 0 <= t < |s| :: s[t].stop > x
      else 0 <= k < |s| && s[k].stop <= x && forall t | 0 <= t < |s| && s[t].stop <= x :: s[t].stop <= s[k].stop
    decreases |s|
  {
    k := -1;
    if s != [] {
      var n := |s| - 1;
      k := LatestStop(s[..n], x);
      var j := k;
      if s[n].stop <= x && (k == -1 || s[k].stop < s[n].stop) { k := n; }
      forall t | 0 <= t < |s| && s[t].stop <= x ensures k != -1 && s[t].stop <= s[k].stop {
        if t < n { assert s[..n][t] == s[t]; }
      }
    }
  }

  /** Main result: acceptance means that every index from zero up to the
      largest stop lies in some span, empty tiles or not. */
  lemma AcceptedCovers(s: seq<Span>, x: int)
    requires s != [] && Judge(s) == Accepted
    ensures 0 <= x < MaxStop(s) ==> Covered(s, x)
    ensures forall t | 0 <= t < |s| :: s[t].stop <= MaxStop(s)
  {
    if 0 <= x < MaxStop(s) {
      var k := LatestStop(s, x);
      if k == -1 {
        MinStartIsLeast(s);
        var t :| 0 <= t < |s| && s[t].start == MinStart(s);
        assert s[t].Has(x);
      } else {
        var t :| 0 <= t < |s| && s[t].Has(s[k].stop);
        assert s[t].Has(x);
      }
    }
    StopsEnd(s);
  }

  lemma StopsEnd(s: seq<Span>)
    requires s != [] && NoGap(s)
    ensures forall t | 0 <= t < |s| :: s[t].stop <= MaxStop(s)
  {
    MaxStopIsGreatest(s);
    forall t | 0 <= t < |s| ensures s[t].stop <= MaxStop(s) {
      if s[t].stop != MaxStop(s) {
        var v :| 0 <= v < |s| && s[v].Has(s[t].stop);
        assert s[v].IsValid();
      }
    }
  }

  ghost predicate NonemptyFromZero(s: seq<Span>) {
    s != [] && forall t | 0 <= t < |s| :: s[t].IsValid() && s[t].start >= 0
  }

  /** Main result: for non-empty spans in range, the end-point check decides
      exactly whether the spans cover an interval that starts at zero. */
  lemma AcceptedExactly(s: seq<Span>)
    requires NonemptyFromZero(s)
    ensures Judge(s) == Accepted <==> forall x :: Covered(s, x) <==> 0 <= x < MaxStop(s)
  {
    MinStartIsLeast(s);
    MaxStopIsGreatest(s);
    if Judge(s) == Accepted {
      forall x ensures Covered(s, x) <==> 0 <= x < MaxStop(s) { AcceptedCovers(s, x); }
    }
    if forall x :: Covered(s, x) <==> 0 <= x < MaxStop(s) {
      assert MaxStop(s) > 0;
      assert Covered(s, 0);
      var t :| 0 <= t < |s| && s[t].Has(0);
      assert MinStart(s) == 0;
      assert NoGap(s);
    }
  }

  ghost predicate StartsInRange(s: seq<Span>) {
    s != [] && forall t | 0 <= t < |s| :: s[t].IsValid() ==> s[t].start >= 0
  }

  /** An empty span stops where the others end, or inside them. */
  ghost predicate EmptySpansFit(s: seq<Span>)
    requires s != []
  {
    forall t | 0 <= t < |s| :: !s[t].IsValid() ==> s[t].stop == MaxStop(s) || 0 <= s[t].stop < MaxStop(s)
  }

  lemma {:induction false} MinStartFrom(s: seq<Span>)
    requires s != []
    ensures MinStart(s) == s[0].start || exists t | 0 <= t < |s| :: s[t].IsValid() && s[t].start == MinStart(s)
    decreases |s|
  {
    if |s| > 1 {
      var front := s[..|s| - 1];
      MinStartFrom(front);
      if MinStart(front) != s[0].start {
        var t :| 0 <= t < |front| && front[t].IsValid() && front[t].start == MinStart(front);
        assert s[t] == front[t];
      }
    }
  }

  lemma {:induction false} NoneValid(s: seq<Span>)
    requires s != [] && forall t | 0 <= t < |s| :: !s[t].IsValid()
    ensures MinStart(s) == s[0].start && MaxStop(s) == s[0].stop
    decreases |s|
  {
    if |s| > 1 { NoneValid(s[..|s| - 1]); }
  }

  /** Main result: with empty spans among them, too, the check decides exactly whether
      the spans cover an interval from zero: empty ones must only not stop elsewhere,
      and if there are no others the first one must start at zero. */
  lemma AcceptedWithEmptySpans(s: seq<Span>)
    requires StartsInRange(s)
    ensures Judge(s) == Accepted
       <==> && (forall x :: Covered(s, x) <==> 0 <= x < MaxStop(s)) && EmptySpansFit(s)
            && ((exists t | 0 <= t < |s| :: s[t].IsValid()) || s[0].start == 0)
  {
    MinStartIsLeast(s);
    MaxStopIsGreatest(s);
    MinStartFrom(s);
    if Judge(s) == Accepted {
      forall x ensures Covered(s, x) <==> 0 <= x < MaxStop(s) { AcceptedCovers(s, x); }
      if forall t | 0 <= t < |s| :: !s[t].IsValid() { NoneValid(s); }
    } else if exists t | 0 <= t < |s| :: s[t].IsValid() {
      ValidAreRejected(s);
    } else {
      NoneValid(s);
      NoneValidRejected(s);
    }
  }

  lemma ValidAreRejected(s: seq<Span>)
    requires StartsInRange(s) && Judge(s) != Accepted && exists t | 0 <= t < |s| :: s[t].IsValid()
    ensures !((forall x :: Covered(s, x) <==> 0 <= x < MaxStop(s)) && EmptySpansFit(s))
  {
    MinStartIsLeast(s);
    MaxStopIsGreatest(s);
    MinStartFrom(s);
    if (forall x :: Covered(s, x) <==> 0 <= x < MaxStop(s)) && EmptySpansFit(s) {
      assert MaxStop(s) > 0;
      assert Covered(s, 0);
      var t :| 0 <= t < |s| && s[t].Has(0);
      assert s[0].start >= 0;
      assert MinStart(s) == 0;
      assert NoGap(s);
    }
  }

  lemma NoneValidRejected(s: seq<Span>)
    requires s != [] && Judge(s) != Accepted && forall t | 0 <= t < |s| :: !s[t].IsValid()
    ensures !((forall x :: Covered(s, x) <==> 0 <= x < MaxStop(s)) && EmptySpansFit(s) && s[0].start == 0)
  {
    NoneValid(s);
  }

  // ---------------------------------------------------------------------
  // Whole boxes

  /** A tile is empty along every axis, or a proper box of `d` axes. */
  ghost predicate Uniform(tiles: seq<Tile>, d: nat) {
    forall t | 0 <= t < |tiles| ::
      d <= |tiles[t].spans| && (IsEmptyTile(tiles[t], d) || IsBoxTile(tiles[t], d))
  }

  ghost predicate IsEmptyTile(tile: Tile, d: nat) {
    forall a | 0 <= a < |tile.spans| :: !tile.spans[a].IsValid()
  }

  ghost predicate IsBoxTile(tile: Tile, d: nat) {
    d <= |tile.spans| && forall a | 0 <= a < |tile.spans| ::
      if a < d then tile.spans[a].IsValid() && tile.spans[a].start >= 0 else !tile.spans[a].IsValid()
  }

  function CountValid(spans: seq<Span>): nat {
    if spans == [] then 0
    else CountValid(spans[..|spans| - 1]) + if spans[|spans| - 1].IsValid() then 1 else 0
  }

  /** The number of valid spans. */
  method Dimension(tile: Tile) returns (dim: nat)
    ensures dim == CountValid(tile.spans)
  {
    dim := 0;
    for i := 0 to |tile.spans|
      invariant dim == CountValid(tile.spans[..i])
    {
      assert tile.spans[..i + 1][..i] == tile.spans[..i];
      if tile.spans[i].IsValid() { dim := dim + 1; }
    }
    assert tile.spans[..|tile.spans|] == tile.spans;
  }

  lemma {:induction false} CountOfPrefix(spans: seq<Span>, d: nat)
    requires forall a | 0 <= a < |spans| :: spans[a].IsValid() <==> a < d
    ensures CountValid(spans) == if |spans| < d then |spans| else d
    decreases |spans|
  {
    if spans != [] { CountOfPrefix(spans[..|spans| - 1], d); }
  }

  lemma DimensionOf(tile: Tile, d: nat)
    requires IsEmptyTile(tile, d) || IsBoxTile(tile, d)
    ensures CountValid(tile.spans) == if IsBoxTile(tile, d) then d else 0
  {
    if IsBoxTile(tile, d) { CountOfPrefix(tile.spans, d); } else { CountOfPrefix(tile.spans, 0); }
  }

  /** Every non-empty tile spans the whole axis. */
  ghost predicate FullAlong(tiles: seq<Tile>, a: nat, size: int) {
    forall t | 0 <= t < |tiles| ::
      a < |tiles[t].spans| && tiles[t].spans[a].IsValid() ==> size == tiles[t].spans[a].Size()
  }

  /** `dim_tiled`. */
  method DimTiled(tiles: seq<Tile>, a: nat, size: int) returns (b: bool)
    ensures b == FullAlong(tiles, a, size)
  {
    for i := 0 to |tiles|
      invariant forall t | 0 <= t < i ::
        a < |tiles[t].spans| && tiles[t].spans[a].IsValid() ==> size == tiles[t].spans[a].Size()
    {
      var v := tiles[i].spans;
      if a < |v| && v[a].IsValid() && size != v[a].Size() { return false; }
    }
    return true;
  }

  /** The axis along which tiles may differ: `is_page_tiled`, `is_row_tiled`
      and `is_column_tiled` ask for full tiles along all others. */
  datatype Kind = Page | Row | Column

  /** An unexpected number of dimensions, or only empty tiles, throws. */
  datatype Query = Throws | Answer(b: bool)

  function FreeAxis(kind: Kind, d: nat): nat {
    match kind
    case Page => 0
    case Row => if d == 2 then 0 else 1
    case Column => if d == 2 then 1 else 2
  }

  predicate Supported(kind: Kind, d: nat) {
    d == 3 || (d == 2 && !kind.Page?)
  }

  /** Every tile has a span, valid or not, for each of the first `d` axes. */
  ghost predicate Wide(tiles: seq<Tile>, d: nat) {
    forall t | 0 <= t < |tiles| :: d <= |tiles[t].spans|
  }

  ghost predicate TiledAlong(tiles: seq<Tile>, d: nat, free: nat)
    requires tiles != [] && Wide(tiles, d)
  {
    forall a | 0 <= a < d && a != free :: FullAlong(tiles, a, MaxStop(Axis(tiles, a)))
  }

  /** The number of valid spans of the first tile that has any. */
  function FirstDimension(tiles: seq<Tile>): nat {
    if tiles == [] then 0
    else if CountValid(tiles[0].spans) != 0 then CountValid(tiles[0].spans)
    else FirstDimension(tiles[1..])
  }

  lemma {:induction false} EmptyTilesSkipped(tiles: seq<Tile>, i: nat)
    requires i <= |tiles| && forall t | 0 <= t < i :: CountValid(tiles[t].spans) == 0
    ensures FirstDimension(tiles) == FirstDimension(tiles[i..])
    decreases i
  {
    if i == 0 {
      assert tiles[0..] == tiles;
    } else {
      EmptyTilesSkipped(tiles[1..], i - 1);
      assert tiles[1..][i - 1..] == tiles[i..];
    }
  }

  /** For boxes of `d` axes it is `d`. */
  lemma {:induction false} BoxDimension(tiles: seq<Tile>, d: nat)
    requires Uniform(tiles, d) && d > 0 && exists t | 0 <= t < |tiles| :: IsBoxTile(tiles[t], d)
    ensures FirstDimension(tiles) == d
    decreases |tiles|
  {
    DimensionOf(tiles[0], d);
    if !IsBoxTile(tiles[0], d) {
      var t :| 0 <= t < |tiles| && IsBoxTile(tiles[t], d);
      assert tiles[1..][t - 1] == tiles[t];
      BoxDimension(tiles[1..], d);
    }
  }

  /** `dim_tiled` for all axes but one, with the sizes of `pages`, `rows` and `columns`. */
  method AllOthersFull(tiles: seq<Tile>, dim: nat, free: nat) returns (b: bool)
    requires tiles != [] && Wide(tiles, dim)
    ensures b == TiledAlong(tiles, dim, free)
  {
    for a := 0 to dim
      invariant forall a' | 0 <= a' < a && a' != free :: FullAlong(tiles, a', MaxStop(Axis(tiles, a')))
    {
      if a != free {
        var itMax := MaxElement(tiles, a);
        var full := DimTiled(tiles, a, tiles[itMax].spans[a].stop);
        if !full { return false; }
      }
    }
    return true;
  }

  /** The three queries: the first non-empty tile decides how many axes there are. */
  method IsTiled(tiles: seq<Tile>, kind: Kind) returns (r: Query)
    requires Supported(kind, FirstDimension(tiles)) ==> Wide(tiles, FirstDimension(tiles))
    ensures r == var d := FirstDimension(tiles);
      if Supported(kind, d) then Answer(TiledAlong(tiles, d, FreeAxis(kind, d))) else Throws
    ensures FirstDimension(tiles) !in {2, 3} || (kind.Page? && FirstDimension(tiles) == 2) ==> r == Throws
  {
    for i := 0 to |tiles|
      invariant forall t | 0 <= t < i :: CountValid(tiles[t].spans) == 0
    {
      var dim := Dimension(tiles[i]);
      if dim == 0 { continue; }
      EmptyTilesSkipped(tiles, i);
      assert dim == FirstDimension(tiles);
      if !Supported(kind, dim) { return Throws; }
      var b := AllOthersFull(tiles, dim, FreeAxis(kind, dim));
      return Answer(b);
    }
    EmptyTilesSkipped(tiles, |tiles|);
    return Throws;
  }

  ghost predicate InBox(tiles: seq<Tile>, d: nat, cell: seq<int>)
    requires tiles != [] && Uniform(tiles, d)
  {
    |cell| == d && forall a | 0 <= a < d :: 0 <= cell[a] < MaxStop(Axis(tiles, a))
  }

  ghost predicate TileHas(tile: Tile, cell: seq<int>) {
    |cell| <= |tile.spans| && forall a | 0 <= a < |cell| :: tile.spans[a].Has(cell[a])
  }

  ghost predicate HasTile(tiles: seq<Tile>, cell: seq<int>) {
    exists t | 0 <= t < |tiles| :: TileHas(tiles[t], cell)
  }

  // ---------------------------------------------------------------------
  // Corners

  /** Zero, or where some tile stops. */
  ghost predicate IsMark(tiles: seq<Tile>, d: nat, a: nat, x: int)
    requires Uniform(tiles, d) && a < d
  {
    x == 0 || exists t | 0 <= t < |tiles| :: IsBoxTile(tiles[t], d) && tiles[t].spans[a].stop == x
  }

  /** Finitely many cells. */
  ghost predicate IsCorner(tiles: seq<Tile>, d: nat, cell: seq<int>)
    requires tiles != [] && Uniform(tiles, d)
  {
    InBox(tiles, d, cell) && forall a | 0 <= a < d :: IsMark(tiles, d, a, cell[a])
  }

  lemma MarkShifts(tiles: seq<Tile>, d: nat, a: nat, x: int)
    requires tiles != [] && Uniform(tiles, d) && a < d && IsMark(tiles[1..], d, a, x)
    ensures IsMark(tiles, d, a, x)
  {
    if x != 0 {
      var t :| 0 <= t < |tiles| - 1 && IsBoxTile(tiles[1..][t], d) && tiles[1..][t].spans[a].stop == x;
      assert tiles[t + 1] == tiles[1..][t];
    }
  }

  /** The last mark at or before `x`. */
  ghost function MarkBelow(tiles: seq<Tile>, d: nat, a: nat, x: int): (y: int)
    requires Uniform(tiles, d) && a < d && x >= 0
    ensures 0 <= y <= x && IsMark(tiles, d, a, y)
    ensures forall t | 0 <= t < |tiles| && IsBoxTile(tiles[t], d) :: tiles[t].spans[a].stop <= x ==> tiles[t].spans[a].stop <= y
    decreases |tiles|
  {
    if tiles == [] then 0
    else
      var y := MarkBelow(tiles[1..], d, a, x);
      MarkShifts(tiles, d, a, y);
      if IsBoxTile(tiles[0], d) && y < tiles[0].spans[a].stop <= x then tiles[0].spans[a].stop else y
  }

  /** A tile that has the corner before a cell has the cell. */
  lemma CornerTileHas(tiles: seq<Tile>, d: nat, cell: seq<int>, corner: seq<int>, t: nat)
    requires tiles != [] && Uniform(tiles, d) && InBox(tiles, d, cell) && t < |tiles|
    requires |corner| == d && forall a | 0 <= a < d :: corner[a] == MarkBelow(tiles, d, a, cell[a])
    requires d > 0 && TileHas(tiles[t], corner)
    ensures TileHas(tiles[t], cell)
  {
    assert tiles[t].spans[0].Has(corner[0]);
    assert IsBoxTile(tiles[t], d);
    forall a | 0 <= a < d ensures tiles[t].spans[a].Has(cell[a]) {
      assert tiles[t].spans[a].Has(corner[a]);
    }
  }

  /** Main result: tiles fill the box exactly when every corner of it lies in some
      tile, a corner being a cell each of whose coordinates is zero or the stop of
      some tile.  This is to boxes what the end-point check is to one axis. */
  lemma CornersDecide(tiles: seq<Tile>, d: nat)
    requires tiles != [] && Uniform(tiles, d) && d > 0
    ensures (forall cell | InBox(tiles, d, cell) :: HasTile(tiles, cell))
       <==> (forall cell | IsCorner(tiles, d, cell) :: HasTile(tiles, cell))
  {
    if forall cell | IsCorner(tiles, d, cell) :: HasTile(tiles, cell) {
      forall cell | InBox(tiles, d, cell) ensures HasTile(tiles, cell) {
        var corner := seq(d, a requires 0 <= a < d => MarkBelow(tiles, d, a, cell[a]));
        assert IsCorner(tiles, d, corner);
        var t :| 0 <= t < |tiles| && TileHas(tiles[t], corner);
        CornerTileHas(tiles, d, cell, corner, t);
      }
    }
  }

  /** Main result: if every axis is validated and the tiles differ along one
      axis only, every cell of the whole box belongs to some tile. */
  lemma EveryCellHasATile(tiles: seq<Tile>, d: nat, free: nat, cell: seq<int>)
    requires tiles != [] && Uniform(tiles, d) && free < d
    requires forall a | 0 <= a < d :: Judge(Axis(tiles, a)) == Accepted
    requires TiledAlong(tiles, d, free) && InBox(tiles, d, cell)
    ensures HasTile(tiles, cell)
  {
    var s := Axis(tiles, free);
    AcceptedCovers(s, cell[free]);
    var t :| 0 <= t < |s| && s[t].Has(cell[free]);
    assert IsBoxTile(tiles[t], d);
    forall a | 0 <= a < d ensures tiles[t].spans[a].Has(cell[a]) {
      if a != free {
        var w := Axis(tiles, a);
        AcceptedCovers(w, cell[a]);
        assert FullAlong(tiles, a, MaxStop(w));
        assert w[t].stop <= MaxStop(w) && w[t].Size() == MaxStop(w) && w[t].start >= 0;
      }
    }
  }

  /** Validating each axis by itself is not enough: two tiles on the diagonal. */
  lemma AxesAloneLeaveHoles()
    ensures var s := [Span(0, 1), Span(1, 2)];
      var tiles := [Tile([s[0], s[0]]), Tile([s[1], s[1]])];
      && Uniform(tiles, 2) && Axis(tiles, 0) == s && Axis(tiles, 1) == s && Judge(s) == Accepted
      && !HasTile(tiles, [0, 1])
  {
    var s := [Span(0, 1), Span(1, 2)];
    assert s[..1] == [s[0]];
    assert MinStart(s) == 0 && MaxStop(s) == 2;
    assert s[1].Has(s[0].stop);
    assert NoGap(s);
    var tiles := [Tile([s[0], s[0]]), Tile([s[1], s[1]])];
    assert !TileHas(tiles[0], [0, 1]) by { assert !tiles[0].spans[1].Has([0, 1][1]); }
    assert !TileHas(tiles[1], [0, 1]) by { assert !tiles[1].spans[0].Has([0, 1][0]); }
  }
}
