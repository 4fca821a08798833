/** What the three tiling queries answer on a box that is cut into strips. */
module Strips {
  import opened Tiling

  /** The axis a query is named after: columns vary fastest, then rows, then pages. */
  function NamedAxis(kind: Kind, d: nat): int {
    match kind
    case Column => d - 1
    case Row => d - 2
    case Page => d - 3
  }

  /** A box of two or three axes, cut across one of them. */
  ghost predicate AreStrips(tiles: seq<Tile>, extents: seq<nat>, axis: nat) {
    && 2 <= |extents| <= 3 && axis < |extents| && (forall a | 0 <= a < |extents| :: extents[a] > 0)
    && (forall t | 0 <= t < |tiles| :: IsStrip(tiles[t], extents, axis))
    && exists t | 0 <= t < |tiles| :: tiles[t].spans[axis].stop == extents[axis]
  }

  ghost predicate IsStrip(tile: Tile, extents: seq<nat>, axis: nat)
    requires axis < |extents|
  {
    && |tile.spans| == |extents|
    && (forall a | 0 <= a < |extents| && a != axis :: tile.spans[a] == Span(0, extents[a]))
    && 0 <= tile.spans[axis].start < tile.spans[axis].stop <= extents[axis]
  }

  /** No cut at all. */
  ghost predicate AllWhole(tiles: seq<Tile>, extents: seq<nat>, axis: nat)
    requires AreStrips(tiles, extents, axis)
  {
    forall t | 0 <= t < |tiles| :: tiles[t].spans[axis] == Span(0, extents[axis])
  }

  lemma StripExtents(tiles: seq<Tile>, extents: seq<nat>, axis: nat, a: nat)
    requires AreStrips(tiles, extents, axis) && a < |extents|
    ensures MaxStop(Axis(tiles, a)) == extents[a]
  {
    MaxStopIsGreatest(Axis(tiles, a));
  }

  lemma StripsFull(tiles: seq<Tile>, extents: seq<nat>, axis: nat, a: nat)
    requires AreStrips(tiles, extents, axis) && a < |extents|
    ensures FullAlong(tiles, a, extents[a]) <==> a != axis || AllWhole(tiles, extents, axis)
  {
    if a == axis && FullAlong(tiles, a, extents[a]) {
      forall t | 0 <= t < |tiles| ensures tiles[t].spans[axis] == Span(0, extents[axis]) {
        assert IsStrip(tiles[t], extents, axis) && tiles[t].spans[a].IsValid();
      }
    }
  }

  /** Main result: strips are tiled along the axis they are cut across, and along no
      other one, unless they are not cut. */
  lemma StripsAreTiled(tiles: seq<Tile>, extents: seq<nat>, axis: nat, kind: Kind)
    requires AreStrips(tiles, extents, axis) && Supported(kind, |extents|)
    ensures TiledAlong(tiles, |extents|, FreeAxis(kind, |extents|))
       <==> axis == NamedAxis(kind, |extents|) || AllWhole(tiles, extents, axis)
  {
    forall a | 0 <= a < |extents|
      ensures FullAlong(tiles, a, MaxStop(Axis(tiles, a))) <==> a != axis || AllWhole(tiles, extents, axis)
    {
      StripExtents(tiles, extents, axis, a);
      StripsFull(tiles, extents, axis, a);
    }
    assert FullAlong(tiles, axis, MaxStop(Axis(tiles, axis))) ==> AllWhole(tiles, extents, axis);
  }

  lemma StripsDimension(tiles: seq<Tile>, extents: seq<nat>, axis: nat)
    requires AreStrips(tiles, extents, axis)
    ensures FirstDimension(tiles) == |extents|
  {
    forall t | 0 <= t < |tiles| ensures IsBoxTile(tiles[t], |extents|) {
      assert IsStrip(tiles[t], extents, axis);
    }
    BoxDimension(tiles, |extents|);
  }

  /** So the three queries tell strips apart. */
  method AskStrips(tiles: seq<Tile>, kind: Kind, extents: seq<nat>, axis: nat) returns (r: Query)
    requires AreStrips(tiles, extents, axis)
    ensures kind.Page? && |extents| == 2 ==> r == Throws
    ensures !(kind.Page? && |extents| == 2) ==>
      r == Answer(axis == NamedAxis(kind, |extents|) || AllWhole(tiles, extents, axis))
  {
    StripsDimension(tiles, extents, axis);
    r := IsTiled(tiles, kind);
    if Supported(kind, |extents|) { StripsAreTiled(tiles, extents, axis, kind); }
  }
}
