/**
  Viewport resolution in `_addTiles`: the two world-space corners are clamped
  to [-180, 180], converted to tile indices by the (external) mercator
  helpers, clamped to the grid, and ordered into an inclusive range of
  columns [x1, x2] and rows [y2, y1]. Row j is stored under the flipped
  index `2^zoom - 1 - j`.
 */
module Viewport {
  import opened TileGeometry

  function Min(a: int, b: int): int { if a <= b then a else b }
  function Max(a: int, b: int): int { if a <= b then b else a }

  /** A world-space point as returned by `displayToWorld`. */
  datatype WorldPoint = WorldPoint(x: real, y: real)

  /** `Math.min(Math.max(v, -180), 180)`. */
  function ClampDegrees(v: real): (r: real)
    ensures -180.0 <= r <= 180.0
    ensures -180.0 <= v <= 180.0 ==> r == v
    ensures v < -180.0 ==> r == -180.0
    ensures v > 180.0 ==> r == 180.0
  {
    var lower := if v >= -180.0 then v else -180.0;
    if lower <= 180.0 then lower else 180.0
  }

  /** Both components of a corner are clamped independently. */
  function ClampWorld(p: WorldPoint): (r: WorldPoint)
    ensures -180.0 <= r.x <= 180.0 && -180.0 <= r.y <= 180.0
    ensures -180.0 <= p.x <= 180.0 && -180.0 <= p.y <= 180.0 ==> r == p
    ensures r.x == ClampDegrees(p.x) && r.y == ClampDegrees(p.y)
  {
    WorldPoint(ClampDegrees(p.x), ClampDegrees(p.y))
  }

  /** The four tile indices `tile1x, tile1y` (lower-left corner) and
      `tile2x, tile2y` (upper-right corner). */
  datatype TileRange = TileRange(x1: int, y1: int, x2: int, y2: int)

  /** `Math.min(2^zoom - 1, Math.max(t, 0))`. */
  function ClampIndex(t: int, zoom: nat): (r: int)
    ensures 0 <= r <= MaxIndex(zoom)
    ensures 0 <= t <= MaxIndex(zoom) ==> r == t
    ensures t < 0 ==> r == 0
    ensures t > MaxIndex(zoom) ==> r == MaxIndex(zoom)
  {
    Min(MaxIndex(zoom), Max(t, 0))
  }

  /** All four indices lie in the grid of the zoom level. */
  predicate InGrid(r: TileRange, zoom: nat)
  {
    && 0 <= r.x1 <= MaxIndex(zoom) && 0 <= r.x2 <= MaxIndex(zoom)
    && 0 <= r.y1 <= MaxIndex(zoom) && 0 <= r.y2 <= MaxIndex(zoom)
  }

  function ClampRange(raw: TileRange, zoom: nat): (r: TileRange)
    ensures InGrid(r, zoom)
    ensures InGrid(raw, zoom) ==> r == raw
  {
    TileRange(ClampIndex(raw.x1, zoom), ClampIndex(raw.y1, zoom),
              ClampIndex(raw.x2, zoom), ClampIndex(raw.y2, zoom))
  }

  /** The x correction: an inverted column pair is swapped. */
  function OrderColumns(r: TileRange): (o: TileRange)
    ensures o.x1 == Min(r.x1, r.x2) && o.x2 == Max(r.x1, r.x2)
    ensures o.y1 == r.y1 && o.y2 == r.y2
  {
    if r.x1 > r.x2 then r.(x1 := r.x2, x2 := r.x1) else r
  }

  /** The y correction as the source writes it: the saved `tile1y` goes to
      `tile2y`, but the old `tile2y` is written into `tile1x` instead of
      `tile1y`. The row range collapses to the single row `tile1y` and the
      column range starts at the old `tile2y`. */
  function OrderRowsAsWritten(r: TileRange): (o: TileRange)
    ensures o.y2 <= o.y1 && o.y1 == r.y1 && o.x2 == r.x2
    ensures r.y2 > r.y1 ==> o.y2 == o.y1 && o.x1 == r.y2
    ensures r.y2 <= r.y1 ==> o == r
  {
    if r.y2 > r.y1 then r.(x1 := r.y2, y2 := r.y1) else r
  }

  /** The evidently intended y correction: an inverted row pair is swapped. */
  function OrderRows(r: TileRange): (o: TileRange)
    ensures o.y2 == Min(r.y1, r.y2) && o.y1 == Max(r.y1, r.y2)
    ensures o.x1 == r.x1 && o.x2 == r.x2
  {
    if r.y2 > r.y1 then r.(y1 := r.y2, y2 := r.y1) else r
  }

  /** Lines 316-338 exactly as written. */
  function ResolveRangeAsWritten(raw: TileRange, zoom: nat): (r: TileRange)
    ensures InGrid(r, zoom)
    ensures r.y2 <= r.y1
  {
    OrderRowsAsWritten(OrderColumns(ClampRange(raw, zoom)))
  }

  /** Lines 316-338 with the y pair swapped as intended: the range spans,
      in both axes, from the smaller to the larger clamped corner index. */
  function ResolveRange(raw: TileRange, zoom: nat): (r: TileRange)
    ensures InGrid(r, zoom)
    ensures r.x1 <= r.x2 && r.y2 <= r.y1
    ensures var c := ClampRange(raw, zoom);
      && r.x1 == Min(c.x1, c.x2) && r.x2 == Max(c.x1, c.x2)
      && r.y2 == Min(c.y1, c.y2) && r.y1 == Max(c.y1, c.y2)
  {
    OrderRows(OrderColumns(ClampRange(raw, zoom)))
  }

  /** Column i and grid row j are visited by the create/reshow loop. */
  predicate Covers(r: TileRange, i: int, j: int)
  {
    r.x1 <= i <= r.x2 && r.y2 <= j <= r.y1
  }

  /** `invJ = 2^zoom - 1 - j`: the storage row of grid row j. */
  function StorageRow(zoom: nat, j: int): (y: int)
    ensures 0 <= j <= MaxIndex(zoom) ==> 0 <= y <= MaxIndex(zoom)
    ensures y + j == MaxIndex(zoom)
  {
    MaxIndex(zoom) - j
  }

  /** The corrected range covers exactly the rectangle spanned by the two
      clamped corners, whatever order they come in. */
  lemma ResolveRangeCoversCorners(raw: TileRange, zoom: nat, i: int, j: int)
    ensures var c := ClampRange(raw, zoom);
      Covers(ResolveRange(raw, zoom), i, j) <==>
        ((c.x1 <= i <= c.x2 || c.x2 <= i <= c.x1) && (c.y1 <= j <= c.y2 || c.y2 <= j <= c.y1))
  {
  }

  /** When the y branch fires, the range as written covers at most one row,
      and its first column is the old `tile2y`, unrelated to the columns. */
  lemma AsWrittenCollapsesRows(raw: TileRange, zoom: nat)
    requires var c := OrderColumns(ClampRange(raw, zoom)); c.y2 > c.y1
    ensures var c := OrderColumns(ClampRange(raw, zoom));
      var r := ResolveRangeAsWritten(raw, zoom);
      && r.y1 == r.y2 == c.y1
      && r.x1 == c.y2 && r.x2 == c.x2
  {
  }

  /** A viewport whose corner rows arrive inverted: at zoom 2 the corners
      (0, 0) and (3, 3) should give the whole 4 x 4 grid, but the range as
      written covers only column 3 of row 0. */
  lemma AsWrittenMissesTiles()
    ensures ResolveRangeAsWritten(TileRange(0, 0, 3, 3), 2) == TileRange(3, 0, 3, 0)
    ensures ResolveRange(TileRange(0, 0, 3, 3), 2) == TileRange(0, 3, 3, 0)
    ensures !Covers(ResolveRangeAsWritten(TileRange(0, 0, 3, 3), 2), 0, 0)
    ensures Covers(ResolveRange(TileRange(0, 0, 3, 3), 2), 0, 0)
  {
    assert MaxIndex(2) == 3 by {
      assert Pow2(2) == 2 * Pow2(1) == 4;
    }
  }
}
