/**
  Tile-grid arithmetic of the OSM layer: how many tiles span one axis at a
  zoom level, the largest tile index, and the degree-space bounding box a
  tile receives when it is created (`_addTile`, corner computation).
  All coordinates are `real`, so the arithmetic here is exact.
 */
module TileGeometry {

  /** 2^n for a natural exponent. */
  function Pow2(n: nat): (r: nat)
    ensures r >= 1
  {
    if n == 0 then 1 else 2 * Pow2(n - 1)
  }

  /** `Math.max(1, Math.pow(2, zoom))`: for a zoom at or below zero the power is
      at most one, so the grid has a single tile per axis. */
  function TilesPerAxis(zoom: int): (n: nat)
    ensures n >= 1
    ensures zoom >= 0 ==> n == Pow2(zoom)
    ensures zoom <= 0 ==> n == 1
  {
    if zoom <= 0 then 1 else Pow2(zoom)
  }

  /** `Math.pow(2, zoom) - 1`, the largest tile index at a zoom level. */
  function MaxIndex(zoom: nat): (m: int)
    ensures m >= 0
    ensures m + 1 == Pow2(zoom)
  {
    Pow2(zoom) - 1
  }

  /** Lower-left and upper-right corners of a tile in projected degrees. */
  datatype BBox = BBox(llx: real, lly: real, urx: real, ury: real)

  /** The full extent of the projected world along either axis. */
  const WorldDegrees: real := 360.0

  /** Width (and height: the tiling is square) of one tile in degrees. */
  function DegreesPerTile(zoom: int): (d: real)
    ensures d > 0.0
    ensures d * (TilesPerAxis(zoom) as real) == WorldDegrees
  {
    WorldDegrees / (TilesPerAxis(zoom) as real)
  }

  /** The corners `_addTile` stores on a new tile: offsets of x and y tile
      widths from (-180, -180). */
  function TileBounds(zoom: int, x: int, y: int): BBox
  {
    var d := DegreesPerTile(zoom);
    BBox(-180.0 + (x as real) * d,
         -WorldDegrees * 0.5 + (y as real) * d,
         -180.0 + ((x + 1) as real) * d,
         -WorldDegrees * 0.5 + ((y + 1) as real) * d)
  }

  /** Every tile is a square of side 360 / max(1, 2^zoom), with its west edge
      left of its east edge and its south edge below its north edge, and
      neighbouring tiles share their common edge. */
  lemma TileBoundsSquare(zoom: int, x: int, y: int)
    ensures var b := TileBounds(zoom, x, y);
      && b.urx - b.llx == WorldDegrees / (TilesPerAxis(zoom) as real)
      && b.ury - b.lly == b.urx - b.llx
      && b.llx < b.urx && b.lly < b.ury
    ensures TileBounds(zoom, x, y).urx == TileBounds(zoom, x + 1, y).llx
    ensures TileBounds(zoom, x, y).ury == TileBounds(zoom, x, y + 1).lly
  {
    var d := DegreesPerTile(zoom);
    assert ((x + 1) as real) * d == (x as real) * d + d;
    assert ((y + 1) as real) * d == (y as real) * d + d;
  }

  /** The edge i tile widths east (or north) of -180. */
  function Edge(zoom: int, i: int): real
  {
    -180.0 + (i as real) * DegreesPerTile(zoom)
  }

  /** The four corners are the edges of the tile's column and row. */
  lemma TileBoundsEdges(zoom: int, x: int, y: int)
    ensures var b := TileBounds(zoom, x, y);
      && b.llx == Edge(zoom, x) && b.urx == Edge(zoom, x + 1)
      && b.lly == Edge(zoom, y) && b.ury == Edge(zoom, y + 1)
  {
  }

  /** Scaling by a positive factor keeps order and sign. */
  lemma ScaleMonotone(a: real, b: real, d: real)
    requires 0.0 <= a <= b && d > 0.0
    ensures 0.0 <= a * d <= b * d
  {
    assert b * d - a * d == (b - a) * d;
  }

  /** A factor between 0 and n times a width d with n * d == 360 lies in
      [0, 360]. */
  lemma ScaledWithin(a: real, n: real, d: real)
    requires 0.0 <= a <= n && d > 0.0 && d * n == WorldDegrees
    ensures 0.0 <= a * d <= WorldDegrees
  {
    ScaleMonotone(a, n, d);
    assert n * d == d * n;
  }

  /** A grid index, read as a real, lies between 0 and the tiles per axis. */
  lemma IndexAsReal(zoom: nat, i: int)
    requires 0 <= i <= MaxIndex(zoom) + 1
    ensures 0.0 <= i as real <= TilesPerAxis(zoom) as real
  {
  }

  /** A multiple of the tile width by a factor between 0 and the tiles per
      axis stays inside the world. */
  lemma ScaledIndexInWorld(zoom: nat, a: real)
    requires 0.0 <= a <= TilesPerAxis(zoom) as real
    ensures 0.0 <= a * DegreesPerTile(zoom) <= WorldDegrees
  {
    ScaledWithin(a, TilesPerAxis(zoom) as real, DegreesPerTile(zoom));
  }

  /** An edge a bounded number of tile widths from -180 stays inside the
      world, and 2^zoom tile widths reach exactly 180. */
  lemma EdgeInWorld(zoom: nat, i: int)
    requires 0 <= i <= MaxIndex(zoom) + 1
    ensures -180.0 <= Edge(zoom, i) <= 180.0
    ensures i == MaxIndex(zoom) + 1 ==> Edge(zoom, i) == 180.0
  {
    IndexAsReal(zoom, i);
    ScaledIndexInWorld(zoom, i as real);
    if i == MaxIndex(zoom) + 1 {
      LastEdge(zoom);
    }
  }

  /** 2^zoom tile widths east of -180 is exactly 180. */
  lemma LastEdge(zoom: nat)
    ensures Edge(zoom, MaxIndex(zoom) + 1) == 180.0
  {
    var d := DegreesPerTile(zoom);
    var n := TilesPerAxis(zoom) as real;
    assert ((MaxIndex(zoom) + 1) as real) == n;
    assert n * d == d * n;
  }

  /** For indices in the grid, all four corners lie in [-180, 180]; the first
      column starts at -180 and the last ends at 180, so the tiles of one zoom
      level span the world exactly. */
  lemma TileBoundsInWorld(zoom: nat, x: int, y: int)
    requires 0 <= x <= MaxIndex(zoom) && 0 <= y <= MaxIndex(zoom)
    ensures var b := TileBounds(zoom, x, y);
      && -180.0 <= b.llx <= 180.0 && -180.0 <= b.urx <= 180.0
      && -180.0 <= b.lly <= 180.0 && -180.0 <= b.ury <= 180.0
    ensures x == 0 ==> TileBounds(zoom, x, y).llx == -180.0
    ensures x == MaxIndex(zoom) ==> TileBounds(zoom, x, y).urx == 180.0
  {
    TileBoundsEdges(zoom, x, y);
    EdgeInWorld(zoom, x);
    EdgeInWorld(zoom, x + 1);
    EdgeInWorld(zoom, y);
    EdgeInWorld(zoom, y + 1);
  }
}
