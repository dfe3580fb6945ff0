/**
 * The per-column scan of `render` (main.go): every non-empty cell of the
 * level is passed to `rayBox` in row-major order, and the nearest hit
 * is kept together with its `mu` and its tile; then the column is drawn
 * with the tile's texture, or left blank when nothing was hit.
 */
module Caster {
  import opened Wrappers
  import opened Tiles
  import opened TileMap
  import opened Intersector

  /** `closestDistance`: +Inf until some cell is hit. */
  datatype Distance = Infinite | Finite(value: real)

  /** `dist < closestDistance`, with +Inf above every real. */
  predicate Below(dist: real, d: Distance) {
    d.Infinite? || dist < d.value
  }

  predicate IsCell(level: seq<seq<Tile>>, y: int, x: int) {
    0 <= y < |level| && 0 <= x < |level[y]|
  }

  /** What the scan learns about cell (y, x): empty cells are skipped. */
  function CellHit(level: seq<seq<Tile>>, ray: Ray, norm: real, y: int, x: int): Hit
    requires IsNorm(ray, norm) && IsCell(level, y, x)
  {
    if level[y][x] == Empty then Miss else BoxHit(ray, x as real, y as real, norm)
  }

  /** Cell (cy, cx) comes before position (y, x) in row-major order. */
  predicate ScannedBefore(level: seq<seq<Tile>>, y: int, x: int, cy: int, cx: int) {
    IsCell(level, cy, cx) && (cy < y || (cy == y && cx < x))
  }

  /**
   * Among the cells before (y, x), cell (wy, wx) is hit, no other is hit
   * nearer, and every cell before it that is hit is strictly farther.
   */
  ghost predicate FirstClosestBefore(level: seq<seq<Tile>>, ray: Ray, norm: real, y: int, x: int, wy: int, wx: int)
    requires IsNorm(ray, norm)
  {
    ScannedBefore(level, y, x, wy, wx) && CellHit(level, ray, norm, wy, wx).hit &&
    (forall cy, cx :: ScannedBefore(level, y, x, cy, cx) && CellHit(level, ray, norm, cy, cx).hit ==>
       CellHit(level, ray, norm, wy, wx).dist <= CellHit(level, ray, norm, cy, cx).dist) &&
    (forall cy, cx :: ScannedBefore(level, wy, wx, cy, cx) && CellHit(level, ray, norm, cy, cx).hit ==>
       CellHit(level, ray, norm, wy, wx).dist < CellHit(level, ray, norm, cy, cx).dist)
  }

  /** Cell (wy, wx) is the first of the nearest cells the ray hits. */
  ghost predicate FirstClosest(level: seq<seq<Tile>>, ray: Ray, norm: real, wy: int, wx: int)
    requires IsNorm(ray, norm)
  {
    FirstClosestBefore(level, ray, norm, |level|, 0, wy, wx)
  }

  /** No cell of the level is hit. */
  ghost predicate NoCellHit(level: seq<seq<Tile>>, ray: Ray, norm: real)
    requires IsNorm(ray, norm)
  {
    forall cy, cx :: IsCell(level, cy, cx) ==> !CellHit(level, ray, norm, cy, cx).hit
  }

  /** Cell (wy, wx) is the first closest one, and dist, mu and tile are its own. */
  ghost predicate ClosestIs(level: seq<seq<Tile>>, ray: Ray, norm: real,
                            dist: real, mu: Option<real>, tile: Tile, wy: int, wx: int)
    requires IsNorm(ray, norm)
  {
    FirstClosest(level, ray, norm, wy, wx) &&
    dist == CellHit(level, ray, norm, wy, wx).dist &&
    mu == Some(CellHit(level, ray, norm, wy, wx).mu) && tile == level[wy][wx]
  }

  /** The scan's state after the cells before (y, x); (wy, wx) is the kept cell. */
  ghost predicate ScanState(level: seq<seq<Tile>>, ray: Ray, norm: real, y: int, x: int,
                      d: Distance, mu: Option<real>, tile: Tile, wy: int, wx: int)
    requires IsNorm(ray, norm)
  {
    (d.Infinite? ==>
       mu == None && tile == Empty &&
       forall cy, cx :: ScannedBefore(level, y, x, cy, cx) ==> !CellHit(level, ray, norm, cy, cx).hit) &&
    (d.Finite? ==>
       FirstClosestBefore(level, ray, norm, y, x, wy, wx) &&
       d.value == CellHit(level, ray, norm, wy, wx).dist &&
       mu == Some(CellHit(level, ray, norm, wy, wx).mu) && tile == level[wy][wx])
  }

  /** Skipping an empty cell keeps the scan's state. */
  lemma ScanSkip(level: seq<seq<Tile>>, ray: Ray, norm: real, y: int, x: int,
                 d: Distance, mu: Option<real>, tile: Tile, wy: int, wx: int)
    requires IsNorm(ray, norm) && IsCell(level, y, x) && level[y][x] == Empty
    requires ScanState(level, ray, norm, y, x, d, mu, tile, wy, wx)
    ensures ScanState(level, ray, norm, y, x + 1, d, mu, tile, wy, wx)
  {
  }

  /**
   * Testing a non-empty cell: its hit h replaces the kept one iff it is a
   * hit strictly nearer than `closestDistance`.
   */
  lemma ScanVisit(level: seq<seq<Tile>>, ray: Ray, norm: real, y: int, x: int,
                  d: Distance, mu: Option<real>, tile: Tile, wy: int, wx: int, h: Hit)
    requires IsNorm(ray, norm) && IsCell(level, y, x) && level[y][x] != Empty
    requires ScanState(level, ray, norm, y, x, d, mu, tile, wy, wx)
    requires h == BoxHit(ray, x as real, y as real, norm)
    ensures h.hit && Below(h.dist, d) ==>
      ScanState(level, ray, norm, y, x + 1, Finite(h.dist), Some(h.mu), level[y][x], y, x)
    ensures !(h.hit && Below(h.dist, d)) ==>
      ScanState(level, ray, norm, y, x + 1, d, mu, tile, wy, wx)
  {
  }

  /** The end of row y is the start of row y + 1. */
  lemma ScanNextRow(level: seq<seq<Tile>>, ray: Ray, norm: real, y: int,
                    d: Distance, mu: Option<real>, tile: Tile, wy: int, wx: int)
    requires IsNorm(ray, norm) && 0 <= y < |level|
    requires ScanState(level, ray, norm, y, |level[y]|, d, mu, tile, wy, wx)
    ensures ScanState(level, ray, norm, y + 1, 0, d, mu, tile, wy, wx)
  {
  }

  /**
   * The nested loop of `render`: `closestDistance` stays +Inf exactly when
   * no cell is hit; otherwise it, `closestMu` and `closestTile` are those of
   * the first of the nearest cells hit, which is never an empty one.
   */
  method ClosestHit(level: seq<seq<Tile>>, ray: Ray, norm: real)
    returns (closestDistance: Distance, closestMu: Option<real>, closestTile: Tile)
    requires IsNorm(ray, norm)
    ensures closestDistance.Infinite? <==> NoCellHit(level, ray, norm)
    ensures closestDistance.Infinite? ==> closestMu == None && closestTile == Empty
    ensures closestDistance.Finite? ==> closestTile != Empty && closestMu.Some?
    ensures closestDistance.Finite? ==>
      exists wy, wx :: ClosestIs(level, ray, norm, closestDistance.value, closestMu, closestTile, wy, wx)
  {
    closestDistance, closestMu, closestTile := Infinite, None, Empty;
    ghost var wy, wx := 0, 0;
    for y := 0 to |level|
      invariant ScanState(level, ray, norm, y, 0, closestDistance, closestMu, closestTile, wy, wx)
    {
      var row := level[y];
      for x := 0 to |row|
        invariant ScanState(level, ray, norm, y, x, closestDistance, closestMu, closestTile, wy, wx)
      {
        if row[x] == Empty {
          ScanSkip(level, ray, norm, y, x, closestDistance, closestMu, closestTile, wy, wx);
          continue;
        }
        var dist, mu, hit := RayBox(ray, x as real, y as real, norm);
        ScanVisit(level, ray, norm, y, x, closestDistance, closestMu, closestTile, wy, wx, Hit(dist, mu, hit));
        if hit && Below(dist, closestDistance) {
          closestDistance := Finite(dist);
          closestMu := Some(mu);
          closestTile := row[x];
          wy, wx := y, x;
        }
      }
      ScanNextRow(level, ray, norm, y, closestDistance, closestMu, closestTile, wy, wx);
    }
    if closestDistance.Finite? {
      assert ClosestIs(level, ray, norm, closestDistance.value, closestMu, closestTile, wy, wx);
    }
  }

  /** At most one cell is the first closest one. */
  lemma FirstClosestUnique(level: seq<seq<Tile>>, ray: Ray, norm: real, y1: int, x1: int, y2: int, x2: int)
    requires IsNorm(ray, norm)
    requires FirstClosest(level, ray, norm, y1, x1) && FirstClosest(level, ray, norm, y2, x2)
    ensures y1 == y2 && x1 == x2
  {
  }

  /**
   * No non-parallel wall face is nearer than the first closest cell:
   * wherever the ray meets a non-parallel face of a non-empty cell at
   * parameter t > 0, the kept distance is at most t / norm.
   */
  lemma FirstClosestIsNearest(level: seq<seq<Tile>>, ray: Ray, norm: real, wy: int, wx: int,
                              cy: int, cx: int, k: nat, t: real, m: real)
    requires IsNorm(ray, norm) && FirstClosest(level, ray, norm, wy, wx)
    requires IsCell(level, cy, cx) && level[cy][cx] != Empty
    requires k < 4 && LambdaDen(ray, Faces(cx as real, cy as real)[k]) != 0.0
    requires t > 0.0 && 0.0 <= m <= 1.0 && RayPoint(ray, t) == FacePoint(Faces(cx as real, cy as real)[k], m)
    ensures CellHit(level, ray, norm, wy, wx).dist <= t / norm
  {
    BoxHitNearest(ray, cx as real, cy as real, norm, k, t, m);
    assert CellHit(level, ray, norm, cy, cx) == BoxHit(ray, cx as real, cy as real, norm);
    assert ScannedBefore(level, |level|, 0, cy, cx);
  }

  /**
   * The first closest cell is actually seen: the point its distance names
   * lies on the boundary of its square.
   */
  lemma FirstClosestOnSquare(level: seq<seq<Tile>>, ray: Ray, norm: real, wy: int, wx: int, r: Hit)
    requires IsNorm(ray, norm) && FirstClosest(level, ray, norm, wy, wx)
    requires r == CellHit(level, ray, norm, wy, wx)
    ensures level[wy][wx] != Empty && r.hit
    ensures OnSquareBoundary(RayPoint(ray, r.dist * norm), wx as real, wy as real)
  {
    BoxHitSound(ray, wx as real, wy as real, norm, r);
  }

  /** What the column of the screen shows. */
  datatype Column =
    | Blank                                    // nothing hit
    | Slice(texture: string, dist: real, mu: real)  // a wall slice
    | Panic(tile: Tile)                        // `textureFor` panics

  /**
   * The drawing step after the scan: nothing when `closestDistance` is
   * +Inf, otherwise a slice of the kept tile's texture at the kept mu.
   */
  function ColumnFor(d: Distance, mu: Option<real>, tile: Tile): (c: Column)
    requires d.Finite? ==> mu.Some?
    ensures c.Blank? <==> d.Infinite?
    ensures c.Panic? <==> d.Finite? && TextureFor(tile).None?
    ensures c.Panic? ==> c.tile == tile
    ensures c.Slice? ==> TextureFor(tile) == Some(c.texture) && d == Finite(c.dist) && mu == Some(c.mu)
  {
    match d
    case Infinite => Blank
    case Finite(dist) =>
      match TextureFor(tile)
      case None => Panic(tile)
      case Some(name) => Slice(name, dist, mu.value)
  }

  /**
   * One column of `render`: its depth-map entry and what is drawn. The
   * column is blank exactly when no cell is hit; a slice shows the texture
   * of the first closest cell, at that cell's distance and mu; a panic
   * needs a first closest cell whose tile has no texture, which a
   * well-formed level does not have.
   */
  method CastColumn(level: seq<seq<Tile>>, ray: Ray, norm: real) returns (depth: Distance, col: Column)
    requires IsNorm(ray, norm)
    ensures col.Blank? <==> NoCellHit(level, ray, norm)
    ensures depth.Infinite? <==> col.Blank?
    ensures col.Slice? ==> depth == Finite(col.dist)
    ensures col.Slice? ==>
      exists wy, wx :: FirstClosest(level, ray, norm, wy, wx) &&
        TextureFor(level[wy][wx]) == Some(col.texture) &&
        col.dist == CellHit(level, ray, norm, wy, wx).dist && col.mu == CellHit(level, ray, norm, wy, wx).mu
    ensures col.Panic? ==>
      exists wy, wx :: FirstClosest(level, ray, norm, wy, wx) && col.tile == level[wy][wx] &&
        !IsTileKind(col.tile)
    ensures IsWellFormedLevel(level) ==> !col.Panic?
  {
    var closestMu, closestTile;
    depth, closestMu, closestTile := ClosestHit(level, ray, norm);
    col := ColumnFor(depth, closestMu, closestTile);
  }

  /** A column of a level read by `MapFromString` never panics. */
  method CastParsedColumn(str: seq<char>, ray: Ray, norm: real) returns (depth: Distance, col: Column)
    requires IsNorm(ray, norm)
    ensures !col.Panic?
    ensures depth.Infinite? <==> col.Blank?
  {
    var level := MapFromString(str);
    depth, col := CastColumn(level, ray, norm);
  }
}
