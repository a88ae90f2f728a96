/**
 * stich_tiles (download_building_aerial_images.py): a zero canvas with one
 * tile_size x tile_size block per distinct tile column and row, each tile
 * copied into the block of its offset from the smallest x and y.
 */
module Mosaic {
  import opened Common
  import opened Tiles
  import opened Storage

  /** The canvas layout: offsets (smallest x and y) and the number of block columns and rows. */
  datatype Grid = Grid(left: int, top: int, cols: nat, rows: nat)

  /** min([t.x for t in tiles]) */
  function MinX(tiles: seq<Tile>): (m: int)
    requires |tiles| > 0
    ensures exists t :: t in tiles && t.x == m
    ensures forall t :: t in tiles ==> m <= t.x
  {
    if |tiles| == 1 then tiles[0].x
    else
      var m := MinX(tiles[1..]);
      assert forall t :: t in tiles ==> t == tiles[0] || t in tiles[1..];
      if tiles[0].x < m then tiles[0].x else m
  }

  /** min([t.y for t in tiles]) */
  function MinY(tiles: seq<Tile>): (m: int)
    requires |tiles| > 0
    ensures exists t :: t in tiles && t.y == m
    ensures forall t :: t in tiles ==> m <= t.y
  {
    if |tiles| == 1 then tiles[0].y
    else
      var m := MinY(tiles[1..]);
      assert forall t :: t in tiles ==> t == tiles[0] || t in tiles[1..];
      if tiles[0].y < m then tiles[0].y else m
  }

  /** set([t.x for t in tiles]) */
  function Columns(tiles: seq<Tile>): set<int> {
    set t | t in tiles :: t.x
  }

  /** set([t.y for t in tiles]) */
  function Rows(tiles: seq<Tile>): set<int> {
    set t | t in tiles :: t.y
  }

  /** The layout stich_tiles computes; the empty list, on which min raises, gets an empty grid. */
  function GridOf(tiles: seq<Tile>): Grid {
    if tiles == [] then Grid(0, 0, 0, 0)
    else Grid(MinX(tiles), MinY(tiles), |Columns(tiles)|, |Rows(tiles)|)
  }

  /** The canvas height in pixels: one tile size per block row. */
  function Height(g: Grid, ts: nat): nat {
    MulNonNegative(g.rows, ts);
    g.rows * ts
  }

  /** The canvas width in pixels: one tile size per block column. */
  function Width(g: Grid, ts: nat): nat {
    MulNonNegative(g.cols, ts);
    g.cols * ts
  }

  /**
   * Every tile's block lies inside the canvas. When it does not (a list
   * with a gap between its columns or rows), numpy's block assignment
   * raises; the script only stitches neighbourhoods, which fit.
   */
  predicate Fits(tiles: seq<Tile>, g: Grid) {
    forall t :: t in tiles ==> g.left <= t.x < g.left + g.cols && g.top <= t.y < g.top + g.rows
  }

  /** Canvas pixel (r, c) lies in the block of tile t. */
  predicate InBlock(t: Tile, g: Grid, ts: nat, r: int, c: int) {
    && (t.y - g.top) * ts <= r < (t.y - g.top) * ts + ts
    && (t.x - g.left) * ts <= c < (t.x - g.left) * ts + ts
  }

  /**
   * The canvas pixel (r, c) after the tiles were copied in list order:
   * the pixel of the last tile whose block holds (r, c), black when none.
   */
  function Painted(cache: map<string, Raster>, pathOf: Tile -> string, tiles: seq<Tile>, g: Grid, ts: nat, r: int, c: int): Pixel
    requires AllCached(cache, pathOf, tiles)
    decreases |tiles|
  {
    if tiles == [] then Black
    else
      var t := tiles[|tiles| - 1];
      if InBlock(t, g, ts, r, c) then cache[pathOf(t)](r - (t.y - g.top) * ts, c - (t.x - g.left) * ts)
      else Painted(cache, pathOf, tiles[..|tiles| - 1], g, ts, r, c)
  }

  lemma MulNonNegative(a: int, b: int)
    requires 0 <= a && 0 <= b
    ensures 0 <= a * b
  {
  }

  lemma MulMonotone(a: int, b: int, m: nat)
    requires a <= b
    ensures a * m <= b * m
  {
    MulNonNegative(b - a, m);
    assert b * m - a * m == (b - a) * m;
  }

  /** Block k of n blocks of size ts starts at k * ts and ends inside n * ts. */
  lemma BlockInside(k: int, n: nat, ts: nat)
    requires 0 <= k < n
    ensures 0 <= k * ts && k * ts + ts <= n * ts
  {
    MulNonNegative(k, ts);
    assert (k + 1) * ts == k * ts + ts;
    MulMonotone(k + 1, n, ts);
  }

  /** A smaller multiple of the same positive size has the smaller factor. */
  lemma MulCancel(q: int, n: int, ts: nat)
    ensures q * ts < n * ts ==> q < n
  {
    if q >= n {
      MulMonotone(n, q, ts);
    }
  }

  /** The block index of a coordinate is unique. */
  lemma SameBlockIndex(a: int, b: int, ts: nat, v: int)
    ensures (a * ts <= v < a * ts + ts && b * ts <= v < b * ts + ts) ==> a == b
  {
    assert (a + 1) * ts == a * ts + ts && (b + 1) * ts == b * ts + ts;
    MulCancel(a, b + 1, ts);
    MulCancel(b, a + 1, ts);
  }

  /** Blocks of tiles in different columns or rows do not overlap. */
  lemma BlocksDisjoint(t: Tile, u: Tile, g: Grid, ts: nat, r: int, c: int)
    requires ts > 0 && InBlock(t, g, ts, r, c)
    requires t.x != u.x || t.y != u.y
    ensures !InBlock(u, g, ts, r, c)
  {
    SameBlockIndex(t.y - g.top, u.y - g.top, ts, r);
    SameBlockIndex(t.x - g.left, u.x - g.left, ts, c);
  }

  /** Copy a raster into the block at (top, left): numpy's img_template[top:top+ts, left:left+ts, :] = img. */
  method Blit(canvas: array2<Pixel>, top: nat, left: nat, ts: nat, raster: Raster)
    requires top + ts <= canvas.Length0 && left + ts <= canvas.Length1
    modifies canvas
    ensures forall r, c :: 0 <= r < canvas.Length0 && 0 <= c < canvas.Length1 ==>
      canvas[r, c] == if top <= r < top + ts && left <= c < left + ts then raster(r - top, c - left) else old(canvas[r, c])
  {
    forall r, c | top <= r < top + ts && left <= c < left + ts {
      canvas[r, c] := raster(r - top, c - left);
    }
  }

  /**
   * Copying tile k after the first k, its block starting at canvas row top
   * and column left: the pixels of its block become its raster's, the
   * others stay.
   */
  lemma PaintedStep(cache: map<string, Raster>, pathOf: Tile -> string, tiles: seq<Tile>, g: Grid, ts: nat, k: nat, top: int, left: int)
    requires AllCached(cache, pathOf, tiles) && k < |tiles|
    requires top == (tiles[k].y - g.top) * ts && left == (tiles[k].x - g.left) * ts
    ensures AllCached(cache, pathOf, tiles[..k]) && AllCached(cache, pathOf, tiles[..k + 1])
    ensures forall r, c ::
              Painted(cache, pathOf, tiles[..k + 1], g, ts, r, c) ==
              if top <= r < top + ts && left <= c < left + ts then cache[pathOf(tiles[k])](r - top, c - left)
              else Painted(cache, pathOf, tiles[..k], g, ts, r, c)
  {
    var prefix := tiles[..k + 1];
    assert prefix[..k] == tiles[..k] && prefix[k] == tiles[k];
    assert forall t :: t in prefix ==> t in tiles;
    forall r, c ensures Painted(cache, pathOf, prefix, g, ts, r, c) ==
      if InBlock(tiles[k], g, ts, r, c) then cache[pathOf(tiles[k])](r - top, c - left)
      else Painted(cache, pathOf, tiles[..k], g, ts, r, c)
    {
    }
  }

  /**
   * stich_tiles: every canvas pixel is the one Painted describes; the canvas
   * has one block row per distinct y and one block column per distinct x.
   */
  method Stitch(cache: map<string, Raster>, pathOf: Tile -> string, tiles: seq<Tile>, ts: nat) returns (canvas: array2<Pixel>)
    requires |tiles| > 0 && ts > 0
    requires AllCached(cache, pathOf, tiles) && Fits(tiles, GridOf(tiles))
    ensures fresh(canvas)
    ensures canvas.Length0 == Height(GridOf(tiles), ts) && canvas.Length1 == Width(GridOf(tiles), ts)
    ensures forall r, c :: 0 <= r < canvas.Length0 && 0 <= c < canvas.Length1 ==>
      canvas[r, c] == Painted(cache, pathOf, tiles, GridOf(tiles), ts, r, c)
  {
    var g := GridOf(tiles);
    canvas := new Pixel[Height(g, ts), Width(g, ts)]((r, c) => Black);
    for k := 0 to |tiles|
      invariant forall r, c :: 0 <= r < canvas.Length0 && 0 <= c < canvas.Length1 ==>
        canvas[r, c] == Painted(cache, pathOf, tiles[..k], g, ts, r, c)
    {
      var t := tiles[k];
      var raster := cache[pathOf(t)];
      BlockInside(t.y - g.top, g.rows, ts);
      BlockInside(t.x - g.left, g.cols, ts);
      var top, left := (t.y - g.top) * ts, (t.x - g.left) * ts;
      PaintedStep(cache, pathOf, tiles, g, ts, k, top, left);
      Blit(canvas, top, left, ts, raster);
    }
    assert tiles[..|tiles|] == tiles;
  }

  /**
   * In a list of distinct tiles of one zoom level, a pixel in tile t's block
   * shows t's raster at the pixel's offset in the block, whatever the order.
   */
  lemma {:induction false} PaintedOwnBlock(cache: map<string, Raster>, pathOf: Tile -> string, tiles: seq<Tile>,
                                           g: Grid, ts: nat, t: Tile, r: int, c: int)
    requires ts > 0 && AllCached(cache, pathOf, tiles) && Distinct(tiles)
    requires forall u :: u in tiles ==> u.z == t.z
    requires t in tiles && InBlock(t, g, ts, r, c)
    ensures Painted(cache, pathOf, tiles, g, ts, r, c) == cache[pathOf(t)](r - (t.y - g.top) * ts, c - (t.x - g.left) * ts)
    decreases |tiles|
  {
    var u := tiles[|tiles| - 1];
    var prefix := tiles[..|tiles| - 1];
    if u != t {
      assert t in prefix by {
        var k :| 0 <= k < |tiles| && tiles[k] == t;
        assert k < |tiles| - 1;
        assert prefix[k] == t;
      }
      BlocksDisjoint(t, u, g, ts, r, c);
      PaintedOwnBlock(cache, pathOf, prefix, g, ts, t, r, c);
    }
  }

  /** The contiguous integers a, a+1, ..., a+n-1. */
  function Span(a: int, n: nat): (r: seq<int>)
    ensures |r| == n && Distinct(r)
    ensures forall v :: v in r <==> a <= v < a + n
  {
    var r := seq(n, i requires 0 <= i < n => a + i);
    assert forall v :: a <= v < a + n ==> v in r by {
      forall v | a <= v < a + n ensures v in r {
        assert r[v - a] == v;
      }
    }
    r
  }

  /** The neighbourhood has the 2s+1 columns cx-s .. cx+s. */
  lemma NeighbourhoodColumns(cx: int, cy: int, zoom: int, s: nat)
    ensures |Columns(Neighbourhood(cx, cy, zoom, s))| == 2 * s + 1
  {
    var n := Neighbourhood(cx, cy, zoom, s);
    var xs := Span(cx - s, 2 * s + 1);
    forall v | v in Columns(n) ensures v in xs {
      var t :| t in n && t.x == v;
      NeighbourhoodMembers(cx, cy, zoom, s, t);
    }
    forall v | v in xs ensures v in Columns(n) {
      NeighbourhoodMembers(cx, cy, zoom, s, Tile(v, cy, zoom));
    }
    assert Columns(n) == set v | v in xs;
    DistinctCard(xs);
  }

  /** The neighbourhood has the 2s+1 rows cy-s .. cy+s. */
  lemma NeighbourhoodRows(cx: int, cy: int, zoom: int, s: nat)
    ensures |Rows(Neighbourhood(cx, cy, zoom, s))| == 2 * s + 1
  {
    var n := Neighbourhood(cx, cy, zoom, s);
    var ys := Span(cy - s, 2 * s + 1);
    forall v | v in Rows(n) ensures v in ys {
      var t :| t in n && t.y == v;
      NeighbourhoodMembers(cx, cy, zoom, s, t);
    }
    forall v | v in ys ensures v in Rows(n) {
      NeighbourhoodMembers(cx, cy, zoom, s, Tile(cx, v, zoom));
    }
    assert Rows(n) == set v | v in ys;
    DistinctCard(ys);
  }

  /** The neighbourhood's smallest column and row are the centre's minus s, and every tile lies within s of the centre. */
  lemma NeighbourhoodCorner(cx: int, cy: int, zoom: int, s: nat)
    ensures Neighbourhood(cx, cy, zoom, s) != []
    ensures MinX(Neighbourhood(cx, cy, zoom, s)) == cx - s && MinY(Neighbourhood(cx, cy, zoom, s)) == cy - s
    ensures forall t :: t in Neighbourhood(cx, cy, zoom, s) ==> cx - s <= t.x <= cx + s && cy - s <= t.y <= cy + s
  {
    var n := Neighbourhood(cx, cy, zoom, s);
    forall t | t in n ensures cx - s <= t.x <= cx + s && cy - s <= t.y <= cy + s {
      NeighbourhoodMembers(cx, cy, zoom, s, t);
    }
    NeighbourhoodMembers(cx, cy, zoom, s, Tile(cx - s, cy - s, zoom));
  }

  /**
   * The neighbourhood of radius s is a full (2s+1) x (2s+1) grid starting at
   * the centre minus s, and every tile's block fits the canvas.
   */
  lemma NeighbourhoodGrid(cx: int, cy: int, zoom: int, s: nat)
    ensures GridOf(Neighbourhood(cx, cy, zoom, s)) == Grid(cx - s, cy - s, 2 * s + 1, 2 * s + 1)
    ensures Fits(Neighbourhood(cx, cy, zoom, s), GridOf(Neighbourhood(cx, cy, zoom, s)))
  {
    NeighbourhoodCorner(cx, cy, zoom, s);
    NeighbourhoodColumns(cx, cy, zoom, s);
    NeighbourhoodRows(cx, cy, zoom, s);
  }

  /** Coordinate v inside n blocks of size ts lies in block v / ts, one of the n. */
  lemma BlockOf(v: int, n: nat, ts: nat)
    requires ts > 0 && 0 <= v < n * ts
    ensures 0 <= v / ts < n
  {
    var q := v / ts;
    assert v == q * ts + v % ts;
    MulCancel(q, n, ts);
  }

  /** PaintedOwnBlock for the tile whose block column and row are c / ts and r / ts: the pixel at offset (r % ts, c % ts). */
  lemma PaintedAtCell(cache: map<string, Raster>, pathOf: Tile -> string, tiles: seq<Tile>,
                      g: Grid, ts: nat, t: Tile, r: int, c: int)
    requires ts > 0 && AllCached(cache, pathOf, tiles) && Distinct(tiles)
    requires forall u :: u in tiles ==> u.z == t.z
    requires t in tiles && t.x - g.left == c / ts && t.y - g.top == r / ts
    ensures Painted(cache, pathOf, tiles, g, ts, r, c) == cache[pathOf(t)](r % ts, c % ts)
  {
    assert r == (r / ts) * ts + r % ts && c == (c / ts) * ts + c % ts;
    PaintedOwnBlock(cache, pathOf, tiles, g, ts, t, r, c);
  }

  /** The neighbourhood lists distinct tiles, all at the centre's zoom level. */
  lemma NeighbourhoodUniform(cx: int, cy: int, zoom: int, s: nat)
    ensures Distinct(Neighbourhood(cx, cy, zoom, s))
    ensures forall u :: u in Neighbourhood(cx, cy, zoom, s) ==> u.z == zoom
  {
    NeighbourhoodDistinct(cx, cy, zoom, s);
    forall u | u in Neighbourhood(cx, cy, zoom, s) ensures u.z == zoom {
      NeighbourhoodMembers(cx, cy, zoom, s, u);
    }
  }

  /**
   * The mosaic of a full neighbourhood: every canvas pixel (r, c) shows the
   * pixel (r % ts, c % ts) of the tile in block column c / ts and block row
   * r / ts, and that tile belongs to the neighbourhood. So the blocks cover
   * the canvas and no pixel is left at zero.
   */
  lemma MosaicOfNeighbourhood(cache: map<string, Raster>, pathOf: Tile -> string, cx: int, cy: int, zoom: int, s: nat,
                              ts: nat, r: int, c: int)
    requires ts > 0 && AllCached(cache, pathOf, Neighbourhood(cx, cy, zoom, s))
    requires 0 <= r < (2 * s + 1) * ts && 0 <= c < (2 * s + 1) * ts
    ensures var t := Tile(cx - s + c / ts, cy - s + r / ts, zoom);
      && t in Neighbourhood(cx, cy, zoom, s)
      && Painted(cache, pathOf, Neighbourhood(cx, cy, zoom, s), GridOf(Neighbourhood(cx, cy, zoom, s)), ts, r, c)
         == cache[pathOf(t)](r % ts, c % ts)
  {
    var n := Neighbourhood(cx, cy, zoom, s);
    NeighbourhoodGrid(cx, cy, zoom, s);
    BlockOf(r, 2 * s + 1, ts);
    BlockOf(c, 2 * s + 1, ts);
    var t := Tile(cx - s + c / ts, cy - s + r / ts, zoom);
    NeighbourhoodMembers(cx, cy, zoom, s, t);
    NeighbourhoodUniform(cx, cy, zoom, s);
    PaintedAtCell(cache, pathOf, n, GridOf(n), ts, t, r, c);
  }
}
