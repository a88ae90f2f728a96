/**
 * Tile addressing in the XYZ ("slippy map") scheme: the square
 * neighbourhood of tiles around a centre tile and the cache file name of
 * a tile (download_building_aerial_images.py, extract_view and
 * get_file_path).
 */
module Tiles {
  import opened Common
  import opened Paths

  /** A tile of the pyramid: column x, row y, zoom level z. No range invariant is enforced. */
  datatype Tile = Tile(x: int, y: int, z: int)

  /** range(-s, s + 1) */
  function Offsets(s: nat): (r: seq<int>)
    ensures |r| == 2 * s + 1 && Distinct(r)
    ensures forall d :: d in r <==> -(s as int) <= d <= s
  {
    var r := seq(2 * s + 1, i requires 0 <= i < 2 * s + 1 => i - s);
    assert forall d :: -(s as int) <= d <= s ==> d in r by {
      forall d | -(s as int) <= d <= s ensures d in r {
        assert r[d + s] == d;
      }
    }
    r
  }

  /**
   * The tiles of extract_view: Tile(cx + dx, cy + dy, zoom) for (dx, dy) in
   * product(range(-s, s + 1), repeat=2), dx varying slowest.
   */
  function Neighbourhood(cx: int, cy: int, zoom: int, s: nat): seq<Tile> {
    var pairs := Product(Offsets(s), Offsets(s));
    seq(|pairs|, k requires 0 <= k < |pairs| => Tile(cx + pairs[k].0, cy + pairs[k].1, zoom))
  }

  /**
   * The neighbourhood is exactly the square of side 2s+1 around the centre,
   * at the given zoom, with no clamping to [0, 2^zoom).
   */
  lemma NeighbourhoodMembers(cx: int, cy: int, zoom: int, s: nat, t: Tile)
    ensures t in Neighbourhood(cx, cy, zoom, s) <==>
      t.z == zoom && cx - s <= t.x <= cx + s && cy - s <= t.y <= cy + s
  {
    var pairs := Product(Offsets(s), Offsets(s));
    var n := Neighbourhood(cx, cy, zoom, s);
    if t in n {
      var k :| 0 <= k < |n| && n[k] == t;
      assert pairs[k] in pairs;
    }
    if t.z == zoom && cx - s <= t.x <= cx + s && cy - s <= t.y <= cy + s {
      var p := (t.x - cx, t.y - cy);
      assert p in pairs;
      var k :| 0 <= k < |pairs| && pairs[k] == p;
      assert n[k] == t;
    }
  }

  /** The centre tile is part of its neighbourhood. */
  lemma CentreInNeighbourhood(cx: int, cy: int, zoom: int, s: nat)
    ensures Tile(cx, cy, zoom) in Neighbourhood(cx, cy, zoom, s)
  {
    NeighbourhoodMembers(cx, cy, zoom, s, Tile(cx, cy, zoom));
  }

  /** No tile of the neighbourhood is listed twice. */
  lemma NeighbourhoodDistinct(cx: int, cy: int, zoom: int, s: nat)
    ensures Distinct(Neighbourhood(cx, cy, zoom, s))
  {
    var pairs := Product(Offsets(s), Offsets(s));
    var n := Neighbourhood(cx, cy, zoom, s);
    ProductDistinct(Offsets(s), Offsets(s));
    forall i, j | 0 <= i < j < |n| ensures n[i] != n[j] {
      assert pairs[i] != pairs[j];
    }
  }

  /** The neighbourhood lists (2s+1)^2 tiles, all different. */
  lemma NeighbourhoodSize(cx: int, cy: int, zoom: int, s: nat)
    ensures |Neighbourhood(cx, cy, zoom, s)| == (2 * s + 1) * (2 * s + 1)
    ensures |set t | t in Neighbourhood(cx, cy, zoom, s)| == (2 * s + 1) * (2 * s + 1)
  {
    NeighbourhoodDistinct(cx, cy, zoom, s);
    DistinctCard(Neighbourhood(cx, cy, zoom, s));
  }

  /** get_file_path's file name: "{x}-{y}-{z}.png". */
  function FileName(t: Tile): string {
    IntToDecimal(t.x) + "-" + IntToDecimal(t.y) + "-" + IntToDecimal(t.z) + ".png"
  }

  /** get_file_path: the file name joined to the cache directory. */
  function FilePath(dir: string, t: Tile): string {
    Join(dir, FileName(t))
  }

  /** The cache file of every tile, for one cache directory. */
  function CachePaths(dir: string): Tile -> string {
    t => FilePath(dir, t)
  }

  /** The three fields of a file name, each followed by its separator or the extension. */
  lemma Regroup(a: string, b: string, c: string)
    ensures a + "-" + b + "-" + c + ".png" == a + ['-'] + (b + ['-'] + (c + ".png"))
  {
    AppendAssociative(a + "-" + b, "-", c + ".png");
    AppendAssociative(a + "-", b, "-" + (c + ".png"));
    AppendAssociative(a, "-", b + ("-" + (c + ".png")));
    AppendAssociative(b, "-", c + ".png");
  }

  /** Distinct tiles with non-negative coordinates get distinct file names. */
  lemma FileNameInjective(t1: Tile, t2: Tile)
    requires t1.x >= 0 && t1.y >= 0 && t1.z >= 0
    requires t2.x >= 0 && t2.y >= 0 && t2.z >= 0
    requires FileName(t1) == FileName(t2)
    ensures t1 == t2
  {
    var a1, b1, c1 := NatToDecimal(t1.x), NatToDecimal(t1.y), NatToDecimal(t1.z);
    var a2, b2, c2 := NatToDecimal(t2.x), NatToDecimal(t2.y), NatToDecimal(t2.z);
    Regroup(a1, b1, c1);
    Regroup(a2, b2, c2);
    SplitAtSeparator(a1, b1 + ['-'] + (c1 + ".png"), a2, b2 + ['-'] + (c2 + ".png"), '-');
    SplitAtSeparator(b1, c1 + ".png", b2, c2 + ".png", '-');
    assert c1 == (c1 + ".png")[..|c1|];
    NatToDecimalInjective(t1.x, t2.x);
    NatToDecimalInjective(t1.y, t2.y);
    NatToDecimalInjective(t1.z, t2.z);
  }

  /** Distinct tiles with non-negative coordinates get distinct cache files. */
  lemma FilePathInjective(dir: string, t1: Tile, t2: Tile)
    requires t1.x >= 0 && t1.y >= 0 && t1.z >= 0
    requires t2.x >= 0 && t2.y >= 0 && t2.z >= 0
    requires FilePath(dir, t1) == FilePath(dir, t2)
    ensures t1 == t2
  {
    assert IsDigit(NatToDecimal(t1.x)[0]) && IsDigit(NatToDecimal(t2.x)[0]);
    assert FileName(t1)[0] == NatToDecimal(t1.x)[0] && FileName(t2)[0] == NatToDecimal(t2.x)[0];
    JoinInjective(dir, FileName(t1), FileName(t2));
    FileNameInjective(t1, t2);
  }
}
