/**
 * The disk and the tile server as the aerial-image script sees them: the
 * tile cache directory (one raster per file, keyed by file path), the
 * output image directory, and the remote tile service answering a status
 * code and a body per tile (download_building_aerial_images.py,
 * download_tiles and download_tile).
 */
module Storage {
  import opened Common
  import opened Tiles

  newtype uint8 = x: int | 0 <= x < 256

  /** One RGB pixel of an 8-bit raster. */
  datatype Pixel = Pixel(red: uint8, green: uint8, blue: uint8)

  /** The value np.zeros gives every pixel. */
  const Black := Pixel(0, 0, 0)

  /** A decoded tile: pixel (row, col) for 0 <= row, col < tile size. */
  type Raster = (int, int) -> Pixel

  /** A cropped output image, row by row. */
  type Image = seq<seq<Pixel>>

  /** What the tile service answers for one tile: an HTTP status and the decoded body. */
  datatype Response = Response(status: int, body: Raster)

  type Server = Tile -> Response

  /** FileNotFoundError("No image for tile ..., got code ..."). */
  datatype FetchError = FetchError(tile: Tile, status: int)

  /** Every tile of the list has its file in the cache directory. */
  predicate AllCached(cache: map<string, Raster>, pathOf: Tile -> string, tiles: seq<Tile>) {
    forall t :: t in tiles ==> pathOf(t) in cache
  }

  /** The effect of one download_tiles call: the new cache, the tiles requested from the server, the error raised. */
  datatype Batch = Batch(cache: map<string, Raster>, requested: seq<Tile>, failure: Option<FetchError>)

  /**
   * download_tiles: for each tile in order, skip it when its file exists,
   * otherwise request it; a 200 answer is written to its file, any other
   * status raises and ends the batch.
   */
  function DownloadAll(cache: map<string, Raster>, pathOf: Tile -> string, tiles: seq<Tile>, server: Server): Batch
    decreases |tiles|
  {
    if tiles == [] then Batch(cache, [], None)
    else
      var t := tiles[0];
      var path := pathOf(t);
      if path in cache then DownloadAll(cache, pathOf, tiles[1..], server)
      else
        var response := server(t);
        if response.status == 200 then
          var rest := DownloadAll(cache[path := response.body], pathOf, tiles[1..], server);
          Batch(rest.cache, [t] + rest.requested, rest.failure)
        else
          Batch(cache, [t], Some(FetchError(t, response.status)))
  }

  /** The cache only grows: no file is removed or rewritten. */
  lemma {:induction false} DownloadKeepsEntries(cache: map<string, Raster>, pathOf: Tile -> string, tiles: seq<Tile>, server: Server)
    ensures var b := DownloadAll(cache, pathOf, tiles, server);
      forall p :: p in cache ==> p in b.cache && b.cache[p] == cache[p]
    decreases |tiles|
  {
    if tiles != [] {
      var path := pathOf(tiles[0]);
      if path in cache {
        DownloadKeepsEntries(cache, pathOf, tiles[1..], server);
      } else if server(tiles[0]).status == 200 {
        DownloadKeepsEntries(cache[path := server(tiles[0]).body], pathOf, tiles[1..], server);
      }
    }
  }

  /**
   * No tile whose file already existed is requested, and no file is
   * requested twice within a batch.
   */
  lemma {:induction false} DownloadNoRefetch(cache: map<string, Raster>, pathOf: Tile -> string, tiles: seq<Tile>, server: Server)
    ensures var b := DownloadAll(cache, pathOf, tiles, server);
      && (forall t :: t in b.requested ==> pathOf(t) !in cache)
      && (forall i, j :: 0 <= i < j < |b.requested| ==> pathOf(b.requested[i]) != pathOf(b.requested[j]))
    decreases |tiles|
  {
    if tiles != [] {
      var t := tiles[0];
      var path := pathOf(t);
      if path in cache {
        DownloadNoRefetch(cache, pathOf, tiles[1..], server);
      } else if server(t).status == 200 {
        var cache' := cache[path := server(t).body];
        DownloadNoRefetch(cache', pathOf, tiles[1..], server);
        var rest := DownloadAll(cache', pathOf, tiles[1..], server);
        var b := DownloadAll(cache, pathOf, tiles, server);
        assert b.requested == [t] + rest.requested;
        forall i, j | 0 <= i < j < |b.requested|
          ensures pathOf(b.requested[i]) != pathOf(b.requested[j])
        {
          if i == 0 {
            assert b.requested[j] == rest.requested[j - 1];
            assert b.requested[j] in rest.requested;
          } else {
            assert b.requested[i] == rest.requested[i - 1];
            assert b.requested[j] == rest.requested[j - 1];
          }
        }
      }
    }
  }

  /** After a batch that raised nothing, every listed tile is cached. */
  lemma {:induction false} DownloadSuccessCachesAll(cache: map<string, Raster>, pathOf: Tile -> string, tiles: seq<Tile>, server: Server)
    ensures var b := DownloadAll(cache, pathOf, tiles, server);
      b.failure.None? ==> AllCached(b.cache, pathOf, tiles)
    decreases |tiles|
  {
    if tiles != [] {
      var t := tiles[0];
      var path := pathOf(t);
      var cache' := if path in cache then cache else cache[path := server(t).body];
      if path in cache || server(t).status == 200 {
        DownloadSuccessCachesAll(cache', pathOf, tiles[1..], server);
        DownloadKeepsEntries(cache', pathOf, tiles[1..], server);
        assert forall u :: u in tiles ==> u == t || u in tiles[1..];
      }
    }
  }

  /** Only listed tiles are requested. */
  lemma {:induction false} DownloadRequestsListed(cache: map<string, Raster>, pathOf: Tile -> string, tiles: seq<Tile>, server: Server)
    ensures forall t :: t in DownloadAll(cache, pathOf, tiles, server).requested ==> t in tiles
    decreases |tiles|
  {
    if tiles != [] {
      var t := tiles[0];
      var path := pathOf(t);
      var cache' := if path in cache then cache else cache[path := server(t).body];
      DownloadRequestsListed(cache', pathOf, tiles[1..], server);
      assert forall u :: u in tiles[1..] ==> u in tiles;
    }
  }

  /**
   * A batch that raised stopped at a tile of the list that was not cached
   * and that the server answered with the reported non-200 status; that
   * tile was the last request, its file was not written, and every tile
   * before it in the list is cached.
   */
  lemma {:induction false} DownloadFailure(cache: map<string, Raster>, pathOf: Tile -> string, tiles: seq<Tile>, server: Server)
    ensures var b := DownloadAll(cache, pathOf, tiles, server);
      b.failure.Some? ==>
        var e := b.failure.value;
        && e.status != 200 && server(e.tile).status == e.status
        && pathOf(e.tile) !in b.cache
        && |b.requested| > 0 && b.requested[|b.requested| - 1] == e.tile
        && exists k :: 0 <= k < |tiles| && tiles[k] == e.tile && AllCached(b.cache, pathOf, tiles[..k])
    decreases |tiles|
  {
    if tiles != [] {
      var t := tiles[0];
      var path := pathOf(t);
      var b := DownloadAll(cache, pathOf, tiles, server);
      if path in cache || server(t).status == 200 {
        var cache' := if path in cache then cache else cache[path := server(t).body];
        DownloadFailure(cache', pathOf, tiles[1..], server);
        DownloadKeepsEntries(cache', pathOf, tiles[1..], server);
        var rest := DownloadAll(cache', pathOf, tiles[1..], server);
        assert b.cache == rest.cache && b.failure == rest.failure;
        assert b.requested == if path in cache then rest.requested else [t] + rest.requested;
        if b.failure.Some? {
          var k :| 0 <= k < |tiles[1..]| && tiles[1..][k] == b.failure.value.tile && AllCached(rest.cache, pathOf, tiles[1..][..k]);
          assert tiles[k + 1] == b.failure.value.tile;
          assert forall u :: u in tiles[..k + 1] ==> u == t || u in tiles[1..][..k];
          assert AllCached(b.cache, pathOf, tiles[..k + 1]);
        }
      } else {
        assert tiles[..0] == [];
      }
    }
  }

  /** A batch over tiles that are all cached or all available raises nothing. */
  lemma {:induction false} DownloadAllAvailable(cache: map<string, Raster>, pathOf: Tile -> string, tiles: seq<Tile>, server: Server)
    requires forall t :: t in tiles ==> pathOf(t) in cache || server(t).status == 200
    ensures DownloadAll(cache, pathOf, tiles, server).failure.None?
    decreases |tiles|
  {
    if tiles != [] {
      var t := tiles[0];
      var path := pathOf(t);
      var cache' := if path in cache then cache else cache[path := server(t).body];
      DownloadAllAvailable(cache', pathOf, tiles[1..], server);
    }
  }

  /** A batch over tiles that are all cached requests nothing and changes nothing. */
  lemma {:induction false} DownloadIdempotent(cache: map<string, Raster>, pathOf: Tile -> string, tiles: seq<Tile>, server: Server)
    requires AllCached(cache, pathOf, tiles)
    ensures DownloadAll(cache, pathOf, tiles, server) == Batch(cache, [], None)
    decreases |tiles|
  {
    if tiles != [] {
      DownloadIdempotent(cache, pathOf, tiles[1..], server);
    }
  }

  /** The file system the script works on, plus a log of the requests sent to the tile server. */
  class Disk {
    /** The tile cache directory: file path to decoded raster. */
    var cache: map<string, Raster>
    /** The output image directory: file path to written image. */
    var outputs: map<string, Image>
    /** Every tile requested from the server so far, in order. */
    ghost var requests: seq<Tile>

    constructor (cache: map<string, Raster>, outputs: map<string, Image>)
      ensures this.cache == cache && this.outputs == outputs && requests == []
    {
      this.cache := cache;
      this.outputs := outputs;
      requests := [];
    }

    /**
     * download_tile: one request; a 200 answer is saved at path, any other
     * status raises FileNotFoundError and writes nothing.
     */
    method DownloadTile(t: Tile, path: string, server: Server) returns (failure: Option<FetchError>)
      modifies this
      ensures requests == old(requests) + [t] && outputs == old(outputs)
      ensures server(t).status == 200 ==> cache == old(cache)[path := server(t).body] && failure.None?
      ensures server(t).status != 200 ==> cache == old(cache) && failure == Some(FetchError(t, server(t).status))
    {
      var response := server(t);
      requests := requests + [t];
      if response.status == 200 {
        cache := cache[path := response.body];
        failure := None;
      } else {
        failure := Some(FetchError(t, response.status));
      }
    }

    /**
     * download_tiles(tiles, out_dir), with pathOf the file of each tile in
     * out_dir (CachePaths(out_dir)): fetch each listed tile whose file is
     * absent, stopping at the first error.
     */
    method DownloadTiles(tiles: seq<Tile>, pathOf: Tile -> string, server: Server) returns (failure: Option<FetchError>)
      modifies this
      ensures var b := DownloadAll(old(cache), pathOf, tiles, server);
        && cache == b.cache && requests == old(requests) + b.requested && failure == b.failure
      ensures outputs == old(outputs)
    {
      var i := 0;
      while i < |tiles|
        invariant 0 <= i <= |tiles|
        invariant outputs == old(outputs)
        invariant var rest := DownloadAll(cache, pathOf, tiles[i..], server);
          var all := DownloadAll(old(cache), pathOf, tiles, server);
          && rest.cache == all.cache && rest.failure == all.failure
          && old(requests) + all.requested == requests + rest.requested
      {
        var t := tiles[i];
        var path := pathOf(t);
        assert tiles[i..][1..] == tiles[i + 1..];
        if path !in cache {
          failure := DownloadTile(t, path, server);
          if failure.Some? {
            return;
          }
        }
        i := i + 1;
      }
      failure := None;
    }
  }
}
