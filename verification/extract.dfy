/**
 * extract_view and process_buildings_from_file
 * (download_building_aerial_images.py): download the neighbourhood of the
 * centroid's tile, stitch it, cut the crop around the centroid, and per
 * building record skip, try radius 1, retry with radius 2, or write.
 */
module Extract {
  import opened Common
  import opened Paths
  import opened Tiles
  import opened Crop
  import opened Storage
  import opened Mosaic

  /** The tile size extract_view is called with by the record loop (in_tile_size's default). */
  const TileSize: nat := 256

  /** Why extract_view produced no image: ValueError (crop not covered) or FileNotFoundError (tile unavailable). */
  datatype Failure = Uncovered | Unavailable(error: FetchError)

  /** The effect of one extract_view call: the new cache, the requests sent, the image or the error. */
  datatype View = View(cache: map<string, Raster>, requested: seq<Tile>, result: Result<Image, Failure>)

  /** The rows and columns of the crop window, read from the canvas Painted describes. */
  function CropOf(cache: map<string, Raster>, pathOf: Tile -> string, tiles: seq<Tile>, g: Grid, ts: nat, w: Window): Image
    requires AllCached(cache, pathOf, tiles)
  {
    seq(w.size, i => seq(w.size, j => Painted(cache, pathOf, tiles, g, ts, w.top + i, w.left + j)))
  }

  /**
   * extract_view(centroid, tiles_dir, zoom, outSize, ts, s) for the centroid
   * in tile (cx, cy), where pos is the centroid's (row, col) in the stitched
   * canvas.
   */
  function ViewSpec(cache: map<string, Raster>, pathOf: Tile -> string, cx: int, cy: int, zoom: int, s: nat,
                    ts: nat, outSize: nat, pos: (int, int), server: Server): View
  {
    var tiles := Neighbourhood(cx, cy, zoom, s);
    var b := DownloadAll(cache, pathOf, tiles, server);
    if b.failure.Some? then View(b.cache, b.requested, Failure(Unavailable(b.failure.value)))
    else
      DownloadSuccessCachesAll(cache, pathOf, tiles, server);
      CentreInNeighbourhood(cx, cy, zoom, s);
      var g := GridOf(tiles);
      match CropWindow(pos.0, pos.1, outSize, Height(g, ts), Width(g, ts))
      case None => View(b.cache, b.requested, Failure(Uncovered))
      case Some(w) => View(b.cache, b.requested, Success(CropOf(b.cache, pathOf, tiles, g, ts, w)))
  }

  /** img[top:top+size, left:left+size, :] */
  function Slice(canvas: array2<Pixel>, w: Window): (img: Image)
    requires 0 <= w.top && w.top + w.size <= canvas.Length0
    requires 0 <= w.left && w.left + w.size <= canvas.Length1
    reads canvas
    ensures |img| == w.size && forall i :: 0 <= i < w.size ==> |img[i]| == w.size
    ensures forall i, j :: 0 <= i < w.size && 0 <= j < w.size ==> img[i][j] == canvas[w.top + i, w.left + j]
  {
    seq(w.size, i requires 0 <= i < w.size reads canvas =>
      seq(w.size, j requires 0 <= j < w.size reads canvas => canvas[w.top + i, w.left + j]))
  }

  /** Two square images of the same side with the same pixels are equal. */
  lemma SameImage(a: Image, b: Image, n: nat)
    requires |a| == n && |b| == n
    requires forall i :: 0 <= i < n ==> |a[i]| == n && |b[i]| == n
    requires forall i, j :: 0 <= i < n && 0 <= j < n ==> a[i][j] == b[i][j]
    ensures a == b
  {
    forall i | 0 <= i < n
      ensures a[i] == b[i]
    {
      assert forall j :: 0 <= j < n ==> a[i][j] == b[i][j];
    }
  }

  /** Cutting a window out of a canvas that Painted describes gives CropOf. */
  lemma SliceOfCanvas(canvas: array2<Pixel>, cache: map<string, Raster>, pathOf: Tile -> string, tiles: seq<Tile>,
                      g: Grid, ts: nat, w: Window)
    requires AllCached(cache, pathOf, tiles)
    requires 0 <= w.top && w.top + w.size <= canvas.Length0
    requires 0 <= w.left && w.left + w.size <= canvas.Length1
    requires forall r, c :: 0 <= r < canvas.Length0 && 0 <= c < canvas.Length1 ==>
      canvas[r, c] == Painted(cache, pathOf, tiles, g, ts, r, c)
    ensures Slice(canvas, w) == CropOf(cache, pathOf, tiles, g, ts, w)
  {
    var img := Slice(canvas, w);
    var crop := CropOf(cache, pathOf, tiles, g, ts, w);
    forall i, j | 0 <= i < w.size && 0 <= j < w.size
      ensures img[i][j] == crop[i][j]
    {
      assert img[i][j] == canvas[w.top + i, w.left + j];
    }
    SameImage(img, crop, w.size);
  }

  /** extract_view: download, stitch and crop, with the effect ViewSpec describes. */
  method ExtractView(disk: Disk, pathOf: Tile -> string, cx: int, cy: int, zoom: int, s: nat,
                     ts: nat, outSize: nat, pos: (int, int), server: Server) returns (result: Result<Image, Failure>)
    requires ts > 0
    modifies disk
    ensures var v := ViewSpec(old(disk.cache), pathOf, cx, cy, zoom, s, ts, outSize, pos, server);
      && disk.cache == v.cache && disk.requests == old(disk.requests) + v.requested && result == v.result
    ensures disk.outputs == old(disk.outputs)
  {
    var tiles := Neighbourhood(cx, cy, zoom, s);
    var failure := disk.DownloadTiles(tiles, pathOf, server);
    if failure.Some? {
      return Failure(Unavailable(failure.value));
    }
    DownloadSuccessCachesAll(old(disk.cache), pathOf, tiles, server);
    CentreInNeighbourhood(cx, cy, zoom, s);
    NeighbourhoodGrid(cx, cy, zoom, s);
    var canvas := Stitch(disk.cache, pathOf, tiles, ts);
    var window := CropWindow(pos.0, pos.1, outSize, canvas.Length0, canvas.Length1);
    if window.None? {
      return Failure(Uncovered);
    }
    var w := window.value;
    var img := Slice(canvas, w);
    SliceOfCanvas(canvas, disk.cache, pathOf, tiles, GridOf(tiles), ts, w);
    return Success(img);
  }

  /** Pixel (i, j) of a crop is the canvas pixel (top + i, left + j). */
  lemma CropAt(cache: map<string, Raster>, pathOf: Tile -> string, tiles: seq<Tile>, g: Grid, ts: nat, w: Window, i: int, j: int)
    requires AllCached(cache, pathOf, tiles)
    requires 0 <= i < w.size && 0 <= j < w.size
    ensures |CropOf(cache, pathOf, tiles, g, ts, w)| == w.size && |CropOf(cache, pathOf, tiles, g, ts, w)[i]| == w.size
    ensures CropOf(cache, pathOf, tiles, g, ts, w)[i][j] == Painted(cache, pathOf, tiles, g, ts, w.top + i, w.left + j)
  {
  }

  /**
   * What a successful view shows: a 2*(outSize // 2) square whose pixel
   * (i, j) is mosaic pixel (r, c) = pos - outSize // 2 + (i, j), taken from
   * pixel (r % ts, c % ts) of the neighbourhood tile in block row r // ts and
   * block column c // ts, as cached after the download.
   */
  lemma ViewPixels(cache: map<string, Raster>, pathOf: Tile -> string, cx: int, cy: int, zoom: int, s: nat,
                   ts: nat, outSize: nat, pos: (int, int), server: Server)
    requires ts > 0
    ensures var v := ViewSpec(cache, pathOf, cx, cy, zoom, s, ts, outSize, pos, server);
      var h := outSize / 2;
      v.result.Success? ==>
        && AllCached(v.cache, pathOf, Neighbourhood(cx, cy, zoom, s))
        && v.result.value == CropOf(v.cache, pathOf, Neighbourhood(cx, cy, zoom, s), GridOf(Neighbourhood(cx, cy, zoom, s)), ts,
                                    Window(pos.0 - h, pos.1 - h, 2 * h))
        && 0 <= pos.0 - h && pos.0 + h < (2 * s + 1) * ts
        && 0 <= pos.1 - h && pos.1 + h < (2 * s + 1) * ts
  {
    var v := ViewSpec(cache, pathOf, cx, cy, zoom, s, ts, outSize, pos, server);
    var tiles := Neighbourhood(cx, cy, zoom, s);
    if v.result.Success? {
      DownloadSuccessCachesAll(cache, pathOf, tiles, server);
      NeighbourhoodGrid(cx, cy, zoom, s);
    }
  }

  /**
   * A crop at least as large as the (2s+1) tile wide mosaic is always
   * refused, with ValueError once every tile was downloaded: with the
   * default 256-pixel tiles, an out size of 768 or more
   * can never be cut from the radius-1 mosaic.
   */
  lemma ViewTooSmall(cache: map<string, Raster>, pathOf: Tile -> string, cx: int, cy: int, zoom: int, s: nat,
                     ts: nat, outSize: nat, pos: (int, int), server: Server)
    requires ts > 0 && 2 * (outSize / 2) >= (2 * s + 1) * ts
    ensures ViewSpec(cache, pathOf, cx, cy, zoom, s, ts, outSize, pos, server).result.Failure?
    ensures DownloadAll(cache, pathOf, Neighbourhood(cx, cy, zoom, s), server).failure.None? ==>
      ViewSpec(cache, pathOf, cx, cy, zoom, s, ts, outSize, pos, server).result == Failure(Uncovered)
  {
    var tiles := Neighbourhood(cx, cy, zoom, s);
    NeighbourhoodGrid(cx, cy, zoom, s);
    var g := GridOf(tiles);
    CropNeedsLargerMosaic(pos.0, pos.1, outSize, Height(g, ts), Width(g, ts));
  }

  /** A view never removes or rewrites a cached tile. */
  lemma ViewKeepsCache(cache: map<string, Raster>, pathOf: Tile -> string, cx: int, cy: int, zoom: int, s: nat,
                       ts: nat, outSize: nat, pos: (int, int), server: Server)
    ensures var v := ViewSpec(cache, pathOf, cx, cy, zoom, s, ts, outSize, pos, server);
      forall p :: p in cache ==> p in v.cache && v.cache[p] == cache[p]
  {
    DownloadKeepsEntries(cache, pathOf, Neighbourhood(cx, cy, zoom, s), server);
  }

  /** Every tile a view requests belongs to its neighbourhood and was not cached before. */
  lemma ViewRequests(cache: map<string, Raster>, pathOf: Tile -> string, cx: int, cy: int, zoom: int, s: nat,
                     ts: nat, outSize: nat, pos: (int, int), server: Server)
    ensures var v := ViewSpec(cache, pathOf, cx, cy, zoom, s, ts, outSize, pos, server);
      forall t :: t in v.requested ==> t in Neighbourhood(cx, cy, zoom, s) && pathOf(t) !in cache
  {
    DownloadRequestsListed(cache, pathOf, Neighbourhood(cx, cy, zoom, s), server);
    DownloadNoRefetch(cache, pathOf, Neighbourhood(cx, cy, zoom, s), server);
  }

  /** A view over a fully cached neighbourhood sends no request and leaves the cache as it was. */
  lemma ViewFromCache(cache: map<string, Raster>, pathOf: Tile -> string, cx: int, cy: int, zoom: int, s: nat,
                      ts: nat, outSize: nat, pos: (int, int), server: Server)
    requires AllCached(cache, pathOf, Neighbourhood(cx, cy, zoom, s))
    ensures var v := ViewSpec(cache, pathOf, cx, cy, zoom, s, ts, outSize, pos, server);
      v.cache == cache && v.requested == []
  {
    DownloadIdempotent(cache, pathOf, Neighbourhood(cx, cy, zoom, s), server);
  }

  /**
   * FileNotFoundError names a neighbourhood tile that was missing from the
   * cache and that the server answered with that non-200 status.
   */
  lemma ViewUnavailable(cache: map<string, Raster>, pathOf: Tile -> string, cx: int, cy: int, zoom: int, s: nat,
                        ts: nat, outSize: nat, pos: (int, int), server: Server)
    ensures var v := ViewSpec(cache, pathOf, cx, cy, zoom, s, ts, outSize, pos, server);
      v.result.Failure? && v.result.error.Unavailable? ==>
        var e := v.result.error.error;
        && e.tile in Neighbourhood(cx, cy, zoom, s)
        && pathOf(e.tile) !in v.cache
        && e.status != 200 && server(e.tile).status == e.status
  {
    DownloadFailure(cache, pathOf, Neighbourhood(cx, cy, zoom, s), server);
  }

  /** The command-line settings the record loop uses. */
  datatype Config = Config(cacheDir: string, outDir: string, zoom: int, outSize: nat)

  /**
   * One parsed row of the buildings file: id, label, the tile holding the
   * centroid at the configured zoom, and the centroid's (row, col) in the
   * mosaic stitched for each radius.
   */
  datatype Building = Building(id: string, buildingLabel: string, cx: int, cy: int, pixelAt: nat -> (int, int))

  /** What the loop did with one record. */
  datatype Outcome =
    | Skipped                      // the output image existed
    | Written                      // an image was saved
    | GaveUp                       // neither radius covered the crop
    | NotAvailable(error: FetchError)  // a radius-1 tile was refused; logged and skipped
    | Aborted(error: FetchError)   // a radius-2 tile was refused; the exception ends the run

  /** The effect of the loop body on one record. */
  datatype Step = Step(cache: map<string, Raster>, outputs: map<string, Image>, requested: seq<Tile>, outcome: Outcome)

  /** os.path.join(output_image_dir, f"aerial-{zoom}", label, f"{id}.png") */
  function OutputPath(cfg: Config, b: Building): string {
    Join(Join(Join(cfg.outDir, "aerial-" + IntToDecimal(cfg.zoom)), b.buildingLabel), b.id + ".png")
  }

  /** extract_view for one building: the view each radius gives on a cache. */
  type Extractor = (map<string, Raster>, nat) -> View

  /** extract_view for building b, on the configured cache directory, zoom and sizes. */
  function Attempts(cfg: Config, b: Building, server: Server): Extractor {
    (cache, s) => ViewSpec(cache, CachePaths(cfg.cacheDir), b.cx, b.cy, cfg.zoom, s, TileSize, cfg.outSize, b.pixelAt(s), server)
  }

  /**
   * The loop body for the record whose image goes to path: skip an existing
   * output; otherwise try radius 1, and on ValueError radius 2;
   * FileNotFoundError from the first try skips the record, from the second
   * it escapes the handler and ends the run.
   */
  function RecordSpec(cache: map<string, Raster>, outputs: map<string, Image>, path: string, view: Extractor): Step {
    if path in outputs then Step(cache, outputs, [], Skipped)
    else
      var first := view(cache, 1);
      match first.result
      case Success(img) => Step(first.cache, outputs[path := img], first.requested, Written)
      case Failure(Unavailable(e)) => Step(first.cache, outputs, first.requested, NotAvailable(e))
      case Failure(Uncovered) => Retry(first, outputs, path, view)
  }

  /**
   * The ValueError handler: radius 2 on the cache the first try left; its
   * FileNotFoundError is raised from inside the handler and ends the run.
   */
  function Retry(first: View, outputs: map<string, Image>, path: string, view: Extractor): Step {
    var second := view(first.cache, 2);
    var requested := first.requested + second.requested;
    match second.result
    case Success(img) => Step(second.cache, outputs[path := img], requested, Written)
    case Failure(Uncovered) => Step(second.cache, outputs, requested, GaveUp)
    case Failure(Unavailable(e)) => Step(second.cache, outputs, requested, Aborted(e))
  }

  /** extract_view for building b at radius s, with the effect Attempts describes. */
  method Attempt(disk: Disk, cfg: Config, b: Building, server: Server, s: nat) returns (result: Result<Image, Failure>)
    modifies disk
    ensures var v := Attempts(cfg, b, server)(old(disk.cache), s);
      && disk.cache == v.cache && disk.requests == old(disk.requests) + v.requested && result == v.result
    ensures disk.outputs == old(disk.outputs)
  {
    result := ExtractView(disk, CachePaths(cfg.cacheDir), b.cx, b.cy, cfg.zoom, s, TileSize, cfg.outSize, b.pixelAt(s), server);
  }

  /** The retry at radius 2 inside the ValueError handler, with the effect Retry describes (its own requests only). */
  method RetryLarger(disk: Disk, cfg: Config, b: Building, server: Server, ghost first: View) returns (outcome: Outcome)
    requires disk.cache == first.cache
    modifies disk
    ensures var step := Retry(first, old(disk.outputs), OutputPath(cfg, b), Attempts(cfg, b, server));
      && disk.cache == step.cache && disk.outputs == step.outputs && outcome == step.outcome
      && disk.requests == old(disk.requests) + Attempts(cfg, b, server)(first.cache, 2).requested
  {
    var result := Attempt(disk, cfg, b, server, 2);
    if result.Failure? && result.error.Uncovered? {
      return GaveUp;
    }
    if result.Failure? {
      return Aborted(result.error.error);
    }
    disk.outputs := disk.outputs[OutputPath(cfg, b) := result.value];
    return Written;
  }

  /** The loop body of process_buildings_from_file, with the effect RecordSpec describes. */
  method ProcessBuilding(disk: Disk, cfg: Config, b: Building, server: Server) returns (outcome: Outcome)
    modifies disk
    ensures var step := RecordSpec(old(disk.cache), old(disk.outputs), OutputPath(cfg, b), Attempts(cfg, b, server));
      && disk.cache == step.cache && disk.outputs == step.outputs
      && disk.requests == old(disk.requests) + step.requested && outcome == step.outcome
  {
    var path := OutputPath(cfg, b);
    ghost var view := Attempts(cfg, b, server);
    ghost var spec := RecordSpec(disk.cache, disk.outputs, path, view);
    if path in disk.outputs {
      return Skipped;
    }
    ghost var first := view(disk.cache, 1);
    var result := Attempt(disk, cfg, b, server, 1);
    assert disk.cache == first.cache && result == first.result;
    if result.Failure? && result.error.Unavailable? {
      return NotAvailable(result.error.error);
    }
    if result.Failure? {
      ghost var second := view(first.cache, 2);
      assert spec == Retry(first, old(disk.outputs), path, view);
      assert spec.requested == first.requested + second.requested;
      outcome := RetryLarger(disk, cfg, b, server, first);
      AppendAssociative(old(disk.requests), first.requested, second.requested);
      return;
    }
    disk.outputs := disk.outputs[path := result.value];
    return Written;
  }

  /** A record whose image file exists is skipped without a request and without any change. */
  lemma RecordSkipsExisting(cache: map<string, Raster>, outputs: map<string, Image>, path: string, view: Extractor)
    requires path in outputs
    ensures RecordSpec(cache, outputs, path, view) == Step(cache, outputs, [], Skipped)
  {
  }

  /**
   * Only Written changes the output directory, and only by adding the
   * record's own file; an existing file is never overwritten.
   */
  lemma RecordOutputs(cache: map<string, Raster>, outputs: map<string, Image>, path: string, view: Extractor)
    ensures var step := RecordSpec(cache, outputs, path, view);
      && (step.outcome.Written? ==> path !in outputs && path in step.outputs && step.outputs == outputs[path := step.outputs[path]])
      && (!step.outcome.Written? ==> step.outputs == outputs)
      && (step.outcome.Skipped? <==> path in outputs)
  {
  }

  /**
   * The retry policy: the radius-2 attempt, and so any request for a tile
   * outside the radius-1 neighbourhood, happens only after the radius-1
   * crop was refused as not covered.
   */
  lemma RecordRetry(cache: map<string, Raster>, outputs: map<string, Image>, cfg: Config, b: Building, server: Server)
    ensures var step := RecordSpec(cache, outputs, OutputPath(cfg, b), Attempts(cfg, b, server));
      (exists t :: t in step.requested && t !in Neighbourhood(b.cx, b.cy, cfg.zoom, 1)) ==>
        OutputPath(cfg, b) !in outputs && Attempts(cfg, b, server)(cache, 1).result == Failure(Uncovered)
  {
    var view := Attempts(cfg, b, server);
    var step := RecordSpec(cache, outputs, OutputPath(cfg, b), view);
    var first := view(cache, 1);
    if OutputPath(cfg, b) !in outputs && first.result != Failure(Uncovered) {
      ViewRequests(cache, CachePaths(cfg.cacheDir), b.cx, b.cy, cfg.zoom, 1, TileSize, cfg.outSize, b.pixelAt(1), server);
      assert step.requested == first.requested;
    }
  }

  /**
   * A record ends the run only when the radius-1 crop was not covered and
   * the radius-2 view then raised FileNotFoundError, whose error it carries.
   */
  lemma RecordAborts(cache: map<string, Raster>, outputs: map<string, Image>, path: string, view: Extractor)
    ensures var step := RecordSpec(cache, outputs, path, view);
      var first := view(cache, 1);
      step.outcome.Aborted? ==>
        && path !in outputs && first.result == Failure(Uncovered)
        && view(first.cache, 2).result == Failure(Unavailable(step.outcome.error))
  {
  }

  /**
   * With 256-pixel tiles an out size of 768 or more never fits the 768-pixel
   * radius-1 mosaic: once its tiles are downloaded the first attempt raises
   * ValueError, so every image written comes from the radius-2 attempt.
   */
  lemma LargeOutputNeedsRetry(cache: map<string, Raster>, cfg: Config, b: Building, server: Server)
    requires 2 * (cfg.outSize / 2) >= 3 * TileSize
    ensures Attempts(cfg, b, server)(cache, 1).result.Failure?
    ensures DownloadAll(cache, CachePaths(cfg.cacheDir), Neighbourhood(b.cx, b.cy, cfg.zoom, 1), server).failure.None? ==>
      Attempts(cfg, b, server)(cache, 1).result == Failure(Uncovered)
  {
    ViewTooSmall(cache, CachePaths(cfg.cacheDir), b.cx, b.cy, cfg.zoom, 1, TileSize, cfg.outSize, b.pixelAt(1), server);
  }

  /** Directory b holds every file of directory a, unchanged. */
  ghost predicate Keeps<V>(a: map<string, V>, b: map<string, V>) {
    forall p :: p in a ==> p in b && b[p] == a[p]
  }

  /** The views of one building never remove or rewrite a cached tile. */
  lemma AttemptsKeepCache(cfg: Config, b: Building, server: Server)
    ensures forall cache, s :: Keeps(cache, Attempts(cfg, b, server)(cache, s).cache)
  {
    forall cache, s ensures Keeps(cache, Attempts(cfg, b, server)(cache, s).cache) {
      ViewKeepsCache(cache, CachePaths(cfg.cacheDir), b.cx, b.cy, cfg.zoom, s, TileSize, cfg.outSize, b.pixelAt(s), server);
    }
  }

  /** A record never removes or rewrites a cached tile, given views that do not. */
  lemma RecordKeepsCache(cache: map<string, Raster>, outputs: map<string, Image>, path: string, view: Extractor)
    requires forall c, s :: Keeps(c, view(c, s).cache)
    ensures Keeps(cache, RecordSpec(cache, outputs, path, view).cache)
  {
    var first := view(cache, 1);
    assert Keeps(cache, first.cache);
    assert Keeps(first.cache, view(first.cache, 2).cache);
  }

  /** The effect of the record loop: final cache and outputs, all requests, one outcome per record handled. */
  datatype Run = Run(cache: map<string, Raster>, outputs: map<string, Image>, requested: seq<Tile>, outcomes: seq<Outcome>)

  /** The loop body as a function of the cache, the output directory and the record. */
  type Stepper = (map<string, Raster>, map<string, Image>, Building) -> Step

  /** The loop body of process_buildings_from_file for the given settings and tile server. */
  function Steps(cfg: Config, server: Server): Stepper {
    (cache, outputs, b) => RecordSpec(cache, outputs, OutputPath(cfg, b), Attempts(cfg, b, server))
  }

  /**
   * process_buildings_from_file over the parsed records: the loop body for
   * each record in order, until one raises out of the loop.
   */
  function RunSpec(cache: map<string, Raster>, outputs: map<string, Image>, records: seq<Building>, body: Stepper): Run
    decreases |records|
  {
    if records == [] then Run(cache, outputs, [], [])
    else
      var step := body(cache, outputs, records[0]);
      if step.outcome.Aborted? then Run(step.cache, step.outputs, step.requested, [step.outcome])
      else
        var rest := RunSpec(step.cache, step.outputs, records[1..], body);
        Run(rest.cache, rest.outputs, step.requested + rest.requested, [step.outcome] + rest.outcomes)
  }

  /** process_buildings_from_file: the record loop, with the effect RunSpec describes. */
  method ProcessBuildings(disk: Disk, cfg: Config, records: seq<Building>, server: Server) returns (outcomes: seq<Outcome>)
    modifies disk
    ensures var run := RunSpec(old(disk.cache), old(disk.outputs), records, Steps(cfg, server));
      && disk.cache == run.cache && disk.outputs == run.outputs
      && disk.requests == old(disk.requests) + run.requested && outcomes == run.outcomes
  {
    ghost var body := Steps(cfg, server);
    outcomes := [];
    var i := 0;
    while i < |records|
      invariant 0 <= i <= |records|
      invariant var rest := RunSpec(disk.cache, disk.outputs, records[i..], body);
        var all := RunSpec(old(disk.cache), old(disk.outputs), records, body);
        && rest.cache == all.cache && rest.outputs == all.outputs
        && old(disk.requests) + all.requested == disk.requests + rest.requested
        && outcomes + rest.outcomes == all.outcomes
    {
      var b := records[i];
      ghost var requests := disk.requests;
      ghost var rest := RunSpec(disk.cache, disk.outputs, records[i..], body);
      ghost var step := body(disk.cache, disk.outputs, b);
      ghost var next := RunSpec(step.cache, step.outputs, records[i + 1..], body);
      assert records[i..][1..] == records[i + 1..];
      var outcome := ProcessBuilding(disk, cfg, b, server);
      assert disk.cache == step.cache && disk.outputs == step.outputs;
      assert disk.requests == requests + step.requested && outcome == step.outcome;
      if outcome.Aborted? {
        outcomes := outcomes + [outcome];
        return;
      }
      assert rest.requested == step.requested + next.requested;
      AppendAssociative(requests, step.requested, next.requested);
      AppendAssociative(outcomes, [outcome], next.outcomes);
      outcomes := outcomes + [outcome];
      i := i + 1;
    }
  }

  /**
   * The run handles the records in order and stops only at an abort: every
   * outcome before the last is not an abort, and a run that handles fewer
   * records than given ends with an abort.
   */
  lemma {:induction false} RunOutcomes(cache: map<string, Raster>, outputs: map<string, Image>, records: seq<Building>, body: Stepper)
    ensures var run := RunSpec(cache, outputs, records, body);
      && |run.outcomes| <= |records|
      && (forall k :: 0 <= k < |run.outcomes| - 1 ==> !run.outcomes[k].Aborted?)
      && (records != [] ==> run.outcomes != [])
      && (|run.outcomes| < |records| ==> run.outcomes[|run.outcomes| - 1].Aborted?)
    decreases |records|
  {
    if records != [] {
      var step := body(cache, outputs, records[0]);
      if !step.outcome.Aborted? {
        RunOutcomes(step.cache, step.outputs, records[1..], body);
        var rest := RunSpec(step.cache, step.outputs, records[1..], body);
        var all := [step.outcome] + rest.outcomes;
        if rest.outcomes != [] {
          assert all[|all| - 1] == rest.outcomes[|rest.outcomes| - 1];
        }
        assert forall k :: 1 <= k < |all| ==> all[k] == rest.outcomes[k - 1];
      }
    }
  }

  /** The loop body never removes or overwrites an image file or a cached tile. */
  lemma StepsKeepFiles(cfg: Config, server: Server)
    ensures forall cache, outputs, b :: Keeps(outputs, Steps(cfg, server)(cache, outputs, b).outputs)
    ensures forall cache, outputs, b :: Keeps(cache, Steps(cfg, server)(cache, outputs, b).cache)
  {
    forall cache, outputs, b
      ensures Keeps(outputs, Steps(cfg, server)(cache, outputs, b).outputs)
      ensures Keeps(cache, Steps(cfg, server)(cache, outputs, b).cache)
    {
      RecordOutputs(cache, outputs, OutputPath(cfg, b), Attempts(cfg, b, server));
      AttemptsKeepCache(cfg, b, server);
      RecordKeepsCache(cache, outputs, OutputPath(cfg, b), Attempts(cfg, b, server));
    }
  }

  /** A run whose loop body keeps every file keeps every file. */
  lemma {:induction false} RunKeepsFiles(cache: map<string, Raster>, outputs: map<string, Image>, records: seq<Building>, body: Stepper)
    requires forall c, o, b :: Keeps(o, body(c, o, b).outputs) && Keeps(c, body(c, o, b).cache)
    ensures var run := RunSpec(cache, outputs, records, body);
      Keeps(outputs, run.outputs) && Keeps(cache, run.cache)
    decreases |records|
  {
    if records != [] {
      var step := body(cache, outputs, records[0]);
      if !step.outcome.Aborted? {
        RunKeepsFiles(step.cache, step.outputs, records[1..], body);
      }
    }
  }

  /** The loop body leaves the record's image file in place when it reports Written or Skipped. */
  lemma StepsWriteDone(cfg: Config, server: Server)
    ensures forall cache, outputs, b :: (Steps(cfg, server)(cache, outputs, b).outcome.Written? || Steps(cfg, server)(cache, outputs, b).outcome.Skipped?) ==>
      OutputPath(cfg, b) in Steps(cfg, server)(cache, outputs, b).outputs
  {
    forall cache, outputs, b
      ensures (Steps(cfg, server)(cache, outputs, b).outcome.Written? || Steps(cfg, server)(cache, outputs, b).outcome.Skipped?) ==>
        OutputPath(cfg, b) in Steps(cfg, server)(cache, outputs, b).outputs
    {
      RecordOutputs(cache, outputs, OutputPath(cfg, b), Attempts(cfg, b, server));
    }
  }

  /**
   * After a run, every record handled as Written or Skipped has its image
   * file, given a loop body that keeps files and leaves the record's file
   * in place on those outcomes.
   */
  lemma {:induction false} RunWritesDone(cache: map<string, Raster>, outputs: map<string, Image>, records: seq<Building>,
                                         body: Stepper, pathOf: Building -> string)
    requires forall c, o, b :: Keeps(o, body(c, o, b).outputs) && Keeps(c, body(c, o, b).cache)
    requires forall c, o, b :: (body(c, o, b).outcome.Written? || body(c, o, b).outcome.Skipped?) ==> pathOf(b) in body(c, o, b).outputs
    ensures var run := RunSpec(cache, outputs, records, body);
      forall k :: 0 <= k < |run.outcomes| && k < |records| && (run.outcomes[k].Written? || run.outcomes[k].Skipped?) ==>
        pathOf(records[k]) in run.outputs
    decreases |records|
  {
    if records != [] {
      var step := body(cache, outputs, records[0]);
      if !step.outcome.Aborted? {
        var rest := RunSpec(step.cache, step.outputs, records[1..], body);
        RunWritesDone(step.cache, step.outputs, records[1..], body, pathOf);
        RunKeepsFiles(step.cache, step.outputs, records[1..], body);
        forall k | 0 < k < |rest.outcomes| + 1 && k < |records|
          ensures ([step.outcome] + rest.outcomes)[k] == rest.outcomes[k - 1] && records[k] == records[1..][k - 1]
        {
        }
      }
    }
  }

  /** The loop body skips a record whose image file exists, without a request or a change. */
  lemma StepsSkipPresent(cfg: Config, server: Server)
    ensures forall cache, outputs, b :: OutputPath(cfg, b) in outputs ==>
      Steps(cfg, server)(cache, outputs, b) == Step(cache, outputs, [], Skipped)
  {
    forall cache, outputs, b | OutputPath(cfg, b) in outputs
      ensures Steps(cfg, server)(cache, outputs, b) == Step(cache, outputs, [], Skipped)
    {
      RecordSkipsExisting(cache, outputs, OutputPath(cfg, b), Attempts(cfg, b, server));
    }
  }

  /**
   * A run over records whose image files all exist skips every record: no
   * request, no change to the cache or the outputs.
   */
  lemma {:induction false} RunAllPresent(cache: map<string, Raster>, outputs: map<string, Image>, records: seq<Building>,
                                         body: Stepper, pathOf: Building -> string)
    requires forall c, o, b :: pathOf(b) in o ==> body(c, o, b) == Step(c, o, [], Skipped)
    requires forall k :: 0 <= k < |records| ==> pathOf(records[k]) in outputs
    ensures RunSpec(cache, outputs, records, body) == Run(cache, outputs, [], seq(|records|, _ => Skipped))
    decreases |records|
  {
    if records != [] {
      RunAllPresent(cache, outputs, records[1..], body, pathOf);
      assert [Skipped] + seq(|records| - 1, _ => Skipped) == seq(|records|, _ => Skipped);
    }
  }

  /**
   * Re-running the script after a run that wrote or found every image does
   * nothing: the second run sends no request and changes no file.
   */
  lemma RerunIsQuiet(cache: map<string, Raster>, outputs: map<string, Image>, cfg: Config,
                     records: seq<Building>, server: Server)
    requires var run := RunSpec(cache, outputs, records, Steps(cfg, server));
      |run.outcomes| == |records| && forall k :: 0 <= k < |records| ==> run.outcomes[k].Written? || run.outcomes[k].Skipped?
    ensures var run := RunSpec(cache, outputs, records, Steps(cfg, server));
      RunSpec(run.cache, run.outputs, records, Steps(cfg, server)) == Run(run.cache, run.outputs, [], seq(|records|, _ => Skipped))
  {
    var body := Steps(cfg, server);
    var pathOf := b => OutputPath(cfg, b);
    var run := RunSpec(cache, outputs, records, body);
    StepsKeepFiles(cfg, server);
    StepsWriteDone(cfg, server);
    StepsSkipPresent(cfg, server);
    RunWritesDone(cache, outputs, records, body, pathOf);
    RunAllPresent(run.cache, run.outputs, records, body, pathOf);
  }
}
