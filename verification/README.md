# So2Sat BuildingType tooling, modelled in Dafny

This project models the three scripts of the So2Sat BuildingType repository
that do real work.

- **download_building_aerial_images.py** fetches one aerial image per building.
  For each record of the buildings table it checks whether the image file
  exists and skips the record if so. Otherwise it takes the slippy-map tile
  that holds the building's centroid and downloads the square neighbourhood
  of tiles around it. Downloads go through a tile cache directory: a tile
  whose file exists is never requested again. The script stitches the tiles
  into one mosaic and cuts a square of the requested size centred on the
  centroid. If the square does not fit inside the radius-1 mosaic, it tries
  once more with radius 2.
- **undersample.py** balances the table by city and class:
  - it drops duplicate building ids;
  - it computes a target d = (least class support) // (number of cities);
  - it keeps up to d shuffled rows for every (city, class) pair;
  - it then backfills each class's shortfall from that class's excess rows.
- **split_train_test.py** shuffles the table and cuts it at
  floor(n * ratio). It writes the two parts to `<prefix>_train.csv.bz2` and
  `<prefix>_test.csv.bz2`, where the prefix is the input file's name up to
  its first dot.

The model keeps each script's own form:
- Pure computations are datatypes and functions with lemmas.
- Stateful code is written as methods, each proved against a
  specification function:
  - `download_tile` and the download loop are methods of the `Disk` class
    (`DownloadAll`);
  - the canvas fill is the module method `Mosaic.Stitch` on an `array2`
    (`Painted`);
  - the view extraction, the loop body and the record loop are module
    methods that take a `Disk` (`ViewSpec`, `RecordSpec`, `RunSpec`).
- The `Disk` class holds:
  - the tile cache directory (a map from file path to raster);
  - the output directory (a map from file path to image);
  - a ghost log of the requests sent to the tile server.
- undersample.py's two balancing loops are methods proved equal to the
  functions `FirstPass` and `Backfill`. The method `Balance.Balance`, which
  runs both, is proved equal to `BalanceSpec`.

Things the scripts get from outside are parameters of the model:
- The tile server is a function from tile to (status, raster).
- pandas' seeded `sample` is a `Shuffle`, a length-keeping function on row
  sequences. Where a lemma needs it, the shuffle is also required to be a
  permutation (`KeepsRows`).
- The centroid's pixel position in the mosaic for each radius is a field
  `pixelAt` of each record.

Where the code does something other than its docstrings and argument help
suggest, the model follows the code:
- **Crop size.** extract_view documents `out_img_size` as the width and
  height of the resulting image (download_building_aerial_images.py:131).
  The crop, however, runs from `centre - out//2` to `centre + out//2`, so an
  odd size gives an image one pixel narrower than requested
  (`Crop.CropSize`).

Behaviour worth noting:
- **Strict bounds test.** A crop that would end exactly at the mosaic's
  edge is refused (`Crop.ExactFitRefused`).
- **Abort on a refused radius-2 tile.** A tile refused during the radius-2
  retry raises `FileNotFoundError` from inside the `ValueError` handler.
  That error escapes the loop and ends the whole run (`Outcome.Aborted`,
  `Extract.RecordAborts`). A tile refused during the first attempt only
  skips the record.
- **Unreadable tiles.** stich_tiles' `img is None` branch, which would leave
  a black block, cannot be reached: `Image.open` raises instead. It is not
  modelled.
- **Failing balance.** undersample.py concatenates `excess_list[cls]` even
  when nothing is missing. So the balancing raises whenever some class has
  no city with more than d rows of it (`BalanceFacts.BalanceSucceeds`). In
  particular it always raises on a single-city table
  (`BalanceFacts.SingleCityFails`).

## Model

| member | source | states |
|---|---|---|
| Common.Product | download_building_aerial_images.py:141-142 | itertools.product lists exactly the pairs of an element of the first list and one of the second, |xs|·|ys| of them |
| Common.Concat | undersample.py:129-132 | pd.concat of a list of pieces has as many rows as the pieces together |
| Common.ProductDistinct | download_building_aerial_images.py:141-142 | the product of two lists without repetitions has no repeated pair |
| Paths.NatToDecimal | download_building_aerial_images.py:258 | the "{}" rendering of a natural number is a non-empty run of digits without a leading zero |
| Paths.NatToDecimalInjective | download_building_aerial_images.py:258 | different numbers are rendered as different digit strings |
| Paths.DecimalRoundTrip | download_building_aerial_images.py:258 | reading back the digits written for n gives n |
| Paths.Join | download_building_aerial_images.py:259 | posixpath.join of two parts: the second alone when it is absolute, otherwise the two with exactly one '/' between them |
| Paths.JoinInjective | download_building_aerial_images.py:259 | os.path.join of one directory with two relative names gives different paths for different names |
| Paths.Basename | split_train_test.py:62 | os.path.basename is the suffix of the path after its last '/', holds no '/', and is preceded by '/' whenever it is shorter than the path |
| Tiles.Neighbourhood | download_building_aerial_images.py:139-142 | the tiles (cx + dx, cy + dy, zoom) for (dx, dy) in product(range(-s, s + 1), repeat=2), dx varying slowest |
| Tiles.Offsets | download_building_aerial_images.py:141-142 | range(-s, s + 1) has 2s+1 distinct values, exactly those between -s and s |
| Tiles.NeighbourhoodMembers | download_building_aerial_images.py:139-142 | a tile is in the neighbourhood iff it has the zoom level and lies within s of the centre in x and in y; no clamping to the pyramid |
| Tiles.CentreInNeighbourhood | download_building_aerial_images.py:139-142 | the centroid's own tile is always downloaded |
| Tiles.NeighbourhoodDistinct | download_building_aerial_images.py:141-142 | the neighbourhood lists no tile twice |
| Tiles.NeighbourhoodSize | download_building_aerial_images.py:141-142 | the neighbourhood has (2s+1)^2 tiles, all different |
| Tiles.FileName | download_building_aerial_images.py:258 | the tile's x, y and z in signed decimal, separated by '-', followed by ".png" |
| Tiles.FilePath | download_building_aerial_images.py:251-260 | the cache directory joined with the tile's file name |
| Tiles.FileNameInjective | download_building_aerial_images.py:258 | "{x}-{y}-{z}.png" names different tiles with non-negative coordinates differently |
| Tiles.FilePathInjective | download_building_aerial_images.py:251-260 | get_file_path gives different cache files to different tiles with non-negative coordinates, so cached tiles never collide |
| Crop.CropWindow | download_building_aerial_images.py:152-161 | an accepted window lies strictly inside the mosaic and is centred on the centroid's pixel |
| Crop.CropAccepted | download_building_aerial_images.py:152-159 | every window that the bounds test lets through is produced: the test is the only reason for ValueError |
| Crop.CropSize | download_building_aerial_images.py:152-161 | the crop is out_img_size wide for an even size and one pixel narrower for an odd one |
| Crop.ExactFitRefused | download_building_aerial_images.py:158-159 | a crop that would exactly fill the mosaic is refused by the strict test |
| Crop.CropNeedsLargerMosaic | download_building_aerial_images.py:158-159 | no centroid can be cropped from a mosaic no larger than the crop |
| Storage.DownloadAll | download_building_aerial_images.py:165-197 | download_tiles in list order: a cached tile is skipped, an uncached one is requested, a 200 body is cached, and the first other status stops the batch with FileNotFoundError |
| Storage.DownloadKeepsEntries | download_building_aerial_images.py:165-176 | download_tiles never removes or rewrites a cached tile |
| Storage.DownloadNoRefetch | download_building_aerial_images.py:172-176 | no tile whose file existed is requested, and no file is requested twice in a batch |
| Storage.DownloadSuccessCachesAll | download_building_aerial_images.py:165-176 | after a batch that raised nothing, every tile of the list has its file |
| Storage.DownloadRequestsListed | download_building_aerial_images.py:172-176 | only tiles of the list are requested |
| Storage.DownloadFailure | download_building_aerial_images.py:172-197 | a FileNotFoundError names an uncached listed tile that the server answered with that non-200 status; it is the last request, its file is absent and every earlier listed tile is cached |
| Storage.DownloadAllAvailable | download_building_aerial_images.py:172-197 | a batch whose tiles are all cached or all served with 200 raises nothing |
| Storage.DownloadIdempotent | download_building_aerial_images.py:172-175 | a batch over cached tiles sends no request and changes nothing |
| Storage.Disk.DownloadTile | download_building_aerial_images.py:179-197 | one request; a 200 answer is saved at the path, any other status raises FileNotFoundError carrying the tile and status and writes nothing |
| Storage.Disk.DownloadTiles | download_building_aerial_images.py:165-176 | the loop's final cache, request log and error are those of DownloadAll |
| Mosaic.GridOf | download_building_aerial_images.py:209-212 | the canvas layout: offsets are the least x and y, and the numbers of block columns and rows are the numbers of distinct x and y values |
| Mosaic.Painted | download_building_aerial_images.py:214-230 | canvas pixel (r, c) after the tiles were copied in list order: that of the last tile whose block holds it, black when none does |
| Mosaic.MinX | download_building_aerial_images.py:211 | the x offset is the x of some listed tile and no listed tile has a smaller x |
| Mosaic.MinY | download_building_aerial_images.py:212 | the y offset is the y of some listed tile and no listed tile has a smaller y |
| Mosaic.Blit | download_building_aerial_images.py:230 | the block assignment sets exactly the tile's block to the raster and leaves every other pixel as it was |
| Mosaic.PaintedStep | download_building_aerial_images.py:216-230 | copying one more tile changes the described canvas exactly in that tile's block |
| Mosaic.Stitch | download_building_aerial_images.py:200-232 | the canvas is (distinct rows × ts) by (distinct columns × ts) and every pixel is the one Painted describes |
| Mosaic.BlocksDisjoint | download_building_aerial_images.py:225-230 | blocks of tiles in different columns or rows do not overlap |
| Mosaic.PaintedOwnBlock | download_building_aerial_images.py:216-230 | with distinct tiles of one zoom level, a pixel of tile t's block shows t's raster, whatever the list order |
| Mosaic.NeighbourhoodColumns | download_building_aerial_images.py:209 | the neighbourhood has 2s+1 distinct x values |
| Mosaic.NeighbourhoodRows | download_building_aerial_images.py:210 | the neighbourhood has 2s+1 distinct y values |
| Mosaic.NeighbourhoodCorner | download_building_aerial_images.py:211-212 | the neighbourhood's offsets are the centre minus s |
| Mosaic.NeighbourhoodGrid | download_building_aerial_images.py:209-214 | the neighbourhood's mosaic is a full (2s+1)×(2s+1) grid and every block fits the canvas |
| Mosaic.NeighbourhoodUniform | download_building_aerial_images.py:141-142 | the neighbourhood lists distinct tiles of the centre's zoom level |
| Mosaic.MosaicOfNeighbourhood | download_building_aerial_images.py:200-232 | every pixel (r, c) of a neighbourhood mosaic is pixel (r % ts, c % ts) of the neighbourhood tile in block (r // ts, c // ts): no pixel stays black |
| Extract.CropOf | download_building_aerial_images.py:161 | the crop window's pixels of the painted canvas |
| Extract.ViewSpec | download_building_aerial_images.py:124-162 | extract_view: download the neighbourhood, stopping with FileNotFoundError on a refused tile; otherwise stitch it and return the crop window, or ValueError when the window does not fit |
| Extract.Slice | download_building_aerial_images.py:161 | the slice is size × size and pixel (i, j) is canvas pixel (top + i, left + j) |
| Extract.SliceOfCanvas | download_building_aerial_images.py:161 | slicing the stitched canvas gives the crop of the described mosaic |
| Extract.ExtractView | download_building_aerial_images.py:124-162 | extract_view's cache, requests and image or error are those of ViewSpec |
| Extract.CropAt | download_building_aerial_images.py:161 | crop pixel (i, j) is mosaic pixel (top + i, left + j) |
| Extract.ViewPixels | download_building_aerial_images.py:139-162 | a returned image is the 2·(out//2) square around the centroid's pixel in the neighbourhood mosaic, lying strictly inside it, every tile cached |
| Extract.ViewTooSmall | download_building_aerial_images.py:152-159 | a crop at least as wide as the (2s+1)-tile mosaic never succeeds, and raises ValueError whenever every neighbourhood tile was downloaded |
| Extract.ViewKeepsCache | download_building_aerial_images.py:144 | extract_view never removes or rewrites a cached tile |
| Extract.ViewRequests | download_building_aerial_images.py:141-144 | every request is for a neighbourhood tile that was not cached |
| Extract.ViewFromCache | download_building_aerial_images.py:144 | over a fully cached neighbourhood no request is sent and the cache is unchanged |
| Extract.ViewUnavailable | download_building_aerial_images.py:141-144 | FileNotFoundError names an uncached neighbourhood tile that the server refused with that status |
| Extract.OutputPath | download_building_aerial_images.py:93 | the image path os.path.join(output_image_dir, "aerial-<zoom>", label, "<id>.png") |
| Extract.RecordSpec | download_building_aerial_images.py:93-119 | the loop body: skip an existing image; else try radius 1, write its image, skip on FileNotFoundError, go to Retry on ValueError |
| Extract.Retry | download_building_aerial_images.py:108-116 | the ValueError handler: radius 2 on the cache the first try left; write, give up on ValueError, end the run on FileNotFoundError |
| Extract.Attempt | download_building_aerial_images.py:107 | one extract_view call for the record at radius s, with the effect ViewSpec gives |
| Extract.RetryLarger | download_building_aerial_images.py:108-113 | the ValueError handler: radius 2 on the cache the first attempt left; success writes, ValueError gives up, FileNotFoundError aborts |
| Extract.ProcessBuilding | download_building_aerial_images.py:93-119 | the loop body's cache, outputs, requests and outcome are those RecordSpec gives |
| Extract.RecordSkipsExisting | download_building_aerial_images.py:93-96 | a record whose image exists is skipped with no request and no change |
| Extract.RecordOutputs | download_building_aerial_images.py:93-119 | only a written record changes the output directory, only by adding its own new file; Skipped iff the file existed |
| Extract.RecordRetry | download_building_aerial_images.py:106-113 | a tile outside the radius-1 neighbourhood is requested only after the radius-1 crop raised ValueError |
| Extract.RecordAborts | download_building_aerial_images.py:106-116 | a record ends the run only when radius 1 raised ValueError and radius 2 raised FileNotFoundError |
| Extract.LargeOutputNeedsRetry | download_building_aerial_images.py:107-110 | with 256-pixel tiles an out size of 768 or more never succeeds at radius 1, and raises ValueError there once its tiles are downloaded, so it needs the radius-2 attempt |
| Extract.AttemptsKeepCache | download_building_aerial_images.py:172-176 | neither attempt removes or rewrites a cached tile |
| Extract.RecordKeepsCache | download_building_aerial_images.py:106-116 | a record never removes or rewrites a cached tile |
| Extract.RunSpec | download_building_aerial_images.py:84-120 | the record loop: each record in order, the cache and output directory threaded through, ending early on an aborting record |
| Extract.ProcessBuildings | download_building_aerial_images.py:84-120 | the record loop's cache, outputs, requests and outcomes are those RunSpec gives |
| Extract.RunOutcomes | download_building_aerial_images.py:84-116 | records are handled in order, one outcome each; only the last can be an abort, and a run that handles fewer records ends with one |
| Extract.StepsKeepFiles | download_building_aerial_images.py:93-119 | the loop body never removes or rewrites an image or a cached tile |
| Extract.RunKeepsFiles | download_building_aerial_images.py:84-120 | the whole run keeps every existing image and cached tile |
| Extract.StepsWriteDone | download_building_aerial_images.py:93-119 | after Written or Skipped the record's image file exists |
| Extract.RunWritesDone | download_building_aerial_images.py:84-120 | after a run, every record handled as Written or Skipped has its image file |
| Extract.StepsSkipPresent | download_building_aerial_images.py:94-96 | the loop body skips a record whose image exists without a request or a change |
| Extract.RunAllPresent | download_building_aerial_images.py:84-96 | a run over records whose images all exist skips them all with no request and no change |
| Extract.RerunIsQuiet | download_building_aerial_images.py:66-68 | re-running after a run that wrote or found every image sends no request and changes no file |
| Undersample.DropDuplicates | undersample.py:111 | the result has unique ids, the same set of ids as the input, and only input rows |
| Undersample.DropDuplicatesLast | undersample.py:111 | a new last row is kept exactly when it is the first row of its id |
| Undersample.DropDuplicatesKeepsOnlyFirst | undersample.py:111 | every kept row is the first row of its building id |
| Undersample.DropDuplicatesKeepsEveryFirst | undersample.py:111 | the first row of every building id is kept |
| Undersample.ClassRows | undersample.py:55 | the rows grouped under a class are exactly the input rows with that class |
| Undersample.Subset | undersample.py:82-83 | the subset holds exactly the input rows of the city and the class |
| Undersample.CityColumn | undersample.py:56 | the city column holds exactly the cities of the rows |
| Undersample.ClassColumn | undersample.py:55 | the class column holds exactly the classes of the rows |
| Undersample.Uniq | undersample.py:55-56 | the group keys are the column's values, each once |
| Undersample.ClassSupport | undersample.py:55-59 | a class's support: the number of distinct building ids among its rows |
| Undersample.MinSupport | undersample.py:59 | min() is the support of some class and no class has less |
| Undersample.SamplesPerCityAndClass | undersample.py:46-63 | none only for an empty table; otherwise the distinct cities and classes and d with d·cities ≤ every class's support, d being the least support // number of cities |
| Undersample.RandomCitySplit | undersample.py:66-96 | min(n, d) rows taken, d - n missing when n < d, and an excess of n - d rows exactly when n > d |
| Undersample.RandomCitySplitJoins | undersample.py:85-96 | taken rows then excess rows are the shuffled subset, in order |
| Undersample.RandomCitySplitKeepsRows | undersample.py:85-96 | taken and excess rows together are the subset's rows, each as often |
| Undersample.RandomCitySplitRows | undersample.py:82-93 | the split returns only rows of the requested city and class |
| Balance.Start | undersample.py:117-119 | an empty dataset and, for every class, an empty excess list and a zero missing count |
| Balance.Record | undersample.py:122-126 | recording a split keeps the per-class dictionaries' keys |
| Balance.VisitClasses | undersample.py:121-126 | one city's iterations keep the per-class dictionaries' keys |
| Balance.VisitClassesStep | undersample.py:121-126 | one more class for a city records that class's split on the tally so far |
| Balance.FirstPass | undersample.py:121-126 | the first loop keeps an excess list and a missing count for exactly the classes |
| Balance.Backfill | undersample.py:128-130 | for each class in order, concatenate its excess pieces (ValueError on none), sample its missing count from them (ValueError when larger), append |
| Balance.BalanceSpec | undersample.py:111-132 | deduplicate, compute the target (ValueError on an empty table), run the first loop and the backfill, concatenate the pieces |
| Balance.VisitCity | undersample.py:121-126 | the inner iterations for one city update the three accumulators as VisitClasses says |
| Balance.FirstLoop | undersample.py:121-126 | the first loop over product(cities, classes) computes FirstPass |
| Balance.BackfillLoop | undersample.py:128-130 | the backfill loop computes Backfill, stopping at the first raised error |
| Balance.Balance | undersample.py:111-132 | main's balancing computes BalanceSpec |
| BalanceFacts.RecordMissing | undersample.py:126 | one iteration adds the split's missing count to its own class and to no other |
| BalanceFacts.RecordExcess | undersample.py:124-125 | one iteration appends the split's excess to its own class's list, and only when there is one |
| BalanceFacts.VisitClassesMissing | undersample.py:126 | one city adds its split's missing count to its class only |
| BalanceFacts.VisitClassesExcess | undersample.py:124-125 | one city appends its split's excess to its class's list only |
| BalanceFacts.VisitClassesTaken | undersample.py:123 | one city adds its taken rows to each class's count, all from the table |
| BalanceFacts.FirstPassMissing | undersample.py:121-126 | after the first loop a class's missing count is the sum over cities of its shortfalls |
| BalanceFacts.FirstPassExcess | undersample.py:121-125 | after the first loop a class's excess list is its cities' excess pieces in city order |
| BalanceFacts.FirstPassTaken | undersample.py:121-123 | after the first loop a class has the sum of its taken rows in the dataset, all rows of the table |
| BalanceFacts.SplitsTotals | undersample.py:88-96 | summed over cities: missing = Σ max(0, d - n), excess rows = Σ max(0, n - d), taken = Σ min(n, d) |
| BalanceFacts.CappedPlusShortfall | undersample.py:88-96 | taken plus missing is d per city |
| BalanceFacts.CappedPlusOver | undersample.py:88-96 | taken plus excess is all rows of the class |
| BalanceFacts.CitiesOverEmpty | undersample.py:91-93 | no excess piece exists iff no city has more than d rows of the class |
| BalanceFacts.HaveTotalIsCount | undersample.py:82-83 | summing a class's rows over all cities counts every row of the class once |
| BalanceFacts.SupportIsCount | undersample.py:55 | after deduplication a class's nunique support is its number of rows |
| BalanceFacts.MissingWithinSurplus | undersample.py:59-61 | since d·cities ≤ support, a class's shortfall never exceeds its excess |
| BalanceFacts.BackfillOutcome | undersample.py:128-130 | when every pool covers its missing count, the backfill succeeds iff every class has an excess piece, else raises on the empty concat |
| BalanceFacts.BackfillWithin | undersample.py:128-130 | the backfill only adds rows of the table |
| BalanceFacts.BackfillCounts | undersample.py:128-130 | a successful backfill adds exactly missing[c] rows of each class c |
| BalanceFacts.DropDuplicatesEmpty | undersample.py:111 | deduplication empties only an empty table |
| BalanceFacts.PassFits | undersample.py:121-130 | after the first loop each class's missing count fits its excess rows, so sample(n=...) never raises |
| BalanceFacts.PassSpares | undersample.py:121-126 | excess pieces hold rows of their class; the list is empty iff no city has more than d rows |
| BalanceFacts.PassCount | undersample.py:121-126 | after the first loop, kept rows plus missing count is cities·d for every class |
| BalanceFacts.PassReady | undersample.py:121-126 | after the first loop the backfill's preconditions hold |
| BalanceFacts.BalanceUnfold | undersample.py:111-132 | for a non-empty table the result is the concatenated backfill after the first loop |
| BalanceFacts.BackfillTotals | undersample.py:128-130 | a successful backfill brings every class that reaches the target exactly to it |
| BalanceFacts.PassReaches | undersample.py:121-126 | after the first loop every class reaches cities·d |
| BalanceFacts.PassBackfillCounts | undersample.py:121-130 | after both loops every class has cities·d rows |
| BalanceFacts.BalanceSucceeds | undersample.py:111-132 | the balancing succeeds iff the table is non-empty and every class has a city with more than d rows; otherwise it raises on the empty table or on the empty concat, never on the sample |
| BalanceFacts.BalanceEvensClasses | undersample.py:111-132 | a balanced table has exactly cities·d rows of every class |
| BalanceFacts.BalanceKeepsRows | undersample.py:111-132 | every row of the balanced table is a row of the input |
| BalanceFacts.SubsetWithinClass | undersample.py:82-83 | a city never has more rows of a class than the class has |
| BalanceFacts.ShortClassFails | undersample.py:121-132 | if no city has more than d rows of some class, the balancing raises on the empty concat |
| BalanceFacts.SingleCityFails | undersample.py:111-132 | a single-city table always makes the balancing raise |
| TrainTest.Prefix | split_train_test.py:62 | split(".")[0] is the longest dot-free prefix of the name, followed by '.' when shorter |
| TrainTest.PrefixOfDotted | split_train_test.py:62 | a dot-free stem followed by a dotted rest has the stem as its prefix |
| TrainTest.OutputNames | split_train_test.py:62-64 | both output names start with the input's prefix, contain no '/' so they land in the current directory, end in ".csv.bz2", split again to "<prefix>_train" and "<prefix>_test", and differ from each other |
| TrainTest.PrefixIsPlain | split_train_test.py:62 | the prefix holds neither '.' nor '/' |
| TrainTest.SplitIndex | split_train_test.py:58 | floor(n · ratio) on exact reals |
| TrainTest.SplitIndexBounds | split_train_test.py:58 | for a ratio in [0, 1], floor(n·ratio) lies between 0 and n |
| TrainTest.SplitIndexEnds | split_train_test.py:58 | ratio 0 puts every row in the test part and ratio 1 every row in training |
| TrainTest.SliceBound | split_train_test.py:60 | Python's slice bound: within [0, n], counted from the end when negative, clamped at both ends |
| TrainTest.SplitData | split_train_test.py:56-60 | training part then test part is the shuffled table |
| TrainTest.SplitSizes | split_train_test.py:56-60 | for any ratio, the training part has as many rows as the clamped slice data[:floor(n·ratio)] and the test part the rest |
| TrainTest.SplitSizesInRange | split_train_test.py:56-60 | for a ratio in [0, 1], the training part has floor(n·ratio) rows and the test part the rest |
| TrainTest.SplitAboveOne | split_train_test.py:56-60 | a ratio of 1 or more puts the whole shuffled table in training and leaves the test part empty |
| TrainTest.SplitKeepsRows | split_train_test.py:56-60 | the two parts together hold exactly the input's rows, each as often |
| TrainTest.SplitFile | split_train_test.py:53-64 | the rows written are the shuffled table, into two different files |

## Left out

- Reading and writing CSV, bz2 and PNG files is not modelled. The models
  start from parsed rows and records and end with the values written; image
  encoding and decoding are the identity on rasters.
- The geometry parsing (`loads`, `centroid`) is not modelled. Neither is the
  Web-Mercator projection (`mercantile.tile`, `mercantile.bounds`), nor the
  affine transform of `calc_transform` and `rowcol`. Each record carries
  the centroid's tile and, for each radius, its pixel position in the
  mosaic (`Building.pixelAt`). These are floating-point and non-linear
  computations.
- The politeness sleep (`time.sleep(abs(random.gauss(...)))`) and the HTTP
  transport are not modelled. The tile server is a function from tile to
  status and raster.
- Skipping the header row (`has_header`) belongs to the CSV reading. The
  record loop starts from the data rows.
- Logging, tqdm progress bars, argparse and directory creation (`makedirs`)
  have no effect on the modelled state.
- A cached tile file that cannot be opened is not modelled. Every cached
  file decodes to a raster.
- Undersample.Uniq: pandas' groupby lists cities and classes in sorted key
  order, while Uniq uses order of first appearance. This changes the order
  of the output rows. It also changes which excess rows the backfill draws:
  the excess pieces are concatenated in city order before the seeded
  sample. It does not change how many rows of each class the output holds.
- Undersample.Shuffle: the seeded `sample(frac=1.0, random_state=42)` and
  `sample(n=k, random_state=42)` are not computed. They are an arbitrary
  length-keeping reordering, and `sample(n=k)` is its first k rows.
  Whether pandas' k-row sample is a prefix of its full reordering is not
  modelled.
- NaN values in the city or class columns are not modelled. groupby drops
  them, while the filters keep no NaN row; the model's rows always have a
  city and a class.
- TrainTest.SplitIndex: floor(n * ratio) is computed on exact reals, not on
  IEEE doubles. A product that rounds across an integer boundary is not
  modelled. Neither are non-finite ratios (`-s nan`, `-s inf`) and the
  exceptions `floor` raises on them: ValueError for nan, and for inf on an
  empty table; OverflowError for inf on a non-empty table.
- Mosaic.Stitch: it requires every tile's block to lie inside the canvas.
  Otherwise numpy raises on a list of tiles with gaps, and that error is
  not modelled. Every neighbourhood meets this requirement
  (`Mosaic.NeighbourhoodGrid`).
- Storage.Disk.DownloadTile: an HTTP 200 body that fails to decode is not
  modelled.
- Extract.ExtractView: it requires a positive tile size. The record loop
  always uses 256.
- Crop.CropWindow: `out_img_size` is a natural number; negative sizes are
  not modelled.
