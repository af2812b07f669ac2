# skyproj core in Dafny

A verified model of the two computational cores of skyproj, a matplotlib-based
sky-map plotting package:

- **HEALPix raster and binning utilities** (`skyproj/hpx_utils.py`, module
  `HpxUtils` in `hpx_utils.dfy`):
  - the zoom-window estimator `healpix_pixels_range`;
  - the three rasterisers `hpxmap_to_xy`, `hspmap_to_xy` and `healpix_to_xy`;
  - the histogram `healpix_bin`.
- **Graticule helper** (`skyproj/skygrid.py`, module `SkyGrid` in `skygrid.dfy`):
  - the box-crossing search `_find_line_box_crossings`;
  - the seam cutter `_cut_grid_line_jumps`;
  - the grid-count rule `_compute_n_grid_from_extent`;
  - the raw grid lines;
  - the tick filing of `get_grid_info`;
  - the `SkyGridHelper` cache, which rebuilds its grid only when the axis limits
    change.

`numerics.dfy` (module `Numerics`) gives the Python and numpy numerics the
code relies on, over mathematical reals:
- `int()` truncation;
- `np.ceil` and `np.clip`;
- the float `%` with a positive modulus;
- `np.linspace`;
- `min`/`max` reductions.

`wrappers.dfy` holds the `Option`, `Result` and `Outcome` types. Raised
exceptions are `Failure` values that name the exception.

Code outside these two files is a parameter of the model:
- the hpgeom pixel maps `angle_to_pixel` and `pixel_to_angle`;
- healsparse's `get_values_pos`;
- the projection and its extreme finder;
- the DMS locators;
- `arctan2` and `cos`.

Each is a function-typed argument, or a field of the `Collaborators` value the
grid helper holds.

Imperative code stays imperative:
- `healpix_bin` fills and divides arrays in place.
- `healpix_to_xy` writes its mask and value arrays cell by cell.
- `_find_line_box_crossings` and the tick filing append in nested loops.
- `SkyGridHelper` is a class whose methods update its fields.

Each such method is proved against a specification function, and the
properties the source promises are proved about those functions.

The longitude re-wrap of the zoom-window estimator is modelled as the code
writes it:
- `(lon + wrap) % 360 - wrap` puts longitudes in `[-wrap, 360 - wrap)`, a whole
  number of turns away from the input (`HpxUtils.WrapLon`).
- A wrap-0 pixel pair at longitudes 359 and 1 therefore has a spread of 358
  degrees. It collapses to the full sky when `eps_lon >= 0.5`
  (`HpxUtils.SeamPairCollapsesToFullSky`). Below that the window stays
  `(1 - eps_lon, 359 + eps_lon)` (`HpxUtils.SeamPairKeptBelowHalf`).
- The source marks this re-wrap as suspect (skyproj/hpx_utils.py:47).

## Model

| member | source | states |
|---|---|---|
| `Numerics.Trunc` | skyproj/hpx_utils.py:96 | `int(aspect*xsize)` truncates toward zero: the result is the integer within 1 of x on the side of 0 |
| `Numerics.Ceil` | skyproj/skygrid.py:296 | `np.ceil` gives the least integer not below x |
| `Numerics.Clip` | skyproj/skygrid.py:295 | `np.clip` lands in [lo, hi], keeps values already inside, and maps values below or above to the nearer end |
| `Numerics.FloorMod` | skyproj/hpx_utils.py:49 | Python's float `%` by a positive modulus lies in [0, m) and differs from x by a whole multiple of m |
| `Numerics.Linspace` | skyproj/hpx_utils.py:95-96 | `np.linspace(a, b, n)` has n samples, starting at a and ending exactly at b |
| `Numerics.LinspaceWithin` | skyproj/hpx_utils.py:95-96 | every linspace sample lies between its two ends |
| `Numerics.LinspaceStep` | skyproj/skygrid.py:244-245 | consecutive linspace samples are (b-a)/(n-1) apart |
| `Numerics.SeqMin` | skyproj/hpx_utils.py:44 | `np.min` is an element of the array and at most every element |
| `Numerics.SeqMax` | skyproj/hpx_utils.py:45 | `np.max` is an element of the array and at least every element |
| `Numerics.IntMax` | skyproj/hpx_utils.py:208 | `.max()` of the pixel ids is one of them and at least every one |
| `HpxUtils.PixelLons` | skyproj/hpx_utils.py:39 | the longitude of each pixel centre, one per pixel |
| `HpxUtils.PixelLats` | skyproj/hpx_utils.py:39 | the latitude of each pixel centre, one per pixel |
| `HpxUtils.WrappedLons` | skyproj/hpx_utils.py:49 | every pixel longitude re-wrapped, one per pixel |
| `HpxUtils.WrapLon` | skyproj/hpx_utils.py:49 | a re-wrapped longitude lies in [-wrap, 360-wrap) and differs from the input by a whole number of turns |
| `HpxUtils.NaiveLonRange` | skyproj/hpx_utils.py:49-50 | the pre-fallback longitude range holds every wrapped pixel longitude eps_lon inside its ends, and each end is eps_lon beyond some pixel's wrapped longitude, so the range is the tightest such window |
| `HpxUtils.FullLonRange` | skyproj/hpx_utils.py:61-63 | the full-sky fallback is 360 - 1e-5 degrees wide |
| `HpxUtils.HealpixPixelsRange` | skyproj/hpx_utils.py:14-65 | fails with NoValidPixels exactly on an empty pixel list; otherwise the latitude range lies within [-90+1e-5, 90-1e-5], its ends are the lowest pixel latitude minus eps and the highest plus eps, each clamped 1e-5 inside its pole, and the longitude range is narrower than 360 |
| `HpxUtils.LatExtremesAttained` | skyproj/hpx_utils.py:44-45 | `np.min(lat)` and `np.max(lat)` are the latitudes of a lowest and of a highest pixel |
| `HpxUtils.Overruns` | skyproj/hpx_utils.py:53-59 | the seam test: the range straddles wrap-360 or wrap+360, or is at least 359 wide (its consequences are in `FullRangeExactlyOnOverrun`) |
| `HpxUtils.FullRangeExactlyOnOverrun` | skyproj/hpx_utils.py:52-63 | the fallback is taken exactly when the naive range straddles wrap-360 or wrap+360 or spans at least 359 degrees; otherwise the naive range is kept and is under 359 wide |
| `HpxUtils.LonRangeContainsPixels` | skyproj/hpx_utils.py:49-50 | without the fallback, every wrapped pixel longitude lies eps_lon inside the returned longitude range |
| `HpxUtils.LatRangeCoversPixels` | skyproj/hpx_utils.py:44-45 | each pixel latitude widened by eps lies inside the latitude range unless that end is clamped 1e-5 inside a pole |
| `HpxUtils.PolePixelClamped` | skyproj/hpx_utils.py:45 | a pixel centred on the north pole gives an upper latitude of exactly 90 - 1e-5 |
| `HpxUtils.SeamPairCollapsesToFullSky` | skyproj/hpx_utils.py:49-63 | with wrap 0, pixels at longitudes 359 and 1 give the full-sky window once eps_lon >= 0.5 |
| `HpxUtils.SeamPairKeptBelowHalf` | skyproj/hpx_utils.py:49-63 | with wrap 0, pixels at longitudes 359 and 1 keep the window (1-eps_lon, 359+eps_lon) whenever eps_lon < 0.5 |
| `HpxUtils.MeshAxes` | skyproj/hpx_utils.py:95-96 | the mesh has xsize longitudes and int(aspect*xsize) latitudes; a negative count raises as numpy's linspace does |
| `HpxUtils.Centres` | skyproj/hpx_utils.py:98-100 | the centre grid is one row and one column smaller than the mesh, and each centre is the mean of two diagonal mesh corners |
| `HpxUtils.CentresInsideRanges` | skyproj/hpx_utils.py:95-100 | the centre grid has int(aspect*xsize)-1 rows of xsize-1 cells, and each centre lies between its corners and inside the requested ranges |
| `HpxUtils.MapCells` | skyproj/hpx_utils.py:152-153 | an element-wise numpy operation over the centres keeps their shape and applies the function at each cell |
| `HpxUtils.HpxmapToXY` | skyproj/hpx_utils.py:120-157 | each cell holds the map value at the pixel of its centre, and is masked exactly when that value is UNSEEN or NaN; mesh failures propagate |
| `HpxUtils.HspmapToXY` | skyproj/hpx_utils.py:68-117 | each cell holds the element and mask bit the map's kind prescribes at its centre; mesh failures propagate |
| `HpxUtils.HspCell` | skyproj/hpx_utils.py:103-115 | the element and mask bit of one cell by the kind of values `get_values_pos` returns, comparing flags with the map's own numeric sentinel; its rules are stated by `HspCellRules` |
| `HpxUtils.HspCellRules` | skyproj/hpx_utils.py:103-115 | a wide mask shows 1 iff any bit is set and masks exactly the 0s; booleans become uint8 0/1 and are masked where the flag (as 0 or 1) equals the map's sentinel, so a numeric sentinel such as UNSEEN masks nothing; floats are kept and the sentinel and NaN are masked |
| `HpxUtils.ValidFlagsAgainstUnseenMaskNothing` | skyproj/hpx_utils.py:102-115 | flags read with `valid_mask=True` from a map whose sentinel is UNSEEN are never masked, and the invalid positions show as uint8 0 |
| `HpxUtils.IndexOf` | skyproj/hpx_utils.py:212-213 | the index of the first occurrence of an id that occurs |
| `HpxUtils.Indexed` | skyproj/hpx_utils.py:205 | each pixel paired with its own index |
| `HpxUtils.InsertByKey` | skyproj/hpx_utils.py:205 | inserting into a key-sorted list keeps it sorted and adds exactly the new pair |
| `HpxUtils.ConsSorted` | skyproj/hpx_utils.py:205 | the head of a sorted list put back before the insertion into its tail gives a sorted list with the same pairs plus the new one |
| `HpxUtils.SortByKey` | skyproj/hpx_utils.py:205 | sorting by key yields a key-sorted permutation |
| `HpxUtils.SortedPairsFacts` | skyproj/hpx_utils.py:205 | the sorted (pixel, index) pairs are exactly the pairs (pixels[j], j) |
| `HpxUtils.ArgSort` | skyproj/hpx_utils.py:205 | `np.argsort` lists every index of the pixels once, in order of increasing pixel id |
| `HpxUtils.Seconds` | skyproj/hpx_utils.py:205 | the indices carried by the sorted pairs, in their order |
| `HpxUtils.ArgSortFacts` | skyproj/hpx_utils.py:205 | the indices read off the sorted pairs are in range, cover every index, and order the pixels |
| `HpxUtils.SortedOrder` | skyproj/hpx_utils.py:205-206 | the argsort and the ids it lists satisfy the sorted-lookup invariant the search relies on |
| `HpxUtils.SearchSorted` | skyproj/hpx_utils.py:206 | `searchsorted` (side left) returns the first position whose key is not below the id |
| `HpxUtils.PixRaster` | skyproj/hpx_utils.py:203 | `angle_to_pixel` at every centre, with the centres' shape |
| `HpxUtils.GridMax` | skyproj/hpx_utils.py:208 | `pix_raster.max()` is one of the raster ids and at least every one |
| `HpxUtils.MatchPixel` | skyproj/hpx_utils.py:206-213 | after the search and the clamp the position is in bounds, its id equals the cell's id exactly when the id is one of the pixels, and it then points at that pixel's own index |
| `HpxUtils.SearchStaysInside` | skyproj/hpx_utils.py:208-210 | with no raster id above the largest pixel id the search never runs off the end, so the clamp is needed only in the overflow case |
| `HpxUtils.HealpixToXY` | skyproj/hpx_utils.py:160-220 | rejects duplicate pixel ids before any raster is built; a cell is unmasked iff the pixel id at its centre is among the pixels, and it then holds the paired value; masked cells hold 0; empty inputs raise as numpy's max does |
| `HpxUtils.RasterPairs` | skyproj/hpx_utils.py:196-220 | the rasterisation after the uniqueness check, with the same cell-by-cell outcome and the empty-reduction error, into newly allocated arrays |
| `HpxUtils.ResolvePixels` | skyproj/hpx_utils.py:205-218 | argsort, the `pix_raster.max() > pixels.max()` overflow test and the lookup leave every cell of new arrays resolved |
| `HpxUtils.ResolveRaster` | skyproj/hpx_utils.py:212-218 | newly allocated mask and value arrays have the raster's shape, and every cell ends resolved: unmasked with its pixel's value exactly when its id is listed, masked with 0 otherwise |
| `HpxUtils.ResolveRow` | skyproj/hpx_utils.py:212-218 | one row of cells is resolved and every other row is left as it was |
| `HpxUtils.SamplePixels` | skyproj/hpx_utils.py:244 | the pixel of every (lon, lat) sample |
| `HpxUtils.CountSamples` | skyproj/hpx_utils.py:246-247 | `np.add.at(count, pix, 1)` leaves in each pixel the number of samples mapped to it, repeats included |
| `HpxUtils.SumWeights` | skyproj/hpx_utils.py:251-252 | `np.add.at(hpxmap, pix, C)` leaves in each pixel the sum of its samples' weights |
| `HpxUtils.HealpixBin` | skyproj/hpx_utils.py:223-259 | the map has one entry per pixel: UNSEEN where no sample falls, else the sample count, or the mean weight when weights are given |
| `HpxUtils.DivideByCounts` | skyproj/hpx_utils.py:253 | every hit pixel's weight sum becomes its mean weight, and every other pixel keeps its value |
| `HpxUtils.FillUnseen` | skyproj/hpx_utils.py:257 | every pixel no sample hits becomes UNSEEN, and hit pixels keep their value |
| `HpxUtils.CountPositiveIffSampled` | skyproj/hpx_utils.py:246-248 | a pixel's count is positive exactly when some sample falls in it |
| `HpxUtils.CountAppend` | skyproj/hpx_utils.py:247 | counting is additive over concatenated sample lists |
| `HpxUtils.CountsBelowStep` | skyproj/hpx_utils.py:247 | one more sample raises the total count over the first n pixels by one exactly when it falls among them |
| `HpxUtils.CountsConserveSamples` | skyproj/hpx_utils.py:246-247 | with every sample on a valid pixel, the counts over the whole map add up to the number of samples |
| `HpxUtils.CountsBelowOfEmpty` | skyproj/hpx_utils.py:246 | no samples give zero counts everywhere |
| `HpxUtils.WeightSumBounds` | skyproj/hpx_utils.py:252 | a pixel's weight sum lies between its count times the smallest and the largest of its weights |
| `HpxUtils.MeanWithinWeights` | skyproj/hpx_utils.py:253 | with weights, a sampled pixel's value lies within any bounds that hold for all of its weights |
| `HpxUtils.CountMap` | skyproj/hpx_utils.py:254-257 | without weights, a sampled pixel holds its count (at least 1) and any other pixel holds UNSEEN |
| `SkyGrid.SideIndex` | skyproj/skygrid.py:227-228 | every side has its own position among the four lists left, right, bottom, top |
| `SkyGrid.FlipBrackets` | skyproj/skygrid.py:61-65 | a flip of the inside flag puts the bound between the endpoints' u, so du is never 0 |
| `SkyGrid.InterpV` | skyproj/skygrid.py:65 | the interpolated `v` at the bound; it lies between the endpoints' v's (`InterpBetweenEndpoints`) |
| `SkyGrid.SegmentCrossing` | skyproj/skygrid.py:64-70 | the crossing one segment yields, if any; what it yields is stated by `SegmentCrossingFacts` |
| `SkyGrid.Place` | skyproj/skygrid.py:68-70 | the crossing point has u equal to the bound and v the interpolated value |
| `SkyGrid.CrossingsUpTo` | skyproj/skygrid.py:61-71 | the first k segments yield at most k crossings |
| `SkyGrid.SideCrossings` | skyproj/skygrid.py:54-71 | a polyline with fewer than two points has no crossings, and a longer one has fewer crossings than points |
| `SkyGrid.FindLineBoxCrossings` | skyproj/skygrid.py:32-72 | exactly four lists, left, right, bottom, top, each the side's crossings in segment order |
| `SkyGrid.LerpBetween` | skyproj/skygrid.py:65 | linear interpolation at a u between two u's gives a v between their v's |
| `SkyGrid.InterpBetweenEndpoints` | skyproj/skygrid.py:65 | the interpolated v lies between the v's of the segment's endpoints |
| `SkyGrid.SegmentCrossingFacts` | skyproj/skygrid.py:61-70 | a recorded crossing comes from a flip, lies on the side's line within [vmin, vmax] and between the endpoints, and carries the segment's heading |
| `SkyGrid.CrossingsUpToExactly` | skyproj/skygrid.py:61-71 | a crossing is among the first k segments' crossings exactly when one of those segments yields it |
| `SkyGrid.CrossingsLieOnSide` | skyproj/skygrid.py:54-71 | a crossing is in a side's list iff some segment yields it, and then it lies on the side within its extent, between a flipping segment's endpoints |
| `SkyGrid.Lift` | skyproj/skygrid.py:149-150 | a line returned unchanged: one vertex per point |
| `SkyGrid.InsertGaps` | skyproj/skygrid.py:152-153 | the cut line with a gap after each long step; its length, round trip and gap placement are the lemmas below |
| `SkyGrid.StepHead` | skyproj/skygrid.py:147-153 | a point followed by a gap exactly when the step to the next point is long; stripping it gives the point |
| `SkyGrid.CutGridLineJumps` | skyproj/skygrid.py:130-155 | the output has one vertex more per long step, dropping the gaps restores the line, and without long steps the line is returned unchanged |
| `SkyGrid.InsertGapsLength` | skyproj/skygrid.py:152-153 | inserting the gaps adds exactly one vertex per long step |
| `SkyGrid.StripAppend` | skyproj/skygrid.py:152-153 | dropping gaps distributes over concatenation |
| `SkyGrid.StripLift` | skyproj/skygrid.py:149-150 | an uncut line has no gaps to drop |
| `SkyGrid.StripInsertGaps` | skyproj/skygrid.py:152-153 | dropping the inserted gaps restores the line |
| `SkyGrid.StripHead` | skyproj/skygrid.py:152-153 | a point with or without its gap strips to the point |
| `SkyGrid.NoJumpsNoGaps` | skyproj/skygrid.py:147-150 | without long steps the insertion adds nothing, so the early return agrees with it |
| `SkyGrid.InsertGapsEnds` | skyproj/skygrid.py:152-153 | a cut line starts and ends with the line's own first and last points |
| `SkyGrid.CutLineGapsAtLongSteps` | skyproj/skygrid.py:144-155 | every gap sits strictly inside the cut line, between two points a long step apart, and points left adjacent are a short step apart |
| `SkyGrid.InsertedGapsBetweenLongSteps` | skyproj/skygrid.py:152-153 | each inserted gap separates two points a long step apart |
| `SkyGrid.InsertedPointsClose` | skyproj/skygrid.py:152-153 | two points left adjacent by the insertion are a short step apart |
| `SkyGrid.ClippedRatio` | skyproj/skygrid.py:295 | the clipped ratio lies in [1/3, 5/3]; a zero denominator gives the upper or lower clip by the numerator's sign, and NaN exactly on zero over zero |
| `SkyGrid.ComputeNGridFromExtent` | skyproj/skygrid.py:270-298 | a requested count raises UnboundLocalError; otherwise 6 latitude lines and between 2 and 10 longitude lines |
| `SkyGrid.LonSpan` | skyproj/skygrid.py:294-295 | the absolute longitude extent scaled by the cosine of the mean latitude; its use is stated by `NGridLonFollowsAspect` |
| `SkyGrid.NGridLonFollowsAspect` | skyproj/skygrid.py:294-296 | the longitude count is 2 at aspect at most 1/3, 10 at aspect at least 5/3, and in between the least integer not below 6 times the aspect |
| `SkyGrid.NGridFlatExtent` | skyproj/skygrid.py:295-296 | a zero latitude span gives 10 lines for a positive span, 2 for a negative one, and raises on a zero span |
| `SkyGrid.NGridFailsOnlyOnOverrideOrNaN` | skyproj/skygrid.py:291-298 | the count fails exactly on a requested count or a zero-by-zero ratio |
| `SkyGrid.GetRawGridLines` | skyproj/skygrid.py:240-252 | one meridian per longitude value and one parallel per latitude value |
| `SkyGrid.RawGridLinesFollowGraticule` | skyproj/skygrid.py:244-250 | each meridian has 100 points at its longitude from lat_min to lat_max, and each parallel 100 points at its latitude from lon_min to lon_max |
| `SkyGrid.ExpandedBox` | skyproj/skygrid.py:207 | the widened tick box contains the axis limits |
| `SkyGrid.PyPrefix` | skyproj/skygrid.py:199-200 | Python's `levs[:n]` is a prefix of the levels: n entries when 0 <= n <= len, all of them past the end, len+n for a negative n, and none below -len |
| `SkyGrid.LevelValues` | skyproj/skygrid.py:199-200 | `levs[:n] / factor`: one value per entry of the prefix `levs[:n]`, each that level divided by the factor, so times the factor it gives back its level |
| `SkyGrid.TicksAt` | skyproj/skygrid.py:229-230 | one unlabelled tick per crossing, at the line's level |
| `SkyGrid.SideTicks` | skyproj/skygrid.py:222-230 | the unlabelled ticks one side collects from the first n lines; stated by `SideTicksOnTheirSide` and `CrossingInSideTicks` |
| `SkyGrid.Labelled` | skyproj/skygrid.py:231-236 | every tick gets the label and keeps its level and location |
| `SkyGrid.TicksFor` | skyproj/skygrid.py:214-236 | the tick map has the four sides as keys, each holding its labelled ticks over all lines |
| `SkyGrid.SideTicksOnTheirSide` | skyproj/skygrid.py:222-230 | every unlabelled tick of a side lies on that side within its extent and comes from a crossing of a line at that line's level |
| `SkyGrid.TicksFiledUnderTheirSide` | skyproj/skygrid.py:214-236 | every tick filed under a side is labelled, lies on that side, and carries the level of a line that crosses the side there |
| `SkyGrid.CrossingGivesTick` | skyproj/skygrid.py:222-236 | each crossing of a line with a side gives a labelled tick there at that line's level |
| `SkyGrid.CrossingInSideTicks` | skyproj/skygrid.py:222-230 | each crossing of one of the first n lines appears among the side's unlabelled ticks |
| `SkyGrid.AppendTicks` | skyproj/skygrid.py:229-230 | appending a line's crossings one by one adds exactly their ticks |
| `SkyGrid.LabelTicks` | skyproj/skygrid.py:234-236 | labelling ticks in place gives the labelled list |
| `SkyGrid.FileLineTicks` | skyproj/skygrid.py:226-230 | every crossing of one line is appended under its own side |
| `SkyGrid.LabelSides` | skyproj/skygrid.py:231-236 | every side's list is labelled |
| `SkyGrid.CollectTicks` | skyproj/skygrid.py:218-236 | the side lists start empty, collect every crossing with its line's level, and are labelled: the tick map of the lines |
| `SkyGrid.FiledMapEntries` | skyproj/skygrid.py:220-230 | after i lines, each of the four sides holds the ticks of those lines |
| `SkyGrid.FileTicks` | skyproj/skygrid.py:220-230 | after the filing loop, the side lists hold the ticks of all lines zipped with their levels |
| `SkyGrid.EmptySides` | skyproj/skygrid.py:220 | the four side lists start empty |
| `SkyGrid.FileNextLine` | skyproj/skygrid.py:222-230 | one turn of the filing loop takes the ticks of i lines to those of i + 1 |
| `SkyGrid.GridInfoFor` | skyproj/skygrid.py:184-238 | the grid info for limits and locators: extremes, raw lines at the located levels, and their tick maps; its parts are stated by `RawGridLinesFollowGraticule` and `TicksFor` |
| `SkyGrid.Cuts` | skyproj/skygrid.py:122-127 | every line cut at its jumps |
| `SkyGrid.SkyGridHelper.Init` | skyproj/skygrid.py:78-111 | the settings are stored, delta_cut is 80 for "cyl" projections and half the projection radius otherwise, and nothing is cached yet |
| `SkyGrid.SkyGridHelper.Create` | skyproj/skygrid.py:78-113 | construction runs update_lim: it fails exactly when the grid count does; otherwise the helper keeps its settings, collaborators and the cyl/radius delta_cut, its locators use the computed counts (include_last as in update_lim), and it caches the limits with their grid info |
| `SkyGrid.SkyGridHelper.UpdateLim` | skyproj/skygrid.py:157-179 | unchanged limits change nothing; new limits recompute the counts (an error changes nothing), set the locators with include_last for longitude iff wrap is 180 and not full circle, and cache the grid info for the limits |
| `SkyGrid.SkyGridHelper.Rebuild` | skyproj/skygrid.py:170-179 | the locators, the grid info and the cached limits are set for the new limits, keeping the cache consistent |
| `SkyGrid.SkyGridHelper.UpdateGrid` | skyproj/skygrid.py:181-182 | the cached grid info becomes the one for these limits, and nothing else changes |
| `SkyGrid.SkyGridHelper.GetGridInfo` | skyproj/skygrid.py:184-238 | the grid info is the extremes, the raw lines at the locators' levels, and their tick maps on the widened box |
| `SkyGrid.SkyGridHelper.GetGridlines` | skyproj/skygrid.py:115-128 | raises before any grid info exists; "x" gives the longitude lines, "y" the latitude lines, "both" longitude then latitude, any other name none, each cut at its jumps |
| `SkyGrid.SkyGridHelper.ExtendCut` | skyproj/skygrid.py:122-127 | extending the list line by line appends every line cut at its jumps |

## Left out

- The hpgeom and healsparse calls are function parameters, not models: `angle_to_pixel`, `pixel_to_angle`, `max_pixel_radius`, `nside_to_npixel`'s validation of nside, and `get_values_pos` (with its `valid_mask` option).
- The same holds for the projection, the extreme finder, `LocatorD`, `arctan2` and `cos`: `eps`, `eps_lon` (and so `np.median`) and `wrap_values` are inputs of `HpxUtils.HealpixPixelsRange`.
- Floating point is modelled as exact reals. NaN appears only where the code tests for it: masked values, and the zero-by-zero grid ratio.
  - `np.isclose` is modelled as exact equality with the sentinel.
  - `np.hypot(dx, dy) > delta_cut` is compared on squares.
  - NaN coordinates inside a polyline are not modelled.
- `HpxUtils.HpxmapToXY` requires `angle_to_pixel` to land inside the map. It stands in for `hpg.npixel_to_nside(hpxmap.size)`, so the error that call raises on a map whose size is not 12·nside² is not modelled.
- `HpxUtils.HealpixToXY` requires `values` to be at least as long as `pixels`. The IndexError a shorter array raises when a matched index falls past its end is not modelled.
- `HpxUtils.HealpixBin` requires equal-length `lon`, `lat` and `C` and in-range pixel ids. The source relies on numpy broadcasting and on hpgeom for these, and they are not modelled.
- `HpxUtils.CountSamples`: the counts are unbounded integers, not numpy's int32, so more than 2^31 samples in one pixel do not wrap.
- `HpxUtils.HealpixToXY` fuses numpy's element-wise passes (search, clamp, compare, assign) into one loop over cells. The arrays end in the same state.
- `SkyGrid.SkyGridHelper.GetGridInfo` requires both locators to be set. The source reads them unconditionally, and every helper built by `__init__` has them set.
- Grid lines are stored as plain point lists rather than the one-element lists `[l]` of the source. `get_gridlines` still yields one drawn line per grid line.
- Tick labels are the fixed string "lab" the source assigns; the commented-out formatter is not modelled.
- `print` in `update_lim` is left out (output only).
- `SkyGridHelper.__init__` settings that the modelled code never reads are left out: `celestial`, `equatorial_labels`, `min_lon_ticklabel_delta` and the tick formatters.
- Also left out: `transform_xy`/`inv_transform_xy` (projection calls), `get_tick_iterator` (unimplemented), and `SkyGridlines` (rendering only).
- skyproj/skyproj.py is not part of this model: it is matplotlib figure plumbing.
