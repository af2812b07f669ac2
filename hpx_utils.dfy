/**
 * HEALPix raster and binning utilities of skyproj (skyproj/hpx_utils.py).
 *
 * The pixel-indexing scheme (hpgeom / healsparse) is a collaborator: its
 * angle-to-pixel and pixel-to-angle maps are function parameters, and the
 * maximum pixel radius together with its cos(median latitude) correction are
 * plain inputs. Floats are reals; NaN is an explicit alternative of `Float`.
 */
module HpxUtils {
  import opened Wrappers
  import opened Numerics

  /** The exceptions the module raises. */
  datatype Error =
    | NoValidPixels        // NoValidPixelsError: auto-zoom over an empty pixel set
    | NonUniquePixels      // ValueError: the pixels array of healpix_to_xy is not unique
    | NegativeSampleCount  // ValueError from np.linspace: a negative number of samples
    | EmptyReduction       // ValueError from .max() over a zero-size array

  /** A position on the sphere, in degrees. */
  datatype Angle = Angle(lon: real, lat: real)

  /** A closed range (min, max) as the source's 2-tuples hold it. */
  datatype Interval = Interval(lo: real, hi: real)

  /** A float64 value: a finite number or NaN. */
  datatype Float = Num(x: real) | NaN

  /** hpgeom.UNSEEN, the sentinel that marks a pixel without data. */
  const UNSEEN: real := -1637500000000000000000000000000.0

  /** The 1e-5 degree margin kept from the poles and from the wrap seam. */
  const MARGIN: real := 0.00001

  // ---------------------------------------------------------------------------
  // healpix_pixels_range
  // ---------------------------------------------------------------------------

  /** `(lon + wrap) % 360. - wrap`: the longitude as the range estimator re-wraps it. */
  function WrapLon(lon: real, wrap: real): (w: real)
    ensures -wrap <= w < 360.0 - wrap
    ensures (w - lon) / 360.0 == ((w - lon) / 360.0).Floor as real
  {
    var r := FloorMod(lon + wrap, 360.0);
    WholeTurnsNegate(lon + wrap, r);
    r - wrap
  }

  /** If x and r differ by a whole number of turns, so do r and x. */
  lemma WholeTurnsNegate(x: real, r: real)
    requires (x - r) / 360.0 == ((x - r) / 360.0).Floor as real
    ensures (r - x) / 360.0 == ((r - x) / 360.0).Floor as real
  {
    var k := ((x - r) / 360.0).Floor;
    assert (x - r) / 360.0 == k as real;
    assert (r - x) / 360.0 == (-k) as real;
    assert ((-k) as real).Floor == -k;
  }

  /** The longitudes and latitudes of the pixel centres (`hpg.pixel_to_angle`). */
  function PixelLons(pixels: seq<int>, pixelToAngle: int -> Angle): (lons: seq<real>)
    ensures |lons| == |pixels|
    ensures forall i :: 0 <= i < |pixels| ==> lons[i] == pixelToAngle(pixels[i]).lon
  {
    seq(|pixels|, i requires 0 <= i < |pixels| => pixelToAngle(pixels[i]).lon)
  }

  function PixelLats(pixels: seq<int>, pixelToAngle: int -> Angle): (lats: seq<real>)
    ensures |lats| == |pixels|
    ensures forall i :: 0 <= i < |pixels| ==> lats[i] == pixelToAngle(pixels[i]).lat
  {
    seq(|pixels|, i requires 0 <= i < |pixels| => pixelToAngle(pixels[i]).lat)
  }

  function WrappedLons(lons: seq<real>, wrap: real): (ws: seq<real>)
    ensures |ws| == |lons|
    ensures forall i :: 0 <= i < |lons| ==> ws[i] == WrapLon(lons[i], wrap)
  {
    seq(|lons|, i requires 0 <= i < |lons| => WrapLon(lons[i], wrap))
  }

  /** The longitude range before the overrun check: the wrapped spread widened by eps_lon. */
  function NaiveLonRange(pixels: seq<int>, pixelToAngle: int -> Angle, wrap: real, epsLon: real): (r: Interval)
    requires |pixels| > 0
    ensures forall i :: 0 <= i < |pixels| ==>
      r.lo + epsLon <= WrapLon(pixelToAngle(pixels[i]).lon, wrap) <= r.hi - epsLon
    ensures exists i :: 0 <= i < |pixels| && r.lo + epsLon == WrapLon(pixelToAngle(pixels[i]).lon, wrap)
    ensures exists i :: 0 <= i < |pixels| && r.hi - epsLon == WrapLon(pixelToAngle(pixels[i]).lon, wrap)
  {
    var lonWrap := WrappedLons(PixelLons(pixels, pixelToAngle), wrap);
    assert forall i :: 0 <= i < |pixels| ==> lonWrap[i] in lonWrap;
    Interval(SeqMin(lonWrap) - epsLon, SeqMax(lonWrap) + epsLon)
  }

  /**
   * The overrun check: the range straddles `wrap - 360`, straddles
   * `wrap + 360`, or is at least 359 degrees wide.
   */
  predicate Overruns(r: Interval, wrap: real) {
    || (r.lo < wrap - 360.0 && r.hi > wrap - 360.0)
    || (r.lo < wrap + 360.0 && r.hi > wrap + 360.0)
    || r.hi - r.lo >= 359.0
  }

  /** The full-sky fallback `(lon_0 - 180, lon_0 + 180 - 1e-5)`. */
  function FullLonRange(wrap: real, wrapValues: real -> real): (r: Interval)
    ensures r.hi - r.lo == 360.0 - MARGIN
  {
    var lon0 := wrapValues(FloorMod(wrap + 180.0, 360.0));
    Interval(lon0 - 180.0, lon0 + 180.0 - MARGIN)
  }

  /**
   * healpix_pixels_range: the lon/lat zoom window of a set of pixels.
   * `eps` is hpg.max_pixel_radius(nside), `epsLon` is eps / cos(median lat),
   * and `wrapValues` is skyproj.utils.wrap_values.
   */
  function HealpixPixelsRange(pixels: seq<int>, wrap: real, pixelToAngle: int -> Angle,
                              eps: real, epsLon: real, wrapValues: real -> real)
    : (r: Result<(Interval, Interval), Error>)
    ensures r.Failure? <==> |pixels| == 0
    ensures r.Failure? ==> r.error == NoValidPixels
    ensures r.Success? ==> -90.0 + MARGIN <= r.value.1.lo && r.value.1.hi <= 90.0 - MARGIN
    ensures r.Success? ==> r.value.0.hi - r.value.0.lo < 360.0
    ensures r.Success? ==> exists i :: 0 <= i < |pixels| && LowestLat(pixels, pixelToAngle, i)
                                        && r.value.1.lo == Max(pixelToAngle(pixels[i]).lat - eps, -90.0 + MARGIN)
    ensures r.Success? ==> exists i :: 0 <= i < |pixels| && HighestLat(pixels, pixelToAngle, i)
                                        && r.value.1.hi == Min(pixelToAngle(pixels[i]).lat + eps, 90.0 - MARGIN)
  {
    if |pixels| == 0 then Failure(NoValidPixels)
    else
      var lats := PixelLats(pixels, pixelToAngle);
      LatExtremesAttained(pixels, pixelToAngle);
      var latRange := Interval(Max(SeqMin(lats) - eps, -90.0 + MARGIN),
                               Min(SeqMax(lats) + eps, 90.0 - MARGIN));
      var naive := NaiveLonRange(pixels, pixelToAngle, wrap, epsLon);
      var lonRange := if Overruns(naive, wrap) then FullLonRange(wrap, wrapValues) else naive;
      Success((lonRange, latRange))
  }

  /** Pixel i has the lowest centre latitude of all the pixels. */
  predicate LowestLat(pixels: seq<int>, pixelToAngle: int -> Angle, i: int)
    requires 0 <= i < |pixels|
  {
    forall j :: 0 <= j < |pixels| ==> pixelToAngle(pixels[i]).lat <= pixelToAngle(pixels[j]).lat
  }

  /** Pixel i has the highest centre latitude of all the pixels. */
  predicate HighestLat(pixels: seq<int>, pixelToAngle: int -> Angle, i: int)
    requires 0 <= i < |pixels|
  {
    forall j :: 0 <= j < |pixels| ==> pixelToAngle(pixels[j]).lat <= pixelToAngle(pixels[i]).lat
  }

  /** `np.min(lat)` and `np.max(lat)` are the latitudes of a lowest and a highest pixel. */
  lemma LatExtremesAttained(pixels: seq<int>, pixelToAngle: int -> Angle)
    requires |pixels| > 0
    ensures exists i :: 0 <= i < |pixels| && LowestLat(pixels, pixelToAngle, i)
                        && pixelToAngle(pixels[i]).lat == SeqMin(PixelLats(pixels, pixelToAngle))
    ensures exists i :: 0 <= i < |pixels| && HighestLat(pixels, pixelToAngle, i)
                        && pixelToAngle(pixels[i]).lat == SeqMax(PixelLats(pixels, pixelToAngle))
  {
    var lats := PixelLats(pixels, pixelToAngle);
    forall j | 0 <= j < |pixels|
      ensures SeqMin(lats) <= lats[j] <= SeqMax(lats)
    {
      assert lats[j] in lats;
    }
    var lo :| 0 <= lo < |lats| && lats[lo] == SeqMin(lats);
    var hi :| 0 <= hi < |lats| && lats[hi] == SeqMax(lats);
    assert LowestLat(pixels, pixelToAngle, lo);
    assert HighestLat(pixels, pixelToAngle, hi);
  }

  /** The fallback is taken exactly when the naive range overruns, and is then 360 - 1e-5 wide. */
  lemma FullRangeExactlyOnOverrun(pixels: seq<int>, wrap: real, pixelToAngle: int -> Angle,
                                  eps: real, epsLon: real, wrapValues: real -> real)
    requires |pixels| > 0
    ensures var r := HealpixPixelsRange(pixels, wrap, pixelToAngle, eps, epsLon, wrapValues).value.0;
            var naive := NaiveLonRange(pixels, pixelToAngle, wrap, epsLon);
            && (Overruns(naive, wrap) ==> r == FullLonRange(wrap, wrapValues) && r.hi - r.lo == 360.0 - MARGIN)
            && (!Overruns(naive, wrap) ==> r == naive && r.hi - r.lo < 359.0)
  {
  }

  /**
   * Without the fallback, the longitude range holds every wrapped pixel
   * longitude, eps_lon inside its ends.
   */
  lemma LonRangeContainsPixels(pixels: seq<int>, wrap: real, pixelToAngle: int -> Angle,
                               eps: real, epsLon: real, wrapValues: real -> real)
    requires |pixels| > 0 && epsLon >= 0.0
    requires !Overruns(NaiveLonRange(pixels, pixelToAngle, wrap, epsLon), wrap)
    ensures var r := HealpixPixelsRange(pixels, wrap, pixelToAngle, eps, epsLon, wrapValues).value.0;
            forall i :: 0 <= i < |pixels| ==>
              r.lo + epsLon <= WrapLon(pixelToAngle(pixels[i]).lon, wrap) <= r.hi - epsLon
  {
  }

  /**
   * The latitude range covers every pixel latitude widened by eps, except
   * where it is clamped 1e-5 inside a pole.
   */
  lemma LatRangeCoversPixels(pixels: seq<int>, wrap: real, pixelToAngle: int -> Angle,
                             eps: real, epsLon: real, wrapValues: real -> real, i: int)
    requires 0 <= i < |pixels|
    ensures var r := HealpixPixelsRange(pixels, wrap, pixelToAngle, eps, epsLon, wrapValues).value.1;
            var lat := pixelToAngle(pixels[i]).lat;
            && (r.lo <= lat - eps || r.lo == -90.0 + MARGIN)
            && (lat + eps <= r.hi || r.hi == 90.0 - MARGIN)
  {
    var lats := PixelLats(pixels, pixelToAngle);
    assert lats[i] in lats;
  }

  /** A single pixel whose centre is the north pole: the upper latitude stops 1e-5 short of 90. */
  lemma PolePixelClamped(p: int, wrap: real, pixelToAngle: int -> Angle,
                         eps: real, epsLon: real, wrapValues: real -> real)
    requires pixelToAngle(p).lat == 90.0 && eps >= 0.0
    ensures HealpixPixelsRange([p], wrap, pixelToAngle, eps, epsLon, wrapValues).value.1.hi == 90.0 - MARGIN
  {
    assert PixelLats([p], pixelToAngle) == [90.0];
  }

  /**
   * With wrap 0, pixels centred at longitudes 359 and 1 re-wrap to 359 and 1;
   * once eps_lon reaches 0.5 the spread is 359 degrees and the window
   * collapses to the full sky.
   */
  lemma SeamPairCollapsesToFullSky(p: int, q: int, pixelToAngle: int -> Angle,
                                   eps: real, epsLon: real, wrapValues: real -> real)
    requires pixelToAngle(p).lon == 359.0 && pixelToAngle(q).lon == 1.0 && epsLon >= 0.5
    ensures var r := HealpixPixelsRange([p, q], 0.0, pixelToAngle, eps, epsLon, wrapValues).value.0;
            r.hi - r.lo == 360.0 - MARGIN
  {
    var lonWrap := WrappedLons(PixelLons([p, q], pixelToAngle), 0.0);
    assert (359.0 / 360.0).Floor == 0;
    assert (1.0 / 360.0).Floor == 0;
    assert lonWrap == [359.0, 1.0];
    assert SeqMin(lonWrap) == 1.0 && SeqMax(lonWrap) == 359.0;
  }

  /**
   * The same pair below that margin: the spread is 358 + 2 eps_lon < 359, so
   * the window stays (1 - eps_lon, 359 + eps_lon) rather than the full sky.
   */
  lemma SeamPairKeptBelowHalf(p: int, q: int, pixelToAngle: int -> Angle,
                              eps: real, epsLon: real, wrapValues: real -> real)
    requires pixelToAngle(p).lon == 359.0 && pixelToAngle(q).lon == 1.0 && epsLon < 0.5
    ensures var r := HealpixPixelsRange([p, q], 0.0, pixelToAngle, eps, epsLon, wrapValues).value.0;
            r == Interval(1.0 - epsLon, 359.0 + epsLon)
  {
    var lonWrap := WrappedLons(PixelLons([p, q], pixelToAngle), 0.0);
    assert (359.0 / 360.0).Floor == 0;
    assert (1.0 / 360.0).Floor == 0;
    assert lonWrap == [359.0, 1.0];
    assert SeqMin(lonWrap) == 1.0 && SeqMax(lonWrap) == 359.0;
  }

  // ---------------------------------------------------------------------------
  // The raster mesh shared by hspmap_to_xy, hpxmap_to_xy and healpix_to_xy
  // ---------------------------------------------------------------------------

  /** The two axes of `np.meshgrid`: `xsize` longitudes by `int(aspect*xsize)` latitudes. */
  datatype Mesh = Mesh(lons: seq<real>, lats: seq<real>)

  /** `int(aspect*xsize)`, the number of latitude nodes of the mesh. */
  function MeshRows(xsize: int, aspect: real): int {
    Trunc(aspect * xsize as real)
  }

  /** The mesh over the ranges; np.linspace raises on a negative number of samples. */
  function MeshAxes(lonRange: Interval, latRange: Interval, xsize: int, aspect: real): (r: Result<Mesh, Error>)
    ensures r.Success? <==> xsize >= 0 && MeshRows(xsize, aspect) >= 0
    ensures r.Failure? ==> r.error == NegativeSampleCount
    ensures r.Success? ==> |r.value.lons| == xsize && |r.value.lats| == MeshRows(xsize, aspect)
  {
    var rows := MeshRows(xsize, aspect);
    if xsize < 0 || rows < 0 then Failure(NegativeSampleCount)
    else Success(Mesh(Linspace(lonRange.lo, lonRange.hi, xsize), Linspace(latRange.lo, latRange.hi, rows)))
  }

  /** How many cells `[1:]` and `[:-1]` leave along an axis of `n` nodes. */
  function CentreCount(n: nat): nat {
    if n == 0 then 0 else n - 1
  }

  function Mid(a: real, b: real): real {
    (a + b) / 2.0
  }

  /** The cell centres `(raster[1:, 1:] + raster[:-1, :-1]) / 2` of both coordinates. */
  function Centres(m: Mesh): (c: seq<seq<Angle>>)
    ensures |c| == CentreCount(|m.lats|)
    ensures forall i :: 0 <= i < |c| ==> |c[i]| == CentreCount(|m.lons|)
    ensures forall i, j :: 0 <= i < |c| && 0 <= j < CentreCount(|m.lons|) ==>
      c[i][j] == Angle(Mid(m.lons[j], m.lons[j + 1]), Mid(m.lats[i], m.lats[i + 1]))
  {
    var h, w := CentreCount(|m.lats|), CentreCount(|m.lons|);
    seq(h, i requires 0 <= i < h =>
      seq(w, j requires 0 <= j < w => Angle(Mid(m.lons[j], m.lons[j + 1]), Mid(m.lats[i], m.lats[i + 1]))))
  }

  /**
   * The centre grid is one row and one column smaller than the mesh, and each
   * centre lies between its two diagonal mesh corners, hence inside the
   * requested ranges.
   */
  lemma CentresInsideRanges(lonRange: Interval, latRange: Interval, xsize: int, aspect: real, i: int, j: int)
    requires MeshAxes(lonRange, latRange, xsize, aspect).Success?
    requires lonRange.lo <= lonRange.hi && latRange.lo <= latRange.hi
    requires 0 <= i < CentreCount(MeshRows(xsize, aspect)) && 0 <= j < CentreCount(xsize)
    ensures var m := MeshAxes(lonRange, latRange, xsize, aspect).value;
            var c := Centres(m);
            && |c| == MeshRows(xsize, aspect) - 1
            && |c[i]| == xsize - 1
            && Min(m.lons[j], m.lons[j + 1]) <= c[i][j].lon <= Max(m.lons[j], m.lons[j + 1])
            && Min(m.lats[i], m.lats[i + 1]) <= c[i][j].lat <= Max(m.lats[i], m.lats[i + 1])
            && lonRange.lo <= c[i][j].lon <= lonRange.hi
            && latRange.lo <= c[i][j].lat <= latRange.hi
  {
    var rows := MeshRows(xsize, aspect);
    var m := MeshAxes(lonRange, latRange, xsize, aspect).value;
    var lons := Linspace(lonRange.lo, lonRange.hi, xsize);
    var lats := Linspace(latRange.lo, latRange.hi, rows);
    assert m == Mesh(lons, lats);
    LinspaceWithin(lonRange.lo, lonRange.hi, xsize, j);
    LinspaceWithin(lonRange.lo, lonRange.hi, xsize, j + 1);
    LinspaceWithin(latRange.lo, latRange.hi, rows, i);
    LinspaceWithin(latRange.lo, latRange.hi, rows, i + 1);
    var c := Centres(m);
    assert c[i][j] == Angle(Mid(lons[j], lons[j + 1]), Mid(lats[i], lats[i + 1]));
    MidBetween(lons[j], lons[j + 1]);
    MidBetween(lats[i], lats[i + 1]);
  }

  lemma MidBetween(a: real, b: real)
    ensures Min(a, b) <= Mid(a, b) <= Max(a, b)
  {
  }

  /** A rasterised array: its values and its mask (true = invalid), both of the centre grid's shape. */
  datatype MaskedGrid<T> = MaskedGrid(data: seq<seq<T>>, mask: seq<seq<bool>>)

  /** What the `*_to_xy` functions return: the mesh nodes and the masked values at the centres. */
  datatype Raster<T> = Raster(mesh: Mesh, values: MaskedGrid<T>)

  predicate ShapedLike<T, U>(g: seq<seq<T>>, c: seq<seq<U>>) {
    |g| == |c| && forall i :: 0 <= i < |c| ==> |g[i]| == |c[i]|
  }

  /** A function applied at every raster centre. */
  function MapCells<T>(c: seq<seq<Angle>>, f: Angle -> T): (g: seq<seq<T>>)
    ensures ShapedLike(g, c)
    ensures forall i, j :: 0 <= i < |c| && 0 <= j < |c[i]| ==> g[i][j] == f(c[i][j])
  {
    seq(|c|, i requires 0 <= i < |c| => seq(|c[i]|, j requires 0 <= j < |c[i]| => f(c[i][j])))
  }

  /** A float sample that is missing: NaN, or equal to the sentinel. */
  predicate Missing(v: Float, sentinel: real) {
    v == NaN || v == Num(sentinel)
  }

  // ---------------------------------------------------------------------------
  // hpxmap_to_xy
  // ---------------------------------------------------------------------------

  /**
   * hpxmap_to_xy: sample a dense HEALPix map at the raster centres.
   * `angleToPixel` is hpg.angle_to_pixel at the map's own resolution, so it
   * yields indices of the map.
   */
  function HpxmapToXY(hpxmap: seq<Float>, lonRange: Interval, latRange: Interval,
                      angleToPixel: Angle -> int, xsize: int, aspect: real)
    : (r: Result<Raster<Float>, Error>)
    requires forall a :: 0 <= angleToPixel(a) < |hpxmap|
    ensures r.Failure? <==> MeshAxes(lonRange, latRange, xsize, aspect).Failure?
    ensures r.Failure? ==> r.error == NegativeSampleCount
    ensures r.Success? ==>
      var c := Centres(r.value.mesh);
      && r.value.mesh == MeshAxes(lonRange, latRange, xsize, aspect).value
      && ShapedLike(r.value.values.data, c) && ShapedLike(r.value.values.mask, c)
      && forall i, j :: 0 <= i < |c| && 0 <= j < |c[i]| ==>
           && r.value.values.data[i][j] == hpxmap[angleToPixel(c[i][j])]
           && (r.value.values.mask[i][j] <==> Missing(r.value.values.data[i][j], UNSEEN))
  {
    match MeshAxes(lonRange, latRange, xsize, aspect)
    case Failure(e) => Failure(e)
    case Success(m) =>
      var c := Centres(m);
      var data := MapCells(c, a => hpxmap[angleToPixel(a)]);
      var mask := MapCells(c, a => Missing(hpxmap[angleToPixel(a)], UNSEEN));
      Success(Raster(m, MaskedGrid(data, mask)))
  }

  // ---------------------------------------------------------------------------
  // hspmap_to_xy
  // ---------------------------------------------------------------------------

  /**
   * A HealSparse map as `get_values_pos` sees it: a wide mask returns the bit
   * words of each position; a boolean map, or any map read with `valid_mask`,
   * returns a flag; any other map a float. Each non-wide map keeps its own
   * sentinel. The sentinel a flag is compared with is numeric: False and True
   * compare equal to 0 and 1, and a float map's sentinel (UNSEEN, say) equals
   * neither.
   */
  datatype HealSparseMap =
    | WideMaskMap(bitsAt: Angle -> seq<int>)
    | BoolMap(flagAt: Angle -> bool, flagSentinel: real)
    | ValueMap(valueAt: Angle -> Float, sentinel: real)

  /** The element types hspmap_to_xy hands out: int32, uint8 (promoted booleans) and float. */
  datatype Element = I32(i: int) | U8(u: int) | F64(f: Float)

  /** `np.any` over the bit words of one position. */
  predicate AnyBitSet(bits: seq<int>) {
    exists k :: 0 <= k < |bits| && bits[k] != 0
  }

  /** One cell of hspmap_to_xy: the displayed element and its mask bit. */
  function HspCell(hsp: HealSparseMap, a: Angle): (Element, bool) {
    match hsp
    case WideMaskMap(bitsAt) =>
      var v := if AnyBitSet(bitsAt(a)) then 1 else 0;
      (I32(v), v == 0)
    case BoolMap(flagAt, sentinel) =>
      var b := flagAt(a);
      (U8(if b then 1 else 0), (if b then 1.0 else 0.0) == sentinel)
    case ValueMap(valueAt, sentinel) =>
      var v := valueAt(a);
      (F64(v), Missing(v, sentinel))
  }

  /** hspmap_to_xy: sample a HealSparse map at the raster centres. */
  function HspmapToXY(hsp: HealSparseMap, lonRange: Interval, latRange: Interval, xsize: int, aspect: real)
    : (r: Result<Raster<Element>, Error>)
    ensures r.Failure? <==> MeshAxes(lonRange, latRange, xsize, aspect).Failure?
    ensures r.Failure? ==> r.error == NegativeSampleCount
    ensures r.Success? ==>
      var c := Centres(r.value.mesh);
      && r.value.mesh == MeshAxes(lonRange, latRange, xsize, aspect).value
      && ShapedLike(r.value.values.data, c) && ShapedLike(r.value.values.mask, c)
      && forall i, j :: 0 <= i < |c| && 0 <= j < |c[i]| ==>
           (r.value.values.data[i][j], r.value.values.mask[i][j]) == HspCell(hsp, c[i][j])
  {
    match MeshAxes(lonRange, latRange, xsize, aspect)
    case Failure(e) => Failure(e)
    case Success(m) =>
      var c := Centres(m);
      var data := MapCells(c, a => HspCell(hsp, a).0);
      var mask := MapCells(c, a => HspCell(hsp, a).1);
      Success(Raster(m, MaskedGrid(data, mask)))
  }

  /**
   * The value and mask rules of hspmap_to_xy: a wide mask shows 1 where any
   * bit is set and 0 (masked) elsewhere; a boolean map shows its flag promoted
   * to uint8 and masks the flags equal to the sentinel, so nothing when the
   * sentinel is neither 0 nor 1; a float map keeps its value and masks the
   * sentinel and NaN.
   */
  lemma HspCellRules(hsp: HealSparseMap, a: Angle)
    ensures var (v, masked) := HspCell(hsp, a);
      && (hsp.WideMaskMap? ==>
            && (v == I32(1) <==> AnyBitSet(hsp.bitsAt(a)))
            && (v == I32(0) <==> !AnyBitSet(hsp.bitsAt(a)))
            && (masked <==> v == I32(0)))
      && (hsp.BoolMap? ==>
            && v.U8? && (v.u == 1 <==> hsp.flagAt(a)) && (v.u == 0 <==> !hsp.flagAt(a))
            && (masked <==> (hsp.flagAt(a) && hsp.flagSentinel == 1.0)
                            || (!hsp.flagAt(a) && hsp.flagSentinel == 0.0))
            && (hsp.flagSentinel != 0.0 && hsp.flagSentinel != 1.0 ==> !masked))
      && (hsp.ValueMap? ==>
            && v == F64(hsp.valueAt(a))
            && (masked <==> hsp.valueAt(a) == NaN || hsp.valueAt(a) == Num(hsp.sentinel)))
  {
  }

  /**
   * `valid_mask` on a float map hands out flags that are still compared with
   * the map's UNSEEN sentinel: no cell is masked, and the invalid positions
   * show as 0.
   */
  lemma ValidFlagsAgainstUnseenMaskNothing(flagAt: Angle -> bool, a: Angle)
    ensures var (v, masked) := HspCell(BoolMap(flagAt, UNSEEN), a);
      && !masked
      && (!flagAt(a) ==> v == U8(0))
  {
  }

  // ---------------------------------------------------------------------------
  // healpix_to_xy
  // ---------------------------------------------------------------------------

  /** `np.unique(pixels).size == pixels.size`: no pixel id occurs twice. */
  predicate Distinct(s: seq<int>) {
    forall i, j :: 0 <= i < j < |s| ==> s[i] != s[j]
  }

  /** The position of a pixel id in the unsorted pixel array (the reference for matches). */
  function IndexOf(s: seq<int>, q: int): (k: int)
    requires q in s
    ensures 0 <= k < |s| && s[k] == q
    ensures forall i :: 0 <= i < k ==> s[i] != q
  {
    if s[0] == q then 0 else 1 + IndexOf(s[1..], q)
  }

  /** The pairs (pixels[i], i), which argsort orders by their first component. */
  function Indexed(s: seq<int>): (r: seq<(int, int)>)
    ensures |r| == |s|
    ensures forall i :: 0 <= i < |s| ==> r[i] == (s[i], i)
  {
    seq(|s|, i requires 0 <= i < |s| => (s[i], i))
  }

  predicate SortedByKey(s: seq<(int, int)>) {
    forall i, j :: 0 <= i < j < |s| ==> s[i].0 <= s[j].0
  }

  function InsertByKey(x: (int, int), s: seq<(int, int)>): (r: seq<(int, int)>)
    requires SortedByKey(s)
    ensures SortedByKey(r)
    ensures multiset(r) == multiset(s) + multiset{x}
  {
    if s == [] then [x]
    else if x.0 <= s[0].0 then [x] + s
    else
      var t := InsertByKey(x, s[1..]);
      ConsSorted(s, x, t);
      [s[0]] + t
  }

  /** Putting back the head of a sorted list in front of the insertion into its tail. */
  lemma ConsSorted(s: seq<(int, int)>, x: (int, int), t: seq<(int, int)>)
    requires SortedByKey(s) && s != [] && s[0].0 < x.0
    requires SortedByKey(t) && multiset(t) == multiset(s[1..]) + multiset{x}
    ensures SortedByKey([s[0]] + t)
    ensures multiset([s[0]] + t) == multiset(s) + multiset{x}
  {
    assert s == [s[0]] + s[1..];
    forall k | 0 <= k < |t|
      ensures s[0].0 <= t[k].0
    {
      assert t[k] in multiset(t);
      if t[k] != x {
        assert t[k] in multiset(s[1..]);
        var i :| 0 <= i < |s[1..]| && s[1..][i] == t[k];
        assert s[i + 1] == t[k];
      }
    }
  }

  function SortByKey(s: seq<(int, int)>): (r: seq<(int, int)>)
    ensures SortedByKey(r)
    ensures multiset(r) == multiset(s)
  {
    if s == [] then []
    else
      assert s == [s[0]] + s[1..];
      InsertByKey(s[0], SortByKey(s[1..]))
  }

  /** Sorting the indexed pairs keeps exactly the pairs (pixels[j], j). */
  lemma SortedPairsFacts(pixels: seq<int>)
    ensures var sorted := SortByKey(Indexed(pixels));
      && |sorted| == |pixels|
      && (forall k :: 0 <= k < |sorted| ==> 0 <= sorted[k].1 < |pixels| && pixels[sorted[k].1] == sorted[k].0)
      && (forall j :: 0 <= j < |pixels| ==> (pixels[j], j) in sorted)
  {
    var ix := Indexed(pixels);
    var sorted := SortByKey(ix);
    assert |sorted| == |multiset(sorted)| == |multiset(ix)| == |ix|;
    forall k | 0 <= k < |sorted|
      ensures 0 <= sorted[k].1 < |pixels| && pixels[sorted[k].1] == sorted[k].0
    {
      assert sorted[k] in multiset(ix);
      assert sorted[k] in ix;
    }
    forall j | 0 <= j < |pixels|
      ensures (pixels[j], j) in sorted
    {
      assert ix[j] in multiset(sorted);
    }
  }

  /**
   * `np.argsort(pixels)`: a permutation of the indices of `pixels` that lists
   * the pixel ids in increasing order.
   */
  function ArgSort(pixels: seq<int>): (st: seq<int>)
    ensures |st| == |pixels|
    ensures forall k :: 0 <= k < |st| ==> 0 <= st[k] < |pixels|
    ensures forall k, l :: 0 <= k < l < |st| ==> pixels[st[k]] <= pixels[st[l]]
    ensures forall j :: 0 <= j < |pixels| ==> j in st
  {
    ArgSortFacts(pixels);
    Seconds(SortByKey(Indexed(pixels)))
  }

  /** The indices carried by the sorted pairs, in order. */
  function Seconds(sorted: seq<(int, int)>): (st: seq<int>)
    ensures |st| == |sorted|
    ensures forall k :: 0 <= k < |sorted| ==> st[k] == sorted[k].1
  {
    seq(|sorted|, k requires 0 <= k < |sorted| => sorted[k].1)
  }

  lemma ArgSortFacts(pixels: seq<int>)
    ensures var st := Seconds(SortByKey(Indexed(pixels)));
      && |st| == |pixels|
      && (forall k :: 0 <= k < |st| ==> 0 <= st[k] < |pixels|)
      && (forall k, l :: 0 <= k < l < |st| ==> pixels[st[k]] <= pixels[st[l]])
      && (forall j :: 0 <= j < |pixels| ==> j in st)
  {
    var sorted := SortByKey(Indexed(pixels));
    var st := Seconds(sorted);
    SortedPairsFacts(pixels);
    forall k, l | 0 <= k < l < |st|
      ensures pixels[st[k]] <= pixels[st[l]]
    {
      assert pixels[st[k]] == sorted[k].0 && pixels[st[l]] == sorted[l].0;
    }
    forall j | 0 <= j < |pixels|
      ensures j in st
    {
      var k :| 0 <= k < |sorted| && sorted[k] == (pixels[j], j);
      assert st[k] == j;
    }
  }

  predicate Sorted(s: seq<int>) {
    forall i, j :: 0 <= i < j < |s| ==> s[i] <= s[j]
  }

  /**
   * `np.searchsorted(keys, q)` with side='left': the first position whose key
   * is not below `q`, found by bisection.
   */
  method SearchSorted(keys: seq<int>, q: int) returns (k: int)
    requires Sorted(keys)
    ensures 0 <= k <= |keys|
    ensures forall i :: 0 <= i < k ==> keys[i] < q
    ensures forall i :: k <= i < |keys| ==> q <= keys[i]
  {
    var lo, hi := 0, |keys|;
    while lo < hi
      invariant 0 <= lo <= hi <= |keys|
      invariant forall i :: 0 <= i < lo ==> keys[i] < q
      invariant forall i :: hi <= i < |keys| ==> q <= keys[i]
    {
      var mid := (lo + hi) / 2;
      if keys[mid] < q {
        lo := mid + 1;
      } else {
        hi := mid;
      }
    }
    k := lo;
  }

  /** `angle_to_pixel` at every raster centre. */
  function PixRaster(c: seq<seq<Angle>>, angleToPixel: Angle -> int): (g: seq<seq<int>>)
    ensures ShapedLike(g, c)
    ensures forall i, j :: 0 <= i < |c| && 0 <= j < |c[i]| ==> g[i][j] == angleToPixel(c[i][j])
  {
    MapCells(c, angleToPixel)
  }

  /** `.max()` over a 2-D integer array with at least one cell in every row. */
  function GridMax(g: seq<seq<int>>): (m: int)
    requires |g| > 0 && forall i :: 0 <= i < |g| ==> |g[i]| > 0
    ensures forall i, j :: 0 <= i < |g| && 0 <= j < |g[i]| ==> g[i][j] <= m
    ensures exists i, j :: 0 <= i < |g| && 0 <= j < |g[i]| && g[i][j] == m
  {
    var first := IntMax(g[0]);
    assert forall j :: 0 <= j < |g[0]| ==> g[0][j] in g[0];
    var j0 :| 0 <= j0 < |g[0]| && g[0][j0] == first;
    if |g| == 1 then first
    else
      var rest := GridMax(g[1..]);
      assert forall i :: 1 <= i < |g| ==> g[i] == g[1..][i - 1];
      var i1, j1 :| 0 <= i1 < |g[1..]| && 0 <= j1 < |g[1..][i1]| && g[1..][i1][j1] == rest;
      assert g[i1 + 1][j1] == rest;
      if first >= rest then first else rest
  }

  /** The rasterised arrays of healpix_to_xy: the mesh, the values and the mask. */
  datatype RasterArrays = RasterArrays(mesh: Mesh, data: array2<real>, mask: array2<bool>)

  /** The resolved state of one raster cell: unmasked exactly when its id is a listed pixel. */
  ghost predicate CellResolved(data: array2<real>, mask: array2<bool>, i: int, j: int, q: int,
                               pixels: seq<int>, values: seq<real>)
    requires 0 <= i < data.Length0 && 0 <= j < data.Length1
    requires 0 <= i < mask.Length0 && 0 <= j < mask.Length1
    requires |values| >= |pixels|
    reads data, mask
  {
    && mask[i, j] == (q !in pixels)
    && data[i, j] == (if q in pixels then values[IndexOf(pixels, q)] else 0.0)
  }

  /** `st` is an argsort of `pixels` and `keys` the ids it lists, `pixels[st]`. */
  ghost predicate SortsPixels(pixels: seq<int>, st: seq<int>, keys: seq<int>) {
    && |st| == |pixels| == |keys|
    && (forall i :: 0 <= i < |st| ==> 0 <= st[i] < |pixels| && keys[i] == pixels[st[i]])
    && Sorted(keys)
    && (forall j :: 0 <= j < |pixels| ==> j in st)
  }

  /**
   * One raster id through `searchsorted`, the clamp of an index that ran off
   * the end, and the equality test: the entry at the returned position equals
   * `q` exactly when `q` is one of the pixels, and is then that pixel's own
   * entry. Without `overflow` (no raster id above the largest pixel id) the
   * search never runs off the end, so the index is always in bounds.
   */
  method MatchPixel(pixels: seq<int>, st: seq<int>, keys: seq<int>, q: int, overflow: bool) returns (k: int)
    requires Distinct(pixels) && |pixels| > 0 && SortsPixels(pixels, st, keys)
    requires !overflow ==> q <= IntMax(pixels)
    ensures 0 <= k < |keys|
    ensures keys[k] == q <==> q in pixels
    ensures keys[k] == q ==> st[k] == IndexOf(pixels, q)
  {
    k := SearchSorted(keys, q);
    var ranOff := k == |keys|;
    if !overflow {
      SearchStaysInside(pixels, st, keys, q, k);
    }
    if overflow && k == |keys| {
      k := |keys| - 1;
    }
    if q in pixels {
      var j := IndexOf(pixels, q);
      assert j in st;
      var k' :| 0 <= k' < |st| && st[k'] == j;
      assert keys[k'] == q;
      assert !ranOff;
      assert k <= k';
      assert keys[k] <= keys[k'];
    }
    if keys[k] == q {
      assert pixels[st[k]] == q;
    }
  }

  /** The largest pixel id is among the sorted ids, so no id up to it is searched past the end. */
  lemma SearchStaysInside(pixels: seq<int>, st: seq<int>, keys: seq<int>, q: int, k: int)
    requires |pixels| > 0 && SortsPixels(pixels, st, keys)
    requires q <= IntMax(pixels)
    requires 0 <= k <= |keys| && forall i :: 0 <= i < k ==> keys[i] < q
    ensures k < |keys|
  {
    var j :| 0 <= j < |pixels| && pixels[j] == IntMax(pixels);
    assert j in st;
    var i :| 0 <= i < |st| && st[i] == j;
    assert keys[i] == IntMax(pixels);
  }

  /**
   * healpix_to_xy: rasterise explicit (pixel, value) pairs. A repeated pixel id
   * is rejected before any raster is built; otherwise a raster cell is
   * unmasked exactly when the pixel id at its centre is one of `pixels`, and
   * then holds the value paired with that id; masked cells hold 0.
   */
  method HealpixToXY(pixels: seq<int>, values: seq<real>, lonRange: Interval, latRange: Interval,
                     angleToPixel: Angle -> int, xsize: int, aspect: real)
    returns (r: Result<RasterArrays, Error>)
    requires |values| >= |pixels|
    ensures !Distinct(pixels) ==> r == Failure(NonUniquePixels)
    ensures r.Success? ==> fresh(r.value.data) && fresh(r.value.mask)
    ensures Distinct(pixels) && MeshAxes(lonRange, latRange, xsize, aspect).Failure? ==>
      r == Failure(NegativeSampleCount)
    ensures Distinct(pixels) && MeshAxes(lonRange, latRange, xsize, aspect).Success? ==>
      var m := MeshAxes(lonRange, latRange, xsize, aspect).value;
      && (r.Failure? <==> |pixels| == 0 || CentreCount(|m.lats|) == 0 || CentreCount(|m.lons|) == 0)
      && (r.Failure? ==> r.error == EmptyReduction)
    ensures r.Success? ==>
      var m := MeshAxes(lonRange, latRange, xsize, aspect).value;
      var pr := PixRaster(Centres(m), angleToPixel);
      && r.value.mesh == m
      && r.value.data.Length0 == r.value.mask.Length0 == |pr|
      && r.value.data.Length1 == r.value.mask.Length1 == CentreCount(|m.lons|)
      && forall i, j :: 0 <= i < |pr| && 0 <= j < CentreCount(|m.lons|) ==>
           && r.value.mask[i, j] == (pr[i][j] !in pixels)
           && r.value.data[i, j] == (if pr[i][j] in pixels then values[IndexOf(pixels, pr[i][j])] else 0.0)
  {
    if !Distinct(pixels) {
      return Failure(NonUniquePixels);
    }
    var mesh := MeshAxes(lonRange, latRange, xsize, aspect);
    if mesh.Failure? {
      return Failure(NegativeSampleCount);
    }
    r := RasterPairs(pixels, values, mesh.value, angleToPixel);
  }

  /** `st = np.argsort(pixels)`, with the pixels read in that order as `keys`. */
  function SortedOrder(pixels: seq<int>): (r: (seq<int>, seq<int>))
    ensures SortsPixels(pixels, r.0, r.1)
  {
    var st := ArgSort(pixels);
    (st, seq(|pixels|, k requires 0 <= k < |pixels| => pixels[st[k]]))
  }

  /** healpix_to_xy once the pixels are known to be unique and the mesh is built. */
  method RasterPairs(pixels: seq<int>, values: seq<real>, m: Mesh, angleToPixel: Angle -> int)
    returns (r: Result<RasterArrays, Error>)
    requires Distinct(pixels) && |values| >= |pixels|
    ensures r.Failure? <==> |pixels| == 0 || CentreCount(|m.lats|) == 0 || CentreCount(|m.lons|) == 0
    ensures r.Failure? ==> r.error == EmptyReduction
    ensures r.Success? ==> fresh(r.value.data) && fresh(r.value.mask)
    ensures r.Success? ==>
      var pr := PixRaster(Centres(m), angleToPixel);
      && r.value.mesh == m
      && r.value.data.Length0 == r.value.mask.Length0 == |pr|
      && r.value.data.Length1 == r.value.mask.Length1 == CentreCount(|m.lons|)
      && forall i, j :: 0 <= i < |pr| && 0 <= j < CentreCount(|m.lons|) ==>
           && r.value.mask[i, j] == (pr[i][j] !in pixels)
           && r.value.data[i, j] == (if pr[i][j] in pixels then values[IndexOf(pixels, pr[i][j])] else 0.0)
  {
    var pixRaster := PixRaster(Centres(m), angleToPixel);
    var h, w := CentreCount(|m.lats|), CentreCount(|m.lons|);
    if h == 0 || w == 0 || |pixels| == 0 {
      return Failure(EmptyReduction);
    }
    var data, mask := ResolvePixels(pixels, values, pixRaster, w);
    r := Success(RasterArrays(m, data, mask));
  }

  /**
   * The lookup of healpix_to_xy on a non-empty raster: argsort the pixels,
   * note whether `pix_raster.max() > pixels.max()` (only then can a search run
   * off the end), and resolve every cell.
   */
  method ResolvePixels(pixels: seq<int>, values: seq<real>, pixRaster: seq<seq<int>>, w: nat)
    returns (data: array2<real>, mask: array2<bool>)
    requires Distinct(pixels) && |pixels| > 0 && |values| >= |pixels|
    requires |pixRaster| > 0 && w > 0 && forall i :: 0 <= i < |pixRaster| ==> |pixRaster[i]| == w
    ensures fresh(data) && fresh(mask)
    ensures data.Length0 == mask.Length0 == |pixRaster| && data.Length1 == mask.Length1 == w
    ensures forall i, j :: 0 <= i < |pixRaster| && 0 <= j < w ==>
      CellResolved(data, mask, i, j, pixRaster[i][j], pixels, values)
  {
    var order := SortedOrder(pixels);
    var overflow := GridMax(pixRaster) > IntMax(pixels);
    data, mask := ResolveRaster(pixels, values, order.0, order.1, pixRaster, w, overflow);
  }

  /**
   * The loop of healpix_to_xy over the raster: every cell starts masked and 0,
   * and the cells whose id is found among the pixels are unmasked and given
   * the paired value (numpy's element-wise passes, done cell by cell).
   */
  method ResolveRaster(pixels: seq<int>, values: seq<real>, st: seq<int>, keys: seq<int>,
                       pixRaster: seq<seq<int>>, w: nat, overflow: bool)
    returns (data: array2<real>, mask: array2<bool>)
    requires Distinct(pixels) && |pixels| > 0 && |values| >= |pixels| && SortsPixels(pixels, st, keys)
    requires forall i :: 0 <= i < |pixRaster| ==> |pixRaster[i]| == w
    requires !overflow ==> forall i, j :: 0 <= i < |pixRaster| && 0 <= j < w ==> pixRaster[i][j] <= IntMax(pixels)
    ensures fresh(data) && fresh(mask)
    ensures data.Length0 == mask.Length0 == |pixRaster| && data.Length1 == mask.Length1 == w
    ensures forall i, j :: 0 <= i < |pixRaster| && 0 <= j < w ==>
      CellResolved(data, mask, i, j, pixRaster[i][j], pixels, values)
  {
    var h := |pixRaster|;
    data := new real[h, w]((i, j) => 0.0);
    mask := new bool[h, w]((i, j) => true);
    var i := 0;
    while i < h
      invariant 0 <= i <= h
      invariant forall a, b :: 0 <= a < i && 0 <= b < w ==>
        CellResolved(data, mask, a, b, pixRaster[a][b], pixels, values)
      invariant forall a, b :: i <= a < h && 0 <= b < w ==> mask[a, b] && data[a, b] == 0.0
    {
      ResolveRow(pixels, values, st, keys, pixRaster[i], overflow, data, mask, i);
      i := i + 1;
    }
  }

  /** One row of the raster loop: the cells of row `i` are resolved, the other rows are left alone. */
  method ResolveRow(pixels: seq<int>, values: seq<real>, st: seq<int>, keys: seq<int>,
                    row: seq<int>, overflow: bool, data: array2<real>, mask: array2<bool>, i: nat)
    requires Distinct(pixels) && |pixels| > 0 && |values| >= |pixels| && SortsPixels(pixels, st, keys)
    requires !overflow ==> forall j :: 0 <= j < |row| ==> row[j] <= IntMax(pixels)
    requires data.Length0 == mask.Length0 && i < data.Length0
    requires data.Length1 == mask.Length1 == |row|
    requires forall j :: 0 <= j < |row| ==> mask[i, j] && data[i, j] == 0.0
    modifies data, mask
    ensures forall j :: 0 <= j < |row| ==> CellResolved(data, mask, i, j, row[j], pixels, values)
    ensures forall a, j :: 0 <= a < data.Length0 && a != i && 0 <= j < |row| ==>
      data[a, j] == old(data[a, j]) && mask[a, j] == old(mask[a, j])
  {
    var j := 0;
    while j < |row|
      invariant 0 <= j <= |row|
      invariant forall b :: 0 <= b < j ==> CellResolved(data, mask, i, b, row[b], pixels, values)
      invariant forall b :: j <= b < |row| ==> mask[i, b] && data[i, b] == 0.0
      invariant forall a, b :: 0 <= a < data.Length0 && a != i && 0 <= b < |row| ==>
        data[a, b] == old(data[a, b]) && mask[a, b] == old(mask[a, b])
    {
      var q := row[j];
      var k := MatchPixel(pixels, st, keys, q, overflow);
      if keys[k] == q {
        mask[i, j] := false;
        data[i, j] := values[st[k]];
      }
      j := j + 1;
    }
  }

  // ---------------------------------------------------------------------------
  // healpix_bin
  // ---------------------------------------------------------------------------

  /** `hpg.nside_to_npixel(nside)`: the number of pixels of a map at this resolution. */
  function NPixel(nside: nat): nat {
    12 * nside * nside
  }

  /** `hpg.angle_to_pixel(nside, lon, lat)` over the paired positions. */
  function SamplePixels(lon: seq<real>, lat: seq<real>, angleToPixel: Angle -> int): (pix: seq<int>)
    requires |lat| == |lon|
    ensures |pix| == |lon|
    ensures forall k :: 0 <= k < |lon| ==> pix[k] == angleToPixel(Angle(lon[k], lat[k]))
  {
    seq(|lon|, k requires 0 <= k < |lon| => angleToPixel(Angle(lon[k], lat[k])))
  }

  /** How many samples fall in pixel `p` (`np.add.at(count, pix, 1)`). */
  function Count(pix: seq<int>, p: int): nat {
    if pix == [] then 0
    else Count(pix[..|pix| - 1], p) + (if pix[|pix| - 1] == p then 1 else 0)
  }

  /** The sum of the weights of the samples in pixel `p` (`np.add.at(hpxmap, pix, C)`). */
  function WeightSum(pix: seq<int>, c: seq<real>, p: int): real
    requires |c| == |pix|
  {
    if pix == [] then 0.0
    else WeightSum(pix[..|pix| - 1], c[..|c| - 1], p) + (if pix[|pix| - 1] == p then c[|c| - 1] else 0.0)
  }

  /**
   * The binned value of pixel `p`: UNSEEN where no sample falls, otherwise the
   * number of samples, or the mean of their weights when weights are given.
   */
  function BinValue(pix: seq<int>, c: Option<seq<real>>, p: int): real
    requires c.Some? ==> |c.value| == |pix|
  {
    if Count(pix, p) == 0 then UNSEEN
    else if c.None? then Count(pix, p) as real
    else WeightSum(pix, c.value, p) / Count(pix, p) as real
  }

  /** `np.add.at(count, pix, 1)` on a zeroed array of `npix` counters. */
  method CountSamples(pix: seq<int>, npix: nat) returns (count: array<int>)
    requires forall k :: 0 <= k < |pix| ==> 0 <= pix[k] < npix
    ensures fresh(count)
    ensures count.Length == npix
    ensures forall p :: 0 <= p < npix ==> count[p] == Count(pix, p)
  {
    count := new int[npix](_ => 0);
    var k := 0;
    while k < |pix|
      invariant 0 <= k <= |pix|
      invariant forall p :: 0 <= p < npix ==> count[p] == Count(pix[..k], p)
    {
      assert pix[..k + 1][..k] == pix[..k];
      count[pix[k]] := count[pix[k]] + 1;
      k := k + 1;
    }
    assert pix[..|pix|] == pix;
  }

  /** `np.add.at(hpxmap, pix, C)` on a zeroed array of `npix` sums. */
  method SumWeights(pix: seq<int>, w: seq<real>, npix: nat) returns (sums: array<real>)
    requires |w| == |pix|
    requires forall k :: 0 <= k < |pix| ==> 0 <= pix[k] < npix
    ensures fresh(sums)
    ensures sums.Length == npix
    ensures forall p :: 0 <= p < npix ==> sums[p] == WeightSum(pix, w, p)
  {
    sums := new real[npix](_ => 0.0);
    var k := 0;
    while k < |pix|
      invariant 0 <= k <= |pix|
      invariant forall p :: 0 <= p < npix ==> sums[p] == WeightSum(pix[..k], w[..k], p)
    {
      assert pix[..k + 1][..k] == pix[..k] && w[..k + 1][..k] == w[..k];
      sums[pix[k]] := sums[pix[k]] + w[k];
      k := k + 1;
    }
    assert pix[..|pix|] == pix && w[..|w|] == w;
  }

  /**
   * healpix_bin: a full-sky map of per-pixel sample counts, or of per-pixel
   * mean weights when `c` is given, with UNSEEN in every pixel no sample hits.
   */
  method HealpixBin(lon: seq<real>, lat: seq<real>, c: Option<seq<real>>, nside: nat,
                    angleToPixel: Angle -> int)
    returns (hpxmap: array<real>)
    requires |lat| == |lon|
    requires c.Some? ==> |c.value| == |lon|
    requires forall a :: 0 <= angleToPixel(a) < NPixel(nside)
    ensures fresh(hpxmap)
    ensures hpxmap.Length == NPixel(nside)
    ensures forall p :: 0 <= p < hpxmap.Length ==>
      hpxmap[p] == BinValue(SamplePixels(lon, lat, angleToPixel), c, p)
  {
    var pix := SamplePixels(lon, lat, angleToPixel);
    var npix := NPixel(nside);
    var count := CountSamples(pix, npix);
    if c.Some? {
      hpxmap := SumWeights(pix, c.value, npix);
      DivideByCounts(hpxmap, count, pix, c.value);
    } else {
      // `count.astype(np.float64)`
      hpxmap := new real[npix](q requires 0 <= q < npix reads count => count[q] as real);
    }
    FillUnseen(hpxmap, count, pix, c);
  }

  /** `hpxmap[good] /= count[good]`: each hit pixel's weight sum becomes its mean weight. */
  method DivideByCounts(hpxmap: array<real>, count: array<int>, pix: seq<int>, w: seq<real>)
    requires |w| == |pix| && hpxmap.Length == count.Length
    requires forall q :: 0 <= q < count.Length ==> count[q] == Count(pix, q) && hpxmap[q] == WeightSum(pix, w, q)
    modifies hpxmap
    ensures forall q :: 0 <= q < count.Length && count[q] > 0 ==> hpxmap[q] == BinValue(pix, Some(w), q)
    ensures forall q :: 0 <= q < count.Length && count[q] <= 0 ==> hpxmap[q] == old(hpxmap[q])
  {
    var p := 0;
    while p < hpxmap.Length
      invariant 0 <= p <= hpxmap.Length
      invariant forall q :: 0 <= q < p && count[q] > 0 ==> hpxmap[q] == BinValue(pix, Some(w), q)
      invariant forall q :: 0 <= q < p && count[q] <= 0 ==> hpxmap[q] == old(hpxmap[q])
      invariant forall q :: p <= q < hpxmap.Length ==> hpxmap[q] == WeightSum(pix, w, q)
    {
      if count[p] > 0 {
        hpxmap[p] := hpxmap[p] / count[p] as real;
      }
      p := p + 1;
    }
  }

  /** `hpxmap[~good] = hpg.UNSEEN`: the pixels no sample hits are marked unseen. */
  method FillUnseen(hpxmap: array<real>, count: array<int>, pix: seq<int>, c: Option<seq<real>>)
    requires c.Some? ==> |c.value| == |pix|
    requires hpxmap.Length == count.Length
    requires forall q :: 0 <= q < count.Length ==> count[q] == Count(pix, q)
    requires forall q :: 0 <= q < count.Length && count[q] > 0 ==> hpxmap[q] == BinValue(pix, c, q)
    modifies hpxmap
    ensures forall q :: 0 <= q < hpxmap.Length ==> hpxmap[q] == BinValue(pix, c, q)
  {
    var p := 0;
    while p < hpxmap.Length
      invariant 0 <= p <= hpxmap.Length
      invariant forall q :: 0 <= q < p ==> hpxmap[q] == BinValue(pix, c, q)
      invariant forall q :: p <= q < hpxmap.Length && count[q] > 0 ==> hpxmap[q] == BinValue(pix, c, q)
    {
      if !(count[p] > 0) {
        hpxmap[p] := UNSEEN;
      }
      p := p + 1;
    }
  }

  /** A pixel has a positive count exactly when some sample falls in it. */
  lemma {:induction false} CountPositiveIffSampled(pix: seq<int>, p: int)
    ensures Count(pix, p) > 0 <==> p in pix
  {
    if pix != [] {
      var init := pix[..|pix| - 1];
      CountPositiveIffSampled(init, p);
      assert pix == init + [pix[|pix| - 1]];
    }
  }

  /** Counting is additive over a concatenation of sample lists. */
  lemma {:induction false} CountAppend(a: seq<int>, b: seq<int>, p: int)
    ensures Count(a + b, p) == Count(a, p) + Count(b, p)
  {
    if b != [] {
      var init := b[..|b| - 1];
      CountAppend(a, init, p);
      assert (a + b)[..|a + b| - 1] == a + init;
    } else {
      assert a + b == a;
    }
  }

  /** The counts of the pixels 0 .. n-1 added up. */
  function CountsBelow(pix: seq<int>, n: nat): nat {
    if n == 0 then 0 else CountsBelow(pix, n - 1) + Count(pix, n - 1)
  }

  lemma {:induction false} CountsBelowStep(pix: seq<int>, x: int, n: nat)
    ensures CountsBelow(pix + [x], n) == CountsBelow(pix, n) + (if 0 <= x < n then 1 else 0)
  {
    if n > 0 {
      CountsBelowStep(pix, x, n - 1);
      assert (pix + [x])[..|pix|] == pix;
    }
  }

  /**
   * Binning conserves the samples: when every pixel id is a valid pixel of the
   * map, the per-pixel counts add up to the number of samples.
   */
  lemma {:induction false} CountsConserveSamples(pix: seq<int>, n: nat)
    requires forall k :: 0 <= k < |pix| ==> 0 <= pix[k] < n
    ensures CountsBelow(pix, n) == |pix|
  {
    if pix != [] {
      var init := pix[..|pix| - 1];
      CountsConserveSamples(init, n);
      assert pix == init + [pix[|pix| - 1]];
      CountsBelowStep(init, pix[|pix| - 1], n);
    } else {
      CountsBelowOfEmpty(n);
    }
  }

  lemma {:induction false} CountsBelowOfEmpty(n: nat)
    ensures CountsBelow([], n) == 0
  {
    if n > 0 {
      CountsBelowOfEmpty(n - 1);
    }
  }

  /** Adding one more weight within [lo, hi] keeps the sum within count-many multiples. */
  lemma BoundsGrow(k: real, w: real, x: real, lo: real, hi: real)
    requires BetweenMultiples(k, w, lo, hi) && lo <= x <= hi
    ensures BetweenMultiples(k + 1.0, w + x, lo, hi)
  {
  }

  /** `w` lies between `k` times `lo` and `k` times `hi`. */
  predicate BetweenMultiples(k: real, w: real, lo: real, hi: real) {
    lo * k <= w <= hi * k
  }

  /** The weight sum of a pixel lies between its count times the smallest and the largest weight. */
  lemma {:induction false} WeightSumBounds(pix: seq<int>, c: seq<real>, p: int, lo: real, hi: real)
    requires |c| == |pix|
    requires forall k :: 0 <= k < |pix| && pix[k] == p ==> lo <= c[k] <= hi
    ensures BetweenMultiples(Count(pix, p) as real, WeightSum(pix, c, p), lo, hi)
  {
    if pix != [] {
      var n := |pix| - 1;
      var init, cinit := pix[..n], c[..n];
      WeightSumBounds(init, cinit, p, lo, hi);
      var k0 := Count(init, p) as real;
      var w0 := WeightSum(init, cinit, p);
      if pix[n] == p {
        BoundsGrow(k0, w0, c[n], lo, hi);
      }
    }
  }

  /**
   * With weights, the value of a sampled pixel is the mean of the weights that
   * fall in it, so it lies within their range.
   */
  lemma MeanWithinWeights(pix: seq<int>, c: seq<real>, p: int, lo: real, hi: real)
    requires |c| == |pix| && p in pix
    requires forall k :: 0 <= k < |pix| && pix[k] == p ==> lo <= c[k] <= hi
    ensures lo <= BinValue(pix, Some(c), p) <= hi
  {
    CountPositiveIffSampled(pix, p);
    WeightSumBounds(pix, c, p, lo, hi);
    var n := Count(pix, p) as real;
    var s := WeightSum(pix, c, p);
    assert BinValue(pix, Some(c), p) == s / n;
    DivBetween(s, n, lo, hi);
  }

  /**
   * Without weights, every sampled pixel holds its count and every other
   * pixel is UNSEEN.
   */
  lemma CountMap(pix: seq<int>, p: int)
    ensures p in pix ==> BinValue(pix, None, p) == Count(pix, p) as real >= 1.0
    ensures p !in pix ==> BinValue(pix, None, p) == UNSEEN
  {
    CountPositiveIffSampled(pix, p);
  }
}
