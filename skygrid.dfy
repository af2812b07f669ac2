/**
 * The graticule helper of skyproj (skyproj/skygrid.py): where grid lines
 * cross the plot box, how lines are cut at projection seams, how many grid
 * lines to draw, and the SkyGridHelper cache that rebuilds the grid only when
 * the axis limits change.
 *
 * The projection, its inverse extreme finder, the DMS locators, `arctan2` and
 * `cos` are collaborators passed in as functions (`Collaborators`).
 */
module SkyGrid {
  import opened Wrappers
  import opened Numerics

  /** The exceptions the module raises. */
  datatype Error =
    | NotInitialized   // RuntimeError: get_gridlines before update_lim
    | UnboundLocal     // UnboundLocalError: a default grid count was given
    | NaNToInt         // ValueError: int() of a NaN longitude count

  /** A point of the projected plane. */
  datatype Point = Point(x: real, y: real)

  /** An axis-aligned box with its lower and upper corners. */
  datatype Box = Box(xmin: real, ymin: real, xmax: real, ymax: real)

  /** The sides of a box, in the order the crossing lists are returned. */
  datatype Side = Left | Right | Bottom | Top

  const SIDES: seq<Side> := [Left, Right, Bottom, Top]

  /** The position of a side in `SIDES`. */
  function SideIndex(s: Side): (k: nat)
    ensures k < 4 && SIDES[k] == s
  {
    match s
    case Left => 0
    case Right => 1
    case Bottom => 2
    case Top => 3
  }

  /** Where a polyline crosses a side, and its heading there in degrees. */
  datatype Crossing = Crossing(at: Point, angle: real)

  // ---------------------------------------------------------------------------
  // _find_line_box_crossings
  // ---------------------------------------------------------------------------

  /** Left and right sides bound x ("this" coordinate u); bottom and top bound y. */
  predicate Vertical(s: Side) {
    s.Left? || s.Right?
  }

  /** The coordinate a side bounds. */
  function U(s: Side, p: Point): real {
    if Vertical(s) then p.x else p.y
  }

  /** The coordinate along a side. */
  function V(s: Side, p: Point): real {
    if Vertical(s) then p.y else p.x
  }

  /** The value of the bounded coordinate on the side. */
  function Bound(s: Side, b: Box): real {
    match s
    case Left => b.xmin
    case Right => b.xmax
    case Bottom => b.ymin
    case Top => b.ymax
  }

  function VMin(s: Side, b: Box): real {
    if Vertical(s) then b.ymin else b.xmin
  }

  function VMax(s: Side, b: Box): real {
    if Vertical(s) then b.ymax else b.xmax
  }

  /** The "inside" flag of a point for one side: strictly past the lower bound, or strictly before the upper. */
  predicate Inside(s: Side, b: Box, p: Point) {
    if s.Left? || s.Bottom? then U(s, p) > Bound(s, b) else U(s, p) < Bound(s, b)
  }

  /** A segment crosses the line of a side when its endpoints differ in the inside flag. */
  predicate Flips(s: Side, b: Box, p: Point, q: Point) {
    Inside(s, b, p) != Inside(s, b, q)
  }

  /** A flip puts the bound between the endpoints' u, and the endpoints' u apart. */
  lemma FlipBrackets(s: Side, b: Box, p: Point, q: Point)
    requires Flips(s, b, p, q)
    ensures U(s, p) != U(s, q)
    ensures U(s, p) <= Bound(s, b) <= U(s, q) || U(s, q) <= Bound(s, b) <= U(s, p)
  {
  }

  /** The v at which the segment p-q meets the side's line, by linear interpolation. */
  function InterpV(s: Side, b: Box, p: Point, q: Point): real
    requires Flips(s, b, p, q)
  {
    FlipBrackets(s, b, p, q);
    V(s, p) + (Bound(s, b) - U(s, p)) * (V(s, q) - V(s, p)) / (U(s, q) - U(s, p))
  }

  /** The point (u0, v) in (x, y) order. */
  function Place(s: Side, u0: real, v: real): (p: Point)
    ensures U(s, p) == u0 && V(s, p) == v
  {
    if Vertical(s) then Point(u0, v) else Point(v, u0)
  }

  /**
   * The crossing one segment contributes to a side's list: none unless the
   * inside flag flips, and none when the interpolated v falls outside
   * [vmin, vmax]; `heading(dx, dy)` is the segment's direction in degrees.
   */
  function SegmentCrossing(s: Side, b: Box, p: Point, q: Point, heading: (real, real) -> real): Option<Crossing> {
    if !Flips(s, b, p, q) then None
    else
      var v := InterpV(s, b, p, q);
      if !(VMin(s, b) <= v <= VMax(s, b)) then None
      else Some(Crossing(Place(s, Bound(s, b), v), heading(q.x - p.x, q.y - p.y)))
  }

  /** The crossings of the first `k` segments of a polyline with one side, in segment order. */
  function CrossingsUpTo(xys: seq<Point>, s: Side, b: Box, heading: (real, real) -> real, k: nat): (r: seq<Crossing>)
    requires k < |xys|
    ensures |r| <= k
  {
    if k == 0 then []
    else
      var prev := CrossingsUpTo(xys, s, b, heading, k - 1);
      match SegmentCrossing(s, b, xys[k - 1], xys[k], heading)
      case None => prev
      case Some(c) => prev + [c]
  }

  /** The crossing list of one side; a polyline of fewer than two points has none. */
  function SideCrossings(xys: seq<Point>, s: Side, b: Box, heading: (real, real) -> real): (r: seq<Crossing>)
    ensures |xys| < 2 ==> r == []
    ensures |r| < |xys| || r == []
  {
    if |xys| < 2 then [] else CrossingsUpTo(xys, s, b, heading, |xys| - 1)
  }

  /**
   * _find_line_box_crossings: four crossing lists, for the left, right,
   * bottom and top sides in that order, each built segment by segment.
   */
  method FindLineBoxCrossings(xys: seq<Point>, b: Box, heading: (real, real) -> real)
    returns (crossings: seq<seq<Crossing>>)
    ensures |crossings| == 4
    ensures forall s :: crossings[SideIndex(s)] == SideCrossings(xys, s, b, heading)
  {
    crossings := [];
    var nseg := if |xys| < 2 then 0 else |xys| - 1;
    while |crossings| < 4
      invariant |crossings| <= 4
      invariant forall j :: 0 <= j < |crossings| ==> crossings[j] == SideCrossings(xys, SIDES[j], b, heading)
    {
      var side := SIDES[|crossings|];
      var cross := [];
      var idx := 0;
      while idx < nseg
        invariant 0 <= idx <= nseg
        invariant nseg > 0 ==> cross == CrossingsUpTo(xys, side, b, heading, idx)
        invariant nseg == 0 ==> cross == []
      {
        var p, q := xys[idx], xys[idx + 1];
        if Flips(side, b, p, q) {
          var v := InterpV(side, b, p, q);
          if VMin(side, b) <= v <= VMax(side, b) {
            cross := cross + [Crossing(Place(side, Bound(side, b), v), heading(q.x - p.x, q.y - p.y))];
          }
        }
        idx := idx + 1;
      }
      crossings := crossings + [cross];
    }
    forall s ensures crossings[SideIndex(s)] == SideCrossings(xys, s, b, heading) {
      var k := SideIndex(s);
    }
  }

  /** Numbers between 0 and 1 scale a difference to no more than itself. */
  lemma ScaledBetween(t: real, d: real)
    requires 0.0 <= t <= 1.0
    ensures Min(0.0, d) <= t * d <= Max(0.0, d)
  {
    if d >= 0.0 {
      MulMonotone(t, 1.0, d);
    } else {
      MulMonotone(t, 1.0, -d);
    }
  }

  /** The fraction of the way from a to b at which c lies, for c between them. */
  lemma FractionBetween(a: real, b: real, c: real)
    requires a != b
    requires a <= c <= b || b <= c <= a
    ensures 0.0 <= (c - a) / (b - a) <= 1.0
  {
    if a < b {
      DivBetween(c - a, b - a, 0.0, 1.0);
    } else {
      assert (c - a) / (b - a) == (a - c) / (a - b);
      DivBetween(a - c, a - b, 0.0, 1.0);
    }
  }

  /** Linear interpolation at a u between two distinct u's gives a v between their v's. */
  lemma LerpBetween(up: real, uq: real, vp: real, vq: real, u0: real)
    requires up != uq
    requires up <= u0 <= uq || uq <= u0 <= up
    ensures Min(vp, vq) <= vp + (u0 - up) * (vq - vp) / (uq - up) <= Max(vp, vq)
  {
    var t := (u0 - up) / (uq - up);
    FractionBetween(up, uq, u0);
    assert (u0 - up) * (vq - vp) / (uq - up) == t * (vq - vp);
    ScaledBetween(t, vq - vp);
  }

  /** The interpolated v lies between the v of the segment's two endpoints. */
  lemma InterpBetweenEndpoints(s: Side, b: Box, p: Point, q: Point)
    requires Flips(s, b, p, q)
    ensures Min(V(s, p), V(s, q)) <= InterpV(s, b, p, q) <= Max(V(s, p), V(s, q))
  {
    FlipBrackets(s, b, p, q);
    var up, uq, vp, vq := U(s, p), U(s, q), V(s, p), V(s, q);
    var u0 := Bound(s, b);
    var w := vp + (u0 - up) * (vq - vp) / (uq - up);
    assert InterpV(s, b, p, q) == w;
    LerpBetween(up, uq, vp, vq, u0);
    assert Min(vp, vq) <= w <= Max(vp, vq);
  }

  /** What a segment's crossing is: on the side's line, within its extent, between the endpoints. */
  lemma SegmentCrossingFacts(s: Side, b: Box, p: Point, q: Point, heading: (real, real) -> real, c: Crossing)
    requires SegmentCrossing(s, b, p, q, heading) == Some(c)
    ensures Flips(s, b, p, q)
    ensures U(s, c.at) == Bound(s, b)
    ensures VMin(s, b) <= V(s, c.at) <= VMax(s, b)
    ensures Min(V(s, p), V(s, q)) <= V(s, c.at) <= Max(V(s, p), V(s, q))
    ensures c.angle == heading(q.x - p.x, q.y - p.y)
  {
    InterpBetweenEndpoints(s, b, p, q);
  }

  /**
   * A crossing is in a side's list exactly when some segment of the polyline
   * yields it.
   */
  lemma {:induction false} CrossingsUpToExactly(xys: seq<Point>, s: Side, b: Box, heading: (real, real) -> real,
                                                k: nat, c: Crossing)
    requires k < |xys|
    ensures c in CrossingsUpTo(xys, s, b, heading, k) <==>
      exists i :: 0 <= i < k && SegmentCrossing(s, b, xys[i], xys[i + 1], heading) == Some(c)
  {
    if k > 0 {
      var prev := CrossingsUpTo(xys, s, b, heading, k - 1);
      CrossingsUpToExactly(xys, s, b, heading, k - 1, c);
      match SegmentCrossing(s, b, xys[k - 1], xys[k], heading)
      case None =>
        assert CrossingsUpTo(xys, s, b, heading, k) == prev;
      case Some(d) =>
        assert CrossingsUpTo(xys, s, b, heading, k) == prev + [d];
        assert c in prev + [d] <==> c in prev || c == d;
    }
  }

  /**
   * Every crossing in a side's list lies on that side's line, within the
   * side's extent, and comes from a segment whose endpoints flip the inside
   * flag and bracket its v; and every such segment contributes its crossing.
   */
  lemma CrossingsLieOnSide(xys: seq<Point>, s: Side, b: Box, heading: (real, real) -> real, c: Crossing)
    ensures c in SideCrossings(xys, s, b, heading) <==>
      exists i :: 0 <= i < |xys| - 1 && SegmentCrossing(s, b, xys[i], xys[i + 1], heading) == Some(c)
    ensures c in SideCrossings(xys, s, b, heading) ==>
      && U(s, c.at) == Bound(s, b)
      && VMin(s, b) <= V(s, c.at) <= VMax(s, b)
      && exists i :: 0 <= i < |xys| - 1 && Flips(s, b, xys[i], xys[i + 1])
           && Min(V(s, xys[i]), V(s, xys[i + 1])) <= V(s, c.at) <= Max(V(s, xys[i]), V(s, xys[i + 1]))
  {
    if |xys| >= 2 {
      CrossingsUpToExactly(xys, s, b, heading, |xys| - 1, c);
      if c in SideCrossings(xys, s, b, heading) {
        var i :| 0 <= i < |xys| - 1 && SegmentCrossing(s, b, xys[i], xys[i + 1], heading) == Some(c);
        SegmentCrossingFacts(s, b, xys[i], xys[i + 1], heading, c);
      }
    }
  }

  // ---------------------------------------------------------------------------
  // _cut_grid_line_jumps
  // ---------------------------------------------------------------------------

  /** A vertex of a drawn grid line: a point, or the NaN gap that breaks the line. */
  datatype Vertex = At(p: Point) | Gap

  /**
   * `np.hypot(dx, dy) > delta_cut`, compared without the square root: the
   * distance is never negative, so a negative cut makes every step long.
   */
  predicate LongStep(p: Point, q: Point, deltaCut: real) {
    deltaCut < 0.0 || (q.x - p.x) * (q.x - p.x) + (q.y - p.y) * (q.y - p.y) > deltaCut * deltaCut
  }

  /** The number of long steps between consecutive points. */
  function JumpCount(line: seq<Point>, deltaCut: real): nat {
    if |line| < 2 then 0
    else (if LongStep(line[0], line[1], deltaCut) then 1 else 0) + JumpCount(line[1..], deltaCut)
  }

  /** A line drawn as it is. */
  function Lift(line: seq<Point>): (r: seq<Vertex>)
    ensures |r| == |line|
    ensures forall k :: 0 <= k < |line| ==> r[k] == At(line[k])
  {
    seq(|line|, k requires 0 <= k < |line| => At(line[k]))
  }

  /** The line with a gap inserted after point `i` for every long step `i`. */
  function InsertGaps(line: seq<Point>, deltaCut: real): seq<Vertex> {
    if |line| < 2 then Lift(line)
    else StepHead(line[0], line[1], deltaCut) + InsertGaps(line[1..], deltaCut)
  }

  /** A point of the cut line, followed by a gap when the step to the next point is long. */
  function StepHead(p: Point, q: Point, deltaCut: real): (h: seq<Vertex>)
    ensures StripGaps(h) == [p]
    ensures 1 <= |h| <= 2 && h[0] == At(p)
    ensures |h| == 2 <==> LongStep(p, q, deltaCut)
    ensures |h| == 2 ==> h[1] == Gap
  {
    var h := if LongStep(p, q, deltaCut) then [At(p), Gap] else [At(p)];
    StripHead(p, h);
    h
  }

  /** The points of a drawn line, with its gaps dropped. */
  function StripGaps(vs: seq<Vertex>): seq<Point> {
    if vs == [] then []
    else (if vs[0].At? then [vs[0].p] else []) + StripGaps(vs[1..])
  }

  /**
   * _cut_grid_line_jumps: the line itself when no step is longer than the cut,
   * otherwise the line with a gap after every long step. Either way the output
   * has one vertex more per long step, and dropping the gaps gives back the line.
   */
  function CutGridLineJumps(line: seq<Point>, deltaCut: real): (r: seq<Vertex>)
    ensures |r| == |line| + JumpCount(line, deltaCut)
    ensures StripGaps(r) == line
    ensures JumpCount(line, deltaCut) == 0 ==> r == Lift(line)
  {
    InsertGapsLength(line, deltaCut);
    StripInsertGaps(line, deltaCut);
    StripLift(line);
    if JumpCount(line, deltaCut) == 0 then Lift(line) else InsertGaps(line, deltaCut)
  }

  lemma {:induction false} InsertGapsLength(line: seq<Point>, deltaCut: real)
    ensures |InsertGaps(line, deltaCut)| == |line| + JumpCount(line, deltaCut)
  {
    if |line| >= 2 {
      InsertGapsLength(line[1..], deltaCut);
    }
  }

  lemma {:induction false} StripAppend(a: seq<Vertex>, b: seq<Vertex>)
    ensures StripGaps(a + b) == StripGaps(a) + StripGaps(b)
  {
    if a != [] {
      StripAppend(a[1..], b);
      assert (a + b)[1..] == a[1..] + b;
    } else {
      assert a + b == b;
    }
  }

  lemma {:induction false} StripLift(line: seq<Point>)
    ensures StripGaps(Lift(line)) == line
  {
    if line != [] {
      StripLift(line[1..]);
      assert Lift(line)[1..] == Lift(line[1..]);
    }
  }

  /** Dropping the gaps from a cut line restores the line. */
  lemma {:induction false} StripInsertGaps(line: seq<Point>, deltaCut: real)
    ensures StripGaps(InsertGaps(line, deltaCut)) == line
  {
    if |line| < 2 {
      StripLift(line);
    } else {
      var rest := InsertGaps(line[1..], deltaCut);
      StripInsertGaps(line[1..], deltaCut);
      var head := StepHead(line[0], line[1], deltaCut);
      StripAppend(head, rest);
      assert line == [line[0]] + line[1..];
    }
  }

  lemma StripHead(p: Point, head: seq<Vertex>)
    requires head == [At(p), Gap] || head == [At(p)]
    ensures StripGaps(head) == [p]
  {
    if head == [At(p)] {
      assert head[1..] == [];
    } else {
      assert head[1..] == [Gap];
      assert head[1..][1..] == [];
      assert StripGaps(head[1..]) == [];
    }
  }

  /** Without long steps no gap is inserted, so the early return agrees with the insertion. */
  lemma {:induction false} NoJumpsNoGaps(line: seq<Point>, deltaCut: real)
    requires JumpCount(line, deltaCut) == 0
    ensures InsertGaps(line, deltaCut) == Lift(line)
  {
    if |line| >= 2 {
      NoJumpsNoGaps(line[1..], deltaCut);
      assert Lift(line) == [At(line[0])] + Lift(line[1..]);
    }
  }

  /** Every gap sits strictly inside the line, between two points a long step apart. */
  predicate GapsBetweenLongSteps(r: seq<Vertex>, deltaCut: real) {
    forall k :: 0 <= k < |r| && r[k].Gap? ==>
      0 < k < |r| - 1 && r[k - 1].At? && r[k + 1].At? && LongStep(r[k - 1].p, r[k + 1].p, deltaCut)
  }

  /** Two points adjacent in the drawn line are a short step apart. */
  predicate AdjacentPointsClose(r: seq<Vertex>, deltaCut: real) {
    forall k :: 0 <= k < |r| - 1 && r[k].At? && r[k + 1].At? ==> !LongStep(r[k].p, r[k + 1].p, deltaCut)
  }

  lemma {:induction false} InsertGapsEnds(line: seq<Point>, deltaCut: real)
    requires |line| > 0
    ensures var r := InsertGaps(line, deltaCut);
      |r| > 0 && r[0] == At(line[0]) && r[|r| - 1] == At(line[|line| - 1])
  {
    if |line| >= 2 {
      InsertGapsEnds(line[1..], deltaCut);
    }
  }

  /**
   * Gaps sit exactly at the long steps of the cut line: each gap separates two
   * points a long step apart, and points left adjacent are a short step apart.
   */
  lemma CutLineGapsAtLongSteps(line: seq<Point>, deltaCut: real)
    ensures GapsBetweenLongSteps(CutGridLineJumps(line, deltaCut), deltaCut)
    ensures AdjacentPointsClose(CutGridLineJumps(line, deltaCut), deltaCut)
  {
    InsertedGapsBetweenLongSteps(line, deltaCut);
    InsertedPointsClose(line, deltaCut);
    if JumpCount(line, deltaCut) == 0 {
      NoJumpsNoGaps(line, deltaCut);
    }
  }

  lemma {:induction false} InsertedGapsBetweenLongSteps(line: seq<Point>, deltaCut: real)
    ensures GapsBetweenLongSteps(InsertGaps(line, deltaCut), deltaCut)
  {
    if |line| >= 2 {
      var rest := InsertGaps(line[1..], deltaCut);
      InsertedGapsBetweenLongSteps(line[1..], deltaCut);
      InsertGapsEnds(line[1..], deltaCut);
      var h := StepHead(line[0], line[1], deltaCut);
      var off := |h|;
      var r := InsertGaps(line, deltaCut);
      assert r == h + rest;
      forall k | 0 <= k < |r| && r[k].Gap?
        ensures 0 < k < |r| - 1 && r[k - 1].At? && r[k + 1].At? && LongStep(r[k - 1].p, r[k + 1].p, deltaCut)
      {
        if k >= off {
          assert rest[k - off].Gap?;
        }
      }
    }
  }

  lemma {:induction false} InsertedPointsClose(line: seq<Point>, deltaCut: real)
    ensures AdjacentPointsClose(InsertGaps(line, deltaCut), deltaCut)
  {
    if |line| >= 2 {
      var rest := InsertGaps(line[1..], deltaCut);
      InsertedPointsClose(line[1..], deltaCut);
      InsertGapsEnds(line[1..], deltaCut);
      var h := StepHead(line[0], line[1], deltaCut);
      var off := |h|;
      var r := InsertGaps(line, deltaCut);
      assert r == h + rest;
      forall k | 0 <= k < |r| - 1 && r[k].At? && r[k + 1].At?
        ensures !LongStep(r[k].p, r[k + 1].p, deltaCut)
      {
        if k >= off {
          assert r[k] == rest[k - off] && r[k + 1] == rest[k + 1 - off];
        }
      }
    }
  }

  // ---------------------------------------------------------------------------
  // _compute_n_grid_from_extent
  // ---------------------------------------------------------------------------

  /** An extent, or the extremes of a view: [lon_min, lon_max, lat_min, lat_max]. */
  datatype Extent = Extent(lonMin: real, lonMax: real, latMin: real, latMax: real)

  /** The number of latitude lines when no count is requested. */
  const N_GRID_LAT: int := 6

  /**
   * `np.clip(num / den, 1/3, 5/3)` in float64: a zero `den` gives +inf or
   * -inf, clipped to 5/3 or 1/3, or NaN (None here) when `num` is zero too.
   */
  function ClippedRatio(num: real, den: real): (r: Option<real>)
    ensures r.None? <==> num == 0.0 && den == 0.0
    ensures r.Some? ==> 1.0 / 3.0 <= r.value <= 5.0 / 3.0
    ensures den != 0.0 ==> r == Some(Clip(num / den, 1.0 / 3.0, 5.0 / 3.0))
    ensures den == 0.0 && num > 0.0 ==> r == Some(5.0 / 3.0)
    ensures den == 0.0 && num < 0.0 ==> r == Some(1.0 / 3.0)
  {
    if den != 0.0 then Some(Clip(num / den, 1.0 / 3.0, 5.0 / 3.0))
    else if num > 0.0 then Some(5.0 / 3.0)
    else if num < 0.0 then Some(1.0 / 3.0)
    else None
  }

  /** The cosine-foreshortened longitude span of an extent. */
  function LonSpan(extent: Extent, cosDeg: real -> real): real {
    Abs(extent.lonMax - extent.lonMin) * cosDeg((extent.latMin + extent.latMax) / 2.0)
  }

  /**
   * _compute_n_grid_from_extent: 6 latitude lines, and longitude lines in
   * proportion to the extent's aspect (longitude span foreshortened by the cosine
   * of the mid latitude, over the latitude span), clipped to [1/3, 5/3] of 6.
   * A requested count leaves one of the results unassigned, which raises.
   */
  function ComputeNGridFromExtent(extent: Extent, nGridLatDefault: Option<int>, nGridLonDefault: Option<int>,
                                  cosDeg: real -> real): (r: Result<(int, int), Error>)
    ensures nGridLatDefault.Some? || nGridLonDefault.Some? ==> r == Failure(UnboundLocal)
    ensures r.Success? ==> r.value.1 == N_GRID_LAT && 2 <= r.value.0 <= 10
  {
    if nGridLatDefault.Some? || nGridLonDefault.Some? then Failure(UnboundLocal)
    else
      var ratio := ClippedRatio(LonSpan(extent, cosDeg), extent.latMax - extent.latMin);
      if ratio.None? then Failure(NaNToInt)
      else Success((Ceil(ratio.value * N_GRID_LAT as real), N_GRID_LAT))
  }

  function Abs(x: real): real {
    if x < 0.0 then -x else x
  }

  /**
   * The longitude count follows the aspect of the extent: 2 when it is at most
   * 1/3, 10 when it is at least 5/3, and in between the least count covering
   * 6 times the aspect.
   */
  lemma NGridLonFollowsAspect(extent: Extent, cosDeg: real -> real)
    requires extent.latMax != extent.latMin
    ensures var r := ComputeNGridFromExtent(extent, None, None, cosDeg);
      var aspect := LonSpan(extent, cosDeg) / (extent.latMax - extent.latMin);
      && r.Success? && r.value.1 == 6
      && (aspect <= 1.0 / 3.0 ==> r.value.0 == 2)
      && (aspect >= 5.0 / 3.0 ==> r.value.0 == 10)
      && (1.0 / 3.0 <= aspect <= 5.0 / 3.0 ==> aspect * 6.0 <= r.value.0 as real < aspect * 6.0 + 1.0)
  {
    var aspect := LonSpan(extent, cosDeg) / (extent.latMax - extent.latMin);
    var cl := Clip(aspect, 1.0 / 3.0, 5.0 / 3.0);
    assert ClippedRatio(LonSpan(extent, cosDeg), extent.latMax - extent.latMin) == Some(cl);
    var n := Ceil(cl * N_GRID_LAT as real);
    assert ComputeNGridFromExtent(extent, None, None, cosDeg) == Success((n, N_GRID_LAT));
    if aspect <= 1.0 / 3.0 {
      assert cl * 6.0 == 2.0;
    } else if aspect >= 5.0 / 3.0 {
      assert cl * 6.0 == 10.0;
    }
  }

  /**
   * A flat extent (zero latitude span) divides by zero in float64: a positive
   * span gives the most longitude lines, a negative one the fewest, and a zero
   * span a NaN count, which raises.
   */
  lemma NGridFlatExtent(extent: Extent, cosDeg: real -> real)
    requires extent.latMax == extent.latMin
    ensures var r := ComputeNGridFromExtent(extent, None, None, cosDeg);
      var span := LonSpan(extent, cosDeg);
      && (span > 0.0 ==> r == Success((10, 6)))
      && (span < 0.0 ==> r == Success((2, 6)))
      && (span == 0.0 ==> r == Failure(NaNToInt))
  {
    var span := LonSpan(extent, cosDeg);
    if span > 0.0 {
      assert ClippedRatio(span, 0.0) == Some(5.0 / 3.0);
      assert 5.0 / 3.0 * 6.0 == 10.0;
    } else if span < 0.0 {
      assert ClippedRatio(span, 0.0) == Some(1.0 / 3.0);
      assert 1.0 / 3.0 * 6.0 == 2.0;
    }
  }

  /** Only the all-defaults call returns, and then it fails only on a zero-by-zero ratio. */
  lemma NGridFailsOnlyOnOverrideOrNaN(extent: Extent, nGridLatDefault: Option<int>, nGridLonDefault: Option<int>,
                                      cosDeg: real -> real)
    ensures ComputeNGridFromExtent(extent, nGridLatDefault, nGridLonDefault, cosDeg).Failure? <==>
      || nGridLatDefault.Some? || nGridLonDefault.Some?
      || (extent.latMax == extent.latMin &&
          Abs(extent.lonMax - extent.lonMin) * cosDeg((extent.latMin + extent.latMax) / 2.0) == 0.0)
  {
  }

  // ---------------------------------------------------------------------------
  // _get_raw_grid_lines
  // ---------------------------------------------------------------------------

  /** The number of samples along each raw grid line. */
  const N_SAMPLES: nat := 100

  /**
   * _get_raw_grid_lines: a meridian per longitude value, sampled at 100
   * latitudes from lat_min to lat_max, and a parallel per latitude value,
   * sampled at 100 longitudes from lon_min to lon_max, each point projected
   * by `transform(lon, lat)`.
   */
  function GetRawGridLines(lonValues: seq<real>, latValues: seq<real>, ext: Extent,
                           transform: (real, real) -> Point): (r: (seq<seq<Point>>, seq<seq<Point>>))
    ensures |r.0| == |lonValues| && |r.1| == |latValues|
  {
    var lonsI := Linspace(ext.lonMin, ext.lonMax, N_SAMPLES);
    var latsI := Linspace(ext.latMin, ext.latMax, N_SAMPLES);
    (seq(|lonValues|, i requires 0 <= i < |lonValues| =>
       seq(N_SAMPLES, k requires 0 <= k < N_SAMPLES => transform(lonValues[i], latsI[k]))),
     seq(|latValues|, i requires 0 <= i < |latValues| =>
       seq(N_SAMPLES, k requires 0 <= k < N_SAMPLES => transform(lonsI[k], latValues[i]))))
  }

  /**
   * Each meridian runs at its own longitude from lat_min to lat_max, and each
   * parallel at its own latitude from lon_min to lon_max: every point is the
   * projection of a position inside the extremes, and the ends are the extremes.
   */
  lemma RawGridLinesFollowGraticule(lonValues: seq<real>, latValues: seq<real>, ext: Extent,
                                    transform: (real, real) -> Point)
    requires ext.lonMin <= ext.lonMax && ext.latMin <= ext.latMax
    ensures var (lonLines, latLines) := GetRawGridLines(lonValues, latValues, ext, transform);
      && (forall i :: 0 <= i < |lonValues| ==>
            && |lonLines[i]| == N_SAMPLES
            && lonLines[i][0] == transform(lonValues[i], ext.latMin)
            && lonLines[i][N_SAMPLES - 1] == transform(lonValues[i], ext.latMax)
            && forall k :: 0 <= k < N_SAMPLES ==>
                 exists lat :: ext.latMin <= lat <= ext.latMax && lonLines[i][k] == transform(lonValues[i], lat))
      && (forall i :: 0 <= i < |latValues| ==>
            && |latLines[i]| == N_SAMPLES
            && latLines[i][0] == transform(ext.lonMin, latValues[i])
            && latLines[i][N_SAMPLES - 1] == transform(ext.lonMax, latValues[i])
            && forall k :: 0 <= k < N_SAMPLES ==>
                 exists lon :: ext.lonMin <= lon <= ext.lonMax && latLines[i][k] == transform(lon, latValues[i]))
  {
    var lonsI := Linspace(ext.lonMin, ext.lonMax, N_SAMPLES);
    var latsI := Linspace(ext.latMin, ext.latMax, N_SAMPLES);
    forall k | 0 <= k < N_SAMPLES
      ensures ext.latMin <= latsI[k] <= ext.latMax && ext.lonMin <= lonsI[k] <= ext.lonMax
    {
      LinspaceWithin(ext.latMin, ext.latMax, N_SAMPLES, k);
      LinspaceWithin(ext.lonMin, ext.lonMax, N_SAMPLES, k);
    }
  }

  // ---------------------------------------------------------------------------
  // get_grid_info
  // ---------------------------------------------------------------------------

  /** The axis limits (x1, x2, y1, y2) as get_xlim and get_ylim give them. */
  datatype Limits = Limits(x1: real, x2: real, y1: real, y2: real)

  /** The `1 + 2e-10` factor by which the tick box is widened. */
  const EXPAND: real := 1.0000000002

  /**
   * `Bbox.from_extents(x1, y1, x2, y2).expanded(f, f)` seen through its
   * `min`/`max` corners: each side moves out by (f-1)/2 of the width or height.
   */
  function ExpandedBox(lim: Limits): (b: Box)
    ensures b.xmin <= Min(lim.x1, lim.x2) && Max(lim.x1, lim.x2) <= b.xmax
    ensures b.ymin <= Min(lim.y1, lim.y2) && Max(lim.y1, lim.y2) <= b.ymax
  {
    var w := lim.x2 - lim.x1;
    var h := lim.y2 - lim.y1;
    var dw := (EXPAND * w - w) / 2.0;
    var dh := (EXPAND * h - h) / 2.0;
    var x0, x1 := lim.x1 - dw, lim.x2 + dw;
    var y0, y1 := lim.y1 - dh, lim.y2 + dh;
    Box(Min(x0, x1), Min(y0, y1), Max(x0, x1), Max(y0, y1))
  }

  /** An `angle_helper.LocatorD(n, include_last=...)`. */
  datatype Locator = LocatorD(n: int, includeLast: bool)

  /** A positive tick scale factor. */
  type PosReal = r: real | r > 0.0 witness 1.0

  /** What a locator call returns: the levels, how many of them to use, and their scale. */
  datatype Levels = Levels(levs: seq<real>, n: int, factor: PosReal)

  /**
   * The code outside this module that the helper calls: the projection
   * `(lon, lat) -> (x, y)`, the extreme finder over the inverse projection,
   * a locator call `locator(vmin, vmax)`, the heading `degrees(arctan2(dy, dx))`
   * given (dx, dy), and `cos(deg2rad(.))`.
   */
  datatype Collaborators = Collaborators(
    transform: (real, real) -> Point,
    extremes: Limits -> Extent,
    locate: (Locator, real, real) -> Levels,
    heading: (real, real) -> real,
    cosDeg: real -> real)

  /** Python's `s[:n]`: a negative `n` counts from the end. */
  function PyPrefix(s: seq<real>, n: int): (r: seq<real>)
    ensures r <= s
    ensures 0 <= n <= |s| ==> |r| == n
    ensures n > |s| ==> r == s
    ensures -|s| <= n < 0 ==> |r| == |s| + n
    ensures n < -|s| ==> r == []
  {
    if n >= 0 then s[..if n <= |s| then n else |s|] else s[..if |s| + n >= 0 then |s| + n else 0]
  }

  /** `levs[:n] / factor`: the values the grid lines are drawn at. */
  function LevelValues(l: Levels): (vs: seq<real>)
    ensures |vs| <= |l.levs|
    ensures |vs| == |PyPrefix(l.levs, l.n)|
    ensures forall i :: 0 <= i < |vs| ==> vs[i] == PyPrefix(l.levs, l.n)[i] / l.factor
    ensures forall i :: 0 <= i < |vs| ==> vs[i] * l.factor == l.levs[i]
  {
    var p := PyPrefix(l.levs, l.n);
    seq(|p|, i requires 0 <= i < |p| => p[i] / l.factor)
  }

  /** A tick: the level of its grid line, where it crosses the box, and its label once set. */
  datatype Tick = Tick(level: real, loc: Crossing, text: Option<string>)

  /** The label every tick receives. */
  const LABEL: string := "lab"

  const ALL_SIDES: set<Side> := {Left, Right, Bottom, Top}

  /** A line's crossings with one side, as unlabelled ticks at that line's level. */
  function TicksAt(level: real, cs: seq<Crossing>): (ts: seq<Tick>)
    ensures |ts| == |cs|
    ensures forall k :: 0 <= k < |cs| ==> ts[k] == Tick(level, cs[k], None)
  {
    seq(|cs|, k requires 0 <= k < |cs| => Tick(level, cs[k], None))
  }

  /** The ticks of one side from the first `n` lines, line by line. */
  function SideTicks(lines: seq<seq<Point>>, levs: seq<real>, b: Box, heading: (real, real) -> real,
                     s: Side, n: nat): seq<Tick>
    requires n <= |lines| && n <= |levs|
  {
    if n == 0 then []
    else SideTicks(lines, levs, b, heading, s, n - 1) + TicksAt(levs[n - 1], SideCrossings(lines[n - 1], s, b, heading))
  }

  /** Every tick of a list given the label. */
  function Labelled(ts: seq<Tick>): (r: seq<Tick>)
    ensures |r| == |ts|
    ensures forall k :: 0 <= k < |ts| ==> r[k] == ts[k].(text := Some(LABEL))
  {
    seq(|ts|, k requires 0 <= k < |ts| => ts[k].(text := Some(LABEL)))
  }

  /** `zip(lines, values, levs)` runs over the shorter of the lines and the levels. */
  function ZipLength(lines: seq<seq<Point>>, levs: seq<real>): nat {
    if |lines| <= |levs| then |lines| else |levs|
  }

  /** The tick map of one coordinate: every side's labelled ticks, over all lines. */
  function TicksFor(lines: seq<seq<Point>>, levs: seq<real>, b: Box, heading: (real, real) -> real)
    : (m: map<Side, seq<Tick>>)
    ensures m.Keys == ALL_SIDES
    ensures forall s :: s in m ==> m[s] == Labelled(SideTicks(lines, levs, b, heading, s, ZipLength(lines, levs)))
  {
    map s | s in ALL_SIDES :: Labelled(SideTicks(lines, levs, b, heading, s, ZipLength(lines, levs)))
  }

  /**
   * Each tick is filed under the side it crosses: it lies on that side's line
   * within the box's extent, carries the level of a line that crosses the side
   * there, and is labelled.
   */
  lemma {:induction false} SideTicksOnTheirSide(lines: seq<seq<Point>>, levs: seq<real>, b: Box,
                                                heading: (real, real) -> real, s: Side, n: nat, t: Tick)
    requires n <= |lines| && n <= |levs|
    requires t in SideTicks(lines, levs, b, heading, s, n)
    ensures t.text.None?
    ensures U(s, t.loc.at) == Bound(s, b) && VMin(s, b) <= V(s, t.loc.at) <= VMax(s, b)
    ensures exists i :: 0 <= i < n && t.level == levs[i] && t.loc in SideCrossings(lines[i], s, b, heading)
  {
    var prev := SideTicks(lines, levs, b, heading, s, n - 1);
    if t in prev {
      SideTicksOnTheirSide(lines, levs, b, heading, s, n - 1, t);
    } else {
      var cs := SideCrossings(lines[n - 1], s, b, heading);
      var k :| 0 <= k < |cs| && TicksAt(levs[n - 1], cs)[k] == t;
      CrossingsLieOnSide(lines[n - 1], s, b, heading, cs[k]);
    }
  }

  /** Every tick in the tick map of a coordinate is on its side, from one of its lines, and labelled. */
  lemma TicksFiledUnderTheirSide(lines: seq<seq<Point>>, levs: seq<real>, b: Box,
                                 heading: (real, real) -> real, s: Side, t: Tick)
    requires t in TicksFor(lines, levs, b, heading)[s]
    ensures t.text == Some(LABEL)
    ensures U(s, t.loc.at) == Bound(s, b) && VMin(s, b) <= V(s, t.loc.at) <= VMax(s, b)
    ensures exists i :: 0 <= i < |lines| && i < |levs| && t.level == levs[i]
                        && t.loc in SideCrossings(lines[i], s, b, heading)
  {
    var n := ZipLength(lines, levs);
    var raw := SideTicks(lines, levs, b, heading, s, n);
    var k :| 0 <= k < |raw| && Labelled(raw)[k] == t;
    SideTicksOnTheirSide(lines, levs, b, heading, s, n, raw[k]);
  }

  /** Each crossing of a line with a side gives one tick there, at that line's level. */
  lemma CrossingGivesTick(lines: seq<seq<Point>>, levs: seq<real>, b: Box,
                          heading: (real, real) -> real, s: Side, i: nat, c: Crossing)
    requires i < |lines| && i < |levs|
    requires c in SideCrossings(lines[i], s, b, heading)
    ensures Tick(levs[i], c, Some(LABEL)) in TicksFor(lines, levs, b, heading)[s]
  {
    CrossingInSideTicks(lines, levs, b, heading, s, ZipLength(lines, levs), i, c);
    var raw := SideTicks(lines, levs, b, heading, s, ZipLength(lines, levs));
    var k :| 0 <= k < |raw| && raw[k] == Tick(levs[i], c, None);
    assert Labelled(raw)[k] == Tick(levs[i], c, Some(LABEL));
  }

  lemma {:induction false} CrossingInSideTicks(lines: seq<seq<Point>>, levs: seq<real>, b: Box,
                                               heading: (real, real) -> real, s: Side, n: nat, i: nat, c: Crossing)
    requires n <= |lines| && n <= |levs| && i < n
    requires c in SideCrossings(lines[i], s, b, heading)
    ensures Tick(levs[i], c, None) in SideTicks(lines, levs, b, heading, s, n)
  {
    if i < n - 1 {
      CrossingInSideTicks(lines, levs, b, heading, s, n - 1, i, c);
    } else {
      var cs := SideCrossings(lines[i], s, b, heading);
      var k :| 0 <= k < |cs| && cs[k] == c;
      assert TicksAt(levs[i], cs)[k] == Tick(levs[i], c, None);
    }
  }

  /** Appends a line's crossings with one side as ticks at the line's level, one by one. */
  method AppendTicks(ts: seq<Tick>, level: real, cs: seq<Crossing>) returns (r: seq<Tick>)
    ensures r == ts + TicksAt(level, cs)
  {
    r := ts;
    var m := 0;
    while m < |cs|
      invariant 0 <= m <= |cs|
      invariant r == ts + TicksAt(level, cs[..m])
    {
      r := r + [Tick(level, cs[m], None)];
      m := m + 1;
    }
    assert cs[..|cs|] == cs;
  }

  /** Gives every tick of a list the label, in place. */
  method LabelTicks(ts: seq<Tick>) returns (r: seq<Tick>)
    ensures r == Labelled(ts)
  {
    r := ts;
    var m := 0;
    while m < |r|
      invariant |r| == |ts| && 0 <= m <= |r|
      invariant forall k :: 0 <= k < m ==> r[k] == ts[k].(text := Some(LABEL))
      invariant forall k :: m <= k < |r| ==> r[k] == ts[k]
    {
      r := r[m := r[m].(text := Some(LABEL))];
      m := m + 1;
    }
  }

  /** Files every crossing of one line under its side, as ticks at the line's level. */
  method FileLineTicks(ticks: map<Side, seq<Tick>>, level: real, line: seq<Point>, b: Box,
                       heading: (real, real) -> real)
    returns (r: map<Side, seq<Tick>>)
    requires ticks.Keys == ALL_SIDES
    ensures r.Keys == ALL_SIDES
    ensures forall s :: s in r ==> r[s] == ticks[s] + TicksAt(level, SideCrossings(line, s, b, heading))
  {
    var all := FindLineBoxCrossings(line, b, heading);
    r := ticks;
    var k := 0;
    while k < 4
      invariant 0 <= k <= 4
      invariant r.Keys == ALL_SIDES
      invariant forall s :: s in r ==>
        (r[s] == ticks[s] + if SideIndex(s) < k then TicksAt(level, all[SideIndex(s)]) else [])
    {
      var side := SIDES[k];
      assert SideIndex(side) == k;
      var ts := AppendTicks(r[side], level, all[k]);
      r := r[side := ts];
      k := k + 1;
    }
  }

  /** `for side in gi["ticks"]`: every tick of every side list gets the label. */
  method LabelSides(ticks: map<Side, seq<Tick>>) returns (r: map<Side, seq<Tick>>)
    requires ticks.Keys == ALL_SIDES
    ensures r.Keys == ALL_SIDES
    ensures forall s :: s in r ==> r[s] == Labelled(ticks[s])
  {
    r := ticks;
    var k := 0;
    while k < 4
      invariant 0 <= k <= 4
      invariant r.Keys == ALL_SIDES
      invariant forall s :: s in r ==> (r[s] == if SideIndex(s) < k then Labelled(ticks[s]) else ticks[s])
    {
      var side := SIDES[k];
      assert SideIndex(side) == k;
      var ts := LabelTicks(r[side]);
      r := r[side := ts];
      k := k + 1;
    }
  }

  lemma SameEntriesSameMap(m1: map<Side, seq<Tick>>, m2: map<Side, seq<Tick>>)
    requires m1.Keys == m2.Keys
    requires forall s :: s in m1 ==> m1[s] == m2[s]
    ensures m1 == m2
  {
  }

  /**
   * The tick part of get_grid_info for one coordinate: the four side lists
   * start empty, every crossing of every line is appended under its side with
   * the line's level, and then every tick is labelled.
   */
  method CollectTicks(lines: seq<seq<Point>>, levs: seq<real>, b: Box, heading: (real, real) -> real)
    returns (ticks: map<Side, seq<Tick>>)
    ensures ticks == TicksFor(lines, levs, b, heading)
  {
    ticks := FileTicks(lines, levs, b, heading);
    FiledMapEntries(lines, levs, b, heading, ZipLength(lines, levs));
    ticks := LabelSides(ticks);
    assert forall s :: s in ticks ==> ticks[s] == Labelled(SideTicks(lines, levs, b, heading, s, ZipLength(lines, levs)));
    SameEntriesSameMap(ticks, TicksFor(lines, levs, b, heading));
  }

  /** The side lists holding exactly the unlabelled ticks of the first `i` lines. */
  function FiledMap(lines: seq<seq<Point>>, levs: seq<real>, b: Box, heading: (real, real) -> real, i: nat)
    : map<Side, seq<Tick>>
    requires i <= |lines| && i <= |levs|
  {
    map s | s in ALL_SIDES :: SideTicks(lines, levs, b, heading, s, i)
  }

  lemma FiledMapEntries(lines: seq<seq<Point>>, levs: seq<real>, b: Box, heading: (real, real) -> real, i: nat)
    requires i <= |lines| && i <= |levs|
    ensures var m := FiledMap(lines, levs, b, heading, i);
      && m.Keys == ALL_SIDES
      && forall s :: s in m ==> m[s] == SideTicks(lines, levs, b, heading, s, i)
  {
  }

  /** The filing loop of get_grid_info: all lines' crossings under their sides, unlabelled. */
  method FileTicks(lines: seq<seq<Point>>, levs: seq<real>, b: Box, heading: (real, real) -> real)
    returns (ticks: map<Side, seq<Tick>>)
    ensures ticks == FiledMap(lines, levs, b, heading, ZipLength(lines, levs))
  {
    ticks := EmptySides(lines, levs, b, heading);
    for i := 0 to ZipLength(lines, levs)
      invariant ticks == FiledMap(lines, levs, b, heading, i)
    {
      ticks := FileNextLine(ticks, lines, levs, b, heading, i);
    }
  }

  /** `{'left': [], 'right': [], 'bottom': [], 'top': []}`: no line filed yet. */
  method EmptySides(lines: seq<seq<Point>>, levs: seq<real>, b: Box, heading: (real, real) -> real)
    returns (ticks: map<Side, seq<Tick>>)
    ensures ticks == FiledMap(lines, levs, b, heading, 0)
  {
    ticks := map[Left := [], Right := [], Bottom := [], Top := []];
    FiledMapEntries(lines, levs, b, heading, 0);
    SameEntriesSameMap(ticks, FiledMap(lines, levs, b, heading, 0));
  }

  /** One turn of the filing loop: the ticks of the first `i` lines become those of the first `i + 1`. */
  method FileNextLine(ticks: map<Side, seq<Tick>>, lines: seq<seq<Point>>, levs: seq<real>, b: Box,
                      heading: (real, real) -> real, i: nat)
    returns (r: map<Side, seq<Tick>>)
    requires i < |lines| && i < |levs|
    requires ticks == FiledMap(lines, levs, b, heading, i)
    ensures r == FiledMap(lines, levs, b, heading, i + 1)
  {
    FiledMapEntries(lines, levs, b, heading, i);
    r := FileLineTicks(ticks, levs[i], lines[i], b, heading);
    FiledMapEntries(lines, levs, b, heading, i + 1);
    SameEntriesSameMap(r, FiledMap(lines, levs, b, heading, i + 1));
  }

  /** The grid info dictionary: the extremes and, per coordinate, its lines and its ticks. */
  datatype AxisGrid = AxisGrid(lines: seq<seq<Point>>, ticks: map<Side, seq<Tick>>)

  datatype GridInfo = GridInfo(extremes: Extent, lon: AxisGrid, lat: AxisGrid)

  /**
   * What get_grid_info computes for the limits and locators: the extremes of
   * the view, the levels the locators pick there, the raw lines at those
   * levels, and their ticks on the slightly widened limit box.
   */
  function GridInfoFor(lim: Limits, locLon: Locator, locLat: Locator, c: Collaborators): GridInfo {
    var ext := c.extremes(lim);
    var lonL := c.locate(locLon, ext.lonMin, ext.lonMax);
    var latL := c.locate(locLat, ext.latMin, ext.latMax);
    var lines := GetRawGridLines(LevelValues(lonL), LevelValues(latL), ext, c.transform);
    var bb := ExpandedBox(lim);
    GridInfo(ext,
             AxisGrid(lines.0, TicksFor(lines.0, lonL.levs, bb, c.heading)),
             AxisGrid(lines.1, TicksFor(lines.1, latL.levs, bb, c.heading)))
  }

  /** Every line of a list cut at its jumps. */
  function Cuts(ls: seq<seq<Point>>, deltaCut: real): (r: seq<seq<Vertex>>)
    ensures |r| == |ls|
    ensures forall i :: 0 <= i < |ls| ==> r[i] == CutGridLineJumps(ls[i], deltaCut)
  {
    seq(|ls|, i requires 0 <= i < |ls| => CutGridLineJumps(ls[i], deltaCut))
  }

  // ---------------------------------------------------------------------------
  // SkyGridHelper
  // ---------------------------------------------------------------------------

  /**
   * The grid helper: its settings, the locators and grid info it derives from
   * the axis, and the limits that grid info was computed for.
   */
  class SkyGridHelper {
    const wrap: real
    const nGridLonDefault: Option<int>
    const nGridLatDefault: Option<int>
    const fullCircle: bool
    const deltaCut: real
    const collab: Collaborators
    var gridLocatorLon: Option<Locator>
    var gridLocatorLat: Option<Locator>
    var gridInfo: Option<GridInfo>
    var oldLimits: Option<Limits>

    /** The cache is consistent: cached grid info is the one for the cached limits. */
    ghost predicate Valid()
      reads this
    {
      && (gridInfo.Some? ==> oldLimits.Some?)
      && (oldLimits.Some? ==>
            && gridLocatorLon.Some? && gridLocatorLat.Some?
            && gridInfo == Some(GridInfoFor(oldLimits.value, gridLocatorLon.value, gridLocatorLat.value, collab)))
    }

    /** The settings part of __init__: nothing is derived from an axis yet. */
    constructor Init(projectionName: string, projectionRadius: real, wrap: real,
                     nGridLonDefault: Option<int>, nGridLatDefault: Option<int>,
                     fullCircle: bool, collab: Collaborators)
      ensures this.wrap == wrap && this.fullCircle == fullCircle && this.collab == collab
      ensures this.nGridLonDefault == nGridLonDefault && this.nGridLatDefault == nGridLatDefault
      ensures deltaCut == if projectionName == "cyl" then 80.0 else 0.5 * projectionRadius
      ensures gridLocatorLon.None? && gridLocatorLat.None? && gridInfo.None? && oldLimits.None?
      ensures Valid()
    {
      this.wrap := wrap;
      this.nGridLonDefault := nGridLonDefault;
      this.nGridLatDefault := nGridLatDefault;
      this.fullCircle := fullCircle;
      this.collab := collab;
      if projectionName == "cyl" {
        deltaCut := 80.0;
      } else {
        deltaCut := 0.5 * projectionRadius;
      }
      gridLocatorLon := None;
      gridLocatorLat := None;
      gridInfo := None;
      oldLimits := None;
    }

    /**
     * __init__: the settings, then `update_lim(axis)` with the axis's limits and
     * extent; an exception there means no helper.
     */
    static method Create(projectionName: string, projectionRadius: real, wrap: real,
                         nGridLonDefault: Option<int>, nGridLatDefault: Option<int>,
                         fullCircle: bool, collab: Collaborators, lim: Limits, extent: Extent)
      returns (r: Result<SkyGridHelper, Error>)
      ensures var ng := ComputeNGridFromExtent(extent, nGridLatDefault, nGridLonDefault, collab.cosDeg);
        && (r.Failure? <==> ng.Failure?)
        && (r.Failure? ==> r.error == ng.error)
        && (r.Success? ==>
              && r.value.gridLocatorLon == Some(LocatorD(ng.value.0, wrap == 180.0 && !fullCircle))
              && r.value.gridLocatorLat == Some(LocatorD(ng.value.1, true)))
      ensures r.Success? ==>
        && fresh(r.value) && r.value.Valid()
        && r.value.wrap == wrap && r.value.fullCircle == fullCircle && r.value.collab == collab
        && r.value.nGridLonDefault == nGridLonDefault && r.value.nGridLatDefault == nGridLatDefault
        && r.value.deltaCut == (if projectionName == "cyl" then 80.0 else 0.5 * projectionRadius)
        && r.value.oldLimits == Some(lim)
        && r.value.gridInfo == Some(GridInfoFor(lim, r.value.gridLocatorLon.value, r.value.gridLocatorLat.value, collab))
    {
      var h := new SkyGridHelper.Init(projectionName, projectionRadius, wrap, nGridLonDefault, nGridLatDefault,
                                      fullCircle, collab);
      var o := h.UpdateLim(lim, extent);
      if o.Fail? {
        return Failure(o.error);
      }
      return Success(h);
    }

    /**
     * update_lim: nothing happens when the limits are those of the cached grid;
     * otherwise the grid counts are recomputed from the extent (which can
     * raise, changing nothing), the locators are replaced (longitude levels
     * include the last one exactly when wrap is 180 and the map is not a full
     * circle), and the grid info and cached limits are renewed.
     */
    method UpdateLim(lim: Limits, extent: Extent) returns (o: Outcome<Error>)
      requires Valid()
      modifies this
      ensures Valid()
      ensures old(oldLimits) == Some(lim) ==> o == Pass && unchanged(this)
      ensures old(oldLimits) != Some(lim) ==>
        var ng := ComputeNGridFromExtent(extent, nGridLatDefault, nGridLonDefault, collab.cosDeg);
        && (ng.Failure? ==> o == Fail(ng.error) && unchanged(this))
        && (ng.Success? ==>
              && o == Pass
              && gridLocatorLon == Some(LocatorD(ng.value.0, wrap == 180.0 && !fullCircle))
              && gridLocatorLat == Some(LocatorD(ng.value.1, true))
              && oldLimits == Some(lim)
              && gridInfo == Some(GridInfoFor(lim, gridLocatorLon.value, gridLocatorLat.value, collab)))
    {
      if oldLimits != Some(lim) {
        var ng := ComputeNGridFromExtent(extent, nGridLatDefault, nGridLonDefault, collab.cosDeg);
        if ng.Failure? {
          return Fail(ng.error);
        }
        Rebuild(lim, ng.value.0, ng.value.1);
      }
      return Pass;
    }

    /** The branch of update_lim that runs on new limits, once the grid counts are known. */
    method Rebuild(lim: Limits, nLon: int, nLat: int)
      modifies this
      ensures Valid()
      ensures gridLocatorLon == Some(LocatorD(nLon, wrap == 180.0 && !fullCircle))
      ensures gridLocatorLat == Some(LocatorD(nLat, true))
      ensures oldLimits == Some(lim)
      ensures gridInfo == Some(GridInfoFor(lim, gridLocatorLon.value, gridLocatorLat.value, collab))
    {
      var includeLastLon := wrap == 180.0 && !fullCircle;
      gridLocatorLon := Some(LocatorD(nLon, includeLastLon));
      gridLocatorLat := Some(LocatorD(nLat, true));
      UpdateGrid(lim);
      oldLimits := Some(lim);
    }

    /** _update_grid: the grid info for these limits replaces the cached one. */
    method UpdateGrid(lim: Limits)
      requires gridLocatorLon.Some? && gridLocatorLat.Some?
      modifies this
      ensures gridLocatorLon == old(gridLocatorLon) && gridLocatorLat == old(gridLocatorLat)
      ensures oldLimits == old(oldLimits)
      ensures gridInfo == Some(GridInfoFor(lim, gridLocatorLon.value, gridLocatorLat.value, collab))
    {
      var g := GetGridInfo(lim);
      gridInfo := Some(g);
    }

    /**
     * get_grid_info: the extremes of the view, the levels of both locators
     * there, the raw grid lines at those levels, and their crossings with the
     * widened limit box filed as labelled ticks under each side.
     */
    method GetGridInfo(lim: Limits) returns (g: GridInfo)
      requires gridLocatorLon.Some? && gridLocatorLat.Some?
      ensures g == GridInfoFor(lim, gridLocatorLon.value, gridLocatorLat.value, collab)
    {
      var ext := collab.extremes(lim);
      var lonL := collab.locate(gridLocatorLon.value, ext.lonMin, ext.lonMax);
      var latL := collab.locate(gridLocatorLat.value, ext.latMin, ext.latMax);
      var lines := GetRawGridLines(LevelValues(lonL), LevelValues(latL), ext, collab.transform);
      var bb := ExpandedBox(lim);
      var lonTicks := CollectTicks(lines.0, lonL.levs, bb, collab.heading);
      var latTicks := CollectTicks(lines.1, latL.levs, bb, collab.heading);
      g := GridInfo(ext, AxisGrid(lines.0, lonTicks), AxisGrid(lines.1, latTicks));
    }

    /**
     * get_gridlines: an error before any grid info exists; otherwise the
     * longitude lines for "x", the latitude lines for "y", both in that order
     * for "both", and none for any other axis name, each cut at its jumps.
     */
    method GetGridlines(axis: string) returns (r: Result<seq<seq<Vertex>>, Error>)
      ensures gridInfo.None? <==> r.Failure?
      ensures r.Failure? ==> r.error == NotInitialized
      ensures r.Success? ==>
        var lon := Cuts(gridInfo.value.lon.lines, deltaCut);
        var lat := Cuts(gridInfo.value.lat.lines, deltaCut);
        && (axis == "x" ==> r.value == lon)
        && (axis == "y" ==> r.value == lat)
        && (axis == "both" ==> r.value == lon + lat)
        && (axis != "x" && axis != "y" && axis != "both" ==> r.value == [])
    {
      if gridInfo.None? {
        return Failure(NotInitialized);
      }
      var gi := gridInfo.value;
      var isX, isY, isBoth := axis == "x", axis == "y", axis == "both";
      assert !(isX && isY) && !(isX && isBoth) && !(isY && isBoth);
      var gridLines: seq<seq<Vertex>> := [];
      if isBoth || isX {
        gridLines := ExtendCut(gridLines, gi.lon.lines);
      }
      if isBoth || isY {
        gridLines := ExtendCut(gridLines, gi.lat.lines);
      }
      return Success(gridLines);
    }

    /** `grid_lines.extend(self._cut_grid_line_jumps(gl))` for each line in turn. */
    method ExtendCut(acc: seq<seq<Vertex>>, ls: seq<seq<Point>>) returns (r: seq<seq<Vertex>>)
      ensures r == acc + Cuts(ls, deltaCut)
    {
      r := acc;
      var i := 0;
      while i < |ls|
        invariant 0 <= i <= |ls|
        invariant r == acc + Cuts(ls[..i], deltaCut)
      {
        r := r + [CutGridLineJumps(ls[i], deltaCut)];
        i := i + 1;
      }
      assert ls[..|ls|] == ls;
    }
  }
}
