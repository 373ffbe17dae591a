/** Conversions between the [min.., max..] form of an axis-aligned box, its
    [centre.., dims..] form and its corner list: `minmax_to_center_2d`,
    `center_to_minmax_2d_0_5`, `center_to_minmax_2d`, `center_to_corner_box2d`
    (without angles), `minmax_to_corner_2d` and `minmax_to_corner_2d_v2`. */
module BoxMinmax {
  import opened Common
  import opened BoxCorners
  import opened BoxStandup

  /** The first ndim columns of every row (`x[..., :ndim]`). */
  function Left(m: seq<seq<real>>, ndim: nat): (r: seq<seq<real>>)
    requires IsMatrix(m, 2 * ndim)
    ensures |r| == |m| && IsMatrix(r, ndim)
    ensures forall n, d :: 0 <= n < |m| && 0 <= d < ndim ==> r[n][d] == m[n][d]
  {
    seq(|m|, n requires 0 <= n < |m| => m[n][..ndim])
  }

  /** The last ndim columns of every row (`x[..., ndim:]`). */
  function Right(m: seq<seq<real>>, ndim: nat): (r: seq<seq<real>>)
    requires IsMatrix(m, 2 * ndim)
    ensures |r| == |m| && IsMatrix(r, ndim)
    ensures forall n, d :: 0 <= n < |m| && 0 <= d < ndim ==> r[n][d] == m[n][ndim + d]
  {
    seq(|m|, n requires 0 <= n < |m| => m[n][ndim..])
  }

  /** `minmax_to_center_2d` on a box of 2 * ndim columns: the centre is the
      midpoint of min and max, the dims are max - min. */
  function MinmaxToCenter2d(boxes: seq<seq<real>>, ndim: nat): (r: seq<seq<real>>)
    requires IsMatrix(boxes, 2 * ndim)
    ensures |r| == |boxes| && IsMatrix(r, 2 * ndim)
    ensures forall n, d :: 0 <= n < |boxes| && 0 <= d < ndim ==>
      r[n][d] == (boxes[n][d] + boxes[n][ndim + d]) / 2.0 &&
      r[n][ndim + d] == boxes[n][ndim + d] - boxes[n][d]
  {
    seq(|boxes|, n requires 0 <= n < |boxes| =>
      var lo := boxes[n][..ndim];
      var dims := seq(ndim, d requires 0 <= d < ndim => boxes[n][ndim + d] - lo[d]);
      seq(ndim, d requires 0 <= d < ndim => lo[d] + 0.5 * dims[d]) + dims)
  }

  /** `center_to_minmax_2d_0_5`: [centers - dims / 2, centers + dims / 2];
      the box it returns has the given centre as its midpoint and the given
      dims as its extents. */
  function CenterToMinmax2d05(centers: seq<seq<real>>, dims: seq<seq<real>>, ndim: nat): (r: seq<seq<real>>)
    requires |centers| == |dims| && IsMatrix(centers, ndim) && IsMatrix(dims, ndim)
    ensures |r| == |centers| && IsMatrix(r, 2 * ndim)
    ensures forall n, d :: 0 <= n < |centers| && 0 <= d < ndim ==>
      r[n][d] + r[n][ndim + d] == 2.0 * centers[n][d] &&
      r[n][ndim + d] - r[n][d] == dims[n][d]
  {
    seq(|centers|, n requires 0 <= n < |centers| =>
      seq(ndim, d requires 0 <= d < ndim => centers[n][d] - dims[n][d] / 2.0) +
      seq(ndim, d requires 0 <= d < ndim => centers[n][d] + dims[n][d] / 2.0))
  }

  /** `center_to_corner_box2d` without angles: the corners `corners_nd`
      builds for a per-axis origin, moved by the centre of their box. For
      two columns `corners_nd` is the clockwise table of `corners_2d_jit`
      (Corners2dJitAgrees), which is the form written here. */
  function CenterToCornerBox2d(centers: seq<seq<real>>, dims: seq<seq<real>>, origin: seq<real>): (r: seq<seq<seq<real>>>)
    requires |centers| == |dims| && IsMatrix(centers, 2) && IsMatrix(dims, 2) && |origin| == 2
    ensures |r| == |centers| && IsCube(r, 4, 2)
  {
    var corners := Corners2dJit(dims, origin);
    seq(|centers|, n requires 0 <= n < |centers| =>
      seq(4, c requires 0 <= c < 4 =>
        seq(2, d requires 0 <= d < 2 => corners[n][c][d] + centers[n][d])))
  }

  /** The corners of `center_to_corner_box2d` are those of `corners_nd`
      shifted by the centre. */
  lemma CenterToCornerBox2dIsCornersNd(centers: seq<seq<real>>, dims: seq<seq<real>>, origin: seq<real>)
    requires |centers| == |dims| && IsMatrix(centers, 2) && IsMatrix(dims, 2) && |origin| == 2
    ensures var r := CenterToCornerBox2d(centers, dims, origin);
      var corners := CornersNd(dims, 2, origin);
      forall n, c, d :: 0 <= n < |centers| && 0 <= c < 4 && 0 <= d < 2 ==>
        r[n][c][d] == corners[n][c][d] + centers[n][d]
  {
    Corners2dJitAgrees(dims, origin);
  }

  /** Corner c of box n is centre + dims * (unit corner c - origin), with
      the clockwise unit corners. */
  lemma CenterCornerEntry(centers: seq<seq<real>>, dims: seq<seq<real>>, origin: seq<real>, n: nat, c: nat, d: nat)
    requires |centers| == |dims| && IsMatrix(centers, 2) && IsMatrix(dims, 2) && |origin| == 2
    requires n < |centers| && c < 4 && d < 2
    ensures CenterToCornerBox2d(centers, dims, origin)[n][c][d] ==
      centers[n][d] + dims[n][d] * (Unit2dJit[c][d] - origin[d])
  {
  }

  /** `center_to_minmax_2d`: origin 0.5 dispatches to
      `center_to_minmax_2d_0_5`; any other origin takes corners 0 and 2 of
      `center_to_corner_box2d`, which needs two columns. Either way the box
      runs from centre - origin * dims to centre + (1 - origin) * dims. */
  function CenterToMinmax2d(centers: seq<seq<real>>, dims: seq<seq<real>>, ndim: nat, origin: real): (r: seq<seq<real>>)
    requires |centers| == |dims| && IsMatrix(centers, ndim) && IsMatrix(dims, ndim)
    requires origin != 0.5 ==> ndim == 2
    ensures |r| == |centers| && IsMatrix(r, 2 * ndim)
    ensures forall n, d :: 0 <= n < |centers| && 0 <= d < ndim ==>
      r[n][d] == centers[n][d] - origin * dims[n][d] &&
      r[n][ndim + d] == centers[n][d] + (1.0 - origin) * dims[n][d]
  {
    if origin == 0.5 then
      HalfOriginBounds(centers, dims, ndim);
      CenterToMinmax2d05(centers, dims, ndim)
    else
      var o := [origin, origin];
      CornerOriginBounds(centers, dims, o, origin);
      LowHighRows(CenterToCornerBox2d(centers, dims, o))
  }

  lemma HalfOriginBounds(centers: seq<seq<real>>, dims: seq<seq<real>>, ndim: nat)
    requires |centers| == |dims| && IsMatrix(centers, ndim) && IsMatrix(dims, ndim)
    ensures var r := CenterToMinmax2d05(centers, dims, ndim);
      forall n, d :: 0 <= n < |centers| && 0 <= d < ndim ==>
        r[n][d] == centers[n][d] - 0.5 * dims[n][d] &&
        r[n][ndim + d] == centers[n][d] + (1.0 - 0.5) * dims[n][d]
  {
  }

  /** The general branch for a scalar origin, broadcast to the per-axis
      origin o. */
  lemma CornerOriginBounds(centers: seq<seq<real>>, dims: seq<seq<real>>, o: seq<real>, origin: real)
    requires |centers| == |dims| && IsMatrix(centers, 2) && IsMatrix(dims, 2)
    requires |o| == 2 && o[0] == origin && o[1] == origin
    ensures var r := LowHighRows(CenterToCornerBox2d(centers, dims, o));
      forall n, d :: 0 <= n < |centers| && 0 <= d < 2 ==>
        r[n][d] == centers[n][d] - origin * dims[n][d] &&
        r[n][2 + d] == centers[n][d] + (1.0 - origin) * dims[n][d]
  {
    var cs := CenterToCornerBox2d(centers, dims, o);
    var r := LowHighRows(cs);
    forall n, d | 0 <= n < |centers| && 0 <= d < 2
      ensures r[n][d] == centers[n][d] - origin * dims[n][d]
      ensures r[n][2 + d] == centers[n][d] + (1.0 - origin) * dims[n][d]
    {
      assert Unit2dJit[0][d] == 0.0 && Unit2dJit[2][d] == 1.0;
      assert r[n][d] == cs[n][0][d] && r[n][2 + d] == cs[n][2][d];
    }
  }

  /** `corners[:, [0, 2]].reshape([-1, 4])`: corner 0 followed by corner 2. */
  function LowHighRows(corners: seq<seq<seq<real>>>): (r: seq<seq<real>>)
    requires IsCube(corners, 4, 2)
    ensures |r| == |corners| && IsMatrix(r, 4)
    ensures forall n, d :: 0 <= n < |corners| && 0 <= d < 2 ==>
      r[n][d] == corners[n][0][d] && r[n][2 + d] == corners[n][2][d]
  {
    seq(|corners|, n requires 0 <= n < |corners| => corners[n][0] + corners[n][2])
  }

  /** `minmax_to_corner_2d`: the corners of the box whose origin-0 corner is
      the min point and whose dims are max - min. */
  function MinmaxToCorner2d(boxes: seq<seq<real>>): (r: seq<seq<seq<real>>>)
    requires IsMatrix(boxes, 4)
    ensures |r| == |boxes| && IsCube(r, 4, 2)
  {
    CenterToCornerBox2d(Left(boxes, 2), MinmaxDims(boxes), [0.0, 0.0])
  }

  /** The dims `minmax_to_corner_2d` derives: max - min on each axis. */
  function MinmaxDims(boxes: seq<seq<real>>): (r: seq<seq<real>>)
    requires IsMatrix(boxes, 4)
    ensures |r| == |boxes| && IsMatrix(r, 2)
    ensures forall n, d :: 0 <= n < |boxes| && 0 <= d < 2 ==> r[n][d] == boxes[n][2 + d] - boxes[n][d]
  {
    seq(|boxes|, n requires 0 <= n < |boxes| =>
      seq(2, d requires 0 <= d < 2 => boxes[n][2 + d] - boxes[n][d]))
  }

  /** The column gather of `minmax_to_corner_2d_v2`. */
  const CornerGather: seq<nat> := [0, 1, 0, 3, 2, 3, 2, 1]

  /** `minmax_to_corner_2d_v2`: for a box [xmin, ymin, xmax, ymax] the
      corners (xmin, ymin), (xmin, ymax), (xmax, ymax), (xmax, ymin). */
  function MinmaxToCorner2dV2(boxes: seq<seq<real>>): (r: seq<seq<seq<real>>>)
    requires IsMatrix(boxes, 4)
    ensures |r| == |boxes| && IsCube(r, 4, 2)
    ensures forall n :: 0 <= n < |boxes| ==>
      r[n] == [[boxes[n][0], boxes[n][1]], [boxes[n][0], boxes[n][3]],
               [boxes[n][2], boxes[n][3]], [boxes[n][2], boxes[n][1]]]
  {
    seq(|boxes|, n requires 0 <= n < |boxes| => GatherCorners(boxes[n]))
  }

  /** One row of `minmax_box[..., [0, 1, 0, 3, 2, 3, 2, 1]].reshape(-1, 4, 2)`. */
  function GatherCorners(b: seq<real>): (r: seq<seq<real>>)
    requires |b| == 4
    ensures r == [[b[0], b[1]], [b[0], b[3]], [b[2], b[3]], [b[2], b[1]]]
  {
    var flat := Select(b, CornerGather);
    assert flat == [b[0], b[1], b[0], b[3], b[2], b[3], b[2], b[1]];
    var r := Reshape(flat, 4, 2);
    assert r[0] == [b[0], b[1]] && r[1] == [b[0], b[3]];
    assert r[2] == [b[2], b[3]] && r[3] == [b[2], b[1]];
    r
  }

  /** Reading centre and dims back out of `minmax_to_center_2d` and passing
      them to `center_to_minmax_2d_0_5` gives back the original box. */
  lemma MinmaxCenterRoundTrip(boxes: seq<seq<real>>, ndim: nat)
    requires IsMatrix(boxes, 2 * ndim)
    ensures var cd := MinmaxToCenter2d(boxes, ndim);
      CenterToMinmax2d05(Left(cd, ndim), Right(cd, ndim), ndim) == boxes
  {
    var cd := MinmaxToCenter2d(boxes, ndim);
    var r := CenterToMinmax2d05(Left(cd, ndim), Right(cd, ndim), ndim);
    forall n | 0 <= n < |boxes|
      ensures r[n] == boxes[n]
    {
      forall e | 0 <= e < 2 * ndim
        ensures r[n][e] == boxes[n][e]
      {
        var d := if e < ndim then e else e - ndim;
        assert r[n][d] + r[n][ndim + d] == boxes[n][d] + boxes[n][ndim + d];
        assert r[n][ndim + d] - r[n][d] == boxes[n][ndim + d] - boxes[n][d];
      }
    }
  }

  /** `minmax_to_center_2d` of the box `center_to_minmax_2d` builds for any
      origin has dims unchanged and its centre moved by (0.5 - origin) * dims;
      with origin 0.5 it gives back exactly the centre and dims. */
  lemma CenterMinmaxRoundTrip(centers: seq<seq<real>>, dims: seq<seq<real>>, ndim: nat, origin: real)
    requires |centers| == |dims| && IsMatrix(centers, ndim) && IsMatrix(dims, ndim)
    requires origin != 0.5 ==> ndim == 2
    ensures var cd := MinmaxToCenter2d(CenterToMinmax2d(centers, dims, ndim, origin), ndim);
      forall n, d :: 0 <= n < |centers| && 0 <= d < ndim ==>
        cd[n][d] == centers[n][d] + (0.5 - origin) * dims[n][d] && cd[n][ndim + d] == dims[n][d]
  {
  }

  /** `center_to_minmax_2d` then `minmax_to_center_2d` at origin 0.5 is the
      identity on [centre, dims]. */
  lemma CenterMinmaxRoundTripHalf(centers: seq<seq<real>>, dims: seq<seq<real>>, ndim: nat)
    requires |centers| == |dims| && IsMatrix(centers, ndim) && IsMatrix(dims, ndim)
    ensures var cd := MinmaxToCenter2d(CenterToMinmax2d(centers, dims, ndim, 0.5), ndim);
      Left(cd, ndim) == centers && Right(cd, ndim) == dims
  {
    CenterMinmaxRoundTrip(centers, dims, ndim, 0.5);
    var cd := MinmaxToCenter2d(CenterToMinmax2d(centers, dims, ndim, 0.5), ndim);
    forall n | 0 <= n < |centers|
      ensures Left(cd, ndim)[n] == centers[n] && Right(cd, ndim)[n] == dims[n]
    {
      HalvesOfRow(cd, centers, dims, ndim, n);
    }
  }

  /** A row whose first ndim entries are centers[n] and whose last ndim
      entries are dims[n] splits into those two rows. */
  lemma HalvesOfRow(cd: seq<seq<real>>, centers: seq<seq<real>>, dims: seq<seq<real>>, ndim: nat, n: nat)
    requires IsMatrix(cd, 2 * ndim) && IsMatrix(centers, ndim) && IsMatrix(dims, ndim)
    requires n < |cd| == |centers| == |dims|
    requires forall d :: 0 <= d < ndim ==> cd[n][d] == centers[n][d] && cd[n][ndim + d] == dims[n][d]
    ensures Left(cd, ndim)[n] == centers[n] && Right(cd, ndim)[n] == dims[n]
  {
  }

  /** The general branch of `center_to_minmax_2d` evaluated at origin 0.5
      gives what the 0.5 shortcut gives, so the dispatch does not change the
      result. */
  lemma CenterToMinmaxDispatch(centers: seq<seq<real>>, dims: seq<seq<real>>)
    requires |centers| == |dims| && IsMatrix(centers, 2) && IsMatrix(dims, 2)
    ensures LowHighRows(CenterToCornerBox2d(centers, dims, [0.5, 0.5])) ==
      CenterToMinmax2d05(centers, dims, 2)
  {
    var g := LowHighRows(CenterToCornerBox2d(centers, dims, [0.5, 0.5]));
    var h := CenterToMinmax2d05(centers, dims, 2);
    forall n | 0 <= n < |centers|
      ensures g[n] == h[n]
    {
      assert g[n][0] == h[n][0] && g[n][1] == h[n][1];
      assert g[n][2] == h[n][2] && g[n][3] == h[n][3];
    }
  }

  /** `minmax_to_corner_2d_v2` lists the same corners, in the same order, as
      `minmax_to_corner_2d`. */
  lemma MinmaxToCornerV2Agrees(boxes: seq<seq<real>>)
    requires IsMatrix(boxes, 4)
    ensures MinmaxToCorner2dV2(boxes) == MinmaxToCorner2d(boxes)
  {
    var v := MinmaxToCorner2dV2(boxes);
    var w := MinmaxToCorner2d(boxes);
    forall n | 0 <= n < |boxes|
      ensures v[n] == w[n]
    {
      MinmaxCornerRow(boxes, n);
    }
  }

  lemma MinmaxCornerRow(boxes: seq<seq<real>>, n: nat)
    requires IsMatrix(boxes, 4) && n < |boxes|
    ensures MinmaxToCorner2d(boxes)[n] ==
      [[boxes[n][0], boxes[n][1]], [boxes[n][0], boxes[n][3]],
       [boxes[n][2], boxes[n][3]], [boxes[n][2], boxes[n][1]]]
  {
    var r := MinmaxToCorner2d(boxes)[n];
    var x0, y0, x1, y1 := boxes[n][0], boxes[n][1], boxes[n][2], boxes[n][3];
    MinmaxCornerEntry(boxes, n, 0, 0);
    MinmaxCornerEntry(boxes, n, 0, 1);
    MinmaxCornerEntry(boxes, n, 1, 0);
    MinmaxCornerEntry(boxes, n, 1, 1);
    MinmaxCornerEntry(boxes, n, 2, 0);
    MinmaxCornerEntry(boxes, n, 2, 1);
    MinmaxCornerEntry(boxes, n, 3, 0);
    MinmaxCornerEntry(boxes, n, 3, 1);
    assert r[0] == [x0, y0] && r[1] == [x0, y1];
    assert r[2] == [x1, y1] && r[3] == [x1, y0];
  }

  /** Coordinate d of corner c of `minmax_to_corner_2d`: the min of axis d
      moved by the unit-table entry times the box's extent. */
  lemma MinmaxCornerEntry(boxes: seq<seq<real>>, n: nat, c: nat, d: nat)
    requires IsMatrix(boxes, 4) && n < |boxes| && c < 4 && d < 2
    ensures MinmaxToCorner2d(boxes)[n][c][d] ==
      boxes[n][d] + (boxes[n][2 + d] - boxes[n][d]) * Unit2dJit[c][d]
  {
    CenterCornerEntry(Left(boxes, 2), MinmaxDims(boxes), [0.0, 0.0], n, c, d);
  }

  lemma StandupOfMinmaxAxis(boxes: seq<seq<real>>, n: nat, j: nat)
    requires IsMatrix(boxes, 4) && n < |boxes| && j < 2
    requires boxes[n][0] <= boxes[n][2] && boxes[n][1] <= boxes[n][3]
    ensures var r := CornerToStandupNd(MinmaxToCorner2dV2(boxes), 4, 2);
      r[n][j] == boxes[n][j] && r[n][2 + j] == boxes[n][2 + j]
  {
    var pts := MinmaxToCorner2dV2(boxes)[n];
    var r := CornerToStandupNd(MinmaxToCorner2dV2(boxes), 4, 2);
    assert forall c :: 0 <= c < 4 ==> pts[c][j] == boxes[n][j] || pts[c][j] == boxes[n][2 + j];
    AttainedLowerBound(pts, j, boxes[n][j], boxes[n][2 + j], 0, r[n][j]);
    AttainedUpperBound(pts, j, boxes[n][j], boxes[n][2 + j], 2, r[n][2 + j]);
  }

  /** The standup box of the corners `minmax_to_corner_2d_v2` lists is the
      box itself, for boxes with min <= max on both axes. */
  lemma StandupOfMinmaxCorners(boxes: seq<seq<real>>)
    requires IsMatrix(boxes, 4)
    requires forall n :: 0 <= n < |boxes| ==> boxes[n][0] <= boxes[n][2] && boxes[n][1] <= boxes[n][3]
    ensures CornerToStandupNd(MinmaxToCorner2dV2(boxes), 4, 2) == boxes
  {
    var r := CornerToStandupNd(MinmaxToCorner2dV2(boxes), 4, 2);
    forall n | 0 <= n < |boxes|
      ensures r[n] == boxes[n]
    {
      StandupOfMinmaxAxis(boxes, n, 0);
      StandupOfMinmaxAxis(boxes, n, 1);
    }
  }
}
