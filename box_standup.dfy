/** Axis-aligned ("standup") boxes around corner sets: `corner_to_standup_nd`
    and its loop version `corner_to_standup_nd_jit`. A standup box of an
    ndim-dimensional corner set is the row [min_0 .. min_{ndim-1},
    max_0 .. max_{ndim-1}]. */
module BoxStandup {
  import opened Common
  import opened BoxCorners

  /** Some point has coordinate j equal to v. */
  predicate Attained(pts: seq<seq<real>>, j: nat, v: real)
  {
    exists c :: 0 <= c < |pts| && j < |pts[c]| && v == pts[c][j]
  }

  /** `np.min(pts[:, j])`: the smallest coordinate j among the points; numpy
      raises on an empty list, hence the requires. */
  function MinAlong(pts: seq<seq<real>>, j: nat): (m: real)
    requires |pts| > 0 && forall c :: 0 <= c < |pts| ==> j < |pts[c]|
    ensures forall c :: 0 <= c < |pts| ==> m <= pts[c][j]
    ensures Attained(pts, j, m)
  {
    if |pts| == 1 then pts[0][j]
    else
      var rest := MinAlong(pts[..|pts| - 1], j);
      assert forall c :: 0 <= c < |pts| - 1 ==> pts[..|pts| - 1][c] == pts[c];
      Min(rest, pts[|pts| - 1][j])
  }

  /** `np.max(pts[:, j])`: the largest coordinate j among the points. */
  function MaxAlong(pts: seq<seq<real>>, j: nat): (m: real)
    requires |pts| > 0 && forall c :: 0 <= c < |pts| ==> j < |pts[c]|
    ensures forall c :: 0 <= c < |pts| ==> m >= pts[c][j]
    ensures Attained(pts, j, m)
  {
    if |pts| == 1 then pts[0][j]
    else
      var rest := MaxAlong(pts[..|pts| - 1], j);
      assert forall c :: 0 <= c < |pts| - 1 ==> pts[..|pts| - 1][c] == pts[c];
      Max(rest, pts[|pts| - 1][j])
  }

  /** `corner_to_standup_nd(boxes_corner)` for an [N, p, ndim] array of
      corners: the per-axis minima of each box, then its per-axis maxima.
      Each bound holds against every corner and is attained by one. */
  function CornerToStandupNd(boxes: seq<seq<seq<real>>>, p: nat, ndim: nat): (r: seq<seq<real>>)
    requires p > 0 && IsCube(boxes, p, ndim)
    ensures |r| == |boxes| && IsMatrix(r, 2 * ndim)
    ensures forall i, j, c :: 0 <= i < |boxes| && 0 <= j < ndim && 0 <= c < p ==>
      r[i][j] <= boxes[i][c][j] <= r[i][j + ndim]
    ensures forall i, j :: 0 <= i < |boxes| && 0 <= j < ndim ==>
      Attained(boxes[i], j, r[i][j]) && Attained(boxes[i], j, r[i][j + ndim])
  {
    seq(|boxes|, i requires 0 <= i < |boxes| =>
      seq(ndim, j requires 0 <= j < ndim => MinAlong(boxes[i], j)) +
      seq(ndim, j requires 0 <= j < ndim => MaxAlong(boxes[i], j)))
  }

  /** `corner_to_standup_nd_jit(boxes_corner)`: fills a fresh
      [N, 2 * ndim] array box by box, minima first, then maxima; it yields
      what `corner_to_standup_nd` yields. */
  method CornerToStandupNdJit(boxes: seq<seq<seq<real>>>, p: nat, ndim: nat) returns (result: array2<real>)
    requires p > 0 && IsCube(boxes, p, ndim)
    ensures result.Length0 == |boxes| && result.Length1 == 2 * ndim
    ensures forall i, j :: 0 <= i < |boxes| && 0 <= j < 2 * ndim ==>
      result[i, j] == CornerToStandupNd(boxes, p, ndim)[i][j]
  {
    result := new real[|boxes|, 2 * ndim]((_, _) => 0.0);
    ghost var spec := CornerToStandupNd(boxes, p, ndim);
    for i := 0 to |boxes|
      invariant forall i', j :: 0 <= i' < i && 0 <= j < 2 * ndim ==> result[i', j] == spec[i'][j]
    {
      for j := 0 to ndim
        invariant forall i', j' :: 0 <= i' < i && 0 <= j' < 2 * ndim ==> result[i', j'] == spec[i'][j']
        invariant forall j' :: 0 <= j' < j ==> result[i, j'] == spec[i][j']
      {
        result[i, j] := MinAlong(boxes[i], j);
      }
      for j := 0 to ndim
        invariant forall i', j' :: 0 <= i' < i && 0 <= j' < 2 * ndim ==> result[i', j'] == spec[i'][j']
        invariant forall j' :: 0 <= j' < ndim + j ==> result[i, j'] == spec[i][j']
      {
        result[i, j + ndim] := MaxAlong(boxes[i], j);
      }
    }
  }

  /** On an axis where every point is at lo or hi and lo occurs, a lower
      bound that some point attains is lo. */
  lemma AttainedLowerBound(pts: seq<seq<real>>, j: nat, lo: real, hi: real, a: nat, m: real)
    requires forall c :: 0 <= c < |pts| ==> j < |pts[c]| && (pts[c][j] == lo || pts[c][j] == hi)
    requires lo <= hi && a < |pts| && pts[a][j] == lo
    requires forall c :: 0 <= c < |pts| ==> m <= pts[c][j]
    requires Attained(pts, j, m)
    ensures m == lo
  {
    var c :| 0 <= c < |pts| && j < |pts[c]| && m == pts[c][j];
    assert m <= pts[a][j];
  }

  /** The mirror image of AttainedLowerBound for an attained upper bound. */
  lemma AttainedUpperBound(pts: seq<seq<real>>, j: nat, lo: real, hi: real, b: nat, m: real)
    requires forall c :: 0 <= c < |pts| ==> j < |pts[c]| && (pts[c][j] == lo || pts[c][j] == hi)
    requires lo <= hi && b < |pts| && pts[b][j] == hi
    requires forall c :: 0 <= c < |pts| ==> m >= pts[c][j]
    requires Attained(pts, j, m)
    ensures m == hi
  {
    var c :| 0 <= c < |pts| && j < |pts[c]| && m == pts[c][j];
    assert m >= pts[b][j];
  }

  /** Along axis d, the standup box of the corners `corners_nd` builds for
      a non-negative dim runs from -origin * dim to (1 - origin) * dim. */
  lemma StandupAxisOfCornersNd(dims: seq<seq<real>>, ndim: nat, origin: seq<real>, n: nat, d: nat)
    requires IsMatrix(dims, ndim) && |origin| == ndim && n < |dims| && d < ndim
    requires dims[n][d] >= 0.0
    ensures var r := CornerToStandupNd(CornersNd(dims, ndim, origin), Pow2(ndim), ndim);
      r[n][d] == -origin[d] * dims[n][d] && r[n][d + ndim] == (1.0 - origin[d]) * dims[n][d]
  {
    CornersNdFaces(dims, ndim, origin);
    var corners := CornersNd(dims, ndim, origin);
    var r := CornerToStandupNd(corners, Pow2(ndim), ndim);
    var lo, hi := -origin[d] * dims[n][d], (1.0 - origin[d]) * dims[n][d];
    assert hi - lo == dims[n][d];
    AttainedLowerBound(corners[n], d, lo, hi, 0, r[n][d]);
    AttainedUpperBound(corners[n], d, lo, hi, FarCorner(ndim), r[n][d + ndim]);
  }

  /** The standup box of the corners `corners_nd` produces for non-negative
      dims is [-origin * dims, (1 - origin) * dims]. */
  lemma StandupOfCornersNd(dims: seq<seq<real>>, ndim: nat, origin: seq<real>, n: nat)
    requires ndim >= 1 && IsMatrix(dims, ndim) && |origin| == ndim && n < |dims|
    requires forall d :: 0 <= d < ndim ==> dims[n][d] >= 0.0
    ensures var r := CornerToStandupNd(CornersNd(dims, ndim, origin), Pow2(ndim), ndim);
      forall d :: 0 <= d < ndim ==>
        r[n][d] == -origin[d] * dims[n][d] && r[n][d + ndim] == (1.0 - origin[d]) * dims[n][d]
  {
    var r := CornerToStandupNd(CornersNd(dims, ndim, origin), Pow2(ndim), ndim);
    forall d | 0 <= d < ndim
      ensures r[n][d] == -origin[d] * dims[n][d] && r[n][d + ndim] == (1.0 - origin[d]) * dims[n][d]
    {
      StandupAxisOfCornersNd(dims, ndim, origin, n, d);
    }
  }
}
