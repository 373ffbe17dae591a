/** Relative corners of axis-aligned boxes: `corners_nd`, `corners_2d_jit` and
    `corners_3d_jit`. A box of n dimensions has 2^n corners; corner c is built
    from a 0/1 "unit" vector u by scaling it with the box's dims after the
    origin has been subtracted: dims[d] * (u[d] - origin[d]). */
module BoxCorners {
  import opened Common

  /** 2^n: the number of corners of an n-dimensional box. */
  function Pow2(n: nat): (p: nat)
    ensures p >= 1
  {
    if n == 0 then 1 else 2 * Pow2(n - 1)
  }

  /** Binary digit k (0 = least significant) of c. */
  function Digit(c: nat, k: nat): (b: nat)
    ensures b == 0 || b == 1
  {
    if k == 0 then c % 2 else Digit(c / 2, k - 1)
  }

  lemma {:induction false} DigitOfZero(k: nat)
    ensures Digit(0, k) == 0
  {
    if k > 0 {
      DigitOfZero(k - 1);
    }
  }

  /** Every digit below n of 2^n - 1 is a one. */
  lemma {:induction false} DigitOfAllOnes(n: nat, k: nat)
    requires k < n
    ensures Digit(Pow2(n) - 1, k) == 1
  {
    if k > 0 {
      assert (Pow2(n) - 1) / 2 == Pow2(n - 1) - 1;
      DigitOfAllOnes(n - 1, k - 1);
    }
  }

  /** `np.stack(np.unravel_index(np.arange(2 ** ndim), [2] * ndim), axis=1)`:
      row c holds the ndim binary digits of c, most significant first. */
  function UnravelTable(ndim: nat): (t: seq<seq<real>>)
    requires ndim >= 1
    ensures |t| == Pow2(ndim) && IsMatrix(t, ndim)
  {
    seq(Pow2(ndim), c requires 0 <= c < Pow2(ndim) =>
      seq(ndim, d requires 0 <= d < ndim => Digit(c, ndim - 1 - d) as real))
  }

  /** The re-orderings `corners_nd` applies for 2-D and 3-D boxes, which walk
      the corners of every face in turn (clockwise in 2-D). */
  const Reorder2d: seq<nat> := [0, 1, 3, 2]
  const Reorder3d: seq<nat> := [0, 1, 3, 2, 4, 5, 7, 6]

  /** The unit table of `corners_nd` (`corners_norm` before the origin is
      subtracted). */
  function UnitCorners(ndim: nat): (t: seq<seq<real>>)
    requires ndim >= 1
    ensures |t| == Pow2(ndim) && IsMatrix(t, ndim)
  {
    if ndim == 2 then Select(UnravelTable(2), Reorder2d)
    else if ndim == 3 then Select(UnravelTable(3), Reorder3d)
    else UnravelTable(ndim)
  }

  /** Index of the unit corner whose every coordinate is one. */
  function FarCorner(ndim: nat): (c: nat)
    ensures c < Pow2(ndim)
  {
    if ndim == 2 then 2 else if ndim == 3 then 6 else Pow2(ndim) - 1
  }

  /** The unravelled table is a 0/1 table whose first row is all zeros and
      whose last row is all ones. */
  lemma UnravelTableExtremes(ndim: nat, last: nat)
    requires ndim >= 1 && last == Pow2(ndim) - 1
    ensures forall c, d :: 0 <= c < Pow2(ndim) && 0 <= d < ndim ==>
      UnravelTable(ndim)[c][d] == 0.0 || UnravelTable(ndim)[c][d] == 1.0
    ensures forall d :: 0 <= d < ndim ==> UnravelTable(ndim)[0][d] == 0.0
    ensures forall d :: 0 <= d < ndim ==> UnravelTable(ndim)[last][d] == 1.0
  {
    forall d | 0 <= d < ndim
      ensures UnravelTable(ndim)[0][d] == 0.0 && UnravelTable(ndim)[last][d] == 1.0
    {
      UnravelTableCorners(ndim, d);
    }
    var t := UnravelTable(ndim);
    forall c, d | 0 <= c < Pow2(ndim) && 0 <= d < ndim
      ensures t[c][d] == 0.0 || t[c][d] == 1.0
    {
      assert t[c][d] == Digit(c, ndim - 1 - d) as real;
    }
  }

  /** Column d of the first unravelled row is zero, of the last row one. */
  lemma UnravelTableCorners(ndim: nat, d: nat)
    requires d < ndim
    ensures UnravelTable(ndim)[0][d] == 0.0
    ensures UnravelTable(ndim)[Pow2(ndim) - 1][d] == 1.0
  {
    var t := UnravelTable(ndim);
    DigitOfZero(ndim - 1 - d);
    DigitOfAllOnes(ndim, ndim - 1 - d);
    assert t[0][d] == Digit(0, ndim - 1 - d) as real;
    assert t[Pow2(ndim) - 1][d] == Digit(Pow2(ndim) - 1, ndim - 1 - d) as real;
  }

  /** Re-ordering the rows of a 0/1 table by a permutation that keeps row 0
      first and moves the last row to position far keeps those extremes. */
  lemma ReorderedExtremes(t: seq<seq<real>>, ndim: nat, order: seq<nat>, last: nat, far: nat)
    requires |t| == |order| > 0 && IsMatrix(t, ndim)
    requires forall c :: 0 <= c < |order| ==> order[c] < |t|
    requires last == |t| - 1 && far < |order| && order[0] == 0 && order[far] == last
    requires forall c, d :: 0 <= c < |t| && 0 <= d < ndim ==> t[c][d] == 0.0 || t[c][d] == 1.0
    requires forall d :: 0 <= d < ndim ==> t[0][d] == 0.0
    requires forall d :: 0 <= d < ndim ==> t[last][d] == 1.0
    ensures forall c, d :: 0 <= c < |t| && 0 <= d < ndim ==>
      Select(t, order)[c][d] == 0.0 || Select(t, order)[c][d] == 1.0
    ensures forall d :: 0 <= d < ndim ==> Select(t, order)[0][d] == 0.0 && Select(t, order)[far][d] == 1.0
  {
    var u := Select(t, order);
    forall c, d | 0 <= c < |t| && 0 <= d < ndim
      ensures u[c][d] == 0.0 || u[c][d] == 1.0
    {
      assert u[c] == t[order[c]];
    }
  }

  /** The unit table is a 0/1 table whose first row is the all-zero corner and
      whose FarCorner row is the all-one corner. */
  lemma UnitCornersExtremes(ndim: nat)
    requires ndim >= 1
    ensures forall c, d :: 0 <= c < Pow2(ndim) && 0 <= d < ndim ==>
      UnitCorners(ndim)[c][d] == 0.0 || UnitCorners(ndim)[c][d] == 1.0
    ensures forall d :: 0 <= d < ndim ==> UnitCorners(ndim)[0][d] == 0.0
    ensures forall d :: 0 <= d < ndim ==> UnitCorners(ndim)[FarCorner(ndim)][d] == 1.0
  {
    var t := UnravelTable(ndim);
    UnravelTableExtremes(ndim, Pow2(ndim) - 1);
    if ndim == 2 {
      assert Pow2(1) == 2 && Pow2(2) == 4;
      assert UnitCorners(2) == Select(t, Reorder2d) && FarCorner(2) == 2;
      ReorderedExtremes(t, 2, Reorder2d, 3, 2);
    } else if ndim == 3 {
      assert Pow2(1) == 2 && Pow2(2) == 4 && Pow2(3) == 8;
      assert UnitCorners(3) == Select(t, Reorder3d) && FarCorner(3) == 6;
      ReorderedExtremes(t, 3, Reorder3d, 7, 6);
    } else {
      assert UnitCorners(ndim) == t && FarCorner(ndim) == Pow2(ndim) - 1;
    }
  }

  /** `dims.reshape([-1, 1, ndim]) * (table - origin).reshape([1, 2 ** ndim, ndim])`,
      the broadcast product shared by all three corner functions. */
  function ScaleTable(dims: seq<seq<real>>, table: seq<seq<real>>, origin: seq<real>): (r: seq<seq<seq<real>>>)
    requires IsMatrix(dims, |origin|) && IsMatrix(table, |origin|)
    ensures |r| == |dims| && IsCube(r, |table|, |origin|)
  {
    seq(|dims|, n requires 0 <= n < |dims| =>
      seq(|table|, c requires 0 <= c < |table| =>
        seq(|origin|, d requires 0 <= d < |origin| => dims[n][d] * (table[c][d] - origin[d]))))
  }

  /** Scaling a 0/1 table puts every coordinate on the low face -origin*dim
      or on the high face (1-origin)*dim of its axis. */
  lemma ScaleTableFaces(dims: seq<seq<real>>, table: seq<seq<real>>, origin: seq<real>)
    requires IsMatrix(dims, |origin|) && IsMatrix(table, |origin|)
    requires forall c, d :: 0 <= c < |table| && 0 <= d < |origin| ==>
      table[c][d] == 0.0 || table[c][d] == 1.0
    ensures forall n, c, d :: 0 <= n < |dims| && 0 <= c < |table| && 0 <= d < |origin| ==>
      var v := ScaleTable(dims, table, origin)[n][c][d];
      if table[c][d] == 0.0 then v == -origin[d] * dims[n][d]
      else v == (1.0 - origin[d]) * dims[n][d]
  {
    var r := ScaleTable(dims, table, origin);
    forall n, c, d | 0 <= n < |dims| && 0 <= c < |table| && 0 <= d < |origin|
      ensures if table[c][d] == 0.0 then r[n][c][d] == -origin[d] * dims[n][d]
              else r[n][c][d] == (1.0 - origin[d]) * dims[n][d]
    {
      assert r[n][c][d] == dims[n][d] * (table[c][d] - origin[d]);
    }
  }

  /** `corners_nd(dims, origin)` for an [N, ndim] array of dims and a
      per-axis origin: the unit corner table scaled by each row of dims and
      shifted by -origin * dims. */
  function CornersNd(dims: seq<seq<real>>, ndim: nat, origin: seq<real>): (r: seq<seq<seq<real>>>)
    requires ndim >= 1 && IsMatrix(dims, ndim) && |origin| == ndim
    ensures |r| == |dims| && IsCube(r, Pow2(ndim), ndim)
  {
    ScaleTable(dims, UnitCorners(ndim), origin)
  }

  /** Every coordinate of every corner `corners_nd` builds lies on the low
      face -origin*dim or on the high face (1-origin)*dim of its axis;
      corner 0 is the low corner and FarCorner the high one. */
  lemma CornersNdFaces(dims: seq<seq<real>>, ndim: nat, origin: seq<real>)
    requires ndim >= 1 && IsMatrix(dims, ndim) && |origin| == ndim
    ensures var r := CornersNd(dims, ndim, origin);
      forall n, c, d :: 0 <= n < |dims| && 0 <= c < Pow2(ndim) && 0 <= d < ndim ==>
        r[n][c][d] == -origin[d] * dims[n][d] || r[n][c][d] == (1.0 - origin[d]) * dims[n][d]
    ensures var r := CornersNd(dims, ndim, origin);
      forall n, d :: 0 <= n < |dims| && 0 <= d < ndim ==>
        r[n][0][d] == -origin[d] * dims[n][d] &&
        r[n][FarCorner(ndim)][d] == (1.0 - origin[d]) * dims[n][d]
  {
    UnitCornersExtremes(ndim);
    ScaleTableFaces(dims, UnitCorners(ndim), origin);
  }

  /** The literal table of `corners_2d_jit`. */
  const Unit2dJit: seq<seq<real>> := [[0.0, 0.0], [0.0, 1.0], [1.0, 1.0], [1.0, 0.0]]

  /** `corners_2d_jit(dims, origin)`. */
  function Corners2dJit(dims: seq<seq<real>>, origin: seq<real>): (r: seq<seq<seq<real>>>)
    requires IsMatrix(dims, 2) && |origin| == 2
    ensures |r| == |dims| && IsCube(r, 4, 2)
  {
    ScaleTable(dims, Unit2dJit, origin)
  }

  /** The flat literal of `corners_3d_jit`, reshaped to (8, 3). */
  const Flat3dJit: seq<real> :=
    [0.0, 0.0, 0.0, 0.0, 0.0, 1.0, 0.0, 1.0, 0.0, 0.0, 1.0, 1.0,
     1.0, 0.0, 0.0, 1.0, 0.0, 1.0, 1.0, 1.0, 0.0, 1.0, 1.0, 1.0]

  /** `corners_3d_jit(dims, origin)`. */
  function Corners3dJit(dims: seq<seq<real>>, origin: seq<real>): (r: seq<seq<seq<real>>>)
    requires IsMatrix(dims, 3) && |origin| == 3
    ensures |r| == |dims| && IsCube(r, 8, 3)
  {
    ScaleTable(dims, Select(Reshape(Flat3dJit, 8, 3), Reorder3d), origin)
  }

  /** After the [0, 1, 3, 2] re-ordering the 2-D unit corners run clockwise
      from the minimum: (0,0), (0,1), (1,1), (1,0). */
  lemma UnitCorners2dClockwise()
    ensures UnitCorners(2) == Unit2dJit
  {
    var t := UnravelTable(2);
    assert t[0] == [0.0, 0.0];
    assert t[1] == [0.0, 1.0];
    assert t[2] == [1.0, 0.0];
    assert t[3] == [1.0, 1.0];
  }

  /** The 3-D unravelled table, written out. */
  const Unravel3: seq<seq<real>> :=
    [[0.0, 0.0, 0.0], [0.0, 0.0, 1.0], [0.0, 1.0, 0.0], [0.0, 1.0, 1.0],
     [1.0, 0.0, 0.0], [1.0, 0.0, 1.0], [1.0, 1.0, 0.0], [1.0, 1.0, 1.0]]

  lemma UnravelTable3Rows()
    ensures UnravelTable(3) == Unravel3
  {
    var t := UnravelTable(3);
    assert t[0] == Unravel3[0] && t[1] == Unravel3[1];
    assert t[2] == Unravel3[2] && t[3] == Unravel3[3];
    assert t[4] == Unravel3[4] && t[5] == Unravel3[5];
    assert t[6] == Unravel3[6] && t[7] == Unravel3[7];
  }

  lemma Flat3dJitRows()
    ensures Reshape(Flat3dJit, 8, 3) == Unravel3
  {
    var u := Reshape(Flat3dJit, 8, 3);
    assert u[0] == Unravel3[0] && u[1] == Unravel3[1];
    assert u[2] == Unravel3[2] && u[3] == Unravel3[3];
    assert u[4] == Unravel3[4] && u[5] == Unravel3[5];
    assert u[6] == Unravel3[6] && u[7] == Unravel3[7];
  }

  /** The literal of `corners_3d_jit` is the unravelled 3-D table. */
  lemma Flat3dJitIsUnravelTable()
    ensures Reshape(Flat3dJit, 8, 3) == UnravelTable(3)
  {
    UnravelTable3Rows();
    Flat3dJitRows();
  }

  /** `corners_2d_jit` computes exactly what `corners_nd` computes for 2-D dims. */
  lemma Corners2dJitAgrees(dims: seq<seq<real>>, origin: seq<real>)
    requires IsMatrix(dims, 2) && |origin| == 2
    ensures Corners2dJit(dims, origin) == CornersNd(dims, 2, origin)
  {
    UnitCorners2dClockwise();
  }

  /** `corners_3d_jit` computes exactly what `corners_nd` computes for 3-D dims. */
  lemma Corners3dJitAgrees(dims: seq<seq<real>>, origin: seq<real>)
    requires IsMatrix(dims, 3) && |origin| == 3
    ensures Corners3dJit(dims, origin) == CornersNd(dims, 3, origin)
  {
    Flat3dJitIsUnravelTable();
  }
}
