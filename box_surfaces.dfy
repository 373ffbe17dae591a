/** Surfaces of 3-D boxes: `corner_to_surfaces_3d` and its loop version
    `corner_to_surfaces_3d_jit`. Each of a box's six surfaces is a list of
    four of its eight corners, in the corner order of `corners_nd`. */
module BoxSurfaces {
  import opened Common
  import opened BoxCorners

  /** The corner lists of `corner_to_surfaces_3d`, one row per surface. */
  const SurfaceRows: seq<seq<nat>> :=
    [[0, 1, 2, 3], [7, 6, 5, 4], [0, 3, 7, 4], [1, 5, 6, 2], [0, 4, 5, 1], [3, 2, 6, 7]]

  /** The flat `corner_idxes` literal of `corner_to_surfaces_3d_jit`,
      reshaped there to (6, 4). */
  const FlatCornerIdxes: seq<nat> :=
    [0, 1, 2, 3, 7, 6, 5, 4, 0, 3, 7, 4, 1, 5, 6, 2, 0, 4, 5, 1, 3, 2, 6, 7]

  /** The table of the loop version is the row list of the array version. */
  lemma CornerIdxesAreSurfaceRows()
    ensures Reshape(FlatCornerIdxes, 6, 4) == SurfaceRows
  {
    var t := Reshape(FlatCornerIdxes, 6, 4);
    assert t[0] == SurfaceRows[0];
    assert t[1] == SurfaceRows[1];
    assert t[2] == SurfaceRows[2];
    assert t[3] == SurfaceRows[3];
    assert t[4] == SurfaceRows[4];
    assert t[5] == SurfaceRows[5];
  }

  /** `corner_to_surfaces_3d(corners)` for an [N, 8, 3] array of corners:
      an [N, 6, 4, 3] array whose every surface point is one of the eight
      corners of its own box. */
  function CornerToSurfaces3d(corners: seq<seq<seq<real>>>): (r: seq<seq<seq<seq<real>>>>)
    requires IsCube(corners, 8, 3)
    ensures |r| == |corners|
    ensures forall n :: 0 <= n < |r| ==> |r[n]| == 6 && IsCube(r[n], 4, 3)
    ensures forall n, j, k :: 0 <= n < |corners| && 0 <= j < 6 && 0 <= k < 4 ==>
      |r[n][j]| == 4 && r[n][j][k] in corners[n]
  {
    SurfacesListFourCorners();
    seq(|corners|, n requires 0 <= n < |corners| =>
      seq(6, j requires 0 <= j < 6 =>
        seq(4, k requires 0 <= k < 4 => corners[n][SurfaceRows[j][k]])))
  }

  /** `corner_to_surfaces_3d_jit(corners)`: a triple loop that fills a fresh
      [N, 6, 4] array of corner vectors from the flat index table; it yields
      what `corner_to_surfaces_3d` yields. */
  method CornerToSurfaces3dJit(corners: seq<seq<seq<real>>>) returns (surfaces: array3<seq<real>>)
    requires IsCube(corners, 8, 3)
    ensures surfaces.Length0 == |corners| && surfaces.Length1 == 6 && surfaces.Length2 == 4
    ensures forall i, j, k :: 0 <= i < |corners| && 0 <= j < 6 && 0 <= k < 4 ==>
      surfaces[i, j, k] == CornerToSurfaces3d(corners)[i][j][k]
  {
    var numBoxes := |corners|;
    surfaces := new seq<real>[numBoxes, 6, 4]((_, _, _) => [0.0, 0.0, 0.0]);
    var cornerIdxes := Reshape(FlatCornerIdxes, 6, 4);
    CornerIdxesTable();
    for i := 0 to numBoxes
      invariant SurfacesFilled(surfaces, corners, cornerIdxes, i, 0, 0)
    {
      for j := 0 to 6
        invariant SurfacesFilled(surfaces, corners, cornerIdxes, i, j, 0)
      {
        FillSurface(surfaces, corners, cornerIdxes, i, j);
      }
    }
    FilledSurfacesAreSpec(surfaces, corners);
  }

  /** The innermost loop of `corner_to_surfaces_3d_jit`: the four corners of
      surface j of box i. */
  method FillSurface(surfaces: array3<seq<real>>, corners: seq<seq<seq<real>>>, idx: seq<seq<nat>>, i: nat, j: nat)
    requires IsCube(corners, 8, 3) && IsCornerTable(idx)
    requires surfaces.Length0 == |corners| && surfaces.Length1 == 6 && surfaces.Length2 == 4
    requires i < |corners| && j < 6 && SurfacesFilled(surfaces, corners, idx, i, j, 0)
    modifies surfaces
    ensures SurfacesFilled(surfaces, corners, idx, i, j + 1, 0)
    ensures forall i', j', k' :: 0 <= i' < |corners| && 0 <= j' < 6 && 0 <= k' < 4 &&
                                 (i' > i || (i' == i && j' > j)) ==>
      surfaces[i', j', k'] == old(surfaces[i', j', k'])
  {
    for k := 0 to 4
      invariant SurfacesFilled(surfaces, corners, idx, i, j, k)
      invariant forall i', j', k' :: 0 <= i' < |corners| && 0 <= j' < 6 && 0 <= k' < 4 &&
                                     (i' > i || (i' == i && j' > j)) ==>
        surfaces[i', j', k'] == old(surfaces[i', j', k'])
    {
      surfaces[i, j, k] := corners[i][idx[j][k]];
    }
  }

  lemma CornerIdxesTable()
    ensures IsCornerTable(Reshape(FlatCornerIdxes, 6, 4))
  {
    CornerIdxesAreSurfaceRows();
    SurfacesListFourCorners();
  }

  /** A completely filled array holds `corner_to_surfaces_3d(corners)`. */
  lemma FilledSurfacesAreSpec(surfaces: array3<seq<real>>, corners: seq<seq<seq<real>>>)
    requires IsCube(corners, 8, 3)
    requires surfaces.Length0 == |corners| && surfaces.Length1 == 6 && surfaces.Length2 == 4
    requires IsCornerTable(Reshape(FlatCornerIdxes, 6, 4))
    requires SurfacesFilled(surfaces, corners, Reshape(FlatCornerIdxes, 6, 4), |corners|, 0, 0)
    ensures forall i, j, k :: 0 <= i < |corners| && 0 <= j < 6 && 0 <= k < 4 ==>
      surfaces[i, j, k] == CornerToSurfaces3d(corners)[i][j][k]
  {
    CornerIdxesAreSurfaceRows();
  }

  /** Six rows of four indices of the eight corners. */
  predicate IsCornerTable(idx: seq<seq<nat>>)
  {
    |idx| == 6 && IsMatrix(idx, 4) && forall j, k :: 0 <= j < 6 && 0 <= k < 4 ==> idx[j][k] < 8
  }

  /** Every entry (i', j', k') before (i, j, k) in loop order holds corner
      idx[j'][k'] of box i'. */
  predicate SurfacesFilled(surfaces: array3<seq<real>>, corners: seq<seq<seq<real>>>, idx: seq<seq<nat>>, i: nat, j: nat, k: nat)
    requires IsCube(corners, 8, 3) && IsCornerTable(idx)
    requires surfaces.Length0 == |corners| && surfaces.Length1 == 6 && surfaces.Length2 == 4
    reads surfaces
  {
    forall i', j', k' :: 0 <= i' < |corners| && 0 <= j' < 6 && 0 <= k' < 4 &&
                         (i' < i || (i' == i && (j' < j || (j' == j && k' < k)))) ==>
      surfaces[i', j', k'] == corners[i'][idx[j'][k']]
  }

  /** Number of rows of `rows` that list corner c. */
  function Occurrences(c: nat, rows: seq<seq<nat>>): (count: nat)
    ensures count <= |rows|
  {
    if rows == [] then 0
    else (if c in rows[0] then 1 else 0) + Occurrences(c, rows[1..])
  }

  lemma OccurrencesInSurfaceRows(c: nat)
    ensures Occurrences(c, SurfaceRows) ==
      (if c in SurfaceRows[0] then 1 else 0) + (if c in SurfaceRows[1] then 1 else 0) +
      (if c in SurfaceRows[2] then 1 else 0) + (if c in SurfaceRows[3] then 1 else 0) +
      (if c in SurfaceRows[4] then 1 else 0) + (if c in SurfaceRows[5] then 1 else 0)
  {
    var r: seq<seq<nat>> := SurfaceRows;
    assert Occurrences(c, r[6..]) == 0;
    assert Occurrences(c, r[5..]) == (if c in r[5] then 1 else 0) + Occurrences(c, r[6..]);
    assert Occurrences(c, r[4..]) == (if c in r[4] then 1 else 0) + Occurrences(c, r[5..]);
    assert Occurrences(c, r[3..]) == (if c in r[3] then 1 else 0) + Occurrences(c, r[4..]);
    assert Occurrences(c, r[2..]) == (if c in r[2] then 1 else 0) + Occurrences(c, r[3..]);
    assert Occurrences(c, r[1..]) == (if c in r[1] then 1 else 0) + Occurrences(c, r[2..]);
  }

  /** Four pairwise different entries. */
  predicate Distinct4(s: seq<nat>)
  {
    |s| == 4 && s[0] != s[1] && s[0] != s[2] && s[0] != s[3] &&
    s[1] != s[2] && s[1] != s[3] && s[2] != s[3]
  }

  /** Each surface lists four distinct corners of the eight. */
  lemma SurfacesListFourCorners()
    ensures forall j :: 0 <= j < 6 ==> Distinct4(SurfaceRows[j]) && forall k :: 0 <= k < 4 ==> SurfaceRows[j][k] < 8
  {
    forall j | 0 <= j < 6
      ensures Distinct4(SurfaceRows[j]) && forall k :: 0 <= k < 4 ==> SurfaceRows[j][k] < 8
    {
      if j == 0 {} else if j == 1 {} else if j == 2 {} else if j == 3 {} else if j == 4 {} else {}
    }
  }

  /** Each corner c of the eight belongs to exactly three of the six surfaces. */
  lemma CornerInThreeSurfaces(c: nat)
    requires c < 8
    ensures Occurrences(c, SurfaceRows) == 3
  {
    OccurrencesInSurfaceRows(c);
    var r: seq<seq<nat>> := SurfaceRows;
    if c == 0 {
      assert c in r[0] && c !in r[1] && c in r[2] && c !in r[3] && c in r[4] && c !in r[5];
    } else if c == 1 {
      assert c in r[0] && c !in r[1] && c !in r[2] && c in r[3] && c in r[4] && c !in r[5];
    } else if c == 2 {
      assert c in r[0] && c !in r[1] && c !in r[2] && c in r[3] && c !in r[4] && c in r[5];
    } else if c == 3 {
      assert c in r[0] && c !in r[1] && c in r[2] && c !in r[3] && c !in r[4] && c in r[5];
    } else if c == 4 {
      assert c !in r[0] && c in r[1] && c in r[2] && c !in r[3] && c in r[4] && c !in r[5];
    } else if c == 5 {
      assert c !in r[0] && c in r[1] && c !in r[2] && c in r[3] && c in r[4] && c !in r[5];
    } else if c == 6 {
      assert c !in r[0] && c in r[1] && c !in r[2] && c in r[3] && c !in r[4] && c in r[5];
    } else {
      assert c !in r[0] && c in r[1] && c in r[2] && c !in r[3] && c !in r[4] && c in r[5];
    }
  }

  /** The axis each surface is perpendicular to, and on which of the two
      faces of that axis (0 = low, 1 = high) it lies. */
  const FaceAxis: seq<nat> := [0, 0, 2, 2, 1, 1]
  const FaceSide: seq<real> := [0.0, 1.0, 0.0, 1.0, 0.0, 1.0]

  function Cross(a: seq<real>, b: seq<real>): (r: seq<real>)
    requires |a| == 3 && |b| == 3
    ensures |r| == 3
  {
    [a[1] * b[2] - a[2] * b[1], a[2] * b[0] - a[0] * b[2], a[0] * b[1] - a[1] * b[0]]
  }

  function Minus(a: seq<real>, b: seq<real>): (r: seq<real>)
    requires |a| == 3 && |b| == 3
    ensures |r| == 3
  {
    [a[0] - b[0], a[1] - b[1], a[2] - b[2]]
  }

  /** Coordinate d of the outward unit normal of surface j on the unit box. */
  function NormalEntry(j: nat, d: nat): real
    requires j < 6
  {
    if d == FaceAxis[j] then (if FaceSide[j] == 0.0 then -1.0 else 1.0) else 0.0
  }

  /** The outward unit normal of surface j on the unit box. */
  function OutwardNormal(j: nat): (v: seq<real>)
    requires j < 6
    ensures |v| == 3
  {
    [NormalEntry(j, 0), NormalEntry(j, 1), NormalEntry(j, 2)]
  }

  /** The 3-D unit corners of `corners_nd`, written out. */
  const Unit3d: seq<seq<real>> :=
    [[0.0, 0.0, 0.0], [0.0, 0.0, 1.0], [0.0, 1.0, 1.0], [0.0, 1.0, 0.0],
     [1.0, 0.0, 0.0], [1.0, 0.0, 1.0], [1.0, 1.0, 1.0], [1.0, 1.0, 0.0]]

  lemma UnitCorners3dTable()
    ensures UnitCorners(3) == Unit3d
  {
    var u, t := UnitCorners(3), UnravelTable(3);
    Flat3dJitIsUnravelTable();
    assert u == Select(t, Reorder3d);
    forall c | 0 <= c < 8 ensures u[c] == Unit3d[c] {
      assert u[c] == t[Reorder3d[c]];
    }
  }

  /** Cross product of the edge arriving at corner k+1 of surface j and the
      edge leaving it, on the unit box. */
  function TurnNormal(j: nat, k: nat): (v: seq<real>)
    requires j < 6 && k < 4
    ensures |v| == 3
  {
    var p := Unit3d[SurfaceRows[j][k]];
    var q := Unit3d[SurfaceRows[j][(k + 1) % 4]];
    var s := Unit3d[SurfaceRows[j][(k + 2) % 4]];
    Cross(Minus(q, p), Minus(s, q))
  }

  lemma TurnNormalIsOutward(j: nat)
    requires j < 6
    ensures forall k :: 0 <= k < 4 ==> TurnNormal(j, k) == OutwardNormal(j)
  {
    forall k | 0 <= k < 4 ensures TurnNormal(j, k) == OutwardNormal(j) {
      TurnNormalAt(j, k);
    }
  }

  lemma TurnNormalAt(j: nat, k: nat)
    requires j < 6 && k < 4
    ensures TurnNormal(j, k) == OutwardNormal(j)
  {
    var r := SurfaceRows[j];
    if j == 0 {
      assert r == [0, 1, 2, 3];
    } else if j == 1 {
      assert r == [7, 6, 5, 4];
    } else if j == 2 {
      assert r == [0, 3, 7, 4];
    } else if j == 3 {
      assert r == [1, 5, 6, 2];
    } else if j == 4 {
      assert r == [0, 4, 5, 1];
    } else {
      assert r == [3, 2, 6, 7];
    }
    if k == 0 {
      assert (k + 1) % 4 == 1 && (k + 2) % 4 == 2;
    } else if k == 1 {
      assert (k + 1) % 4 == 2 && (k + 2) % 4 == 3;
    } else if k == 2 {
      assert (k + 1) % 4 == 3 && (k + 2) % 4 == 0;
    } else {
      assert (k + 1) % 4 == 0 && (k + 2) % 4 == 1;
    }
  }

  /** On the unit box of `corners_nd`, surface j lies in the face
      FaceAxis[j] = FaceSide[j], the six surfaces are the six distinct faces,
      and every surface is wound the same way: at each corner the cross
      product of the arriving and the leaving edge is the outward normal (so
      the product taken in the opposite order is the inward normal). */
  lemma SurfacesAreWoundFaces()
    ensures forall j, k :: 0 <= j < 6 && 0 <= k < 4 ==>
      UnitCorners(3)[SurfaceRows[j][k]][FaceAxis[j]] == FaceSide[j]
    ensures forall j, j' :: 0 <= j < j' < 6 ==> FaceAxis[j] != FaceAxis[j'] || FaceSide[j] != FaceSide[j']
    ensures forall j, k :: 0 <= j < 6 && 0 <= k < 4 ==> TurnNormal(j, k) == OutwardNormal(j)
  {
    UnitCorners3dTable();
    forall j, k | 0 <= j < 6 && 0 <= k < 4
      ensures Unit3d[SurfaceRows[j][k]][FaceAxis[j]] == FaceSide[j]
    {
      if j == 0 {} else if j == 1 {} else if j == 2 {} else if j == 3 {} else if j == 4 {} else {}
    }
    forall j | 0 <= j < 6 ensures forall k :: 0 <= k < 4 ==> TurnNormal(j, k) == OutwardNormal(j) {
      TurnNormalIsOutward(j);
    }
  }
}
