/** `_add_rgb_to_points_kernel`: every projected point that falls on the image
    takes the colour of the pixel it falls in; the colour rows of the other
    points are left as they were. */
module PointColour {
  import opened Common

  /** A pixel position: row y, column x. */
  datatype Pos = Pos(y: nat, x: nat)

  /** The pixel `floor(p)` names when it lies on an image of h rows and w
      columns: exactly when the point itself lies in [0, w) x [0, h), and
      then the pixel is the unit square that contains it. */
  function Pixel(p: seq<real>, h: nat, w: nat): (r: Option<Pos>)
    requires |p| >= 2
    ensures r.Some? <==> 0.0 <= p[0] < w as real && 0.0 <= p[1] < h as real
    ensures r.Some? ==> r.value.y < h && r.value.x < w
    ensures r.Some? ==> r.value.x as real <= p[0] < r.value.x as real + 1.0
    ensures r.Some? ==> r.value.y as real <= p[1] < r.value.y as real + 1.0
  {
    var x, y := p[0].Floor, p[1].Floor;
    if 0 <= x < w && 0 <= y < h then Some(Pos(y, x)) else None
  }

  /** Rows of at least two coordinates (u, v). */
  predicate IsPoints(points: seq<seq<real>>)
  {
    forall i :: 0 <= i < |points| ==> |points[i]| >= 2
  }

  /** An image of shape [h, w, k]. */
  predicate IsImage(image: seq<seq<seq<real>>>, h: nat, w: nat, k: nat)
  {
    |image| == h && IsCube(image, w, k)
  }

  /** The colour rows after the kernel has handled points 0..n-1 in turn,
      starting from `rows`: a row is replaced by its pixel's colour when its
      point lies on the image, and is otherwise what it was. */
  function ColourPrefix(rows: seq<seq<real>>, points: seq<seq<real>>, image: seq<seq<seq<real>>>, h: nat, w: nat, k: nat, n: nat): (r: seq<seq<real>>)
    requires IsMatrix(rows, k) && IsPoints(points) && IsImage(image, h, w, k)
    requires n <= |points| <= |rows|
    ensures |r| == |rows| && IsMatrix(r, k)
    ensures forall i :: 0 <= i < |rows| && i < n && Pixel(points[i], h, w).Some? ==>
      r[i] == image[Pixel(points[i], h, w).value.y][Pixel(points[i], h, w).value.x]
    ensures forall i :: 0 <= i < |rows| && !(i < n && Pixel(points[i], h, w).Some?) ==> r[i] == rows[i]
  {
    if n == 0 then rows
    else
      var prev := ColourPrefix(rows, points, image, h, w, k, n - 1);
      match Pixel(points[n - 1], h, w)
      case None => prev
      case Some(p) => prev[n - 1 := image[p.y][p.x]]
  }

  /** Colouring is idempotent: running the kernel a second time on its own
      output changes nothing. */
  lemma ColourIdempotent(rows: seq<seq<real>>, points: seq<seq<real>>, image: seq<seq<seq<real>>>, h: nat, w: nat, k: nat)
    requires IsMatrix(rows, k) && IsPoints(points) && IsImage(image, h, w, k)
    requires |points| <= |rows|
    ensures var once := ColourPrefix(rows, points, image, h, w, k, |points|);
      ColourPrefix(once, points, image, h, w, k, |points|) == once
  {
    var once := ColourPrefix(rows, points, image, h, w, k, |points|);
    var twice := ColourPrefix(once, points, image, h, w, k, |points|);
    forall i | 0 <= i < |rows| ensures twice[i] == once[i] {
    }
  }

  /** The outcome depends on the starting rows only at points off the image:
      two runs from rows that agree wherever a point lies off the image end
      equal. */
  lemma ColourForgetsCoveredRows(rows: seq<seq<real>>, rows': seq<seq<real>>, points: seq<seq<real>>, image: seq<seq<seq<real>>>, h: nat, w: nat, k: nat)
    requires IsMatrix(rows, k) && IsMatrix(rows', k) && IsPoints(points) && IsImage(image, h, w, k)
    requires |points| <= |rows| == |rows'|
    requires forall i :: 0 <= i < |rows| && !(i < |points| && Pixel(points[i], h, w).Some?) ==> rows[i] == rows'[i]
    ensures ColourPrefix(rows, points, image, h, w, k, |points|) == ColourPrefix(rows', points, image, h, w, k, |points|)
  {
    var a := ColourPrefix(rows, points, image, h, w, k, |points|);
    var b := ColourPrefix(rows', points, image, h, w, k, |points|);
    forall i | 0 <= i < |rows| ensures a[i] == b[i] {
      ColourRowFrom(rows, rows', points, image, h, w, k, i);
    }
  }

  lemma ColourRowFrom(rows: seq<seq<real>>, rows': seq<seq<real>>, points: seq<seq<real>>, image: seq<seq<seq<real>>>, h: nat, w: nat, k: nat, i: nat)
    requires IsMatrix(rows, k) && IsMatrix(rows', k) && IsPoints(points) && IsImage(image, h, w, k)
    requires |points| <= |rows| == |rows'| && i < |rows|
    requires !(i < |points| && Pixel(points[i], h, w).Some?) ==> rows[i] == rows'[i]
    ensures ColourPrefix(rows, points, image, h, w, k, |points|)[i] == ColourPrefix(rows', points, image, h, w, k, |points|)[i]
  {
    var a := ColourPrefix(rows, points, image, h, w, k, |points|);
    var b := ColourPrefix(rows', points, image, h, w, k, |points|);
    if i < |points| && Pixel(points[i], h, w).Some? {
      var px := Pixel(points[i], h, w).value;
      assert a[i] == image[px.y][px.x] == b[i];
    } else {
      assert a[i] == rows[i] && b[i] == rows'[i];
    }
  }

  /** `a[i, :] = v`. */
  method CopyRow(a: array2<real>, i: nat, v: seq<real>)
    requires i < a.Length0 && |v| == a.Length1
    modifies a
    ensures Rows(a) == old(Rows(a))[i := v]
  {
    for j := 0 to a.Length1
      invariant forall r, c :: 0 <= r < a.Length0 && 0 <= c < a.Length1 ==>
        a[r, c] == if r == i && c < j then v[c] else old(a[r, c])
    {
      a[i, j] := v[j];
    }
    forall r | 0 <= r < a.Length0 ensures Rows(a)[r] == old(Rows(a))[i := v][r] {
    }
  }

  /** `_add_rgb_to_points_kernel(points_2d, image, points_rgb)` on an image of
      shape [h, w, k]: row i of `points_rgb` becomes the colour of the pixel
      point i falls in when it lies on the image, and every other row keeps
      its value. */
  method AddRgbToPointsKernel(points2d: seq<seq<real>>, image: seq<seq<seq<real>>>, h: nat, w: nat, pointsRgb: array2<real>)
    requires IsPoints(points2d) && IsImage(image, h, w, pointsRgb.Length1)
    requires |points2d| <= pointsRgb.Length0
    modifies pointsRgb
    ensures Rows(pointsRgb) ==
      ColourPrefix(old(Rows(pointsRgb)), points2d, image, h, w, pointsRgb.Length1, |points2d|)
  {
    ghost var rows0 := Rows(pointsRgb);
    for i := 0 to |points2d|
      invariant Rows(pointsRgb) == ColourPrefix(rows0, points2d, image, h, w, pointsRgb.Length1, i)
    {
      var x, y := points2d[i][0].Floor, points2d[i][1].Floor;
      if 0 <= x && x < w {
        if 0 <= y && y < h {
          CopyRow(pointsRgb, i, image[y][x]);
        }
      }
    }
  }
}
