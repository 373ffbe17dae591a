/** Intersection over union of axis-aligned boxes: `iou_jit` (2-D, widened
    by eps), `iou_3d_jit` and `iou_nd_jit` (widened by 1 when add1 is set).
    A box of ndim axes is the row [min_0 .. min_{ndim-1}, max_0 .. max_{ndim-1}].
    The functions fill an [N, K] array; entry (n, k) compares box n with query
    box k. A union of zero makes numba's float division raise
    ZeroDivisionError: that call yields no array (None). */
module BoxIou {
  import opened Common

  /** The float the code substitutes for the add1 flag. */
  function AddOne(add1: bool): (a: real)
    ensures a == 0.0 || a == 1.0
    ensures a == 1.0 <==> add1
  {
    if add1 then 1.0 else 0.0
  }

  /** Extent of box b along axis i, widened by add. */
  function Extent(b: seq<real>, ndim: nat, i: nat, add: real): real
    requires |b| == 2 * ndim && i < ndim
  {
    b[ndim + i] - b[i] + add
  }

  /** Length of the overlap of boxes b and q along axis i, widened by add
      (`side_length`; `iw`, `ih`, `il` in the 2-D and 3-D versions). */
  function Side(b: seq<real>, q: seq<real>, ndim: nat, i: nat, add: real): (s: real)
    requires |b| == 2 * ndim && |q| == 2 * ndim && i < ndim
    ensures s <= Extent(b, ndim, i, add) && s <= Extent(q, ndim, i, add)
  {
    Min(b[i + ndim], q[i + ndim]) - Max(b[i], q[i]) + add
  }

  /** Product of the first m extents of b: the running `box_area`. */
  function Volume(b: seq<real>, ndim: nat, m: nat, add: real): (v: real)
    requires |b| == 2 * ndim && m <= ndim
  {
    if m == 0 then 1.0 else Volume(b, ndim, m - 1, add) * Extent(b, ndim, m - 1, add)
  }

  /** Product of the first m overlap sides of b and q: the running `inter`. */
  function Intersection(b: seq<real>, q: seq<real>, ndim: nat, m: nat, add: real): (r: real)
    requires |b| == 2 * ndim && |q| == 2 * ndim && m <= ndim
  {
    if m == 0 then 1.0 else Intersection(b, q, ndim, m - 1, add) * Side(b, q, ndim, m - 1, add)
  }

  /** Every axis overlaps by a positive length. */
  predicate Overlaps(b: seq<real>, q: seq<real>, ndim: nat, add: real)
    requires |b| == 2 * ndim && |q| == 2 * ndim
  {
    forall i :: 0 <= i < ndim ==> Side(b, q, ndim, i, add) > 0.0
  }

  /** Every extent of b is positive. */
  predicate WellFormed(b: seq<real>, ndim: nat, add: real)
    requires |b| == 2 * ndim
  {
    forall i :: 0 <= i < ndim ==> Extent(b, ndim, i, add) > 0.0
  }

  /** `inter / ua` with the union `ua = va + vb - inter` of two boxes of
      volumes va and vb; numba's float division raises ZeroDivisionError
      when ua is 0. */
  function IouOf(inter: real, va: real, vb: real): (r: Option<real>)
    ensures r.Some? <==> va + vb - inter != 0.0
  {
    var ua := va + vb - inter;
    if ua == 0.0 then None else Some(inter / ua)
  }

  /** A defined IoU is the quotient of the intersection by a nonzero union. */
  lemma IouOfSome(inter: real, va: real, vb: real, ua: real, v: real)
    requires ua == va + vb - inter && IouOf(inter, va, vb) == Some(v)
    ensures ua != 0.0 && v == inter / ua
  {
  }

  /** One entry of `iou_nd_jit`: 0 unless every side overlaps; otherwise the
      intersection divided by the union. The entry is always defined (the
      division never raises), lies in [0, 1], and is positive exactly when
      every side overlaps. */
  function IouNd(b: seq<real>, q: seq<real>, ndim: nat, add: real): (r: Option<real>)
    requires |b| == 2 * ndim && |q| == 2 * ndim
    ensures r.Some? && 0.0 <= r.value <= 1.0
    ensures r.value > 0.0 <==> Overlaps(b, q, ndim, add)
  {
    if !Overlaps(b, q, ndim, add) then Some(0.0)
    else
      var inter, vb, vq := Intersection(b, q, ndim, ndim, add), Volume(b, ndim, ndim, add), Volume(q, ndim, ndim, add);
      IntersectionWithinVolumes(b, q, ndim, ndim, add);
      QuotientWithinUnit(inter, vb + vq - inter);
      IouOf(inter, vb, vq)
  }

  /** One entry of `iou_jit`, with its nested tests of iw and ih
      (iw = Side(.., 0, ..) is `min(xmax) - max(xmin) + eps`, and so on).
      The entry is always defined, lies in [0, 1], and is positive exactly
      when both sides overlap. */
  function Iou2d(b: seq<real>, q: seq<real>, eps: real): (r: Option<real>)
    requires |b| == 4 && |q| == 4
    ensures r.Some? && 0.0 <= r.value <= 1.0
    ensures r.value > 0.0 <==> Side(b, q, 2, 0, eps) > 0.0 && Side(b, q, 2, 1, eps) > 0.0
  {
    var iw := Side(b, q, 2, 0, eps);
    if iw > 0.0 then
      var ih := Side(b, q, 2, 1, eps);
      if ih > 0.0 then
        var boxArea := Extent(q, 2, 0, eps) * Extent(q, 2, 1, eps);
        var va := Extent(b, 2, 0, eps) * Extent(b, 2, 1, eps);
        MulMono(iw, ih, Extent(b, 2, 0, eps), Extent(b, 2, 1, eps));
        MulMono(iw, ih, Extent(q, 2, 0, eps), Extent(q, 2, 1, eps));
        QuotientWithinUnit(iw * ih, va + boxArea - iw * ih);
        IouOf(iw * ih, va, boxArea)
      else Some(0.0)
    else Some(0.0)
  }

  /** One entry of `iou_3d_jit` once the overlaps iw, ih and il of boxes b
      and q along the three axes are known, with the code's nested tests. */
  function Iou3dOfSides(b: seq<real>, q: seq<real>, add: real, iw: real, ih: real, il: real): Option<real>
    requires |b| == 6 && |q| == 6
  {
    if iw > 0.0 then
      if ih > 0.0 then
        if il > 0.0 then
          var boxArea := Extent(q, 3, 0, add) * Extent(q, 3, 1, add) * Extent(q, 3, 2, add);
          IouOf(iw * ih * il, Extent(b, 3, 0, add) * Extent(b, 3, 1, add) * Extent(b, 3, 2, add), boxArea)
        else Some(0.0)
      else Some(0.0)
    else Some(0.0)
  }

  /** The innermost branch of `iou_3d_jit`, reached when all three sides overlap. */
  lemma Iou3dOfSidesOverlapping(b: seq<real>, q: seq<real>, add: real, iw: real, ih: real, il: real)
    requires |b| == 6 && |q| == 6 && iw > 0.0 && ih > 0.0 && il > 0.0
    ensures Iou3dOfSides(b, q, add, iw, ih, il) == IouOf(iw * ih * il,
      Extent(b, 3, 0, add) * Extent(b, 3, 1, add) * Extent(b, 3, 2, add),
      Extent(q, 3, 0, add) * Extent(q, 3, 1, add) * Extent(q, 3, 2, add))
  {
  }

  /** When each of iw, ih and il is no longer than the matching extent of
      either box, the `iou_3d_jit` entry is defined, lies in [0, 1], and is
      positive exactly when all three sides overlap. */
  lemma Iou3dOfSidesBounds(b: seq<real>, q: seq<real>, add: real, iw: real, ih: real, il: real)
    requires |b| == 6 && |q| == 6
    requires iw <= Extent(b, 3, 0, add) && iw <= Extent(q, 3, 0, add)
    requires ih <= Extent(b, 3, 1, add) && ih <= Extent(q, 3, 1, add)
    requires il <= Extent(b, 3, 2, add) && il <= Extent(q, 3, 2, add)
    ensures var r := Iou3dOfSides(b, q, add, iw, ih, il);
      r.Some? && 0.0 <= r.value <= 1.0 && (r.value > 0.0 <==> iw > 0.0 && ih > 0.0 && il > 0.0)
  {
    if iw > 0.0 && ih > 0.0 && il > 0.0 {
      var b0, b1, b2 := Extent(b, 3, 0, add), Extent(b, 3, 1, add), Extent(b, 3, 2, add);
      var q0, q1, q2 := Extent(q, 3, 0, add), Extent(q, 3, 1, add), Extent(q, 3, 2, add);
      Iou3dOfSidesOverlapping(b, q, add, iw, ih, il);
      MulMono(iw, ih, b0, b1);
      MulMono(iw * ih, il, b0 * b1, b2);
      MulMono(iw, ih, q0, q1);
      MulMono(iw * ih, il, q0 * q1, q2);
      QuotientWithinUnit(iw * ih * il, b0 * b1 * b2 + q0 * q1 * q2 - iw * ih * il);
    }
  }

  /** One entry of `iou_3d_jit` (iw = Side(.., 0, ..) is
      `min(xmax) - max(xmin) + add`, and so on). The entry is always
      defined, lies in [0, 1], and is positive exactly when all three sides
      overlap. */
  function Iou3d(b: seq<real>, q: seq<real>, add: real): (r: Option<real>)
    requires |b| == 6 && |q| == 6
    ensures r.Some? && 0.0 <= r.value <= 1.0
    ensures r.value > 0.0 <==>
      Side(b, q, 3, 0, add) > 0.0 && Side(b, q, 3, 1, add) > 0.0 && Side(b, q, 3, 2, add) > 0.0
  {
    var iw, ih, il := Side(b, q, 3, 0, add), Side(b, q, 3, 1, add), Side(b, q, 3, 2, add);
    Iou3dOfSidesBounds(b, q, add, iw, ih, il);
    Iou3dOfSides(b, q, add, iw, ih, il)
  }

  /** `iou_nd_jit` with ndim = 2 computes `iou_jit` with eps = add; in
      particular add1 = True / False is eps = 1.0 / 0.0. */
  lemma IouNdAgrees2d(b: seq<real>, q: seq<real>, add: real)
    requires |b| == 4 && |q| == 4
    ensures IouNd(b, q, 2, add) == Iou2d(b, q, add)
  {
    assert Overlaps(b, q, 2, add) <==> Side(b, q, 2, 0, add) > 0.0 && Side(b, q, 2, 1, add) > 0.0;
    assert Volume(b, 2, 1, add) == Extent(b, 2, 0, add);
    assert Volume(q, 2, 1, add) == Extent(q, 2, 0, add);
    assert Intersection(b, q, 2, 1, add) == Side(b, q, 2, 0, add);
    var inter := Intersection(b, q, 2, 2, add);
    var vb, vq := Volume(b, 2, 2, add), Volume(q, 2, 2, add);
    assert inter == Side(b, q, 2, 0, add) * Side(b, q, 2, 1, add);
    assert vb == Extent(b, 2, 0, add) * Extent(b, 2, 1, add);
    assert vq == Extent(q, 2, 0, add) * Extent(q, 2, 1, add);
    if Overlaps(b, q, 2, add) {
      assert IouNd(b, q, 2, add) == IouOf(inter, vb, vq);
      assert Iou2d(b, q, add) == IouOf(inter, vb, vq);
    }
  }

  lemma Volume3(b: seq<real>, add: real)
    requires |b| == 6
    ensures Volume(b, 3, 3, add) == Extent(b, 3, 0, add) * Extent(b, 3, 1, add) * Extent(b, 3, 2, add)
  {
    assert Volume(b, 3, 1, add) == Extent(b, 3, 0, add);
    assert Volume(b, 3, 2, add) == Extent(b, 3, 0, add) * Extent(b, 3, 1, add);
  }

  lemma Intersection3(b: seq<real>, q: seq<real>, add: real)
    requires |b| == 6 && |q| == 6
    ensures Intersection(b, q, 3, 3, add) ==
      Side(b, q, 3, 0, add) * Side(b, q, 3, 1, add) * Side(b, q, 3, 2, add)
  {
    assert Intersection(b, q, 3, 1, add) == Side(b, q, 3, 0, add);
    assert Intersection(b, q, 3, 2, add) == Side(b, q, 3, 0, add) * Side(b, q, 3, 1, add);
  }

  lemma Overlaps3(b: seq<real>, q: seq<real>, add: real)
    requires |b| == 6 && |q| == 6
    ensures Overlaps(b, q, 3, add) <==>
      Side(b, q, 3, 0, add) > 0.0 && Side(b, q, 3, 1, add) > 0.0 && Side(b, q, 3, 2, add) > 0.0
  {
  }

  /** The innermost branch of `iou_jit`, reached when both sides overlap. */
  lemma Iou2dOverlapping(b: seq<real>, q: seq<real>, eps: real)
    requires |b| == 4 && |q| == 4
    requires Side(b, q, 2, 0, eps) > 0.0 && Side(b, q, 2, 1, eps) > 0.0
    ensures Iou2d(b, q, eps) == IouOf(Side(b, q, 2, 0, eps) * Side(b, q, 2, 1, eps),
      Extent(b, 2, 0, eps) * Extent(b, 2, 1, eps), Extent(q, 2, 0, eps) * Extent(q, 2, 1, eps))
  {
  }

  /** The innermost branch of `iou_3d_jit`, reached when all three sides overlap. */
  lemma Iou3dOverlapping(b: seq<real>, q: seq<real>, add: real)
    requires |b| == 6 && |q| == 6
    requires Side(b, q, 3, 0, add) > 0.0 && Side(b, q, 3, 1, add) > 0.0 && Side(b, q, 3, 2, add) > 0.0
    ensures Iou3d(b, q, add) == IouOf(Side(b, q, 3, 0, add) * Side(b, q, 3, 1, add) * Side(b, q, 3, 2, add),
      Extent(b, 3, 0, add) * Extent(b, 3, 1, add) * Extent(b, 3, 2, add),
      Extent(q, 3, 0, add) * Extent(q, 3, 1, add) * Extent(q, 3, 2, add))
  {
  }

  /** `iou_nd_jit` with ndim = 3 computes `iou_3d_jit` with the same add
      (1.0 or 0.0 for add1 = True / False). */
  lemma IouNdAgrees3d(b: seq<real>, q: seq<real>, add: real)
    requires |b| == 6 && |q| == 6
    ensures IouNd(b, q, 3, add) == Iou3d(b, q, add)
  {
    Overlaps3(b, q, add);
    Volume3(b, add);
    Volume3(q, add);
    Intersection3(b, q, add);
    var inter := Intersection(b, q, 3, 3, add);
    var vb, vq := Volume(b, 3, 3, add), Volume(q, 3, 3, add);
    if Overlaps(b, q, 3, add) {
      assert IouNd(b, q, 3, add) == IouOf(inter, vb, vq);
      Iou3dOverlapping(b, q, add);
    }
  }

  /** The overlap of two intervals is no longer than either interval. */
  lemma SideWithinExtents(b: seq<real>, q: seq<real>, ndim: nat, i: nat, add: real)
    requires |b| == 2 * ndim && |q| == 2 * ndim && i < ndim
    ensures Side(b, q, ndim, i, add) <= Extent(b, ndim, i, add)
    ensures Side(b, q, ndim, i, add) <= Extent(q, ndim, i, add)
    ensures Side(b, q, ndim, i, add) == Side(q, b, ndim, i, add)
  {
  }

  lemma MulMono(a: real, b: real, c: real, d: real)
    requires 0.0 < a <= c && 0.0 < b <= d
    ensures 0.0 < a * b <= c * d
  {
    assert a * b <= c * b;
    assert c * b <= c * d;
  }

  /** When every side overlaps, each prefix of the intersection product is
      positive and bounded by the same prefix of either box's volume. */
  lemma {:induction false} IntersectionWithinVolumes(b: seq<real>, q: seq<real>, ndim: nat, m: nat, add: real)
    requires |b| == 2 * ndim && |q| == 2 * ndim && m <= ndim
    requires Overlaps(b, q, ndim, add)
    ensures 0.0 < Intersection(b, q, ndim, m, add)
    ensures Intersection(b, q, ndim, m, add) <= Volume(b, ndim, m, add)
    ensures Intersection(b, q, ndim, m, add) <= Volume(q, ndim, m, add)
  {
    if m > 0 {
      IntersectionWithinVolumes(b, q, ndim, m - 1, add);
      var s := Side(b, q, ndim, m - 1, add);
      MulMono(Intersection(b, q, ndim, m - 1, add), s, Volume(b, ndim, m - 1, add), Extent(b, ndim, m - 1, add));
      MulMono(Intersection(b, q, ndim, m - 1, add), s, Volume(q, ndim, m - 1, add), Extent(q, ndim, m - 1, add));
    }
  }

  lemma QuotientWithinUnit(x: real, y: real)
    requires 0.0 < x <= y
    ensures 0.0 < x / y <= 1.0
  {
    assert x / y * y == x;
  }

  lemma {:induction false} IntersectionSymmetric(b: seq<real>, q: seq<real>, ndim: nat, m: nat, add: real)
    requires |b| == 2 * ndim && |q| == 2 * ndim && m <= ndim
    ensures Intersection(b, q, ndim, m, add) == Intersection(q, b, ndim, m, add)
  {
    if m > 0 {
      IntersectionSymmetric(b, q, ndim, m - 1, add);
      SideWithinExtents(b, q, ndim, m - 1, add);
    }
  }

  /** The IoU of b with q is the IoU of q with b. */
  lemma IouNdSymmetric(b: seq<real>, q: seq<real>, ndim: nat, add: real)
    requires |b| == 2 * ndim && |q| == 2 * ndim
    ensures IouNd(b, q, ndim, add) == IouNd(q, b, ndim, add)
  {
    IntersectionSymmetric(b, q, ndim, ndim, add);
    forall i | 0 <= i < ndim
      ensures Side(b, q, ndim, i, add) == Side(q, b, ndim, i, add)
    {
      SideWithinExtents(b, q, ndim, i, add);
    }
  }

  lemma {:induction false} IntersectionWithSelf(b: seq<real>, ndim: nat, m: nat, add: real)
    requires |b| == 2 * ndim && m <= ndim
    requires WellFormed(b, ndim, add)
    ensures Intersection(b, b, ndim, m, add) == Volume(b, ndim, m, add) > 0.0
  {
    if m > 0 {
      IntersectionWithSelf(b, ndim, m - 1, add);
      assert Side(b, b, ndim, m - 1, add) == Extent(b, ndim, m - 1, add);
    }
  }

  /** A box with positive extents has IoU exactly 1 with itself. */
  lemma IouNdWithSelf(b: seq<real>, ndim: nat, add: real)
    requires |b| == 2 * ndim
    requires WellFormed(b, ndim, add)
    ensures IouNd(b, b, ndim, add) == Some(1.0)
  {
    IntersectionWithSelf(b, ndim, ndim, add);
    assert Overlaps(b, b, ndim, add) by {
      forall i | 0 <= i < ndim
        ensures Side(b, b, ndim, i, add) > 0.0
      {
        assert Side(b, b, ndim, i, add) == Extent(b, ndim, i, add);
      }
    }
    var v := Volume(b, ndim, ndim, add);
    assert IouNd(b, b, ndim, add) == IouOf(v, v, v);
    assert v + v - v == v;
    assert v / v == 1.0;
  }

  /** The value of a defined `iou_nd_jit` entry, which lies in [0, 1]. */
  function IouNdValue(b: seq<real>, q: seq<real>, ndim: nat, add: real): (v: real)
    requires |b| == 2 * ndim && |q| == 2 * ndim
    ensures IouNd(b, q, ndim, add) == Some(v)
    ensures 0.0 <= v <= 1.0
  {
    IouNd(b, q, ndim, add).value
  }

  /** The value of a defined `iou_jit` entry, which lies in [0, 1]. */
  function Iou2dValue(b: seq<real>, q: seq<real>, eps: real): (v: real)
    requires |b| == 4 && |q| == 4
    ensures Iou2d(b, q, eps) == Some(v)
    ensures 0.0 <= v <= 1.0
  {
    IouNdAgrees2d(b, q, eps);
    IouNdValue(b, q, 2, eps)
  }

  /** The value of a defined `iou_3d_jit` entry, which lies in [0, 1]. */
  function Iou3dValue(b: seq<real>, q: seq<real>, add: real): (v: real)
    requires |b| == 6 && |q| == 6
    ensures Iou3d(b, q, add) == Some(v)
    ensures 0.0 <= v <= 1.0
  {
    IouNdAgrees3d(b, q, add);
    IouNdValue(b, q, 3, add)
  }

  /** When every side overlaps, `iou_nd_jit` divides by a nonzero union and
      stores the quotient of the products its loops accumulate. */
  lemma IouNdValueOverlapping(b: seq<real>, q: seq<real>, ndim: nat, add: real,
                              inter: real, boxArea: real, qboxArea: real, ua: real)
    requires |b| == 2 * ndim && |q| == 2 * ndim && Overlaps(b, q, ndim, add)
    requires inter == Intersection(b, q, ndim, ndim, add)
    requires boxArea == Volume(b, ndim, ndim, add) && qboxArea == Volume(q, ndim, ndim, add)
    requires ua == boxArea + qboxArea - inter
    ensures ua != 0.0 && IouNdValue(b, q, ndim, add) == inter / ua
  {
    var v := IouNdValue(b, q, ndim, add);
    assert IouOf(inter, boxArea, qboxArea) == Some(v);
    IouOfSome(inter, boxArea, qboxArea, ua, v);
  }

  /** In the innermost branch of `iou_jit` the union ua is nonzero and the
      entry is the quotient the loop computes from iw, ih and box_area. */
  lemma Iou2dValueOverlapping(b: seq<real>, q: seq<real>, eps: real, iw: real, ih: real, boxArea: real, ua: real)
    requires |b| == 4 && |q| == 4
    requires iw == Side(b, q, 2, 0, eps) > 0.0 && ih == Side(b, q, 2, 1, eps) > 0.0
    requires boxArea == Extent(q, 2, 0, eps) * Extent(q, 2, 1, eps)
    requires ua == Extent(b, 2, 0, eps) * Extent(b, 2, 1, eps) + boxArea - iw * ih
    ensures ua != 0.0 && Iou2dValue(b, q, eps) == iw * ih / ua
  {
    Iou2dOverlapping(b, q, eps);
    var inter := Side(b, q, 2, 0, eps) * Side(b, q, 2, 1, eps);
    assert iw * ih == inter;
    var va := Extent(b, 2, 0, eps) * Extent(b, 2, 1, eps);
    assert ua == va + boxArea - inter;
    IouOfSome(inter, va, boxArea, ua, Iou2dValue(b, q, eps));
  }

  /** In the innermost branch of `iou_3d_jit` the union ua is nonzero and
      the entry is the quotient the loop computes from iw, ih, il and
      box_area. */
  lemma Iou3dValueOverlapping(b: seq<real>, q: seq<real>, add: real, iw: real, ih: real, il: real, boxArea: real, ua: real)
    requires |b| == 6 && |q| == 6
    requires iw == Side(b, q, 3, 0, add) > 0.0 && ih == Side(b, q, 3, 1, add) > 0.0
    requires il == Side(b, q, 3, 2, add) > 0.0
    requires boxArea == Extent(q, 3, 0, add) * Extent(q, 3, 1, add) * Extent(q, 3, 2, add)
    requires ua == Extent(b, 3, 0, add) * Extent(b, 3, 1, add) * Extent(b, 3, 2, add) + boxArea - iw * ih * il
    ensures ua != 0.0 && Iou3dValue(b, q, add) == iw * ih * il / ua
  {
    assert Iou3d(b, q, add) == Iou3dOfSides(b, q, add, iw, ih, il);
    Iou3dOfSidesOverlapping(b, q, add, iw, ih, il);
    IouOfSome(iw * ih * il, Extent(b, 3, 0, add) * Extent(b, 3, 1, add) * Extent(b, 3, 2, add),
      Extent(q, 3, 0, add) * Extent(q, 3, 1, add) * Extent(q, 3, 2, add), ua, Iou3dValue(b, q, add));
  }

  /** The [N, K] table of `iou_nd_jit` as a value. */
  function IouMatrixNd(boxes: seq<seq<real>>, queryBoxes: seq<seq<real>>, ndim: nat, add: real): (t: seq<seq<real>>)
    requires IsMatrix(boxes, 2 * ndim) && IsMatrix(queryBoxes, 2 * ndim)
    ensures |t| == |boxes| && IsMatrix(t, |queryBoxes|)
  {
    seq(|boxes|, n requires 0 <= n < |boxes| =>
      seq(|queryBoxes|, k requires 0 <= k < |queryBoxes| => IouNdValue(boxes[n], queryBoxes[k], ndim, add)))
  }

  /** The [N, K] table of `iou_jit` as a value. */
  function IouMatrix2d(boxes: seq<seq<real>>, queryBoxes: seq<seq<real>>, eps: real): (t: seq<seq<real>>)
    requires IsMatrix(boxes, 4) && IsMatrix(queryBoxes, 4)
    ensures |t| == |boxes| && IsMatrix(t, |queryBoxes|)
  {
    seq(|boxes|, n requires 0 <= n < |boxes| =>
      seq(|queryBoxes|, k requires 0 <= k < |queryBoxes| => Iou2dValue(boxes[n], queryBoxes[k], eps)))
  }

  /** The [N, K] table of `iou_3d_jit` as a value. */
  function IouMatrix3d(boxes: seq<seq<real>>, queryBoxes: seq<seq<real>>, add: real): (t: seq<seq<real>>)
    requires IsMatrix(boxes, 6) && IsMatrix(queryBoxes, 6)
    ensures |t| == |boxes| && IsMatrix(t, |queryBoxes|)
  {
    seq(|boxes|, n requires 0 <= n < |boxes| =>
      seq(|queryBoxes|, k requires 0 <= k < |queryBoxes| => Iou3dValue(boxes[n], queryBoxes[k], add)))
  }

  /** Swapping the roles of boxes and query boxes transposes the table. */
  lemma IouMatrixNdTransposes(boxes: seq<seq<real>>, queryBoxes: seq<seq<real>>, ndim: nat, add: real)
    requires IsMatrix(boxes, 2 * ndim) && IsMatrix(queryBoxes, 2 * ndim)
    ensures forall n, k :: 0 <= n < |boxes| && 0 <= k < |queryBoxes| ==>
      IouMatrixNd(queryBoxes, boxes, ndim, add)[k][n] == IouMatrixNd(boxes, queryBoxes, ndim, add)[n][k]
  {
    forall n, k | 0 <= n < |boxes| && 0 <= k < |queryBoxes|
      ensures IouMatrixNd(queryBoxes, boxes, ndim, add)[k][n] == IouMatrixNd(boxes, queryBoxes, ndim, add)[n][k]
    {
      IouNdSymmetric(boxes[n], queryBoxes[k], ndim, add);
    }
  }

  /** The loops of the jit functions have written the entries (i, j) with
      column j < k, or j == k and row i < n; the rest still hold the 0 of
      `np.zeros`. */
  predicate FilledUpTo(a: array2<real>, t: seq<seq<real>>, k: nat, n: nat)
    reads a
    requires |t| == a.Length0 && IsMatrix(t, a.Length1)
  {
    forall i, j :: 0 <= i < a.Length0 && 0 <= j < a.Length1 ==>
      a[i, j] == (if j < k || (j == k && i < n) then t[i][j] else 0.0)
  }

  /** Writing entry (n, k) moves the filled region one row further. */
  method Store(a: array2<real>, ghost t: seq<seq<real>>, k: nat, n: nat, v: real)
    requires |t| == a.Length0 && IsMatrix(t, a.Length1)
    requires n < a.Length0 && k < a.Length1
    requires FilledUpTo(a, t, k, n) && v == t[n][k]
    modifies a
    ensures FilledUpTo(a, t, k, n + 1)
  {
    a[n, k] := v;
  }

  /** An entry whose value is the 0 of `np.zeros` needs no write. */
  lemma Skip(a: array2<real>, t: seq<seq<real>>, k: nat, n: nat)
    requires |t| == a.Length0 && IsMatrix(t, a.Length1)
    requires n < a.Length0 && k < a.Length1
    requires FilledUpTo(a, t, k, n) && t[n][k] == 0.0
    ensures FilledUpTo(a, t, k, n + 1)
  {
  }

  /** `iou_jit`: column by column, the IoU of every box with query box k;
      entries whose boxes do not overlap keep 0. */
  method IouJit(boxes: seq<seq<real>>, queryBoxes: seq<seq<real>>, eps: real) returns (overlaps: array2<real>)
    requires IsMatrix(boxes, 4) && IsMatrix(queryBoxes, 4)
    ensures overlaps.Length0 == |boxes| && overlaps.Length1 == |queryBoxes|
    ensures forall n, k :: 0 <= n < |boxes| && 0 <= k < |queryBoxes| ==>
      overlaps[n, k] == IouMatrix2d(boxes, queryBoxes, eps)[n][k]
  {
    var N, K := |boxes|, |queryBoxes|;
    ghost var t := IouMatrix2d(boxes, queryBoxes, eps);
    overlaps := new real[N, K]((_, _) => 0.0);
    for k := 0 to K
      invariant FilledUpTo(overlaps, t, k, 0)
    {
      var q := queryBoxes[k];
      var boxArea := Extent(q, 2, 0, eps) * Extent(q, 2, 1, eps);
      for n := 0 to N
        invariant FilledUpTo(overlaps, t, k, n)
      {
        var b := boxes[n];
        var iw := Side(b, q, 2, 0, eps);
        if iw > 0.0 {
          var ih := Side(b, q, 2, 1, eps);
          if ih > 0.0 {
            var ua := Extent(b, 2, 0, eps) * Extent(b, 2, 1, eps) + boxArea - iw * ih;
            Iou2dValueOverlapping(b, q, eps, iw, ih, boxArea, ua);
            Store(overlaps, t, k, n, iw * ih / ua);
          } else {
            Skip(overlaps, t, k, n);
          }
        } else {
          Skip(overlaps, t, k, n);
        }
      }
    }
  }

  /** `iou_3d_jit`, with add1 turned into the float 1.0 or 0.0. */
  method Iou3dJit(boxes: seq<seq<real>>, queryBoxes: seq<seq<real>>, add1: bool) returns (overlaps: array2<real>)
    requires IsMatrix(boxes, 6) && IsMatrix(queryBoxes, 6)
    ensures overlaps.Length0 == |boxes| && overlaps.Length1 == |queryBoxes|
    ensures forall n, k :: 0 <= n < |boxes| && 0 <= k < |queryBoxes| ==>
      overlaps[n, k] == IouMatrix3d(boxes, queryBoxes, AddOne(add1))[n][k]
  {
    var N, K := |boxes|, |queryBoxes|;
    var add := AddOne(add1);
    ghost var t := IouMatrix3d(boxes, queryBoxes, add);
    overlaps := new real[N, K]((_, _) => 0.0);
    for k := 0 to K
      invariant FilledUpTo(overlaps, t, k, 0)
    {
      var q := queryBoxes[k];
      var boxArea := Extent(q, 3, 0, add) * Extent(q, 3, 1, add) * Extent(q, 3, 2, add);
      for n := 0 to N
        invariant FilledUpTo(overlaps, t, k, n)
      {
        var b := boxes[n];
        var iw := Side(b, q, 3, 0, add);
        if iw > 0.0 {
          var ih := Side(b, q, 3, 1, add);
          if ih > 0.0 {
            var il := Side(b, q, 3, 2, add);
            if il > 0.0 {
              var ua := Extent(b, 3, 0, add) * Extent(b, 3, 1, add) * Extent(b, 3, 2, add) + boxArea - iw * ih * il;
              Iou3dValueOverlapping(b, q, add, iw, ih, il, boxArea, ua);
              Store(overlaps, t, k, n, iw * ih * il / ua);
            } else {
              Skip(overlaps, t, k, n);
            }
          } else {
            Skip(overlaps, t, k, n);
          }
        } else {
          Skip(overlaps, t, k, n);
        }
      }
    }
  }

  /** The `box_area` / `qbox_area` loop of `iou_nd_jit`: the first extent
      times the remaining ones. */
  method BoxArea(b: seq<real>, ndim: nat, add: real) returns (area: real)
    requires ndim >= 1 && |b| == 2 * ndim
    ensures area == Volume(b, ndim, ndim, add)
  {
    area := Extent(b, ndim, 0, add);
    for i := 1 to ndim
      invariant area == Volume(b, ndim, i, add)
    {
      area := area * Extent(b, ndim, i, add);
    }
  }

  /** The side loop of `iou_nd_jit`: records each overlap length in
      sideLengths and stops at the first one that is not positive, which
      marks the pair invalid. */
  method MeasureSides(b: seq<real>, q: seq<real>, ndim: nat, add: real, sideLengths: array<real>)
    returns (invalid: bool)
    requires |b| == 2 * ndim && |q| == 2 * ndim && sideLengths.Length == ndim
    modifies sideLengths
    ensures invalid <==> !Overlaps(b, q, ndim, add)
    ensures !invalid ==> forall j :: 0 <= j < ndim ==> sideLengths[j] == Side(b, q, ndim, j, add)
    ensures forall j :: 0 <= j < ndim ==>
      sideLengths[j] == Side(b, q, ndim, j, add) || sideLengths[j] == old(sideLengths[j])
  {
    invalid := false;
    var i := 0;
    while i < ndim
      invariant 0 <= i <= ndim && !invalid
      invariant forall j :: 0 <= j < i ==> sideLengths[j] == Side(b, q, ndim, j, add) > 0.0
      invariant forall j :: i <= j < ndim ==> sideLengths[j] == old(sideLengths[j])
    {
      var sideLength := Side(b, q, ndim, i, add);
      if sideLength <= 0.0 {
        invalid := true;
        break;
      }
      sideLengths[i] := sideLength;
      i := i + 1;
    }
  }

  /** The intersection loop of `iou_nd_jit`: the product of the recorded
      side lengths. */
  method SideProduct(b: seq<real>, q: seq<real>, ndim: nat, add: real, sideLengths: array<real>)
    returns (inter: real)
    requires ndim >= 1 && |b| == 2 * ndim && |q| == 2 * ndim && sideLengths.Length == ndim
    requires forall j :: 0 <= j < ndim ==> sideLengths[j] == Side(b, q, ndim, j, add)
    ensures inter == Intersection(b, q, ndim, ndim, add)
  {
    inter := sideLengths[0];
    for i := 1 to ndim
      invariant inter == Intersection(b, q, ndim, i, add)
    {
      inter := inter * sideLengths[i];
    }
  }

  /** `iou_nd_jit` on boxes of 2 * ndim columns, with add1 turned into the
      float 1.0 or 0.0. */
  method IouNdJit(boxes: seq<seq<real>>, queryBoxes: seq<seq<real>>, ndim: nat, add1: bool) returns (overlaps: array2<real>)
    requires ndim >= 1 && IsMatrix(boxes, 2 * ndim) && IsMatrix(queryBoxes, 2 * ndim)
    ensures overlaps.Length0 == |boxes| && overlaps.Length1 == |queryBoxes|
    ensures forall n, k :: 0 <= n < |boxes| && 0 <= k < |queryBoxes| ==>
      overlaps[n, k] == IouMatrixNd(boxes, queryBoxes, ndim, AddOne(add1))[n][k]
  {
    var N, K := |boxes|, |queryBoxes|;
    var add := AddOne(add1);
    ghost var t := IouMatrixNd(boxes, queryBoxes, ndim, add);
    overlaps := new real[N, K]((_, _) => 0.0);
    var sideLengths := new real[ndim](_ => 0.0);
    var invalid := false;
    for k := 0 to K
      invariant FilledUpTo(overlaps, t, k, 0)
    {
      var q := queryBoxes[k];
      var qboxArea := BoxArea(q, ndim, add);
      for n := 0 to N
        invariant FilledUpTo(overlaps, t, k, n)
      {
        var b := boxes[n];
        invalid := MeasureSides(b, q, ndim, add, sideLengths);
        if !invalid {
          var boxArea := BoxArea(b, ndim, add);
          var inter := SideProduct(b, q, ndim, add, sideLengths);
          var ua := boxArea + qboxArea - inter;
          IouNdValueOverlapping(b, q, ndim, add, inter, boxArea, qboxArea, ua);
          Store(overlaps, t, k, n, inter / ua);
        } else {
          assert IouNdValue(b, q, ndim, add) == 0.0;
          Skip(overlaps, t, k, n);
        }
      }
    }
  }
}
