/** `image_box_region_area`: four lookups per box in a summed-area table
    (Iabcd = ID - IB - IC + IA), with numpy's integer indexing — a negative
    index counts from the end, anything else out of range raises IndexError
    (None here). */
module ImageRegion {
  import opened Common

  /** numpy's reading of an integer index into an axis of the given size. */
  function PyIndex(i: int, size: nat): (r: Option<nat>)
    ensures r.Some? <==> -(size as int) <= i < size
    ensures r.Some? ==> r.value < size && (r.value == i || r.value == i + size)
  {
    if 0 <= i < size then Some(i)
    else if -(size as int) <= i < 0 then Some(i + size)
    else None
  }

  /** Every index a box [x0, y1, x2, y3] is looked up at lies on the table. */
  predicate Indexable(b: seq<int>, h: nat, w: nat)
    requires |b| == 4
  {
    PyIndex(b[0], w).Some? && PyIndex(b[2], w).Some? && PyIndex(b[1], h).Some? && PyIndex(b[3], h).Some?
  }

  /** A box that lies on the table with y1 <= y3 and x0 <= x2 once its
      indices are normalised. */
  predicate Ordered(b: seq<int>, h: nat, w: nat)
    requires |b| == 4
  {
    Indexable(b, h, w) &&
    PyIndex(b[1], h).value <= PyIndex(b[3], h).value &&
    PyIndex(b[0], w).value <= PyIndex(b[2], w).value
  }

  /** The table of one image read at row y, column x, numpy-style. */
  function At(c: seq<seq<real>>, h: nat, w: nat, y: int, x: int): real
    requires IsMatrix(c, w) && |c| == h
    requires PyIndex(y, h).Some? && PyIndex(x, w).Some?
  {
    c[PyIndex(y, h).value][PyIndex(x, w).value]
  }

  /** `ID - IB - IC + IA` for one image and one box. */
  function RegionEntry(c: seq<seq<real>>, h: nat, w: nat, b: seq<int>): real
    requires IsMatrix(c, w) && |c| == h && |b| == 4 && Indexable(b, h, w)
  {
    At(c, h, w, b[3], b[2]) - At(c, h, w, b[3], b[0]) - At(c, h, w, b[1], b[2]) + At(c, h, w, b[1], b[0])
  }

  /** `image_box_region_area(img_cumsum, bbox)` for tables of shape [M, h, w]:
      an [M, N] array (the [N, M] zeros the code allocates first are
      overwritten), or None when some box indexes off the table. */
  function ImageBoxRegionArea(imgCumsum: seq<seq<seq<real>>>, h: nat, w: nat, bbox: seq<seq<int>>): (r: Option<seq<seq<real>>>)
    requires IsCube(imgCumsum, h, w) && IsMatrix(bbox, 4)
    ensures r.Some? <==> forall n :: 0 <= n < |bbox| ==> Indexable(bbox[n], h, w)
    ensures r.Some? ==> |r.value| == |imgCumsum| && IsMatrix(r.value, |bbox|)
  {
    if forall n :: 0 <= n < |bbox| ==> Indexable(bbox[n], h, w) then
      Some(seq(|imgCumsum|, m requires 0 <= m < |imgCumsum| =>
        seq(|bbox|, n requires 0 <= n < |bbox| => RegionEntry(imgCumsum[m], h, w, bbox[n]))))
    else None
  }

  /** Sum of row[c0..c1]. */
  function RowSum(row: seq<real>, c0: nat, c1: nat): real
    requires c0 <= c1 <= |row|
    decreases c1 - c0
  {
    if c1 == c0 then 0.0 else RowSum(row, c0, c1 - 1) + row[c1 - 1]
  }

  /** Sum of img[r0..r1][c0..c1]. */
  function RectSum(img: seq<seq<real>>, w: nat, r0: nat, r1: nat, c0: nat, c1: nat): real
    requires IsMatrix(img, w) && r0 <= r1 <= |img| && c0 <= c1 <= w
    decreases r1 - r0
  {
    if r1 == r0 then 0.0 else RectSum(img, w, r0, r1 - 1, c0, c1) + RowSum(img[r1 - 1], c0, c1)
  }

  /** c is the inclusive 2-D cumulative sum of img (`img.cumsum(0).cumsum(1)`). */
  predicate IsCumsum(c: seq<seq<real>>, img: seq<seq<real>>, h: nat, w: nat)
    requires IsMatrix(c, w) && |c| == h && IsMatrix(img, w) && |img| == h
  {
    forall y, x :: 0 <= y < h && 0 <= x < w ==> c[y][x] == RectSum(img, w, 0, y + 1, 0, x + 1)
  }

  lemma {:induction false} RowSumSplit(row: seq<real>, a: nat, b: nat, c: nat)
    requires a <= b <= c <= |row|
    ensures RowSum(row, a, c) == RowSum(row, a, b) + RowSum(row, b, c)
    decreases c - b
  {
    if c > b {
      RowSumSplit(row, a, b, c - 1);
    }
  }

  lemma {:induction false} RectSumSplitRows(img: seq<seq<real>>, w: nat, r0: nat, r1: nat, r2: nat, c0: nat, c1: nat)
    requires IsMatrix(img, w) && r0 <= r1 <= r2 <= |img| && c0 <= c1 <= w
    ensures RectSum(img, w, r0, r2, c0, c1) == RectSum(img, w, r0, r1, c0, c1) + RectSum(img, w, r1, r2, c0, c1)
    decreases r2 - r1
  {
    if r2 > r1 {
      RectSumSplitRows(img, w, r0, r1, r2 - 1, c0, c1);
    }
  }

  lemma {:induction false} RectSumSplitCols(img: seq<seq<real>>, w: nat, r0: nat, r1: nat, c0: nat, c1: nat, c2: nat)
    requires IsMatrix(img, w) && r0 <= r1 <= |img| && c0 <= c1 <= c2 <= w
    ensures RectSum(img, w, r0, r1, c0, c2) == RectSum(img, w, r0, r1, c0, c1) + RectSum(img, w, r0, r1, c1, c2)
    decreases r1 - r0
  {
    if r1 > r0 {
      RectSumSplitCols(img, w, r0, r1 - 1, c0, c1, c2);
      RowSumSplit(img[r1 - 1], c0, c1, c2);
    }
  }

  /** Sum of the pixels of img in rows y1+1..y3 and columns x0+1..x2 of an
      ordered box [x0, y1, x2, y3]. */
  function PixelSum(img: seq<seq<real>>, h: nat, w: nat, b: seq<int>): real
    requires IsMatrix(img, w) && |img| == h && |b| == 4 && Ordered(b, h, w)
  {
    RectSum(img, w, PyIndex(b[1], h).value + 1, PyIndex(b[3], h).value + 1,
                    PyIndex(b[0], w).value + 1, PyIndex(b[2], w).value + 1)
  }

  /** The summed-area identity: on the cumulative sum of an image, the entry
      for a box whose (normalised) corners satisfy y1 <= y3 and x0 <= x2 is
      the sum of the pixels in rows y1+1..y3 and columns x0+1..x2 (row y1
      and column x0 themselves are not counted). */
  lemma RegionEntryIsPixelSum(c: seq<seq<real>>, img: seq<seq<real>>, h: nat, w: nat, b: seq<int>)
    requires IsMatrix(c, w) && |c| == h && IsMatrix(img, w) && |img| == h && IsCumsum(c, img, h, w)
    requires |b| == 4 && Ordered(b, h, w)
    ensures RegionEntry(c, h, w, b) == PixelSum(img, h, w, b)
  {
    var x0, y1, x2, y3 := PyIndex(b[0], w).value, PyIndex(b[1], h).value, PyIndex(b[2], w).value, PyIndex(b[3], h).value;
    RectSumSplitCols(img, w, 0, y3 + 1, 0, x0 + 1, x2 + 1);
    RectSumSplitCols(img, w, 0, y1 + 1, 0, x0 + 1, x2 + 1);
    RectSumSplitRows(img, w, 0, y1 + 1, y3 + 1, x0 + 1, x2 + 1);
  }

  /** The summed-area identity for a box in any orientation. With the
      normalised indices sorted on each axis, the entry is the pixel sum of
      rows min(y1, y3)+1..max(y1, y3) and columns min(x0, x2)+1..max(x0, x2);
      it is negated when the box is reversed on exactly one axis. */
  lemma RegionEntryAnyOrder(c: seq<seq<real>>, img: seq<seq<real>>, h: nat, w: nat, b: seq<int>)
    requires IsMatrix(c, w) && |c| == h && IsMatrix(img, w) && |img| == h && IsCumsum(c, img, h, w)
    requires |b| == 4 && Indexable(b, h, w)
    ensures var x0, y1 := PyIndex(b[0], w).value, PyIndex(b[1], h).value;
      var x2, y3 := PyIndex(b[2], w).value, PyIndex(b[3], h).value;
      var s := RectSum(img, w, (if y1 <= y3 then y1 else y3) + 1, (if y1 <= y3 then y3 else y1) + 1,
                               (if x0 <= x2 then x0 else x2) + 1, (if x0 <= x2 then x2 else x0) + 1);
      RegionEntry(c, h, w, b) == if (y1 <= y3) == (x0 <= x2) then s else -s
  {
    var x0, y1 := PyIndex(b[0], w).value, PyIndex(b[1], h).value;
    var x2, y3 := PyIndex(b[2], w).value, PyIndex(b[3], h).value;
    var sorted := [if x0 <= x2 then b[0] else b[2], if y1 <= y3 then b[1] else b[3],
                   if x0 <= x2 then b[2] else b[0], if y1 <= y3 then b[3] else b[1]];
    assert Ordered(sorted, h, w);
    RegionEntryIsPixelSum(c, img, h, w, sorted);
  }

  /** Every entry of the table `image_box_region_area` returns for cumulative
      sums of images is the pixel sum of its box. */
  lemma RegionAreaIsPixelSum(imgCumsum: seq<seq<seq<real>>>, imgs: seq<seq<seq<real>>>, h: nat, w: nat, bbox: seq<seq<int>>)
    requires IsCube(imgCumsum, h, w) && IsCube(imgs, h, w) && |imgs| == |imgCumsum| && IsMatrix(bbox, 4)
    requires forall m :: 0 <= m < |imgs| ==> IsCumsum(imgCumsum[m], imgs[m], h, w)
    requires forall n :: 0 <= n < |bbox| ==> Ordered(bbox[n], h, w)
    ensures var r := ImageBoxRegionArea(imgCumsum, h, w, bbox);
      r.Some? && forall m, n :: 0 <= m < |imgs| && 0 <= n < |bbox| ==>
        r.value[m][n] == PixelSum(imgs[m], h, w, bbox[n])
  {
    var r := ImageBoxRegionArea(imgCumsum, h, w, bbox);
    forall m, n | 0 <= m < |imgs| && 0 <= n < |bbox|
      ensures r.value[m][n] == PixelSum(imgs[m], h, w, bbox[n])
    {
      RegionEntryIsPixelSum(imgCumsum[m], imgs[m], h, w, bbox[n]);
    }
  }
}
