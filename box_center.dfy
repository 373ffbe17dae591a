/** `change_box3d_center_`: moves the reference point of 3-D boxes
    [x, y, z, w, l, h, ...] in place from relative origin `src` to relative
    origin `dst`, i.e. adds dims * (dst - src) to the centre columns. */
module BoxCenter {
  import opened Common

  /** One box row after the shift: centre column d (d < 3) moves by
      dim_d * (dst[d] - src[d]); the size columns and everything after them
      are unchanged. */
  function ShiftRow(row: seq<real>, src: seq<real>, dst: seq<real>): (r: seq<real>)
    requires |row| >= 6 && |src| == 3 && |dst| == 3
    ensures |r| == |row|
    ensures forall c :: 3 <= c < |row| ==> r[c] == row[c]
  {
    seq(|row|, c requires 0 <= c < |row| =>
      if c < 3 then row[c] + row[3 + c] * (dst[c] - src[c]) else row[c])
  }

  /** The boxes after `change_box3d_center_(box3d, src, dst)`. */
  function Shift(boxes: seq<seq<real>>, k: nat, src: seq<real>, dst: seq<real>): (r: seq<seq<real>>)
    requires k >= 6 && IsMatrix(boxes, k) && |src| == 3 && |dst| == 3
    ensures |r| == |boxes| && IsMatrix(r, k)
  {
    seq(|boxes|, n requires 0 <= n < |boxes| => ShiftRow(boxes[n], src, dst))
  }

  /** The shift moves the reference point: a centre that sits at relative
      position src of the box's extent along every axis (lo + src*dim) ends at
      relative position dst (lo + dst*dim). */
  lemma ShiftMovesOrigin(row: seq<real>, lo: seq<real>, src: seq<real>, dst: seq<real>)
    requires |row| >= 6 && |lo| == 3 && |src| == 3 && |dst| == 3
    requires forall d :: 0 <= d < 3 ==> row[d] == lo[d] + src[d] * row[3 + d]
    ensures forall d :: 0 <= d < 3 ==> ShiftRow(row, src, dst)[d] == lo[d] + dst[d] * row[3 + d]
  {
    var r := ShiftRow(row, src, dst);
    forall d | 0 <= d < 3 ensures r[d] == lo[d] + dst[d] * row[3 + d] {
      var dim := row[3 + d];
      assert r[d] == lo[d] + src[d] * dim + dim * (dst[d] - src[d]);
    }
  }

  /** Shifting from a to b and then from b to c is shifting from a to c. */
  lemma ShiftRowCompose(row: seq<real>, a: seq<real>, b: seq<real>, c: seq<real>)
    requires |row| >= 6 && |a| == 3 && |b| == 3 && |c| == 3
    ensures ShiftRow(ShiftRow(row, a, b), b, c) == ShiftRow(row, a, c)
  {
    var once, twice, direct := ShiftRow(row, a, b), ShiftRow(ShiftRow(row, a, b), b, c), ShiftRow(row, a, c);
    forall d | 0 <= d < |row| ensures twice[d] == direct[d] {
      if d < 3 {
        var dim := row[3 + d];
        assert once[3 + d] == dim;
        assert twice[d] == row[d] + dim * (b[d] - a[d]) + dim * (c[d] - b[d]);
      }
    }
  }

  lemma ShiftCompose(boxes: seq<seq<real>>, k: nat, a: seq<real>, b: seq<real>, c: seq<real>)
    requires k >= 6 && IsMatrix(boxes, k) && |a| == 3 && |b| == 3 && |c| == 3
    ensures Shift(Shift(boxes, k, a, b), k, b, c) == Shift(boxes, k, a, c)
  {
    var twice, direct := Shift(Shift(boxes, k, a, b), k, b, c), Shift(boxes, k, a, c);
    forall n | 0 <= n < |boxes| ensures twice[n] == direct[n] {
      ShiftRowCompose(boxes[n], a, b, c);
    }
  }

  /** Shifting from src to dst and back restores the boxes. */
  lemma ShiftRoundTrip(boxes: seq<seq<real>>, k: nat, src: seq<real>, dst: seq<real>)
    requires k >= 6 && IsMatrix(boxes, k) && |src| == 3 && |dst| == 3
    ensures Shift(Shift(boxes, k, src, dst), k, dst, src) == boxes
  {
    ShiftCompose(boxes, k, src, dst, src);
    var same := Shift(boxes, k, src, src);
    forall n | 0 <= n < |boxes| ensures same[n] == boxes[n] {
      var r := ShiftRow(boxes[n], src, src);
      forall c | 0 <= c < k ensures r[c] == boxes[n][c] {
        if c < 3 {
          assert src[c] - src[c] == 0.0;
        }
      }
    }
  }

  /** `change_box3d_center_(box3d, src, dst)` on an [N, k] array of boxes. */
  method ChangeBox3dCenter(box3d: array2<real>, src: seq<real>, dst: seq<real>)
    requires box3d.Length1 >= 6 && |src| == 3 && |dst| == 3
    modifies box3d
    ensures Rows(box3d) == Shift(old(Rows(box3d)), box3d.Length1, src, dst)
  {
    ghost var rows0 := Rows(box3d);
    ghost var target := Shift(rows0, box3d.Length1, src, dst);
    for n := 0 to box3d.Length0
      invariant forall r, c :: 0 <= r < box3d.Length0 && 0 <= c < box3d.Length1 ==>
        box3d[r, c] == if r < n then target[r][c] else rows0[r][c]
    {
      for d := 0 to 3
        invariant forall r, c :: 0 <= r < box3d.Length0 && 0 <= c < box3d.Length1 ==>
          box3d[r, c] == if r < n || (r == n && c < d) then target[r][c] else rows0[r][c]
      {
        box3d[n, d] := box3d[n, d] + box3d[n, 3 + d] * (dst[d] - src[d]);
      }
    }
    forall r | 0 <= r < box3d.Length0 ensures Rows(box3d)[r] == target[r] {
    }
  }
}
