/** Shared vocabulary of the box utilities: optional results, scalar min/max,
    row-major shapes of the arrays the utilities consume and produce. */
module Common {

  /** A computation that either yields a value or raises (IndexError,
      ZeroDivisionError, ...). */
  datatype Option<+T> = None | Some(value: T)

  /** Python's builtin min on two floats. */
  function Min(a: real, b: real): (m: real)
    ensures m <= a && m <= b && (m == a || m == b)
  {
    if b < a then b else a
  }

  /** Python's builtin max on two floats. */
  function Max(a: real, b: real): (m: real)
    ensures m >= a && m >= b && (m == a || m == b)
  {
    if b > a then b else a
  }

  /** A 2-D array whose every row holds `width` entries. */
  predicate IsMatrix<T>(m: seq<seq<T>>, width: nat)
  {
    forall n :: 0 <= n < |m| ==> |m[n]| == width
  }

  /** A 3-D array of shape [_, rows, width]. */
  predicate IsCube<T>(m: seq<seq<seq<T>>>, rows: nat, width: nat)
  {
    forall n :: 0 <= n < |m| ==> |m[n]| == rows && IsMatrix(m[n], width)
  }

  lemma RowMajorBound(i: nat, j: nat, rows: nat, cols: nat)
    requires i < rows && j < cols
    ensures i * cols + j < rows * cols
  {
    assert i * cols <= (rows - 1) * cols;
  }

  /** `flat.reshape(rows, cols)` of a C-ordered array. */
  function Reshape<T>(flat: seq<T>, rows: nat, cols: nat): (r: seq<seq<T>>)
    requires |flat| == rows * cols
    ensures |r| == rows && IsMatrix(r, cols)
  {
    seq(rows, i requires 0 <= i < rows =>
      seq(cols, j requires 0 <= j < cols =>
        RowMajorBound(i, j, rows, cols); flat[i * cols + j]))
  }

  /** Fancy indexing `t[idx]`: entry i of the result is entry idx[i] of t. */
  function Select<T>(t: seq<T>, idx: seq<nat>): (r: seq<T>)
    requires forall i :: 0 <= i < |idx| ==> idx[i] < |t|
    ensures |r| == |idx|
    ensures forall i :: 0 <= i < |idx| ==> r[i] == t[idx[i]]
  {
    seq(|idx|, i requires 0 <= i < |idx| => t[idx[i]])
  }

  /** The rows of a 2-D array. */
  function Rows(a: array2<real>): (r: seq<seq<real>>)
    reads a
    ensures |r| == a.Length0 && IsMatrix(r, a.Length1)
    ensures forall i, j :: 0 <= i < a.Length0 && 0 <= j < a.Length1 ==> r[i][j] == a[i, j]
  {
    seq(a.Length0, i requires 0 <= i < a.Length0 reads a =>
      seq(a.Length1, j requires 0 <= j < a.Length1 reads a => a[i, j]))
  }
}
