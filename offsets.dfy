/**
 * The addressing laws of the two views: which backing-buffer offset the k-th step of a view's
 * enumeration produces. The buffer is column-major: element (i, j) of a matrix with R rows
 * lives at offset i + j * R.
 */
module Offsets {

  const IntMin: int := -0x8000_0000
  const IntMax: int := 0x7fff_ffff

  /** Euclidean division is fixed by any decomposition a == q * n + r with 0 <= r < n. */
  lemma DivModUnique(a: int, n: int, q: int, r: int)
    requires n > 0 && 0 <= r < n && a == q * n + r
    ensures a / n == q && a % n == r
  {
    var q0, r0 := a / n, a % n;
    assert a == q0 * n + r0 && 0 <= r0 < n;
    if q0 < q {
      MulGap(q0, q, n);
      assert false;
    } else if q < q0 {
      MulGap(q, q0, n);
      assert false;
    }
  }

  /** Every a splits into its quotient and remainder by n. */
  lemma DivModSplit(a: int, n: int)
    requires n > 0
    ensures a == (a / n) * n + a % n && 0 <= a % n < n
  {
  }

  /** Multiples of n that differ in their factor are at least n apart. */
  lemma {:induction false} MulGap(a: int, b: int, n: int)
    requires a < b && n > 0
    ensures a * n + n <= b * n
    decreases b - a
  {
    assert (b - 1) * n + n == b * n;
    if a < b - 1 {
      MulGap(a, b - 1, n);
    }
  }

  /** A product of factors below their bounds stays below the product of the bounds. */
  lemma MulStrictBound(i: int, r: int, j: int, c: int)
    requires 0 <= i < r && 0 <= j < c
    ensures 0 <= i + j * r < r * c
  {
    MulGap(j, c, r);
    assert j * r == r * j && c * r == r * c;
  }

  /** A positive product with a non-negative factor has a positive other factor. */
  lemma PositiveFactor(a: int, b: int)
    requires a * b > 0 && b >= 0
    ensures a > 0
  {
  }

  // ---------------------------------------------------------------------------------------------
  // Contiguous row range [first_row, first_row + n_rows - 1] of a backing matrix with
  // backing_rows rows.

  /** Offset of the k-th element enumerated by a row-range view: row k % n_rows of the view in
      column k / n_rows. */
  function SubRowsOffset(first_row: int, n_rows: int, backing_rows: int, k: int): int
    requires n_rows > 0 && k >= 0
  {
    first_row + k % n_rows + (k / n_rows) * backing_rows
  }

  /** The offsets of the first count steps of a row-range view, in enumeration order. */
  function SubRowsOffsets(first_row: int, n_rows: int, backing_rows: int, count: int): (offs: seq<int>)
    ensures |offs| == if count > 0 && n_rows > 0 then count else 0
  {
    if count <= 0 || n_rows <= 0 then []
    else seq(count, k requires 0 <= k < count => SubRowsOffset(first_row, n_rows, backing_rows, k))
  }

  /** Within a column consecutive offsets differ by 1; from the last view row of a column to the
      first view row of the next the offset moves on by skip + 1, where skip is the number of
      backing rows outside the view. */
  lemma {:induction false} SubRowsStep(first_row: int, n_rows: int, backing_rows: int, k: int)
    requires n_rows > 0 && k >= 0
    ensures SubRowsOffset(first_row, n_rows, backing_rows, k + 1)
         == SubRowsOffset(first_row, n_rows, backing_rows, k) + 1
            + (if k % n_rows == n_rows - 1 then backing_rows - n_rows else 0)
    ensures (k + 1) % n_rows == if k % n_rows == n_rows - 1 then 0 else k % n_rows + 1
  {
    var q, r := k / n_rows, k % n_rows;
    if r + 1 < n_rows {
      DivModUnique(k + 1, n_rows, q, r + 1);
    } else {
      DivModUnique(k + 1, n_rows, q + 1, 0);
      assert (q + 1) * backing_rows == q * backing_rows + backing_rows;
    }
  }

  /** The first step of a row-range view is at its first row. */
  lemma SubRowsOffsetFirst(first_row: int, n_rows: int, backing_rows: int)
    requires n_rows > 0
    ensures SubRowsOffset(first_row, n_rows, backing_rows, 0) == first_row
  {
    DivModUnique(0, n_rows, 0, 0);
  }

  /** Element (i, j) of the view, enumerated at step i + j * n_rows, is the backing element
      (first_row + i, j). */
  lemma SubRowsOffsetAt(first_row: int, n_rows: int, backing_rows: int, i: int, j: int)
    requires 0 <= i < n_rows && j >= 0
    ensures i + j * n_rows >= 0
    ensures SubRowsOffset(first_row, n_rows, backing_rows, i + j * n_rows)
         == (first_row + i) + j * backing_rows
  {
    assert j * n_rows >= 0;
    DivModUnique(i + j * n_rows, n_rows, j, i);
  }

  /** A row range inside the backing matrix yields offsets inside its buffer. */
  lemma SubRowsOffsetsInRange(first_row: int, last_row: int, backing_rows: int, backing_cols: int)
    requires 0 <= first_row <= last_row < backing_rows && backing_cols >= 0
    ensures var n_rows := last_row - first_row + 1;
      forall k :: 0 <= k < n_rows * backing_cols ==>
        0 <= SubRowsOffset(first_row, n_rows, backing_rows, k) < backing_rows * backing_cols
  {
    var n_rows := last_row - first_row + 1;
    forall k | 0 <= k < n_rows * backing_cols
      ensures 0 <= SubRowsOffset(first_row, n_rows, backing_rows, k) < backing_rows * backing_cols
    {
      var q, r := k / n_rows, k % n_rows;
      if q >= backing_cols {
        MulGap(backing_cols - 1, q, n_rows);
        assert false;
      }
      assert q >= 0;
      MulStrictBound(first_row + r, backing_rows, q, backing_cols);
      assert q * backing_rows == backing_rows * q;
    }
  }

  /** A row range inside the backing matrix never produces the same offset twice. */
  lemma SubRowsOffsetsDistinct(first_row: int, last_row: int, backing_rows: int, k1: int, k2: int)
    requires 0 <= first_row <= last_row < backing_rows
    requires 0 <= k1 && 0 <= k2 && k1 != k2
    ensures var n_rows := last_row - first_row + 1;
      SubRowsOffset(first_row, n_rows, backing_rows, k1) != SubRowsOffset(first_row, n_rows, backing_rows, k2)
  {
    var n_rows := last_row - first_row + 1;
    var q1, r1 := k1 / n_rows, k1 % n_rows;
    var q2, r2 := k2 / n_rows, k2 % n_rows;
    var o1 := SubRowsOffset(first_row, n_rows, backing_rows, k1);
    var o2 := SubRowsOffset(first_row, n_rows, backing_rows, k2);
    if o1 == o2 {
      DivModUnique(o1, backing_rows, q1, first_row + r1);
      DivModUnique(o2, backing_rows, q2, first_row + r2);
      assert false;
    }
  }

  /** The offsets of a row range inside the backing matrix are pairwise distinct. */
  lemma SubRowsOffsetsPairwiseDistinct(first_row: int, last_row: int, backing_rows: int, count: int)
    requires 0 <= first_row <= last_row < backing_rows
    ensures var offs := SubRowsOffsets(first_row, last_row - first_row + 1, backing_rows, count);
      forall a, b :: 0 <= a < b < |offs| ==> offs[a] != offs[b]
  {
    var offs := SubRowsOffsets(first_row, last_row - first_row + 1, backing_rows, count);
    forall a, b | 0 <= a < b < |offs|
      ensures offs[a] != offs[b]
    {
      SubRowsOffsetsDistinct(first_row, last_row, backing_rows, a, b);
    }
  }

  /** A backing row inside the range is enumerated, in column j, at step (i - first_row) + j * n_rows. */
  lemma SubRowsOffsetsHit(first_row: int, last_row: int, backing_rows: int, backing_cols: int, i: int, j: int)
    requires 0 <= first_row <= i <= last_row < backing_rows && 0 <= j < backing_cols
    ensures var n_rows := last_row - first_row + 1;
      var offs := SubRowsOffsets(first_row, n_rows, backing_rows, n_rows * backing_cols);
      var k := (i - first_row) + j * n_rows;
      0 <= k < |offs| && offs[k] == i + j * backing_rows
  {
    var n_rows := last_row - first_row + 1;
    MulStrictBound(i - first_row, n_rows, j, backing_cols);
    SubRowsOffsetAt(first_row, n_rows, backing_rows, i - first_row, j);
  }

  /** A backing row outside the range is never enumerated, in any column. */
  lemma SubRowsOffsetsAvoid(first_row: int, last_row: int, backing_rows: int, count: int, i: int, j: int)
    requires 0 <= first_row <= last_row < backing_rows && 0 <= i < backing_rows && !(first_row <= i <= last_row)
    ensures var offs := SubRowsOffsets(first_row, last_row - first_row + 1, backing_rows, count);
      forall k :: 0 <= k < |offs| ==> offs[k] != i + j * backing_rows
  {
    var n_rows := last_row - first_row + 1;
    forall k | 0 <= k < |SubRowsOffsets(first_row, n_rows, backing_rows, count)|
      ensures SubRowsOffsets(first_row, n_rows, backing_rows, count)[k] != i + j * backing_rows
    {
      DivModUnique(i + j * backing_rows, backing_rows, j, i);
      DivModUnique(SubRowsOffset(first_row, n_rows, backing_rows, k), backing_rows, k / n_rows, first_row + k % n_rows);
    }
  }

  /** The row range of all backing rows enumerates the buffer in storage order. */
  lemma SubRowsWholeIsIdentity(backing_rows: int, count: int)
    requires backing_rows > 0 && count >= 0
    ensures SubRowsOffsets(0, backing_rows, backing_rows, count) == seq(count, k => k)
  {
    forall k | 0 <= k < count
      ensures SubRowsOffset(0, backing_rows, backing_rows, k) == k
    {
      DivModUnique(k, backing_rows, k / backing_rows, k % backing_rows);
    }
  }

  // ---------------------------------------------------------------------------------------------
  // Element-index list

  /** Java's (int) cast of a double: truncation toward zero, saturating at the int range. */
  function JavaIntCast(d: real): (r: int)
    ensures IntMin <= r <= IntMax
    ensures IntMin as real <= d <= IntMax as real ==>
      if d >= 0.0 then r as real <= d < r as real + 1.0 else r as real - 1.0 < d <= r as real
    ensures d >= IntMax as real ==> r == IntMax
    ensures d <= IntMin as real ==> r == IntMin
  {
    if d >= IntMax as real then IntMax
    else if d <= IntMin as real then IntMin
    else if d >= 0.0 then d.Floor
    else -((-d).Floor)
  }

  /** The offsets an element-index view enumerates: each listed index, cast, in list order. */
  function ElemOffsets(indices: seq<real>): (offs: seq<int>)
    ensures |offs| == |indices|
  {
    seq(|indices|, k requires 0 <= k < |indices| => JavaIntCast(indices[k]))
  }

  /** An index that is a whole number in the int range addresses exactly that offset. */
  lemma ElemOffsetOfWholeIndex(indices: seq<real>, k: int, n: int)
    requires 0 <= k < |indices| && IntMin <= n <= IntMax && indices[k] == n as real
    ensures ElemOffsets(indices)[k] == n
  {
  }
}
