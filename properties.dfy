/**
 * Properties that relate several operations of the facade and its views: what a row-range view
 * does to a buffer element by element, that the full row range agrees with the whole-buffer
 * loops, that the size form of submat accepts exactly the blocks in_range accepts, and how an
 * index list with duplicates, fractions and out-of-range entries is applied.
 */
module ViewLaws {
  import opened Errors
  import opened Ops
  import opened Offsets
  import opened Dispatch
  import opened Armadillo

  /** A row range [f, l] of a B x C buffer addresses only elements of the buffer, so a run with a
      long enough operand completes. */
  lemma SubRowsRunCompletes(f: int, l: int, B: int, C: int, before: seq<real>, op: Op, rhs: Operand)
    requires 0 <= f <= l < B && C >= 0 && |before| == B * C
    requires Supported(op, rhs) && (rhs.Elements? ==> |rhs.values| >= (l - f + 1) * C)
    ensures Scatter(before, SubRowsOffsets(f, l - f + 1, B, (l - f + 1) * C), op, rhs).complete
  {
    SubRowsOffsetsInRange(f, l, B, C);
  }

  /** A row inside the range [f, l] of a B x C buffer is updated once, at the step
      (i - f) + j * (l - f + 1) that the view enumerates it. */
  lemma SubRowsRunHits(f: int, l: int, B: int, C: int, before: seq<real>, op: Op, rhs: Operand, i: int, j: int)
    requires 0 <= f <= i <= l < B && 0 <= j < C && |before| == B * C
    requires Supported(op, rhs) && (rhs.Elements? ==> |rhs.values| >= (l - f + 1) * C)
    ensures 0 <= i + j * B < |before|
    ensures 0 <= (i - f) + j * (l - f + 1) < (l - f + 1) * C
    ensures Scatter(before, SubRowsOffsets(f, l - f + 1, B, (l - f + 1) * C), op, rhs).buffer[i + j * B]
         == Updated(op, rhs, before[i + j * B], (i - f) + j * (l - f + 1))
  {
    var offs := SubRowsOffsets(f, l - f + 1, B, (l - f + 1) * C);
    var k := (i - f) + j * (l - f + 1);
    MulStrictBound(i, B, j, C);
    SubRowsOffsetsHit(f, l, B, C, i, j);
    SubRowsRunCompletes(f, l, B, C, before, op, rhs);
    SubRowsOffsetsPairwiseDistinct(f, l, B, (l - f + 1) * C);
    ScatterDistinct(before, offs, op, rhs, k);
  }

  /** A row outside the range [f, l] of a B x C buffer is never addressed and keeps its value. */
  lemma SubRowsRunMisses(f: int, l: int, B: int, C: int, before: seq<real>, op: Op, rhs: Operand, i: int, j: int)
    requires 0 <= f <= l < B && 0 <= i < B && 0 <= j < C && |before| == B * C && !(f <= i <= l)
    requires Supported(op, rhs)
    ensures 0 <= i + j * B < |before|
    ensures Scatter(before, SubRowsOffsets(f, l - f + 1, B, (l - f + 1) * C), op, rhs).buffer[i + j * B]
         == before[i + j * B]
  {
    var offs := SubRowsOffsets(f, l - f + 1, B, (l - f + 1) * C);
    MulStrictBound(i, B, j, C);
    SubRowsOffsetsAvoid(f, l, B, (l - f + 1) * C, i, j);
    assert forall k :: 0 <= k < |offs| ==> offs[k] != i + j * B;
    ScatterUntouched(before, offs, op, rhs, i + j * B);
  }

  /** Element (i, j) of a B x C buffer after a row-range view over rows [f, l] has applied op:
      rows inside the range are updated, all other rows keep their values. */
  lemma SubRowsRunElement(f: int, l: int, B: int, C: int, before: seq<real>, op: Op, rhs: Operand, i: int, j: int)
    requires 0 <= f <= l < B && C >= 0 && |before| == B * C
    requires Supported(op, rhs) && (rhs.Elements? ==> |rhs.values| >= (l - f + 1) * C)
    requires 0 <= i < B && 0 <= j < C
    ensures 0 <= i + j * B < |before|
    ensures f <= i <= l ==> 0 <= (i - f) + j * (l - f + 1) < (l - f + 1) * C
    ensures var r := Scatter(before, SubRowsOffsets(f, l - f + 1, B, (l - f + 1) * C), op, rhs);
      r.buffer[i + j * B]
        == if f <= i <= l then Updated(op, rhs, before[i + j * B], (i - f) + j * (l - f + 1))
           else before[i + j * B]
  {
    if f <= i <= l {
      SubRowsRunHits(f, l, B, C, before, op, rhs, i, j);
    } else {
      SubRowsRunMisses(f, l, B, C, before, op, rhs, i, j);
    }
  }

  /** A row-range run over rows [f, l] of a single-column buffer of B elements completes and
      updates element i, with operand element i - f, exactly when f <= i <= l. */
  lemma SubRowsColumnRun(f: int, l: int, B: int, before: seq<real>, op: Op, rhs: Operand)
    requires 0 <= f <= l < B && |before| == B
    requires Supported(op, rhs) && (rhs.Elements? ==> |rhs.values| >= l - f + 1)
    ensures var r := Scatter(before, SubRowsOffsets(f, l - f + 1, B, l - f + 1), op, rhs);
      r.complete && |r.buffer| == B &&
      forall i :: 0 <= i < B ==>
        r.buffer[i] == if f <= i <= l then Updated(op, rhs, before[i], i - f) else before[i]
  {
    assert (l - f + 1) * 1 == l - f + 1;
    assert B * 1 == B;
    var r := Scatter(before, SubRowsOffsets(f, l - f + 1, B, l - f + 1), op, rhs);
    SubRowsRunCompletes(f, l, B, 1, before, op, rhs);
    forall i | 0 <= i < B
      ensures r.buffer[i] == if f <= i <= l then Updated(op, rhs, before[i], i - f) else before[i]
    {
      SubRowsRunElement(f, l, B, 1, before, op, rhs, i, 0);
      assert i + 0 * B == i && (i - f) + 0 * (l - f + 1) == i - f;
    }
  }

  /** rows(f, l, op) on a column vector with f <= l updates exactly the elements f..l, element i
      at step i - f, and leaves the others alone. */
  lemma RowsUpdatesExactlyTheRange(m: AbstractMat, f: int, l: int, before: seq<real>, after: seq<real>,
                                   res: Outcome, op: Op, rhs: Operand)
    requires m.Valid() && m.n_cols == 1 && |before| == m.n_elem
    requires m.RowsRoute(f, l).SubRows? && f <= l
    requires Supported(op, rhs) && (rhs.Elements? ==> |rhs.values| >= l - f + 1)
    requires m.RouteEffect(m.RowsRoute(f, l), before, after, res, op, rhs)
    ensures res == Pass && |after| == |before|
    ensures forall i :: 0 <= i < |before| ==>
      after[i] == if f <= i <= l then Updated(op, rhs, before[i], i - f) else before[i]
  {
    assert (l - f + 1) * 1 == l - f + 1;
    assert m.RangeOffsets(f, l) == SubRowsOffsets(f, l - f + 1, m.n_rows, l - f + 1);
    SubRowsColumnRun(f, l, m.n_rows, before, op, rhs);
  }

  /** rows(f, l, op) with f > l passes both guards and builds a view with no elements: nothing
      changes and nothing is raised. */
  lemma RowsReversedRangeChangesNothing(m: AbstractMat, f: int, l: int, before: seq<real>, after: seq<real>,
                                        res: Outcome, op: Op, rhs: Operand)
    requires m.Valid() && m.RowsRoute(f, l).SubRows? && l < f && Supported(op, rhs)
    requires m.RouteEffect(m.RowsRoute(f, l), before, after, res, op, rhs)
    ensures res == Pass && after == before
  {
    assert m.RangeOffsets(f, l) == [];
  }

  /** A view over all the rows enumerates the buffer in storage order, so it has the effect of the
      whole-buffer loops whenever the operand is long enough. */
  lemma FullRowRangeIsWholeBuffer(m: AbstractMat, before: seq<real>, after: seq<real>, res: Outcome,
                                  op: Op, rhs: Operand)
    requires m.Valid() && m.n_rows > 0 && |before| == m.n_elem
    requires !rhs.Elements? || |rhs.values| >= |before|
    requires ViewEffect(before, after, res, m.RangeOffsets(0, m.n_rows - 1), op, rhs)
    ensures DenseEffect(before, after, res, op, rhs)
  {
    if Supported(op, rhs) {
      SubRowsWholeIsIdentity(m.n_rows, m.n_elem);
      ScatterInStorageOrder(before, op, rhs);
    }
  }

  /** col(span, 0, op) on a column vector: the span (0, n_rows - 1) given as a range does what
      the entire-range span does. */
  lemma ColSpanFullRangeIsEntire(m: AbstractMat, before: seq<real>, after: seq<real>, res: Outcome,
                                 op: Op, rhs: Operand)
    requires m.Valid() && m.n_cols == 1 && m.n_rows > 0 && |before| == m.n_elem
    requires !rhs.Elements? || |rhs.values| >= |before|
    requires m.RouteEffect(m.ColSpanRoute(Span(0, m.n_rows - 1, false), 0), before, after, res, op, rhs)
    ensures m.RouteEffect(m.ColSpanRoute(Span(0, 0, true), 0), before, after, res, op, rhs)
  {
    assert m.ColSpanRoute(Span(0, m.n_rows - 1, false), 0) == SubRows(0, m.n_rows - 1);
    FullRowRangeIsWholeBuffer(m, before, after, res, op, rhs);
  }

  /** in_range(first_row, first_col, size) with a non-degenerate size holds exactly when every
      position of the block is in range. */
  lemma InRangeBlockMeaning(m: AbstractMat, first_row: int, first_col: int, size: Size)
    requires size.n_rows > 0 && size.n_cols > 0
    ensures m.InRangeBlock(first_row, first_col, size) <==>
      forall i, j :: first_row <= i < first_row + size.n_rows && first_col <= j < first_col + size.n_cols ==>
        m.InRangeAt(i, j)
  {
    if forall i, j :: first_row <= i < first_row + size.n_rows && first_col <= j < first_col + size.n_cols ==>
         m.InRangeAt(i, j) {
      assert m.InRangeAt(first_row, first_col);
      assert m.InRangeAt(first_row + size.n_rows - 1, first_col + size.n_cols - 1);
    }
  }

  /** Position p lies on an axis of n positions. */
  predicate InAxis(p: int, n: int)
  {
    0 <= p < n
  }

  /** in_range(row_span, col_span): two entire spans always pass; two proper spans that are not
      reversed pass exactly when every position of the block they span is in range; an entire span
      beside a proper one passes exactly when the proper one stays on its axis; and the first and
      last bounds are never compared, so a reversed span passes whenever its last bound is in
      range, even with its first bound beyond the matrix. */
  lemma InRangeSpansMeaning(m: AbstractMat, row_span: Span, col_span: Span)
    ensures row_span.isEntireRange && col_span.isEntireRange ==> m.InRangeSpans(row_span, col_span)
    ensures !row_span.isEntireRange && !col_span.isEntireRange &&
            row_span.first <= row_span.last && col_span.first <= col_span.last ==>
      (m.InRangeSpans(row_span, col_span) <==>
        forall i, j :: row_span.first <= i <= row_span.last && col_span.first <= j <= col_span.last ==>
          m.InRangeAt(i, j))
    ensures !row_span.isEntireRange && !col_span.isEntireRange &&
            0 <= row_span.last < row_span.first && row_span.last < m.n_rows &&
            0 <= col_span.first <= col_span.last < m.n_cols ==>
      m.InRangeSpans(row_span, col_span)
    ensures row_span.isEntireRange && !col_span.isEntireRange && col_span.first <= col_span.last ==>
      (m.InRangeSpans(row_span, col_span) <==>
        forall j :: col_span.first <= j <= col_span.last ==> InAxis(j, m.n_cols))
    ensures !row_span.isEntireRange && col_span.isEntireRange && row_span.first <= row_span.last ==>
      (m.InRangeSpans(row_span, col_span) <==>
        forall i :: row_span.first <= i <= row_span.last ==> InAxis(i, m.n_rows))
    ensures !row_span.isEntireRange && !col_span.isEntireRange &&
            0 <= row_span.first <= row_span.last < m.n_rows &&
            0 <= col_span.last < col_span.first && col_span.last < m.n_cols ==>
      m.InRangeSpans(row_span, col_span)
  {
    if row_span.isEntireRange && !col_span.isEntireRange && col_span.first <= col_span.last &&
       forall j :: col_span.first <= j <= col_span.last ==> InAxis(j, m.n_cols) {
      assert InAxis(col_span.first, m.n_cols) && InAxis(col_span.last, m.n_cols);
    }
    if !row_span.isEntireRange && col_span.isEntireRange && row_span.first <= row_span.last &&
       forall i :: row_span.first <= i <= row_span.last ==> InAxis(i, m.n_rows) {
      assert InAxis(row_span.first, m.n_rows) && InAxis(row_span.last, m.n_rows);
    }
    if !row_span.isEntireRange && !col_span.isEntireRange &&
       row_span.first <= row_span.last && col_span.first <= col_span.last &&
       forall i, j :: row_span.first <= i <= row_span.last && col_span.first <= j <= col_span.last ==>
         m.InRangeAt(i, j) {
      assert m.InRangeAt(row_span.first, col_span.first);
      assert m.InRangeAt(row_span.last, col_span.last);
    }
  }

  /** A position that passes in_range(row, col) addresses an element of the buffer. */
  lemma InRangeAtAddressesBuffer(m: AbstractMat, row: int, col: int)
    requires m.Valid() && m.InRangeAt(row, col)
    ensures 0 <= row + col * m.n_rows < m.data.Length
  {
    MulStrictBound(row, m.n_rows, col, m.n_cols);
  }

  /** Duplicates, list order, truncation toward zero and a scalar assignment: indices
      [2.0, 0.0, 2.9, -0.5] address offsets 2, 0, 2 and 0. */
  lemma ElemAssignScalarExample()
    ensures ElemOffsets([2.0, 0.0, 2.9, -0.5]) == [2, 0, 2, 0]
    ensures Scatter([1.0, 2.0, 3.0, 4.0], [2, 0, 2, 0], Equal, Scalar(5.0)) == Scattered([5.0, 2.0, 5.0, 4.0], true)
  {
    assert JavaIntCast(2.0) == 2 && JavaIntCast(0.0) == 0;
    assert JavaIntCast(2.9) == 2 && JavaIntCast(-0.5) == 0;
    var buf := [1.0, 2.0, 3.0, 4.0];
    assert Scatter(buf, [2], Equal, Scalar(5.0)) == Scattered([1.0, 2.0, 5.0, 4.0], true) by {
      assert [2][..0] == [];
    }
    assert Scatter(buf, [2, 0], Equal, Scalar(5.0)) == Scattered([5.0, 2.0, 5.0, 4.0], true) by {
      assert [2, 0][..1] == [2];
    }
    assert Scatter(buf, [2, 0, 2], Equal, Scalar(5.0)) == Scattered([5.0, 2.0, 5.0, 4.0], true) by {
      assert [2, 0, 2][..2] == [2, 0];
    }
    assert Scatter(buf, [2, 0, 2, 0], Equal, Scalar(5.0)) == Scattered([5.0, 2.0, 5.0, 4.0], true) by {
      assert [2, 0, 2, 0][..3] == [2, 0, 2];
    }
  }

  /** With an element-wise operand a repeated index ends with the operand of its last listing. */
  lemma ElemAssignLastListingWins()
    ensures Scatter([1.0, 2.0, 3.0, 4.0], [2, 0, 2], Equal, Elements([7.0, 8.0, 9.0]))
         == Scattered([8.0, 2.0, 9.0, 4.0], true)
  {
    var buf := [1.0, 2.0, 3.0, 4.0];
    var rhs := Elements([7.0, 8.0, 9.0]);
    assert Scatter(buf, [2], Equal, rhs) == Scattered([1.0, 2.0, 7.0, 4.0], true) by {
      assert [2][..0] == [];
    }
    assert Scatter(buf, [2, 0], Equal, rhs) == Scattered([8.0, 2.0, 7.0, 4.0], true) by {
      assert [2, 0][..1] == [2];
    }
    assert [2, 0, 2][..2] == [2, 0];
  }

  /** An index past the buffer is not rejected up front: the steps before it are kept, the
      fault stops the run, and the steps after it are never made. */
  lemma ElemOutOfRangeIndexFaultsLate()
    ensures ElemOffsets([1.0, 7.0, 0.0]) == [1, 7, 0]
    ensures Scatter([1.0, 2.0, 3.0, 4.0], [1, 7, 0], Increment, NoOperand) == Scattered([1.0, 3.0, 3.0, 4.0], false)
  {
    assert JavaIntCast(1.0) == 1 && JavaIntCast(7.0) == 7 && JavaIntCast(0.0) == 0;
    var buf := [1.0, 2.0, 3.0, 4.0];
    assert Scatter(buf, [1], Increment, NoOperand) == Scattered([1.0, 3.0, 3.0, 4.0], true) by {
      assert [1][..0] == [];
    }
    assert Scatter(buf, [1, 7], Increment, NoOperand) == Scattered([1.0, 3.0, 3.0, 4.0], false) by {
      assert [1, 7][..1] == [1];
    }
    assert [1, 7, 0][..2] == [1, 7];
  }
}
