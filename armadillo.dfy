/**
 * The dense matrix facade AbstractMat and the two views it drives, ViewSubRows (a contiguous
 * row range) and ViewElemMat (an element-index list). A view borrows the matrix and enumerates
 * backing-buffer offsets through a reset/next iterator; the in-place operators are applied
 * through that enumeration. The buffer is column-major: element (i, j) lives at i + j * n_rows.
 * The facade's selection methods treat the matrix as a column vector (its only column is the
 * whole vector), which is how AbstractMat's own comments describe them.
 */
module Armadillo {
  import opened Errors
  import opened Ops
  import opened Offsets
  import opened Dispatch
  import TextLoad

  /** A range (first, last) of rows or columns, or the entire axis. */
  datatype Span = Span(first: int, last: int, isEntireRange: bool)

  /** Numbers of rows and columns, as submat(first_row, first_col, size) takes them. */
  datatype Size = Size(n_rows: int, n_cols: int)

  /** Where a selection request goes once its guards have passed or failed. */
  datatype Route =
    | Whole                                    // the whole buffer, by the dense loops
    | SubRows(first_row: int, last_row: int)   // a ViewSubRows over the row range
    | SingleRow(row: int)                      // a ViewSubRow, which is not part of this model
    | Reject(error: Error)                     // an exception raised before any mutation

  /** An extremal value and the first position holding it. */
  datatype Extremum = Extremum(value: real, index: int)

  /** Java's Math.min and Math.max on values that are never NaN. */
  function MathMin(a: real, b: real): real { if a <= b then a else b }
  function MathMax(a: real, b: real): real { if a >= b then a else b }

  /** What an in-place operation over the whole buffer does to it: the dense loops of
      inPlace(Op), inPlace(Op, double) and inPlace(Op, AbstractMat). A matrix operand that is
      too short makes System.arraycopy raise before copying anything, and makes the other loops
      raise at the first missing element, after updating the elements before it. */
  ghost predicate DenseEffect(before: seq<real>, after: seq<real>, res: Outcome, op: Op, rhs: Operand)
  {
    |after| == |before| &&
    if !Supported(op, rhs) then
      res == Fail(UnsupportedOperation) && after == before
    else if rhs.Elements? && |rhs.values| < |before| then
      res == Fail(AccessFault) &&
      (op == Equal ==> after == before) &&
      (op != Equal ==> forall k :: 0 <= k < |before| ==>
        after[k] == if k < |rhs.values| then Updated(op, rhs, before[k], k) else before[k])
    else
      res == Pass && forall k :: 0 <= k < |before| ==> after[k] == Updated(op, rhs, before[k], k)
  }

  /** What an in-place operation through a view with offset sequence offs does to the buffer. */
  ghost predicate ViewEffect(before: seq<real>, after: seq<real>, res: Outcome, offs: seq<int>, op: Op, rhs: Operand)
  {
    if !Supported(op, rhs) then
      res == Fail(UnsupportedOperation) && after == before
    else
      var r := Scatter(before, offs, op, rhs);
      after == r.buffer && res == (if r.complete then Pass else Fail(AccessFault))
  }

  /** One pass of a view's update loop, once the view has produced the offset off of step n:
      the update at off, or the fault when off is outside the buffer or the operand runs out. */
  method UpdateAt(buf: array<real>, ghost before: seq<real>, ghost offs: seq<int>, op: Op, rhs: Operand, n: int, off: int)
    returns (faulted: bool)
    requires Supported(op, rhs) && 0 <= n < |offs| && off == offs[n]
    requires Scatter(before, offs[..n], op, rhs) == Scattered(buf[..], true)
    modifies buf
    ensures Scatter(before, offs[..n + 1], op, rhs) == Scattered(buf[..], !faulted)
  {
    ScatterExtend(before, offs, op, rhs, n);
    if !(0 <= off < buf.Length) || !Covers(rhs, n) {
      return true;
    }
    ghost var prefix := buf[..];
    buf[off] := Updated(op, rhs, buf[off], n);
    assert buf[..] == prefix[off := Updated(op, rhs, prefix[off], n)];
    return false;
  }

  class AbstractMat {
    /** The column-major element buffer. */
    var data: array<real>
    var n_rows: int
    var n_cols: int
    var n_elem: int

    ghost predicate Valid()
      reads this
    {
      0 <= n_rows && 0 <= n_cols && n_elem == n_rows * n_cols && data.Length == n_elem
    }

    /** A zero-filled rows x cols matrix, standing in for the constructors of the subclasses. */
    constructor (rows: nat, cols: nat)
      ensures Valid() && fresh(data) && n_rows == rows && n_cols == cols
      ensures forall k :: 0 <= k < data.Length ==> data[k] == 0.0
    {
      n_rows, n_cols, n_elem := rows, cols, rows * cols;
      data := new real[rows * cols](_ => 0.0);
    }

    // -------------------------------------------------------------------------------------------
    // Bounds predicates

    /** in_range(n): a linear position of the buffer. */
    predicate InRange(n: int)
      reads this
      ensures Valid() ==> (InRange(n) <==> 0 <= n < data.Length)
    {
      n > -1 && n < n_elem
    }

    /** in_range(span): an entire span, or first and last both within the element count. */
    predicate InRangeSpan(span: Span)
      reads this
      ensures Valid() ==> (InRangeSpan(span) <==> span.isEntireRange || (0 <= span.first && span.last < data.Length))
    {
      span.isEntireRange || (span.first > -1 && span.last < n_elem)
    }

    /** in_range(row, col) */
    predicate InRangeAt(row: int, col: int)
      reads this
    {
      (row > -1 && row < n_rows) && (col > -1 && col < n_cols)
    }

    /** in_range(row_span, col_span) */
    predicate InRangeSpans(row_span: Span, col_span: Span)
      reads this
    {
      (row_span.isEntireRange || (row_span.first > -1 && row_span.last < n_rows)) &&
      (col_span.isEntireRange || (col_span.first > -1 && col_span.last < n_cols))
    }

    /** in_range(first_row, first_col, size) */
    predicate InRangeBlock(first_row: int, first_col: int, size: Size)
      reads this
    {
      (first_row > -1 && first_row + size.n_rows - 1 < n_rows) &&
      (first_col > -1 && first_col + size.n_cols - 1 < n_cols)
    }

    /** is_empty() */
    predicate IsEmpty()
      reads this
      ensures Valid() ==> (IsEmpty() <==> data.Length == 0)
    {
      n_elem == 0
    }

    /** size(): the number of elements. */
    function ElementCount(): (r: int)
      reads this
      ensures Valid() ==> r == data.Length
    {
      n_elem
    }

    // -------------------------------------------------------------------------------------------
    // Linear scans

    /** min(): the smallest element. */
    method Min() returns (r: Result<real>)
      requires Valid()
      ensures r.Err? <==> n_elem == 0
      ensures r.Err? ==> r.error == EmptyCollection
      ensures r.Ok? ==> (exists k :: 0 <= k < n_elem && data[k] == r.value)
      ensures r.Ok? ==> forall k :: 0 <= k < n_elem ==> r.value <= data[k]
    {
      if IsEmpty() {
        return Err(EmptyCollection);
      }
      var minimum := data[0];
      ghost var at := 0;
      var n := 1;
      while n < n_elem
        invariant 1 <= n <= n_elem
        invariant 0 <= at < n && data[at] == minimum
        invariant forall k :: 0 <= k < n ==> minimum <= data[k]
      {
        if data[n] < minimum {
          at := n;
        }
        minimum := MathMin(minimum, data[n]);
        n := n + 1;
      }
      return Ok(minimum);
    }

    /** min(index_of_min_val): the smallest element and the first position holding it.
        index_slots is the length of the int[] the position is stored in; storing it into an
        array without a slot faults once the vector is known not to be empty. */
    method MinWithIndex(index_slots: nat) returns (r: Result<Extremum>)
      requires Valid()
      ensures r == Err(EmptyCollection) <==> n_elem == 0
      ensures r == Err(AccessFault) <==> n_elem > 0 && index_slots == 0
      ensures r.Err? ==> r.error == EmptyCollection || r.error == AccessFault
      ensures r.Ok? ==> 0 <= r.value.index < n_elem && data[r.value.index] == r.value.value
      ensures r.Ok? ==> forall k :: 0 <= k < n_elem ==> r.value.value <= data[k]
      ensures r.Ok? ==> forall k :: 0 <= k < r.value.index ==> r.value.value < data[k]
    {
      if IsEmpty() {
        return Err(EmptyCollection);
      }
      if index_slots == 0 {
        return Err(AccessFault);
      }
      var minimum := data[0];
      var index := 0;
      var n := 1;
      while n < n_elem
        invariant 1 <= n <= n_elem
        invariant 0 <= index < n && data[index] == minimum
        invariant forall k :: 0 <= k < n ==> minimum <= data[k]
        invariant forall k :: 0 <= k < index ==> minimum < data[k]
      {
        var value := data[n];
        if value < minimum {
          minimum := value;
          index := n;
        }
        n := n + 1;
      }
      return Ok(Extremum(minimum, index));
    }

    /** max(): the largest element. */
    method Max() returns (r: Result<real>)
      requires Valid()
      ensures r.Err? <==> n_elem == 0
      ensures r.Err? ==> r.error == EmptyCollection
      ensures r.Ok? ==> (exists k :: 0 <= k < n_elem && data[k] == r.value)
      ensures r.Ok? ==> forall k :: 0 <= k < n_elem ==> data[k] <= r.value
    {
      if IsEmpty() {
        return Err(EmptyCollection);
      }
      var maximum := data[0];
      ghost var at := 0;
      var n := 1;
      while n < n_elem
        invariant 1 <= n <= n_elem
        invariant 0 <= at < n && data[at] == maximum
        invariant forall k :: 0 <= k < n ==> data[k] <= maximum
      {
        if data[n] > maximum {
          at := n;
        }
        maximum := MathMax(maximum, data[n]);
        n := n + 1;
      }
      return Ok(maximum);
    }

    /** max(index_of_max_val): the largest element and the first position holding it.
        index_slots is the length of the int[] the position is stored in; storing it into an
        array without a slot faults once the vector is known not to be empty. */
    method MaxWithIndex(index_slots: nat) returns (r: Result<Extremum>)
      requires Valid()
      ensures r == Err(EmptyCollection) <==> n_elem == 0
      ensures r == Err(AccessFault) <==> n_elem > 0 && index_slots == 0
      ensures r.Err? ==> r.error == EmptyCollection || r.error == AccessFault
      ensures r.Ok? ==> 0 <= r.value.index < n_elem && data[r.value.index] == r.value.value
      ensures r.Ok? ==> forall k :: 0 <= k < n_elem ==> data[k] <= r.value.value
      ensures r.Ok? ==> forall k :: 0 <= k < r.value.index ==> data[k] < r.value.value
    {
      if IsEmpty() {
        return Err(EmptyCollection);
      }
      if index_slots == 0 {
        return Err(AccessFault);
      }
      var maximum := data[0];
      var index := 0;
      var n := 1;
      while n < n_elem
        invariant 1 <= n <= n_elem
        invariant 0 <= index < n && data[index] == maximum
        invariant forall k :: 0 <= k < n ==> data[k] <= maximum
        invariant forall k :: 0 <= k < index ==> data[k] < maximum
      {
        var value := data[n];
        if value > maximum {
          maximum := value;
          index := n;
        }
        n := n + 1;
      }
      return Ok(Extremum(maximum, index));
    }

    // -------------------------------------------------------------------------------------------
    // Whole-buffer mutation

    /** fill(value): every element becomes value. */
    method Fill(value: real)
      requires Valid()
      modifies data
      ensures forall k :: 0 <= k < data.Length ==> data[k] == value
    {
      forall k | 0 <= k < data.Length {
        data[k] := value;
      }
    }

    /** reset(): the empty 0 x 0 matrix with a zero-length buffer. */
    method Reset()
      modifies this
      ensures Valid() && fresh(data)
      ensures n_rows == 0 && n_cols == 0 && n_elem == 0 && data.Length == 0
    {
      data := new real[0];
      n_rows := 0;
      n_cols := 0;
      n_elem := 0;
    }

    /** swap_rows(row1, row2): both positions are checked before the two elements are exchanged. */
    method SwapRows(row1: int, row2: int) returns (res: Outcome)
      requires Valid()
      modifies data
      ensures !InRange(row1) ==> res == Fail(OutOfBounds(FirstRow))
      ensures InRange(row1) && !InRange(row2) ==> res == Fail(OutOfBounds(SecondRow))
      ensures res.Fail? ==> data[..] == old(data[..])
      ensures res == Pass <==> InRange(row1) && InRange(row2)
      ensures res == Pass ==> data[row1] == old(data[row2]) && data[row2] == old(data[row1])
      ensures res == Pass ==> forall k :: 0 <= k < data.Length && k != row1 && k != row2 ==> data[k] == old(data[k])
      ensures multiset(data[..]) == multiset(old(data[..]))
    {
      if !InRange(row1) {
        return Fail(OutOfBounds(FirstRow));
      }
      if !InRange(row2) {
        return Fail(OutOfBounds(SecondRow));
      }
      var temp := data[row1];
      data[row1] := data[row2];
      data[row2] := temp;
      return Pass;
    }

    /** swap_cols(col1, col2): the only column is swapped with itself, so only the checks remain. */
    method SwapCols(col1: int, col2: int) returns (res: Outcome)
      requires Valid()
      ensures !InRange(col1) ==> res == Fail(OutOfBounds(FirstCol))
      ensures InRange(col1) && !InRange(col2) ==> res == Fail(OutOfBounds(SecondCol))
      ensures res == Pass <==> InRange(col1) && InRange(col2)
    {
      if !InRange(col1) {
        return Fail(OutOfBounds(FirstCol));
      }
      if !InRange(col2) {
        return Fail(OutOfBounds(SecondCol));
      }
      return Pass;
    }

    // -------------------------------------------------------------------------------------------
    // Operator dispatch over the whole buffer

    /** inPlace(Op): NEGATE, INCREMENT and DECREMENT loop over every element. */
    method InPlaceUnary(op: Op) returns (res: Outcome)
      requires Valid()
      modifies data
      ensures DenseEffect(old(data[..]), data[..], res, op, NoOperand)
    {
      if !op.IsUnary() {
        return Fail(UnsupportedOperation);
      }
      var n := 0;
      while n < n_elem
        invariant 0 <= n <= n_elem
        invariant forall k :: 0 <= k < n ==> data[k] == UnaryValue(op, old(data[k]))
        invariant forall k :: n <= k < n_elem ==> data[k] == old(data[k])
      {
        data[n] := UnaryValue(op, data[n]);
        n := n + 1;
      }
      return Pass;
    }

    /** inPlace(Op, double): EQUAL fills; PLUS, MINUS, ELEMTIMES and ELEMDIVIDE run the loops of
        inPlacePlus, inPlaceMinus, inPlaceElemTimes and inPlaceElemDivide with a scalar. */
    method InPlaceScalar(op: Op, operand: real) returns (res: Outcome)
      requires Valid()
      modifies data
      ensures DenseEffect(old(data[..]), data[..], res, op, Scalar(operand))
    {
      if !op.IsBinary() {
        return Fail(UnsupportedOperation);
      }
      if op == Equal {
        Fill(operand);
        return Pass;
      }
      var n := 0;
      while n < n_elem
        invariant 0 <= n <= n_elem
        invariant forall k :: 0 <= k < n ==> data[k] == BinaryValue(op, old(data[k]), operand)
        invariant forall k :: n <= k < n_elem ==> data[k] == old(data[k])
      {
        data[n] := BinaryValue(op, data[n], operand);
        n := n + 1;
      }
      return Pass;
    }

    /** inPlace(Op, AbstractMat) given the operand's buffer: EQUAL is System.arraycopy of the first
        n_elem operand elements; the other tags run the element-wise loops of inPlacePlus,
        inPlaceMinus, inPlaceElemTimes and inPlaceElemDivide. */
    method InPlaceElements(op: Op, operand: seq<real>) returns (res: Outcome)
      requires Valid()
      modifies data
      ensures DenseEffect(old(data[..]), data[..], res, op, Elements(operand))
    {
      if !op.IsBinary() {
        return Fail(UnsupportedOperation);
      }
      if op == Equal {
        if |operand| < n_elem {
          return Fail(AccessFault);
        }
        forall k | 0 <= k < n_elem {
          data[k] := operand[k];
        }
        return Pass;
      }
      var n := 0;
      while n < n_elem
        invariant 0 <= n <= n_elem && n <= |operand|
        invariant forall k :: 0 <= k < n ==> data[k] == BinaryValue(op, old(data[k]), operand[k])
        invariant forall k :: n <= k < n_elem ==> data[k] == old(data[k])
      {
        if n >= |operand| {
          return Fail(AccessFault);
        }
        data[n] := BinaryValue(op, data[n], operand[n]);
        n := n + 1;
      }
      return Pass;
    }

    /** The three inPlace overloads, chosen by the kind of operand. */
    method InPlace(op: Op, rhs: Operand) returns (res: Outcome)
      requires Valid()
      modifies data
      ensures DenseEffect(old(data[..]), data[..], res, op, rhs)
    {
      match rhs
      case NoOperand => res := InPlaceUnary(op);
      case Scalar(s) => res := InPlaceScalar(op, s);
      case Elements(values) => res := InPlaceElements(op, values);
    }

    // -------------------------------------------------------------------------------------------
    // Selection routing

    /** rows(first_row, last_row, ...): both bounds are checked as linear positions. */
    function RowsRoute(first_row: int, last_row: int): (r: Route)
      reads this
      ensures !InRange(first_row) ==> r == Reject(OutOfBounds(FirstRow))
      ensures InRange(first_row) && !InRange(last_row) ==> r == Reject(OutOfBounds(LastRow))
      ensures r.SubRows? <==> InRange(first_row) && InRange(last_row)
      ensures r.SubRows? ==> r == SubRows(first_row, last_row)
    {
      if !InRange(first_row) then Reject(OutOfBounds(FirstRow))
      else if !InRange(last_row) then Reject(OutOfBounds(LastRow))
      else SubRows(first_row, last_row)
    }

    /** col(col_number, ...): the only column is the whole vector. */
    function ColRoute(col_number: int): (r: Route)
      ensures r == Whole <==> col_number == 0
      ensures col_number != 0 ==> r == Reject(OutOfBounds(ColPosition))
    {
      if col_number != 0 then Reject(OutOfBounds(ColPosition)) else Whole
    }

    /** cols(first_col, last_col, ...): both column bounds must be 0. */
    function ColsRoute(first_col: int, last_col: int): (r: Route)
      ensures r == Whole <==> first_col == 0 && last_col == 0
      ensures first_col != 0 ==> r == Reject(OutOfBounds(FirstCol))
      ensures first_col == 0 && last_col != 0 ==> r == Reject(OutOfBounds(LastCol))
    {
      if first_col != 0 then Reject(OutOfBounds(FirstCol))
      else if last_col != 0 then Reject(OutOfBounds(LastCol))
      else Whole
    }

    /** col(span, col_number, ...): an entire span is the whole vector, any other span a row range. */
    function ColSpanRoute(span: Span, col_number: int): (r: Route)
      reads this
      ensures col_number != 0 ==> r == Reject(OutOfBounds(ColPosition))
      ensures r == Whole <==> col_number == 0 && span.isEntireRange
      ensures col_number == 0 && !span.isEntireRange ==> r == RowsRoute(span.first, span.last)
      ensures !r.SingleRow?
    {
      if col_number != 0 then Reject(OutOfBounds(ColPosition))
      else if span.isEntireRange then Whole
      else RowsRoute(span.first, span.last)
    }

    /** row(row_number, ...): a checked position handed to a ViewSubRow. */
    function RowRoute(row_number: int): (r: Route)
      reads this
      ensures r == SingleRow(row_number) <==> InRange(row_number)
      ensures !InRange(row_number) ==> r == Reject(OutOfBounds(RowPosition))
    {
      if !InRange(row_number) then Reject(OutOfBounds(RowPosition)) else SingleRow(row_number)
    }

    /** row(row_number, span, ...): both column bounds of the span must be 0, even for an
        entire span, and the request becomes row(row_number, ...). */
    function RowSpanRoute(row_number: int, span: Span): (r: Route)
      reads this
      ensures span.first != 0 ==> r == Reject(OutOfBounds(FirstCol))
      ensures span.first == 0 && span.last != 0 ==> r == Reject(OutOfBounds(LastCol))
      ensures span.first == 0 && span.last == 0 ==> r == RowRoute(row_number)
      ensures !r.Whole? && !r.SubRows?
    {
      if span.first != 0 then Reject(OutOfBounds(FirstCol))
      else if span.last != 0 then Reject(OutOfBounds(LastCol))
      else RowRoute(row_number)
    }

    /** submat(first_row, first_col, last_row, last_col, ...): column bounds 0, then rows. */
    function SubmatRoute(first_row: int, first_col: int, last_row: int, last_col: int): (r: Route)
      reads this
      ensures first_col != 0 ==> r == Reject(OutOfBounds(FirstCol))
      ensures first_col == 0 && last_col != 0 ==> r == Reject(OutOfBounds(LastCol))
      ensures first_col == 0 && last_col == 0 ==> r == RowsRoute(first_row, last_row)
      ensures !r.Whole? && !r.SingleRow?
    {
      if first_col != 0 then Reject(OutOfBounds(FirstCol))
      else if last_col != 0 then Reject(OutOfBounds(LastCol))
      else RowsRoute(first_row, last_row)
    }

    /** submat(row_span, col_span, ...): the spans' bounds are passed on as they are; the
        entire-range flags are not consulted, so an entire span passes only when its stored
        bounds do. On a column vector, two proper spans that are not reversed are carried out
        exactly when in_range(row_span, col_span) admits them. */
    function SubmatSpansRoute(row_span: Span, col_span: Span): (r: Route)
      reads this
      ensures col_span.first != 0 ==> r == Reject(OutOfBounds(FirstCol))
      ensures col_span.first == 0 && col_span.last != 0 ==> r == Reject(OutOfBounds(LastCol))
      ensures r.SubRows? <==>
        col_span.first == 0 && col_span.last == 0 && InRange(row_span.first) && InRange(row_span.last)
      ensures r.SubRows? ==> r == SubRows(row_span.first, row_span.last)
      ensures Valid() && n_cols == 1 && !row_span.isEntireRange && !col_span.isEntireRange &&
              row_span.first <= row_span.last && col_span.first <= col_span.last ==>
        (r.SubRows? <==> InRangeSpans(row_span, col_span))
    {
      SubmatRoute(row_span.first, col_span.first, row_span.last, col_span.last)
    }

    /** submat(first_row, first_col, size, ...): the block's last positions are first + size - 1;
        on a column vector a non-degenerate size is carried out exactly when
        in_range(first_row, first_col, size) admits the block. */
    function SubmatSizeRoute(first_row: int, first_col: int, size: Size): (r: Route)
      reads this
      ensures first_col != 0 ==> r == Reject(OutOfBounds(FirstCol))
      ensures first_col == 0 && size.n_cols != 1 ==> r == Reject(OutOfBounds(LastCol))
      ensures r.SubRows? ==> r == SubRows(first_row, first_row + size.n_rows - 1)
      ensures Valid() && n_cols == 1 && size.n_rows > 0 && size.n_cols > 0 ==>
        (r.SubRows? <==> InRangeBlock(first_row, first_col, size))
    {
      SubmatRoute(first_row, first_col, first_row + size.n_rows - 1, first_col + size.n_cols - 1)
    }

    /** The offsets the view that a SubRows route builds on this matrix enumerates. */
    ghost function RangeOffsets(first_row: int, last_row: int): seq<int>
      reads this
    {
      SubRowsOffsets(first_row, last_row - first_row + 1, n_rows, (last_row - first_row + 1) * n_cols)
    }

    /** What carrying out a route does to the buffer. */
    ghost predicate RouteEffect(route: Route, before: seq<real>, after: seq<real>, res: Outcome, op: Op, rhs: Operand)
      reads this
    {
      match route
      case Whole => DenseEffect(before, after, res, op, rhs)
      case SubRows(f, l) => ViewEffect(before, after, res, RangeOffsets(f, l), op, rhs)
      case SingleRow(_) => false
      case Reject(e) => res == Fail(e) && after == before
    }

    /** Carries out a route: the dense loops, a ViewSubRows, or the guard's exception. */
    method Select(route: Route, op: Op, rhs: Operand) returns (res: Outcome)
      requires Valid() && !route.SingleRow?
      modifies data
      ensures Valid()
      ensures RouteEffect(route, old(data[..]), data[..], res, op, rhs)
    {
      match route
      case Whole =>
        res := InPlace(op, rhs);
      case SubRows(f, l) =>
        var view := new ViewSubRows(this, f, l);
        res := view.InPlace(op, rhs);
      case Reject(e) =>
        res := Fail(e);
    }

    /** col(col_number, op[, operand]) */
    method Col(col_number: int, op: Op, rhs: Operand) returns (res: Outcome)
      requires Valid()
      modifies data
      ensures Valid()
      ensures RouteEffect(ColRoute(col_number), old(data[..]), data[..], res, op, rhs)
    {
      res := Select(ColRoute(col_number), op, rhs);
    }

    /** cols(first_col, last_col, op[, operand]) */
    method Cols(first_col: int, last_col: int, op: Op, rhs: Operand) returns (res: Outcome)
      requires Valid()
      modifies data
      ensures Valid()
      ensures RouteEffect(ColsRoute(first_col, last_col), old(data[..]), data[..], res, op, rhs)
    {
      res := Select(ColsRoute(first_col, last_col), op, rhs);
    }

    /** rows(first_row, last_row, op[, operand]) */
    method Rows(first_row: int, last_row: int, op: Op, rhs: Operand) returns (res: Outcome)
      requires Valid()
      modifies data
      ensures Valid()
      ensures RouteEffect(RowsRoute(first_row, last_row), old(data[..]), data[..], res, op, rhs)
    {
      res := Select(RowsRoute(first_row, last_row), op, rhs);
    }

    /** col(span, col_number, op[, operand]) */
    method ColSpan(span: Span, col_number: int, op: Op, rhs: Operand) returns (res: Outcome)
      requires Valid()
      modifies data
      ensures Valid()
      ensures RouteEffect(ColSpanRoute(span, col_number), old(data[..]), data[..], res, op, rhs)
    {
      res := Select(ColSpanRoute(span, col_number), op, rhs);
    }

    /** submat(first_row, first_col, last_row, last_col, op[, operand]) */
    method Submat(first_row: int, first_col: int, last_row: int, last_col: int, op: Op, rhs: Operand)
      returns (res: Outcome)
      requires Valid()
      modifies data
      ensures Valid()
      ensures RouteEffect(SubmatRoute(first_row, first_col, last_row, last_col), old(data[..]), data[..], res, op, rhs)
    {
      res := Select(SubmatRoute(first_row, first_col, last_row, last_col), op, rhs);
    }

    /** submat(row_span, col_span, op[, operand]) */
    method SubmatSpans(row_span: Span, col_span: Span, op: Op, rhs: Operand) returns (res: Outcome)
      requires Valid()
      modifies data
      ensures Valid()
      ensures RouteEffect(SubmatSpansRoute(row_span, col_span), old(data[..]), data[..], res, op, rhs)
    {
      res := Select(SubmatSpansRoute(row_span, col_span), op, rhs);
    }

    /** submat(first_row, first_col, size, op[, operand]) */
    method SubmatSize(first_row: int, first_col: int, size: Size, op: Op, rhs: Operand) returns (res: Outcome)
      requires Valid()
      modifies data
      ensures Valid()
      ensures RouteEffect(SubmatSizeRoute(first_row, first_col, size), old(data[..]), data[..], res, op, rhs)
    {
      res := Select(SubmatSizeRoute(first_row, first_col, size), op, rhs);
    }

    /** elem(vector_of_indices, op[, operand]): no index is checked; one outside the buffer faults
        when it is reached. */
    method Elem(vector_of_indices: seq<real>, op: Op, rhs: Operand) returns (res: Outcome)
      requires Valid()
      modifies data
      ensures Valid()
      ensures ViewEffect(old(data[..]), data[..], res, ElemOffsets(vector_of_indices), op, rhs)
    {
      var view := new ViewElemMat(this, vector_of_indices);
      res := view.InPlace(op, rhs);
    }

    // -------------------------------------------------------------------------------------------
    // load

    /** load(...) on text already split into lines of tokens, as written: the buffer is filled
        line after line. accepts says which number tokens Double.valueOf parses and valueOf
        stands for the double a cell denotes. No first line and a ragged line leave the matrix
        reset; a token Double.valueOf rejects raises with the matrix as it was. */
    method Load(lines: seq<seq<string>>, accepts: string -> bool, valueOf: TextLoad.Cell -> real)
      returns (r: Result<bool>)
      requires Valid()
      modifies this
      ensures Valid()
      ensures var loaded := TextLoad.LoadAsWritten(lines, accepts);
        if loaded == Err(MalformedNumber) then
          r == Err(MalformedNumber) && data == old(data) && n_rows == old(n_rows) && n_cols == old(n_cols)
        else if loaded.Err? || loaded == Ok(TextLoad.NoFirstLine) then
          r == (if loaded.Err? then Err(loaded.error) else Ok(false)) &&
          fresh(data) && n_rows == 0 && n_cols == 0 && data.Length == 0
        else
          r == Ok(true) && fresh(data) && n_rows == loaded.value.n_rows && n_cols == loaded.value.n_cols &&
          data.Length == |loaded.value.cells| &&
          forall k :: 0 <= k < |loaded.value.cells| ==> data[k] == valueOf(loaded.value.cells[k])
    {
      var loaded := TextLoad.LoadAsWritten(lines, accepts);
      match loaded
      case Err(e) =>
        if e != MalformedNumber {
          Reset();
        }
        r := Err(e);
      case Ok(NoFirstLine) =>
        Reset();
        r := Ok(false);
      case Ok(Filled(rows, cols, cells)) =>
        TextLoad.RowByRowLength(lines, cols);
        var buffer := new real[|cells|];
        forall k | 0 <= k < |cells| {
          buffer[k] := valueOf(cells[k]);
        }
        n_cols, n_rows, n_elem := cols, rows, rows * cols;
        data := buffer;
        r := Ok(true);
    }
  }

  // ---------------------------------------------------------------------------------------------

  /** A contiguous row range [first_row, last_row] of a borrowed matrix, in all its columns. */
  class ViewSubRows {
    const matrix: AbstractMat
    const n_rows: int
    const n_cols: int
    const n_elem: int
    /** The first position of the view within the backing buffer. */
    const firstPosition: int
    /** Backing rows outside the view, skipped from the end of one column to the next. */
    const n_rows_skip: int
    ghost const backing_rows: int

    var cursor: int
    var row_number: int
    /** Number of IteratorNext calls since the last IteratorReset. */
    ghost var produced: nat
    ghost var rewound: bool

    /** After a reset and k calls, the cursor holds the offset of call k. */
    ghost predicate Valid()
      reads this
    {
      n_cols >= 0 && n_elem == n_rows * n_cols && n_rows_skip == backing_rows - n_rows &&
      (rewound && produced == 0 ==> cursor == firstPosition - 1 && row_number == -1) &&
      (rewound && produced > 0 ==>
        n_rows > 0 && row_number == (produced - 1) % n_rows &&
        cursor == SubRowsOffset(firstPosition, n_rows, backing_rows, produced - 1))
    }

    /** The offsets of one enumeration, from a reset to the n_elem-th call. */
    ghost function Offsets(): seq<int>
      reads this
    {
      SubRowsOffsets(firstPosition, n_rows, backing_rows, n_elem)
    }

    constructor (matrix: AbstractMat, first_row: int, last_row: int)
      requires matrix.Valid()
      ensures Valid() && !rewound
      ensures this.matrix == matrix && backing_rows == matrix.n_rows
      ensures n_rows == last_row - first_row + 1 && n_cols == matrix.n_cols && n_elem == n_rows * n_cols
      ensures firstPosition == first_row
      ensures n_rows_skip == matrix.n_rows - (last_row - first_row + 1)
    {
      this.matrix := matrix;
      n_rows := last_row - first_row + 1;
      n_cols := matrix.n_cols;
      n_elem := (last_row - first_row + 1) * matrix.n_cols;
      firstPosition := first_row;
      n_rows_skip := matrix.n_rows - last_row + first_row - 1;
      backing_rows := matrix.n_rows;
      cursor, row_number := 0, 0;
      produced, rewound := 0, false;
    }

    /** iteratorReset(): one position before the first, before the first row. */
    method IteratorReset()
      requires Valid()
      modifies this
      ensures Valid() && rewound && produced == 0
      ensures cursor == firstPosition - 1 && row_number == -1
    {
      cursor := firstPosition - 1;
      row_number := -1;
      produced, rewound := 0, true;
    }

    /** iteratorNext(): call k after a reset returns first_row + k % n_rows + (k / n_rows) *
        backing_rows; the first call returns first_row. */
    method IteratorNext() returns (offset: int)
      requires Valid() && rewound && produced < n_elem
      modifies this
      ensures Valid() && rewound && produced == old(produced) + 1
      ensures n_rows > 0 && offset == SubRowsOffset(firstPosition, n_rows, backing_rows, old(produced))
      ensures old(produced) == 0 ==> offset == firstPosition
      ensures offset == Offsets()[old(produced)]
    {
      PositiveFactor(n_rows, n_cols);
      ghost var k := produced;
      if k == 0 {
        SubRowsOffsetFirst(firstPosition, n_rows, backing_rows);
      } else {
        SubRowsStep(firstPosition, n_rows, backing_rows, k - 1);
      }
      row_number := row_number + 1;
      if row_number >= n_rows {
        cursor := cursor + n_rows_skip;
        row_number := 0;
      }
      cursor := cursor + 1;
      offset := cursor;
      produced := k + 1;
    }

    /** One pass of the update loop: the next offset, then the update there, or the fault. */
    method Advance(buf: array<real>, ghost before: seq<real>, op: Op, rhs: Operand, n: int) returns (faulted: bool)
      requires Valid() && rewound && produced == n && n < n_elem && buf == matrix.data
      requires Supported(op, rhs) && Scatter(before, Offsets()[..n], op, rhs) == Scattered(buf[..], true)
      modifies this, buf
      ensures Valid() && rewound && produced == n + 1
      ensures Scatter(before, Offsets()[..n + 1], op, rhs) == Scattered(buf[..], !faulted)
    {
      var off := IteratorNext();
      faulted := UpdateAt(buf, before, Offsets(), op, rhs, n, off);
    }

    /** The in-place operator applied through the view: reset, then one update per call. */
    method InPlace(op: Op, rhs: Operand) returns (res: Outcome)
      requires Valid()
      modifies this, matrix.data
      ensures Valid()
      ensures ViewEffect(old(matrix.data[..]), matrix.data[..], res, Offsets(), op, rhs)
    {
      if !Supported(op, rhs) {
        return Fail(UnsupportedOperation);
      }
      var buf := matrix.data;
      ghost var before := buf[..];
      ghost var offs := Offsets();
      assert |offs| == if n_elem > 0 then n_elem else 0 by {
        if n_elem > 0 {
          PositiveFactor(n_rows, n_cols);
        }
      }
      IteratorReset();
      var n := 0;
      while n < n_elem
        invariant 0 <= n <= |offs| && (n < |offs| <==> n < n_elem)
        invariant Valid() && rewound && produced == n
        invariant buf == matrix.data && offs == Offsets()
        invariant Scatter(before, offs[..n], op, rhs) == Scattered(buf[..], true)
      {
        var faulted := Advance(buf, before, op, rhs, n);
        if faulted {
          ScatterStaysFaulted(before, offs, op, rhs, n + 1);
          return Fail(AccessFault);
        }
        n := n + 1;
      }
      assert offs[..n] == offs;
      return Pass;
    }
  }

  // ---------------------------------------------------------------------------------------------

  /** The elements of a borrowed matrix listed by an index vector, in list order. */
  class ViewElemMat {
    const matrix: AbstractMat
    const n_rows: int
    const n_cols: int
    const n_elem: int
    const vector_of_indices: seq<real>

    /** The position within the index vector of the last call. */
    var elem_number: int
    ghost var rewound: bool

    ghost predicate Valid()
      reads this
    {
      n_rows == |vector_of_indices| && n_cols == 1 && n_elem == n_rows &&
      (rewound ==> -1 <= elem_number < n_elem)
    }

    /** No index is validated here. */
    constructor (matrix: AbstractMat, vector_of_indices: seq<real>)
      ensures Valid() && !rewound
      ensures this.matrix == matrix && this.vector_of_indices == vector_of_indices
      ensures n_rows == |vector_of_indices| && n_cols == 1 && n_elem == n_rows
    {
      this.matrix := matrix;
      n_rows := |vector_of_indices|;
      n_cols := 1;
      n_elem := |vector_of_indices|;
      this.vector_of_indices := vector_of_indices;
      elem_number := 0;
      rewound := false;
    }

    /** iteratorReset(): enumeration restarts before the first listed index. */
    method IteratorReset()
      requires Valid()
      modifies this
      ensures Valid() && rewound && elem_number == -1
    {
      elem_number := -1;
      rewound := true;
    }

    /** iteratorNext(): the next listed index, cast to int, unchecked. */
    method IteratorNext() returns (offset: int)
      requires Valid() && rewound && elem_number + 1 < n_elem
      modifies this
      ensures Valid() && rewound && elem_number == old(elem_number) + 1
      ensures offset == ElemOffsets(vector_of_indices)[elem_number]
    {
      elem_number := elem_number + 1;
      offset := JavaIntCast(vector_of_indices[elem_number]);
    }

    /** The in-place operator applied through the view: reset, then one update per call. */
    method InPlace(op: Op, rhs: Operand) returns (res: Outcome)
      requires Valid()
      modifies this, matrix.data
      ensures Valid()
      ensures ViewEffect(old(matrix.data[..]), matrix.data[..], res, ElemOffsets(vector_of_indices), op, rhs)
    {
      if !Supported(op, rhs) {
        return Fail(UnsupportedOperation);
      }
      var buf := matrix.data;
      ghost var before := buf[..];
      ghost var offs := ElemOffsets(vector_of_indices);
      IteratorReset();
      var n := 0;
      while n < n_elem
        invariant 0 <= n <= n_elem
        invariant Valid() && rewound && elem_number == n - 1
        invariant buf == matrix.data
        invariant Scatter(before, offs[..n], op, rhs) == Scattered(buf[..], true)
      {
        var off := IteratorNext();
        var faulted := UpdateAt(buf, before, offs, op, rhs, n, off);
        if faulted {
          ScatterStaysFaulted(before, offs, op, rhs, n + 1);
          return Fail(AccessFault);
        }
        n := n + 1;
      }
      assert offs[..n] == offs;
      return Pass;
    }
  }
}
