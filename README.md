# ArmadilloJava selection and addressing core, in Dafny

This project models the selection and addressing layer of ArmadilloJava's dense matrices, and proves properties of that model.

- **`AbstractMat`** stores its elements in a column-major `double[]`: element (i, j) lives at `i + j * n_rows`. Its facade provides:
  - the `in_range` bounds predicates, `is_empty` and `size`;
  - the linear scans `min` and `max`, with and without the index of the extremum;
  - the mutators `fill`, `reset`, `swap_rows` and `swap_cols`;
  - the in-place operator dispatch `inPlace(Op)`, `inPlace(Op, double)` and `inPlace(Op, AbstractMat)`, with its `inPlacePlus`, `inPlaceMinus`, `inPlaceElemTimes` and `inPlaceElemDivide` loops;
  - the selection methods `col`, `cols`, `rows`, `row(i, span)`, `submat(...)` and `elem(...)`;
  - the shape, token and failure logic of `load`, and which value `save` writes on which line.
- **The selection methods treat the matrix as a column vector.** A column position must be 0. The whole vector goes to the dense loops, and a row range goes to a `ViewSubRows`.
- **`ViewSubRows`** is a view of a contiguous row range. Its `iteratorReset`/`iteratorNext` state machine enumerates the backing offsets `first_row + k % n_rows + (k / n_rows) * backing_rows`.
- **`ViewElemMat`** is a view of an element-index list. It enumerates `(int) indices[k]` in list order and checks nothing.

Modules:

| module | file | contents |
|---|---|---|
| `Errors` | `errors.dfy` | error kinds, `Outcome`, `Result` |
| `Ops` | `ops.dfy` | the operator tags and the element update of each |
| `Offsets` | `offsets.dfy` | the offset laws of both views and Java's `(int)` cast |
| `Dispatch` | `dispatch.dfy` | `Scatter`: applying an operator through an offset sequence |
| `TextLoad` | `textload.dfy` | `load` as a pure function over token lines, as written and column-major, and the lines `save` writes |
| `Armadillo` | `armadillo.dfy` | the classes `AbstractMat`, `ViewSubRows` and `ViewElemMat` |
| `ViewLaws` | `properties.dfy` | lemmas relating the routes, the views and the dense loops |

How the model maps onto the code:

- **Classes and fields.**
  - `AbstractMat` keeps `data` (an `array<real>`), `n_rows`, `n_cols` and `n_elem` as mutable fields.
  - The views keep the source's cursor fields (`cursor` for `_iterator`, plus `row_number` and `elem_number`).
  - A view also keeps a ghost count of `iteratorNext` calls since the last reset. Its invariant ties the cursor to the closed-form offset of the last call.
- **Applying an operator through a view.** `AbstractView.inPlace` is not part of this model. It is modelled as what the dense loops do, generalised: reset the iterator, then make one update per `iteratorNext`, pairing step k with operand element k.
  - The kernel is specified by the function `Dispatch.Scatter`.
  - An offset outside the buffer, or an operand that runs out, ends the run with `Fail(AccessFault)`. That is where Java raises `ArrayIndexOutOfBoundsException`. The writes made before the fault stay in place.
- **Exceptions** thrown before any mutation become `Fail(...)` or `Err(...)` results.

## Model

| member | source | states |
|---|---|---|
| Armadillo.AbstractMat.InRange | src/main/java/org/armadillojava/AbstractMat.java:47-49 | `in_range(n)` holds iff n is a position of the buffer, `0 <= n < n_elem` |
| Armadillo.AbstractMat.InRangeSpan | src/main/java/org/armadillojava/AbstractMat.java:56-58 | `in_range(span)` holds iff the span is entire, or its first bound is non-negative and its last below the element count |
| ViewLaws.InRangeSpansMeaning | src/main/java/org/armadillojava/AbstractMat.java:76-78 | two entire spans always pass; two proper spans that are not reversed pass iff every position of their block is in range (both directions); an entire span beside a proper, non-reversed one passes iff every position of the proper one lies on its axis (both directions, either way round); a reversed row span or a reversed column span whose last bound is in range passes, even with its first bound beyond the matrix, because first and last are never compared |
| ViewLaws.InRangeAtAddressesBuffer | src/main/java/org/armadillojava/AbstractMat.java:66-68 | a position passing `in_range(row, col)` addresses an element inside the buffer, at `row + col * n_rows` |
| ViewLaws.InRangeBlockMeaning | src/main/java/org/armadillojava/AbstractMat.java:88-90 | with a non-degenerate size, `in_range(first_row, first_col, size)` holds iff every position of the block is in range (both directions) |
| Armadillo.AbstractMat.IsEmpty | src/main/java/org/armadillojava/AbstractMat.java:95-97 | `is_empty()` holds iff the buffer has no elements |
| Armadillo.AbstractMat.ElementCount | src/main/java/org/armadillojava/AbstractMat.java:717-719 | `size()` is the buffer length |
| Armadillo.AbstractMat.Min | src/main/java/org/armadillojava/AbstractMat.java:127-138 | an empty buffer raises; otherwise the result is an element of the buffer and no element is smaller |
| Armadillo.AbstractMat.MinWithIndex | src/main/java/org/armadillojava/AbstractMat.java:149-166 | an empty buffer raises; a non-empty one with no slot in the position array faults on the store; otherwise the index is a position holding the value, no element is smaller, and every earlier position holds a strictly larger value (first occurrence) |
| Armadillo.AbstractMat.Max | src/main/java/org/armadillojava/AbstractMat.java:173-184 | an empty buffer raises; otherwise the result is an element of the buffer and no element is larger |
| Armadillo.AbstractMat.MaxWithIndex | src/main/java/org/armadillojava/AbstractMat.java:195-212 | an empty buffer raises; a non-empty one with no slot in the position array faults on the store; otherwise the index is a position holding the value, no element is larger, and every earlier position holds a strictly smaller value (first occurrence) |
| Armadillo.AbstractMat.Fill | src/main/java/org/armadillojava/AbstractMat.java:233-235 | every element of the buffer becomes the value |
| Armadillo.AbstractMat.Reset | src/main/java/org/armadillojava/AbstractMat.java:687-692 | afterwards `n_rows`, `n_cols` and `n_elem` are 0 and the buffer is a fresh empty array |
| Armadillo.AbstractMat.SwapRows | src/main/java/org/armadillojava/AbstractMat.java:1550-1562 | an out-of-range first or second position raises before any change; otherwise the two elements are exchanged, every other element is unchanged, and the contents stay a permutation |
| Armadillo.AbstractMat.SwapCols | src/main/java/org/armadillojava/AbstractMat.java:1570-1583 | raises for an out-of-range first or second position, in that order, and changes nothing |
| Armadillo.AbstractMat.InPlaceUnary | src/main/java/org/armadillojava/AbstractMat.java:1825-1845 | NEGATE, INCREMENT and DECREMENT update every element; every other tag raises and changes nothing |
| Armadillo.AbstractMat.InPlaceScalar | src/main/java/org/armadillojava/AbstractMat.java:1847-1867 | EQUAL fills with the operand; PLUS, MINUS, ELEMTIMES and ELEMDIVIDE update every element with it; every other tag raises and changes nothing |
| Armadillo.AbstractMat.InPlaceElements | src/main/java/org/armadillojava/AbstractMat.java:1869-1889 | EQUAL copies the first `n_elem` operand elements, or changes nothing if the operand is shorter; the arithmetic tags update element k with operand element k and fault at the first missing one, keeping the updates before it; every other tag raises |
| Armadillo.AbstractMat.InPlace | src/main/java/org/armadillojava/AbstractMat.java:1891-1937 | the dense loops of the three overloads, chosen by the operand kind: element k of the result is the update of element k |
| Armadillo.AbstractMat.RowsRoute | src/main/java/org/armadillojava/AbstractMat.java:927-937 | `rows` raises for the first bound, then for the last bound, when each fails `in_range`; otherwise it builds a `ViewSubRows` over exactly those bounds |
| Armadillo.AbstractMat.ColRoute | src/main/java/org/armadillojava/AbstractMat.java:729-738 | `col` raises iff the position is non-zero; otherwise it goes to the whole vector |
| Armadillo.AbstractMat.ColsRoute | src/main/java/org/armadillojava/AbstractMat.java:846-859 | `cols` raises for a non-zero first, then last, position; it goes to the whole vector iff both are 0 |
| Armadillo.AbstractMat.ColSpanRoute | src/main/java/org/armadillojava/AbstractMat.java:1001-1017 | `col(span, c)` raises for c != 0; it goes to the whole vector iff c is 0 and the span is entire; otherwise it behaves as `rows(first, last)` |
| Armadillo.AbstractMat.RowRoute | src/main/java/org/armadillojava/AbstractMat.java:792-798 | `row(i)` raises iff i fails `in_range`; otherwise it hands i to a single-row view |
| Armadillo.AbstractMat.RowSpanRoute | src/main/java/org/armadillojava/AbstractMat.java:1095-1108 | `row(i, span)` raises for a non-zero first, then last, span bound, whether or not the span is entire; otherwise it behaves as `row(i)` |
| Armadillo.AbstractMat.SubmatRoute | src/main/java/org/armadillojava/AbstractMat.java:1183-1196 | `submat` raises for a non-zero first, then last, column; otherwise it behaves as `rows(first_row, last_row)` |
| Armadillo.AbstractMat.SubmatSpansRoute | src/main/java/org/armadillojava/AbstractMat.java:1275-1277 | `submat(row_span, col_span)` raises for a non-zero first, then last, column bound; it is carried out iff both column bounds are 0 and both row bounds pass `in_range`, whatever the entire-range flags say, so an entire span passes only when its stored bounds do; on a column vector, two proper spans that are not reversed are carried out iff `in_range(row_span, col_span)` holds |
| Armadillo.AbstractMat.SubmatSizeRoute | src/main/java/org/armadillojava/AbstractMat.java:1331-1333 | `submat(r, c, size)` raises for c != 0, then for a size with other than one column; an accepted block is the row range `r .. r + size.n_rows - 1`; on a column vector with a non-degenerate size it is carried out iff `in_range(r, c, size)` holds |
| Armadillo.AbstractMat.Select | src/main/java/org/armadillojava/AbstractMat.java:927-985 | carries out a route through the dense loops, a `ViewSubRows`, or the guard's exception, with the effect the route specifies |
| Armadillo.AbstractMat.Col | src/main/java/org/armadillojava/AbstractMat.java:729-780 | the buffer after `col(c, op[, operand])` is the route's effect |
| Armadillo.AbstractMat.Cols | src/main/java/org/armadillojava/AbstractMat.java:846-913 | the buffer after `cols(f, l, op[, operand])` is the route's effect |
| Armadillo.AbstractMat.Rows | src/main/java/org/armadillojava/AbstractMat.java:927-985 | the buffer after `rows(f, l, op[, operand])` is the route's effect |
| Armadillo.AbstractMat.ColSpan | src/main/java/org/armadillojava/AbstractMat.java:1001-1079 | the buffer after `col(span, c, op[, operand])` is the route's effect |
| Armadillo.AbstractMat.Submat | src/main/java/org/armadillojava/AbstractMat.java:1183-1258 | the buffer after `submat(r1, c1, r2, c2, op[, operand])` is the route's effect |
| Armadillo.AbstractMat.SubmatSpans | src/main/java/org/armadillojava/AbstractMat.java:1275-1313 | the buffer after `submat(row_span, col_span, op[, operand])` is the route's effect |
| Armadillo.AbstractMat.SubmatSize | src/main/java/org/armadillojava/AbstractMat.java:1331-1371 | the buffer after `submat(r, c, size, op[, operand])` is the route's effect |
| Armadillo.AbstractMat.Elem | src/main/java/org/armadillojava/AbstractMat.java:1383-1411 | `elem(indices, op[, operand])` applies op through the cast indices in list order, unchecked |
| Armadillo.AbstractMat.Load | src/main/java/org/armadillojava/AbstractMat.java:517-571 | as written: no first line resets and returns false; a ragged line resets and raises; a token `Double.valueOf` rejects raises and leaves the matrix as it was; on success the shape is lines x first-line tokens and the buffer holds the cells line after line, position k the value of cell k of `TextLoad.LoadAsWritten` |
| Armadillo.ViewSubRows.constructor | src/main/java/org/armadillojava/ViewSubRows.java:43-52 | the view has `last - first + 1` rows, the matrix's columns, their product as element count, its first position at `first_row`, and a skip of backing rows minus view rows |
| Armadillo.ViewSubRows.IteratorReset | src/main/java/org/armadillojava/ViewSubRows.java:55-58 | the cursor stands one before the first position, at row -1, and the enumeration restarts |
| Armadillo.ViewSubRows.IteratorNext | src/main/java/org/armadillojava/ViewSubRows.java:61-70 | call k after a reset returns `first_row + k % n_rows + (k / n_rows) * backing_rows`, which is entry k of the view's offset sequence; the first call returns `first_row` |
| Armadillo.ViewSubRows.InPlace | src/main/java/org/armadillojava/ViewSubRows.java:55-70 | reset, then one update per `iteratorNext`: the buffer becomes `Scatter` over the view's offsets, and the run faults iff an offset or the operand runs out |
| Armadillo.ViewElemMat.constructor | src/main/java/org/armadillojava/ViewElemMat.java:39-47 | the view has one row per listed index, one column, as many elements as indices, and validates nothing |
| Armadillo.ViewElemMat.IteratorReset | src/main/java/org/armadillojava/ViewElemMat.java:50-54 | `_elem_number` goes back to -1, so the next call addresses `indices[0]` |
| Armadillo.ViewElemMat.IteratorNext | src/main/java/org/armadillojava/ViewElemMat.java:57-61 | call k after a reset returns `(int) indices[k]`, unchecked |
| Armadillo.ViewElemMat.InPlace | src/main/java/org/armadillojava/ViewElemMat.java:50-61 | reset, then one update per `iteratorNext`: the buffer becomes `Scatter` over the cast indices in list order |
| Offsets.SubRowsStep | src/main/java/org/armadillojava/ViewSubRows.java:61-70 | within a column consecutive offsets differ by 1; from the last view row to the next column they jump by skip + 1; the row counter wraps to 0 exactly there |
| Offsets.SubRowsOffsetFirst | src/main/java/org/armadillojava/ViewSubRows.java:55-70 | step 0 of the row-range law is `first_row` |
| Offsets.SubRowsOffsetAt | src/main/java/org/armadillojava/ViewSubRows.java:61-70 | view element (i, j), reached at step `i + j * n_rows`, is backing element `(first_row + i, j)` |
| Offsets.SubRowsOffsetsInRange | src/main/java/org/armadillojava/ViewSubRows.java:43-70 | for `0 <= first <= last < backing_rows` all `n_elem` offsets lie in `[0, backing n_elem)` |
| Offsets.SubRowsOffsetsDistinct | src/main/java/org/armadillojava/ViewSubRows.java:43-70 | for such a range, two different steps never produce the same offset |
| Offsets.SubRowsOffsetsPairwiseDistinct | src/main/java/org/armadillojava/ViewSubRows.java:43-70 | the offset sequence of such a range has no duplicates |
| Offsets.SubRowsOffsetsHit | src/main/java/org/armadillojava/ViewSubRows.java:61-70 | every backing element of a row inside the range is enumerated, at step `(i - first) + j * n_rows` |
| Offsets.SubRowsOffsetsAvoid | src/main/java/org/armadillojava/ViewSubRows.java:61-70 | no backing element of a row outside the range is ever enumerated |
| Offsets.SubRowsWholeIsIdentity | src/main/java/org/armadillojava/ViewSubRows.java:43-70 | the range of all backing rows enumerates the buffer in storage order 0, 1, 2, ... |
| Offsets.JavaIntCast | src/main/java/org/armadillojava/ViewElemMat.java:60 | Java's `(int)` of a double: truncation toward zero inside the int range, saturation at both ends |
| Offsets.ElemOffsets | src/main/java/org/armadillojava/ViewElemMat.java:57-61 | defines the offsets the view enumerates: offset k is, by definition, `JavaIntCast` of listed index k, in list order; the contract states only that there is one offset per index |
| Offsets.ElemOffsetOfWholeIndex | src/main/java/org/armadillojava/ViewElemMat.java:60 | a whole-number index in the int range addresses exactly that offset |
| Dispatch.Scatter | src/main/java/org/armadillojava/AbstractMat.java:1891-1937 | the dense loops generalised to an offset sequence: the buffer keeps its length, and the run completes iff every offset is inside the buffer and the operand covers every step |
| Dispatch.ScatterExtend | src/main/java/org/armadillojava/AbstractMat.java:1891-1937 | one more step of a run that has not faulted updates the element at the next offset, or faults and changes nothing |
| Dispatch.ScatterStaysFaulted | src/main/java/org/armadillojava/AbstractMat.java:1891-1937 | after a fault no later step changes anything |
| Dispatch.ScatterUntouched | src/main/java/org/armadillojava/AbstractMat.java:1891-1937 | an element no step addresses keeps its value |
| Dispatch.ScatterAssignScalar | src/main/java/org/armadillojava/AbstractMat.java:1396-1398 | assigning a scalar through any offsets sets every listed element to it, duplicates included |
| Dispatch.ScatterAssignLastWins | src/main/java/org/armadillojava/AbstractMat.java:1409-1411 | assigning element-wise, an element listed several times ends with the operand element of its last listing |
| Dispatch.ScatterDistinct | src/main/java/org/armadillojava/AbstractMat.java:1891-1937 | with pairwise distinct offsets, each listed element is updated exactly once, from its old value |
| Dispatch.ScatterInStorageOrder | src/main/java/org/armadillojava/AbstractMat.java:1891-1937 | enumerating 0, 1, 2, ... updates element k at step k, as the dense loops do |
| ViewLaws.SubRowsRunCompletes | src/main/java/org/armadillojava/ViewSubRows.java:43-70 | a run through a row range inside the backing matrix never faults when the operand is long enough |
| ViewLaws.SubRowsRunHits | src/main/java/org/armadillojava/ViewSubRows.java:61-70 | an element of a row inside the range is updated once, with the operand element of its step |
| ViewLaws.SubRowsRunMisses | src/main/java/org/armadillojava/ViewSubRows.java:61-70 | an element of a row outside the range keeps its value |
| ViewLaws.SubRowsRunElement | src/main/java/org/armadillojava/ViewSubRows.java:43-70 | element (i, j) of the backing buffer after a row-range run: updated iff `first <= i <= last`, otherwise unchanged |
| ViewLaws.SubRowsColumnRun | src/main/java/org/armadillojava/ViewSubRows.java:43-70 | a row-range run over rows f..l of a single-column buffer completes and updates element i, with operand element `i - f`, iff `f <= i <= l` |
| ViewLaws.RowsUpdatesExactlyTheRange | src/main/java/org/armadillojava/AbstractMat.java:927-985 | an accepted `rows(f, l, op)` with `f <= l` on a column vector completes, updates element i with operand element `i - f` iff `f <= i <= l`, and leaves the rest alone |
| ViewLaws.RowsReversedRangeChangesNothing | src/main/java/org/armadillojava/AbstractMat.java:927-937 | `rows(f, l, op)` with `f > l` passes both guards and changes nothing |
| ViewLaws.FullRowRangeIsWholeBuffer | src/main/java/org/armadillojava/ViewSubRows.java:43-70 | a view over all the rows has the effect of the whole-buffer loops when the operand is long enough |
| ViewLaws.ColSpanFullRangeIsEntire | src/main/java/org/armadillojava/AbstractMat.java:1001-1017 | on a column vector, `col(span(0, n_rows - 1), 0, op)` does what `col(span::all, 0, op)` does |
| ViewLaws.ElemAssignScalarExample | src/main/java/org/armadillojava/ViewElemMat.java:57-61 | indices 2.0, 0.0, 2.9, -0.5 address offsets 2, 0, 2, 0 (truncation toward zero); assigning 5 sets offsets 0 and 2 |
| ViewLaws.ElemAssignLastListingWins | src/main/java/org/armadillojava/AbstractMat.java:1409-1411 | listing offset 2 twice, the later operand element is the one that stays |
| ViewLaws.ElemOutOfRangeIndexFaultsLate | src/main/java/org/armadillojava/AbstractMat.java:1383-1385 | an index past the buffer is not rejected up front: the step before it is kept and the steps after it are never made |
| TextLoad.CellOf | src/main/java/org/armadillojava/AbstractMat.java:535-551 | exactly "Inf"/"inf", "-Inf"/"-inf" and "NaN"/"nan" denote the special values; any other token is a number token |
| TextLoad.Scan | src/main/java/org/armadillojava/AbstractMat.java:525-555 | the read loop ends in one of three ways: every line gets through, a ragged line, or a token `Double.valueOf` rejects |
| TextLoad.ScanPasses | src/main/java/org/armadillojava/AbstractMat.java:525-555 | the read loop gets through iff every line has the first line's width and each of its tokens is a special spelling or a number `Double.valueOf` accepts |
| TextLoad.ScanFailsAt | src/main/java/org/armadillojava/AbstractMat.java:525-555 | the first line that does not get through decides the failure: a ragged line raises `IllegalArgumentException` before its tokens are parsed, a line of the right width `NumberFormatException` |
| TextLoad.LoadAsWritten | src/main/java/org/armadillojava/AbstractMat.java:517-571 | no lines loads nothing; otherwise the load succeeds iff every line gets through the read loop, fails only with a ragged line or a rejected token, and on success has the shape lines x first-line tokens |
| TextLoad.LoadAsWrittenFillsRowByRow | src/main/java/org/armadillojava/AbstractMat.java:563-568 | as written, token j of line i lands at `i * n_cols + j` |
| TextLoad.Load | src/main/java/org/armadillojava/AbstractMat.java:517-571 | the corrected load: the same outcomes and shape, with the buffer length `n_rows * n_cols` |
| TextLoad.LoadsAgreeButForLayout | src/main/java/org/armadillojava/AbstractMat.java:517-571 | the as-written and the corrected load fail alike, agree on no-first-line and on the shape, and on success the as-written buffer is the corrected one read row after row (`TextLoad.RowMajor`, the order `save` writes), so they differ only in where a cell goes |
| TextLoad.ColumnMajorAt | src/main/java/org/armadillojava/AbstractMat.java:563-568 | in the corrected layout, token j of line i is at `i + j * n_rows` |
| TextLoad.LoadPlacesElements | src/main/java/org/armadillojava/AbstractMat.java:563-568 | corrected, token j of line i lands at `i + j * n_rows`, the column-major position of element (i, j) |
| TextLoad.SaveSource | src/main/java/org/armadillojava/AbstractMat.java:436-442 | the k-th value `save` writes is stored at a position of the buffer: element (k / n_cols, k % n_cols) |
| TextLoad.Saved | src/main/java/org/armadillojava/AbstractMat.java:436-455 | `save` writes one line per value, `n_rows * n_cols` lines of one token each; with rows but no columns it leaves one line of blanks (one empty token), without rows no line |
| TextLoad.SavedLineOf | src/main/java/org/armadillojava/AbstractMat.java:436-455 | element (i, j), stored at `i + j * n_rows`, is written alone on line `i * n_cols + j` |
| TextLoad.LoadOfSaved | src/main/java/org/armadillojava/AbstractMat.java:436-571 | loading what `save` wrote gives, with either layout, an `n_elem` x 1 column holding the elements row after row; for a single column that is the matrix itself |
| TextLoad.SavedWithoutColumnsFailsToLoad | src/main/java/org/armadillojava/AbstractMat.java:436-556 | a matrix with rows but no columns does not load back: its line of blanks splits into one empty token, which `Double.valueOf` rejects |
| TextLoad.LoadLayoutExample | src/main/java/org/armadillojava/AbstractMat.java:563-568 | for the lines "1 2", "3 4", "Inf nan", the as-written buffer is [1, 2, 3, 4, +Inf, NaN], so element (2, 0) reads 3 where the text has +Inf; the corrected buffer is [1, 3, +Inf, 2, 4, NaN] |

Members without a row fall into two groups. Three predicates are the source's own bounds tests, written as the source writes them:
- `Armadillo.AbstractMat.InRangeAt` is `in_range(row, col)` (AbstractMat.java:66-68). Its meaning is stated by `ViewLaws.InRangeAtAddressesBuffer`.
- `Armadillo.AbstractMat.InRangeSpans` is `in_range(row_span, col_span)` (AbstractMat.java:76-78). Its meaning is stated by `ViewLaws.InRangeSpansMeaning`.
- `Armadillo.AbstractMat.InRangeBlock` is `in_range(first_row, first_col, size)` (AbstractMat.java:88-90). Its meaning is stated by `ViewLaws.InRangeBlockMeaning`.

The rest are helpers that state no property of their own:
- `Armadillo.AbstractMat.Valid`, `Armadillo.ViewSubRows.Valid` and `Armadillo.ViewElemMat.Valid` are the class invariants.
- `Armadillo.MathMin` and `Armadillo.MathMax` stand for `Math.min` and `Math.max`.
- `Ops.Op.IsUnary` and `Ops.Op.IsBinary` sort the operator tags. `Ops.UnaryValue`, `Ops.BinaryValue` and `Ops.Quotient` are the element update of each arm of the operator switches.
- `Armadillo.DenseEffect` and `Armadillo.ViewEffect` are the effects the `InPlace` methods are specified by. `Armadillo.AbstractMat.RangeOffsets` and `Armadillo.AbstractMat.RouteEffect` give the effect of each selection route. `Armadillo.ViewSubRows.Offsets` is the offset sequence of a row-range view.
- `Armadillo.AbstractMat.constructor` builds a zero-filled matrix for the lemmas, standing in for the subclasses' constructors.
- `Armadillo.UpdateAt` is one store into the buffer, and `Armadillo.ViewSubRows.Advance` is one cursor step. Both are used by the `InPlace` methods.
- `Offsets.SubRowsOffset` and `Offsets.SubRowsOffsets` define the closed-form offsets of a row range. `Offsets.DivModUnique`, `Offsets.DivModSplit`, `Offsets.MulGap`, `Offsets.MulStrictBound` and `Offsets.PositiveFactor` are lemmas of integer arithmetic used by the offset proofs.
- `TextLoad.RowByRow`, `TextLoad.RowByRowLength`, `TextLoad.RowByRowAt`, `TextLoad.RowByRowIsRowMajor`, `TextLoad.RowMajorAt`, `TextLoad.ColumnMajor`, `TextLoad.QuotientBelow`, `TextLoad.RowMajor`, `TextLoad.TokenOf`, `TextLoad.Loadable` and `TextLoad.TokenOfLoadsBack` are the cell layouts and tokens the load and save rows above are stated with.
- `TextLoad.Uniform`, `TextLoad.Parses` and `TextLoad.LineLoads` are the per-line tests of the read loop that `TextLoad.Scan` is stated with.
- `TextLoad.ExampleLines` is the example text. `TextLoad.ExampleScans`, `TextLoad.ExampleRowByRow` and `TextLoad.ExampleColumnMajor` are the steps of `TextLoad.LoadLayoutExample`.
- `Dispatch.Supported`, `Dispatch.Covers` and `Dispatch.Updated` are the pieces `Dispatch.Scatter` is built from.
- `ViewLaws.InAxis` is the one-axis bound used by `ViewLaws.InRangeSpansMeaning`.

## Left out

- Printing and formatting (`print`, `raw_print`, `toString`, the `%30.16e` rendering) are left out: they are Java formatter and stream I/O. `TextLoad.Saved` keeps only which element goes on which line, with a number kept as its token; the blank before each row's first value and the padding vanish when `load` trims and splits a line.
- Reader and stream setup, the UTF-8 check, the `quiet_*` wrappers and the file-name overloads of `save` and `load` are left out as I/O. Line splitting on whitespace is also left out: `load` is given the lines already split into tokens. `trim().split("\\s+")` always yields at least one token, `[""]` for a blank line; the model does not impose that, so `TextLoad.Scan`, `TextLoad.LoadAsWritten` and `TextLoad.Load` also accept lines with no tokens (`n_cols == 0`), which the source never passes them.
- Number parsing (`Double.valueOf`) is a foreign call. A number token stays a token; `Armadillo.AbstractMat.Load` and the `TextLoad` loads take as parameters which tokens it accepts and, for `AbstractMat.Load`, the value a cell denotes.
- Armadillo.AbstractMat.Load models `load` as written and so fills the buffer row by row; the column-major fill the rest of the class reads is `TextLoad.Load` (see Findings), which proves the corrected layout but is not what the class does.
- Armadillo.AbstractMat.MinWithIndex: the position array is reduced to its length, `index_slots`, and the stored position is returned; a null array, which raises `NullPointerException`, is covered by the same `AccessFault` as an array of length 0.
- Armadillo.AbstractMat.MaxWithIndex: the same reduction of the position array as for `MinWithIndex`.
- `randu` and `randn` are left out: they use a global random generator.
- IEEE doubles are not modelled; values are `real`. So `is_finite`, NaN and infinities in arithmetic, and the difference between `Math.min`/`Math.max` and strict comparisons on NaN are not captured.
- Ops.Quotient: division by zero yields 0 in the model, where Java yields an infinity or NaN.
- 32-bit overflow of `n_rows * n_cols`, of `first + size - 1` and of the view cursor is not modelled: all integers are unbounded. The exception is the `(int)` cast of an index, which is written out.
- The operand of `inPlace(Op, AbstractMat)` and `elem`'s index vector are passed as sequences of their buffers, by value. An operand that aliases the target is therefore not captured. The dense loops read operand element n before writing element n, so they agree with the model even then; the views may not.
- `elem` receives its indices as an `AbstractMat` at the call site, while the shown `ViewElemMat` constructor takes a `double[]`. The model takes the index buffer directly.
- `AbstractView` is not part of this model, and neither is whatever its `iteratorReset`/`iteratorNext` do when `ViewElemMat` calls them through `super`. Its `inPlace` is modelled by generalising the dense loops, as described above.
- `ViewSubRow`, `ViewElemCols` and `ViewElemSubMat` are not part of this model. So `row(i, op)` and `row(i, span, op)` are modelled only up to their guards: `Armadillo.AbstractMat.RowRoute` yields a `SingleRow` route that is not carried out. The index-list forms of `cols`, `rows` and `submat` (AbstractMat.java:1423-1545) are left out the same way.
- `Mat`, `Col`, `Row`, `Op`, `Span` and `Size` are not part of this model. `Op`, `Span` and `Size` are restated as small datatypes with the fields the core reads.
- `rows` checks its bounds with `in_range(n)`, which compares against `n_elem`. On a matrix with several columns, that lets a last row of `n_rows` or more through. The model carries that guard as written. The lemmas about row ranges assume a column vector or a range inside the backing rows.
- The declared-only methods (`plus`, `times`, `t`, `swap`, the one-argument `col`/`row`, ...) have no body in the source and are not modelled.
- The test suites are not modelled: they are a JUnit harness comparing against files computed with the C++ Armadillo library.

## Findings

| source | as written | input that shows it | evidently intended | confidence | as-written member | corrected member |
|---|---|---|---|---|---|---|
| src/main/java/org/armadillojava/AbstractMat.java:563-568 | `load` stores token j of line i at `_data[n++]`, i.e. at `i * n_cols + j` (row-major) | the lines "1 2", "3 4", "Inf nan": as written the buffer is [1, 2, 3, 4, +Inf, NaN], so row 2 of the 3 x 2 matrix reads (3, NaN) where the text has (+Inf, NaN) | store it at `i + j * n_rows`, the column-major position of element (i, j) that `save` (line 442) and `print` (line 336) read | medium, not executed: a subclass not part of this model may override `load`; with a single column both orders agree | TextLoad.LoadAsWritten | TextLoad.Load |
