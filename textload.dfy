/**
 * The shape and token logic of AbstractMat.load: the input is the text already split into lines
 * of whitespace-separated tokens. Number parsing (Double.valueOf) is a foreign call, so an
 * ordinary token stays a token here; only the special spellings are mapped.
 */
module TextLoad {
  import opened Errors
  import Offsets

  /** What one token loads as. */
  datatype Cell = PosInf | NegInf | NaN | Number(token: string)

  /** The token switch: exactly these six spellings denote special values. */
  function CellOf(token: string): (c: Cell)
    ensures c == PosInf <==> token == "Inf" || token == "inf"
    ensures c == NegInf <==> token == "-Inf" || token == "-inf"
    ensures c == NaN <==> token == "NaN" || token == "nan"
    ensures c.Number? ==> c.token == token
  {
    if token == "Inf" || token == "inf" then PosInf
    else if token == "-Inf" || token == "-inf" then NegInf
    else if token == "NaN" || token == "nan" then NaN
    else Number(token)
  }

  /** Outcome of a load that did not raise: no first line (load returns false), or a filled
      matrix with its cells in buffer order. */
  datatype Loaded = NoFirstLine | Filled(n_rows: nat, n_cols: nat, cells: seq<Cell>)

  /** Every line has as many tokens as the first. */
  predicate Uniform(lines: seq<seq<string>>)
    requires |lines| > 0
  {
    forall i :: 0 <= i < |lines| ==> |lines[i]| == |lines[0]|
  }

  /** Whether Double.valueOf accepts a token is a parameter, accepts. A token gets through the
      switch when it is one of the special spellings or a number that accepts admits. */
  predicate Parses(token: string, accepts: string -> bool)
  {
    !CellOf(token).Number? || accepts(token)
  }

  /** A line the read loop gets through: as many tokens as the first line, each of which parses. */
  predicate LineLoads(line: seq<string>, width: nat, accepts: string -> bool)
  {
    |line| == width && forall j :: 0 <= j < |line| ==> Parses(line[j], accepts)
  }

  /** The read loop, line by line: a line whose token count differs from width raises before any
      of its tokens is parsed; otherwise a token Double.valueOf rejects raises. */
  function Scan(lines: seq<seq<string>>, width: nat, accepts: string -> bool): (r: Outcome)
    ensures r == Pass || r == Fail(RaggedInput) || r == Fail(MalformedNumber)
    decreases |lines|
  {
    if lines == [] then Pass
    else if |lines[0]| != width then Fail(RaggedInput)
    else if !LineLoads(lines[0], width, accepts) then Fail(MalformedNumber)
    else Scan(lines[1..], width, accepts)
  }

  /** The read loop gets through exactly when every line loads. */
  lemma {:induction false} ScanPasses(lines: seq<seq<string>>, width: nat, accepts: string -> bool)
    ensures Scan(lines, width, accepts) == Pass <==>
      forall l :: 0 <= l < |lines| ==> LineLoads(lines[l], width, accepts)
    decreases |lines|
  {
    if lines != [] {
      ScanPasses(lines[1..], width, accepts);
      assert forall l :: 1 <= l < |lines| ==> lines[l] == lines[1..][l - 1];
    }
  }

  /** The first line that does not load decides the failure: a ragged line raises
      IllegalArgumentException, a line of the right width NumberFormatException. */
  lemma {:induction false} ScanFailsAt(lines: seq<seq<string>>, width: nat, accepts: string -> bool, l: int)
    requires 0 <= l < |lines| && !LineLoads(lines[l], width, accepts)
    requires forall p :: 0 <= p < l ==> LineLoads(lines[p], width, accepts)
    ensures Scan(lines, width, accepts) == if |lines[l]| != width then Fail(RaggedInput) else Fail(MalformedNumber)
    decreases l
  {
    if l > 0 {
      assert LineLoads(lines[0], width, accepts);
      assert forall p :: 0 <= p < l - 1 ==> lines[1..][p] == lines[p + 1];
      ScanFailsAt(lines[1..], width, accepts, l - 1);
    }
  }

  /** The cells of the lines one line after another, as `_data[n++]` writes them. */
  function RowByRow(lines: seq<seq<string>>): seq<Cell>
  {
    if lines == [] then []
    else seq(|lines[0]|, j requires 0 <= j < |lines[0]| => CellOf(lines[0][j])) + RowByRow(lines[1..])
  }

  /** load as written: no first line, the failure of the read loop, or the cells in line order. */
  function LoadAsWritten(lines: seq<seq<string>>, accepts: string -> bool): (r: Result<Loaded>)
    ensures lines == [] <==> r == Ok(NoFirstLine)
    ensures lines != [] ==>
      (r.Ok? <==> forall l :: 0 <= l < |lines| ==> LineLoads(lines[l], |lines[0]|, accepts))
    ensures r.Err? ==> r.error == RaggedInput || r.error == MalformedNumber
    ensures r.Ok? && r.value.Filled? ==>
      r.value.n_rows == |lines| > 0 && r.value.n_cols == |lines[0]| && Uniform(lines)
  {
    if lines == [] then Ok(NoFirstLine)
    else
      ScanPasses(lines, |lines[0]|, accepts);
      match Scan(lines, |lines[0]|, accepts)
      case Fail(e) => Err(e)
      case Pass => Ok(Filled(|lines|, |lines[0]|, RowByRow(lines)))
  }

  /** As written, the buffer holds n_cols cells per line. */
  lemma {:induction false} RowByRowLength(lines: seq<seq<string>>, n_cols: nat)
    requires forall l :: 0 <= l < |lines| ==> |lines[l]| == n_cols
    ensures |RowByRow(lines)| == |lines| * n_cols
    decreases |lines|
  {
    if lines != [] {
      RowByRowLength(lines[1..], n_cols);
      assert |lines| * n_cols == n_cols + (|lines| - 1) * n_cols;
    }
  }

  /** As written, token j of line i lands at buffer position i * n_cols + j. */
  lemma {:induction false} RowByRowAt(lines: seq<seq<string>>, n_cols: nat, i: int, j: int)
    requires forall l :: 0 <= l < |lines| ==> |lines[l]| == n_cols
    requires 0 <= i < |lines| && 0 <= j < n_cols
    ensures |RowByRow(lines)| == |lines| * n_cols
    ensures 0 <= i * n_cols + j < |RowByRow(lines)|
    ensures RowByRow(lines)[i * n_cols + j] == CellOf(lines[i][j])
    decreases |lines|
  {
    RowByRowLength(lines, n_cols);
    var head := seq(|lines[0]|, j requires 0 <= j < |lines[0]| => CellOf(lines[0][j]));
    var rest := RowByRow(lines[1..]);
    assert RowByRow(lines) == head + rest;
    assert |head| == n_cols;
    if i > 0 {
      RowByRowAt(lines[1..], n_cols, i - 1, j);
      assert i * n_cols + j == n_cols + ((i - 1) * n_cols + j) by {
        assert i * n_cols == (i - 1) * n_cols + n_cols;
      }
      assert (head + rest)[n_cols + ((i - 1) * n_cols + j)] == rest[(i - 1) * n_cols + j];
    } else {
      assert i * n_cols + j == j;
      assert (head + rest)[j] == head[j];
    }
  }

  /** On success, load as written fills the buffer line after line. */
  lemma LoadAsWrittenFillsRowByRow(lines: seq<seq<string>>, accepts: string -> bool, i: int, j: int)
    requires LoadAsWritten(lines, accepts).Ok? && LoadAsWritten(lines, accepts).value.Filled?
    requires 0 <= i < |lines| && 0 <= j < |lines[0]|
    ensures var m := LoadAsWritten(lines, accepts).value;
      |m.cells| == m.n_rows * m.n_cols && 0 <= i * m.n_cols + j < |m.cells| &&
      m.cells[i * m.n_cols + j] == CellOf(lines[i][j])
  {
    RowByRowAt(lines, |lines[0]|, i, j);
  }

  /** The cells of the lines in column-major order: token j of line i at i + j * n_rows. */
  function ColumnMajor(lines: seq<seq<string>>): seq<Cell>
    requires |lines| > 0 && Uniform(lines)
  {
    var n_rows, n_cols := |lines|, |lines[0]|;
    seq(n_rows * n_cols, k requires 0 <= k < n_rows * n_cols =>
      (QuotientBelow(k, n_rows, n_cols); CellOf(lines[k % n_rows][k / n_rows])))
  }

  /** Token j of line i is at i + j * n_rows in column-major order. */
  lemma ColumnMajorAt(lines: seq<seq<string>>, i: int, j: int)
    requires |lines| > 0 && Uniform(lines) && 0 <= i < |lines| && 0 <= j < |lines[0]|
    ensures 0 <= i + j * |lines| < |ColumnMajor(lines)|
    ensures ColumnMajor(lines)[i + j * |lines|] == CellOf(lines[i][j])
  {
    Offsets.MulStrictBound(i, |lines|, j, |lines[0]|);
    Offsets.DivModUnique(i + j * |lines|, |lines|, j, i);
  }

  /** A position below n_rows * n_cols lies in one of the n_cols columns. */
  lemma QuotientBelow(k: int, n_rows: int, n_cols: int)
    requires 0 <= k < n_rows * n_cols && n_rows > 0
    ensures 0 <= k / n_rows < n_cols
  {
    if k / n_rows >= n_cols {
      Offsets.MulGap(n_cols - 1, k / n_rows, n_rows);
      assert false;
    }
  }

  /** load with the buffer filled column-major, the layout every other member reads; the read
      loop and its failures are those of load as written. */
  function Load(lines: seq<seq<string>>, accepts: string -> bool): (r: Result<Loaded>)
    ensures lines == [] <==> r == Ok(NoFirstLine)
    ensures lines != [] ==>
      (r.Ok? <==> forall l :: 0 <= l < |lines| ==> LineLoads(lines[l], |lines[0]|, accepts))
    ensures r.Err? ==> r.error == RaggedInput || r.error == MalformedNumber
    ensures r.Ok? && r.value.Filled? ==>
      r.value.n_rows == |lines| > 0 && r.value.n_cols == |lines[0]| &&
      |r.value.cells| == r.value.n_rows * r.value.n_cols
  {
    if lines == [] then Ok(NoFirstLine)
    else
      ScanPasses(lines, |lines[0]|, accepts);
      match Scan(lines, |lines[0]|, accepts)
      case Fail(e) => Err(e)
      case Pass => Ok(Filled(|lines|, |lines[0]|, ColumnMajor(lines)))
  }

  /** Both loads fail alike and agree on the shape, and the buffer load as written fills is the
      corrected buffer read row after row, the order save writes it in. */
  lemma LoadsAgreeButForLayout(lines: seq<seq<string>>, accepts: string -> bool)
    ensures LoadAsWritten(lines, accepts).Err? <==> Load(lines, accepts).Err?
    ensures LoadAsWritten(lines, accepts).Err? ==> LoadAsWritten(lines, accepts) == Load(lines, accepts)
    ensures LoadAsWritten(lines, accepts) == Ok(NoFirstLine) <==> Load(lines, accepts) == Ok(NoFirstLine)
    ensures LoadAsWritten(lines, accepts).Ok? && LoadAsWritten(lines, accepts).value.Filled? ==>
      Load(lines, accepts).value.n_rows == LoadAsWritten(lines, accepts).value.n_rows &&
      Load(lines, accepts).value.n_cols == LoadAsWritten(lines, accepts).value.n_cols
    ensures LoadAsWritten(lines, accepts).Ok? && LoadAsWritten(lines, accepts).value.Filled? ==>
      var w, c := LoadAsWritten(lines, accepts).value, Load(lines, accepts).value;
      |w.cells| == |c.cells| == w.n_rows * w.n_cols &&
      (w.n_cols > 0 ==> w.cells == RowMajor(c.n_rows, c.n_cols, c.cells))
  {
    if LoadAsWritten(lines, accepts).Ok? && LoadAsWritten(lines, accepts).value.Filled? {
      var n_rows, n_cols := |lines|, |lines[0]|;
      assert LoadAsWritten(lines, accepts).value.cells == RowByRow(lines);
      assert Load(lines, accepts).value.cells == ColumnMajor(lines);
      RowByRowLength(lines, n_cols);
      if n_cols > 0 {
        RowByRowIsRowMajor(lines);
      }
    }
  }

  /** The line-after-line cells are the column-major cells read row after row. */
  lemma RowByRowIsRowMajor(lines: seq<seq<string>>)
    requires |lines| > 0 && Uniform(lines) && |lines[0]| > 0
    ensures |RowByRow(lines)| == |ColumnMajor(lines)| == |lines| * |lines[0]|
    ensures RowByRow(lines) == RowMajor(|lines|, |lines[0]|, ColumnMajor(lines))
  {
    var n_rows, n_cols := |lines|, |lines[0]|;
    RowByRowLength(lines, n_cols);
    forall k | 0 <= k < n_rows * n_cols
      ensures RowByRow(lines)[k] == RowMajor(n_rows, n_cols, ColumnMajor(lines))[k]
    {
      RowMajorAt(lines, k);
    }
  }

  /** Position k line after line holds token k % n_cols of line k / n_cols, and so does position k
      of the column-major cells read row after row. */
  lemma RowMajorAt(lines: seq<seq<string>>, k: int)
    requires |lines| > 0 && Uniform(lines) && |lines[0]| > 0 && 0 <= k < |lines| * |lines[0]|
    ensures |RowByRow(lines)| == |ColumnMajor(lines)| == |lines| * |lines[0]|
    ensures RowByRow(lines)[k] == CellOf(lines[k / |lines[0]|][k % |lines[0]|])
    ensures RowMajor(|lines|, |lines[0]|, ColumnMajor(lines))[k] == CellOf(lines[k / |lines[0]|][k % |lines[0]|])
  {
    var n_rows, n_cols := |lines|, |lines[0]|;
    var i, j := k / n_cols, k % n_cols;
    assert k < n_cols * n_rows;
    QuotientBelow(k, n_cols, n_rows);
    RowByRowAt(lines, n_cols, i, j);
    assert RowByRow(lines)[k] == CellOf(lines[i][j]) by {
      Offsets.DivModSplit(k, n_cols);
    }
    ColumnMajorAt(lines, i, j);
    assert RowMajor(n_rows, n_cols, ColumnMajor(lines))[k] == ColumnMajor(lines)[i + j * n_rows] by {
      assert SaveSource(n_rows, n_cols, k) == i + j * n_rows;
    }
  }

  /** On success, element (i, j) of the loaded matrix, at i + j * n_rows, is token j of line i. */
  lemma LoadPlacesElements(lines: seq<seq<string>>, accepts: string -> bool, i: int, j: int)
    requires Load(lines, accepts).Ok? && Load(lines, accepts).value.Filled?
    requires 0 <= i < |lines| && 0 <= j < |lines[0]|
    ensures var m := Load(lines, accepts).value;
      0 <= i + j * m.n_rows < |m.cells| && m.cells[i + j * m.n_rows] == CellOf(lines[i][j])
  {
    ColumnMajorAt(lines, i, j);
  }

  // ---------------------------------------------------------------------------------------------
  // save

  /** The token save writes for a cell: the special values spelled "Inf", "-Inf" and "NaN", a
      number as its token. */
  function TokenOf(c: Cell): string
  {
    match c
    case PosInf => "Inf"
    case NegInf => "-Inf"
    case NaN => "NaN"
    case Number(t) => t
  }

  /** A cell load can produce: a number token is none of the six special spellings. */
  predicate Loadable(c: Cell)
  {
    !c.Number? || CellOf(c.token) == c
  }

  /** The token of a loadable cell loads back as that cell. */
  lemma TokenOfLoadsBack(c: Cell)
    requires Loadable(c)
    ensures CellOf(TokenOf(c)) == c
  {
  }

  /** Where the k-th value save writes is stored: save visits the rows in order and, within a
      row, the columns, so value k is element (k / n_cols, k % n_cols), at k / n_cols +
      (k % n_cols) * n_rows. */
  function SaveSource(n_rows: nat, n_cols: nat, k: int): (p: int)
    requires n_cols > 0 && 0 <= k < n_rows * n_cols
    ensures 0 <= p < n_rows * n_cols
  {
    assert k < n_cols * n_rows;
    QuotientBelow(k, n_cols, n_rows);
    Offsets.MulStrictBound(k / n_cols, n_rows, k % n_cols, n_cols);
    k / n_cols + (k % n_cols) * n_rows
  }

  /** The lines save writes for an n_rows x n_cols buffer. The line break follows every value, so
      each value is alone on its line. A matrix with rows but no columns leaves one unterminated
      line of blanks, whose split is one empty token; a matrix without rows leaves no line. */
  function Saved(n_rows: nat, n_cols: nat, cells: seq<Cell>): (lines: seq<seq<string>>)
    requires |cells| == n_rows * n_cols
    ensures n_rows > 0 && n_cols > 0 ==>
      |lines| == n_rows * n_cols && forall k :: 0 <= k < |lines| ==> |lines[k]| == 1
    ensures n_rows > 0 && n_cols == 0 ==> lines == [[""]]
    ensures n_rows == 0 ==> lines == []
  {
    if n_rows == 0 then []
    else if n_cols == 0 then [[""]]
    else seq(n_rows * n_cols, k requires 0 <= k < n_rows * n_cols => [TokenOf(cells[SaveSource(n_rows, n_cols, k)])])
  }

  /** Element (i, j), stored at i + j * n_rows, is written alone on line i * n_cols + j. */
  lemma SavedLineOf(n_rows: nat, n_cols: nat, cells: seq<Cell>, i: int, j: int)
    requires |cells| == n_rows * n_cols && 0 <= i < n_rows && 0 <= j < n_cols
    ensures 0 <= i * n_cols + j < |Saved(n_rows, n_cols, cells)|
    ensures 0 <= i + j * n_rows < |cells|
    ensures Saved(n_rows, n_cols, cells)[i * n_cols + j] == [TokenOf(cells[i + j * n_rows])]
  {
    Offsets.MulStrictBound(j, n_cols, i, n_rows);
    Offsets.MulStrictBound(i, n_rows, j, n_cols);
    assert i * n_cols == n_cols * i;
    Offsets.DivModUnique(i * n_cols + j, n_cols, i, j);
  }

  /** The elements in the order save writes them: element (i, j) at position i * n_cols + j. */
  function RowMajor(n_rows: nat, n_cols: nat, cells: seq<Cell>): (r: seq<Cell>)
    requires n_cols > 0 && |cells| == n_rows * n_cols
    ensures |r| == |cells|
  {
    seq(n_rows * n_cols, k requires 0 <= k < n_rows * n_cols => cells[SaveSource(n_rows, n_cols, k)])
  }

  /** Loading what save writes gives a single column of n_elem values holding the elements row
      after row, with either layout of the load; for a matrix with one column that is the matrix
      itself. Every number token must be one Double.valueOf accepts. */
  lemma LoadOfSaved(n_rows: nat, n_cols: nat, cells: seq<Cell>, accepts: string -> bool)
    requires n_rows > 0 && n_cols > 0 && |cells| == n_rows * n_cols
    requires forall k :: 0 <= k < |cells| ==> Loadable(cells[k]) && Parses(TokenOf(cells[k]), accepts)
    ensures LoadAsWritten(Saved(n_rows, n_cols, cells), accepts)
         == Ok(Filled(n_rows * n_cols, 1, RowMajor(n_rows, n_cols, cells)))
    ensures Load(Saved(n_rows, n_cols, cells), accepts)
         == Ok(Filled(n_rows * n_cols, 1, RowMajor(n_rows, n_cols, cells)))
    ensures n_cols == 1 ==> RowMajor(n_rows, n_cols, cells) == cells
  {
    var lines := Saved(n_rows, n_cols, cells);
    var count := n_rows * n_cols;
    forall l | 0 <= l < |lines|
      ensures LineLoads(lines[l], 1, accepts)
    {
      var p := SaveSource(n_rows, n_cols, l);
      TokenOfLoadsBack(cells[p]);
    }
    ScanPasses(lines, 1, accepts);
    RowByRowLength(lines, 1);
    var written := RowByRow(lines);
    forall k | 0 <= k < count
      ensures written[k] == RowMajor(n_rows, n_cols, cells)[k]
      ensures ColumnMajor(lines)[k] == RowMajor(n_rows, n_cols, cells)[k]
    {
      RowByRowAt(lines, 1, k, 0);
      Offsets.DivModUnique(k, count, 0, k);
      TokenOfLoadsBack(cells[SaveSource(n_rows, n_cols, k)]);
    }
    assert written == RowMajor(n_rows, n_cols, cells);
    assert ColumnMajor(lines) == RowMajor(n_rows, n_cols, cells);
    if n_cols == 1 {
      forall k | 0 <= k < count
        ensures RowMajor(n_rows, n_cols, cells)[k] == cells[k]
      {
        Offsets.DivModUnique(k, 1, k, 0);
      }
    }
  }

  /** A matrix with rows but no columns does not load back: save leaves a line of blanks, and its
      one empty token is a number Double.valueOf rejects. */
  lemma SavedWithoutColumnsFailsToLoad(n_rows: nat, accepts: string -> bool)
    requires n_rows > 0 && !accepts("")
    ensures LoadAsWritten(Saved(n_rows, 0, []), accepts) == Err(MalformedNumber)
  {
    var lines := Saved(n_rows, 0, []);
    assert lines == [[""]];
    assert CellOf("") == Number("");
    assert lines[0][0] == "" && !Parses("", accepts);
    assert !LineLoads(lines[0], 1, accepts);
    ScanFailsAt(lines, 1, accepts, 0);
  }

  /** The three lines "1 2", "3 4" and "Inf nan" of the layout example, split into tokens. */
  function ExampleLines(): (lines: seq<seq<string>>)
    ensures |lines| == 3 && Uniform(lines) && |lines[0]| == 2
  {
    [["1", "2"], ["3", "4"], ["Inf", "nan"]]
  }

  /** The read loop gets through the example when its four numbers parse. */
  lemma ExampleScans(accepts: string -> bool)
    requires accepts("1") && accepts("2") && accepts("3") && accepts("4")
    ensures Scan(ExampleLines(), 2, accepts) == Pass
  {
    var lines := ExampleLines();
    assert CellOf("Inf") == PosInf && CellOf("nan") == NaN;
    assert LineLoads(lines[0], 2, accepts) && LineLoads(lines[1], 2, accepts) && LineLoads(lines[2], 2, accepts);
    ScanPasses(lines, 2, accepts);
  }

  /** The example's cells line after line. */
  lemma ExampleRowByRow()
    ensures RowByRow(ExampleLines()) == [Number("1"), Number("2"), Number("3"), Number("4"), PosInf, NaN]
  {
    var lines := ExampleLines();
    assert CellOf("Inf") == PosInf && CellOf("nan") == NaN;
    assert lines[2..][1..] == [];
    assert RowByRow(lines[2..]) == [PosInf, NaN];
    assert lines[1..][1..] == lines[2..];
    assert RowByRow(lines[1..]) == [Number("3"), Number("4")] + RowByRow(lines[2..]);
    assert RowByRow(lines) == [Number("1"), Number("2")] + RowByRow(lines[1..]);
  }

  /** The example's cells in column-major order. */
  lemma ExampleColumnMajor()
    ensures ColumnMajor(ExampleLines()) == [Number("1"), Number("3"), PosInf, Number("2"), Number("4"), NaN]
  {
    var lines := ExampleLines();
    assert CellOf("Inf") == PosInf && CellOf("nan") == NaN;
    var c := ColumnMajor(lines);
    ColumnMajorAt(lines, 0, 0);
    ColumnMajorAt(lines, 1, 0);
    ColumnMajorAt(lines, 2, 0);
    ColumnMajorAt(lines, 0, 1);
    ColumnMajorAt(lines, 1, 1);
    ColumnMajorAt(lines, 2, 1);
    assert c == [c[0], c[1], c[2], c[3], c[4], c[5]];
  }

  /** Loading the example as written gives the buffer [1, 2, 3, 4, +Inf, NaN], so the matrix's
      last row, elements 2 and 5, reads (3, NaN) where the text has (+Inf, NaN); the column-major
      load keeps every line as its row. */
  lemma LoadLayoutExample(accepts: string -> bool)
    requires accepts("1") && accepts("2") && accepts("3") && accepts("4")
    ensures LoadAsWritten(ExampleLines(), accepts)
         == Ok(Filled(3, 2, [Number("1"), Number("2"), Number("3"), Number("4"), PosInf, NaN]))
    ensures LoadAsWritten(ExampleLines(), accepts).value.cells[2] != CellOf(ExampleLines()[2][0])
    ensures Load(ExampleLines(), accepts)
         == Ok(Filled(3, 2, [Number("1"), Number("3"), PosInf, Number("2"), Number("4"), NaN]))
  {
    ExampleScans(accepts);
    ExampleRowByRow();
    ExampleColumnMajor();
    assert CellOf("Inf") == PosInf;
  }
}
