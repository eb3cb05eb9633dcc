/**
 * Applying an in-place operator through an enumeration of backing-buffer offsets: the dense loops
 * of AbstractMat (offsets 0, 1, ..., n_elem - 1) generalised to the offset sequence of a view.
 * Step k updates the element at the k-th offset, pairing it with the k-th operand element.
 * An offset outside the buffer, or an operand that runs out, faults at that step and leaves
 * the writes of the earlier steps in place, as a Java exception thrown inside the loop does.
 */
module Dispatch {
  import opened Ops

  /** Right-hand side of an in-place operation: none (unary), a scalar broadcast to every step,
      or the elements of a matrix operand in storage order. */
  datatype Operand = NoOperand | Scalar(value: real) | Elements(values: seq<real>)

  /** Whether the switch of the inPlace overload selected by the operand has a case for op;
      every other tag raises "Unsupported operation". */
  predicate Supported(op: Op, rhs: Operand) {
    if rhs.NoOperand? then op.IsUnary() else op.IsBinary()
  }

  /** Whether the operand supplies a right-hand side for step k. */
  predicate Covers(rhs: Operand, k: int) {
    !rhs.Elements? || k < |rhs.values|
  }

  /** New value, at step k, of an element whose old value is x. */
  function Updated(op: Op, rhs: Operand, x: real, k: int): real
    requires Supported(op, rhs) && 0 <= k && Covers(rhs, k)
  {
    match rhs
    case NoOperand => UnaryValue(op, x)
    case Scalar(s) => BinaryValue(op, x, s)
    case Elements(es) => BinaryValue(op, x, es[k])
  }

  /** A buffer after a run of steps, and whether the run finished without a fault. */
  datatype Scattered = Scattered(buffer: seq<real>, complete: bool)

  /** The effect of applying op through the offsets offs, in order, on buf. */
  function Scatter(buf: seq<real>, offs: seq<int>, op: Op, rhs: Operand): (r: Scattered)
    requires Supported(op, rhs)
    ensures |r.buffer| == |buf|
    ensures r.complete <==> forall k :: 0 <= k < |offs| ==> 0 <= offs[k] < |buf| && Covers(rhs, k)
    decreases |offs|
  {
    if offs == [] then Scattered(buf, true)
    else
      var k := |offs| - 1;
      var prev := Scatter(buf, offs[..k], op, rhs);
      var p := offs[k];
      if prev.complete && 0 <= p < |buf| && Covers(rhs, k) then
        Scattered(prev.buffer[p := Updated(op, rhs, prev.buffer[p], k)], true)
      else
        Scattered(prev.buffer, false)
  }

  /** One more step of a run that has not faulted: update the element at the next offset, or fault. */
  lemma ScatterExtend(buf: seq<real>, offs: seq<int>, op: Op, rhs: Operand, n: int)
    requires Supported(op, rhs) && 0 <= n < |offs| && Scatter(buf, offs[..n], op, rhs).complete
    ensures var b := Scatter(buf, offs[..n], op, rhs).buffer;
      var p := offs[n];
      Scatter(buf, offs[..n + 1], op, rhs)
        == if 0 <= p < |buf| && Covers(rhs, n) then Scattered(b[p := Updated(op, rhs, b[p], n)], true)
           else Scattered(b, false)
  {
    assert offs[..n + 1][..n] == offs[..n];
  }

  /** Once a run has faulted, the later steps change nothing. */
  lemma {:induction false} ScatterStaysFaulted(buf: seq<real>, offs: seq<int>, op: Op, rhs: Operand, n: int)
    requires Supported(op, rhs) && 0 <= n <= |offs| && !Scatter(buf, offs[..n], op, rhs).complete
    ensures Scatter(buf, offs, op, rhs) == Scatter(buf, offs[..n], op, rhs)
    decreases |offs| - n
  {
    if n < |offs| {
      var m := |offs| - 1;
      assert offs[..m][..n] == offs[..n];
      ScatterStaysFaulted(buf, offs[..m], op, rhs, n);
      assert offs[..m] == offs[..|offs| - 1];
    } else {
      assert offs[..n] == offs;
    }
  }

  /** An element that no step addresses keeps its value. */
  lemma {:induction false} ScatterUntouched(buf: seq<real>, offs: seq<int>, op: Op, rhs: Operand, p: int)
    requires Supported(op, rhs) && 0 <= p < |buf|
    requires forall k :: 0 <= k < |offs| ==> offs[k] != p
    ensures Scatter(buf, offs, op, rhs).buffer[p] == buf[p]
    decreases |offs|
  {
    if offs != [] {
      ScatterUntouched(buf, offs[..|offs| - 1], op, rhs, p);
    }
  }

  /** Assigning a scalar through the offsets sets every listed element to it, duplicates included. */
  lemma {:induction false} ScatterAssignScalar(buf: seq<real>, offs: seq<int>, s: real, k: int)
    requires Scatter(buf, offs, Equal, Scalar(s)).complete && 0 <= k < |offs|
    ensures Scatter(buf, offs, Equal, Scalar(s)).buffer[offs[k]] == s
    decreases |offs|
  {
    var n := |offs| - 1;
    if k < n && offs[k] != offs[n] {
      ScatterAssignScalar(buf, offs[..n], s, k);
    }
  }

  /** Assigning elementwise through the offsets: an element listed several times ends with the
      operand element of its last listing; later duplicates overwrite earlier ones. */
  lemma {:induction false} ScatterAssignLastWins(buf: seq<real>, offs: seq<int>, values: seq<real>, k: int)
    requires Scatter(buf, offs, Equal, Elements(values)).complete && 0 <= k < |offs|
    requires forall k2 :: k < k2 < |offs| ==> offs[k2] != offs[k]
    ensures k < |values|
    ensures Scatter(buf, offs, Equal, Elements(values)).buffer[offs[k]] == values[k]
    decreases |offs|
  {
    var n := |offs| - 1;
    if k < n {
      ScatterAssignLastWins(buf, offs[..n], values, k);
    }
  }

  /** With pairwise distinct offsets every listed element is updated exactly once, from its old value. */
  lemma {:induction false} ScatterDistinct(buf: seq<real>, offs: seq<int>, op: Op, rhs: Operand, k: int)
    requires Supported(op, rhs) && Scatter(buf, offs, op, rhs).complete && 0 <= k < |offs|
    requires forall i, j :: 0 <= i < j < |offs| ==> offs[i] != offs[j]
    ensures 0 <= offs[k] < |buf| && Covers(rhs, k)
    ensures Scatter(buf, offs, op, rhs).buffer[offs[k]] == Updated(op, rhs, buf[offs[k]], k)
    decreases |offs|
  {
    var n := |offs| - 1;
    if k < n {
      ScatterDistinct(buf, offs[..n], op, rhs, k);
    } else {
      ScatterUntouched(buf, offs[..n], op, rhs, offs[n]);
    }
  }

  /** Enumerating the whole buffer in storage order, as the dense loops do, updates element k at
      step k, and completes whenever the operand is long enough. */
  lemma ScatterInStorageOrder(buf: seq<real>, op: Op, rhs: Operand)
    requires Supported(op, rhs) && (rhs.Elements? ==> |rhs.values| >= |buf|)
    ensures var r := Scatter(buf, seq(|buf|, k => k), op, rhs);
      r.complete && forall k :: 0 <= k < |buf| ==> r.buffer[k] == Updated(op, rhs, buf[k], k)
  {
    var offs := seq(|buf|, k => k);
    forall k | 0 <= k < |buf|
      ensures Scatter(buf, offs, op, rhs).buffer[k] == Updated(op, rhs, buf[k], k)
    {
      ScatterDistinct(buf, offs, op, rhs, k);
    }
  }
}
