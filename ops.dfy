/** The operator tags of the in-place dispatch and the element update each one performs. */
module Ops {

  /** Operator tags. Assignment is `Equal`; the comparison tags are not in-place operators. */
  datatype Op =
    | Equal | NotEqual | Greater | Less | StrictGreater | StrictLess
    | Plus | Minus | ElemTimes | ElemDivide
    | Negate | Increment | Decrement
  {
    /** The tags the switch of inPlace(Op) handles. */
    predicate IsUnary() {
      this == Negate || this == Increment || this == Decrement
    }

    /** The tags the switches of inPlace(Op, double) and inPlace(Op, AbstractMat) handle. */
    predicate IsBinary() {
      this == Equal || this == Plus || this == Minus || this == ElemTimes || this == ElemDivide
    }
  }

  /** Division of element values; a zero divisor yields 0 here (see README, Left out). */
  function Quotient(x: real, y: real): real {
    if y == 0.0 then 0.0 else x / y
  }

  /** New value of an element x under a unary in-place operator. */
  function UnaryValue(op: Op, x: real): real
    requires op.IsUnary()
  {
    match op
    case Negate => -x
    case Increment => x + 1.0
    case Decrement => x - 1.0
  }

  /** New value of an element x under a binary in-place operator with right-hand side y. */
  function BinaryValue(op: Op, x: real, y: real): real
    requires op.IsBinary()
  {
    match op
    case Equal => y
    case Plus => x + y
    case Minus => x - y
    case ElemTimes => x * y
    case ElemDivide => Quotient(x, y)
  }
}
