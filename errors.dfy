/** Failures the library raises, as values instead of Java exceptions. */
module Errors {

  /** The bound an IndexOutOfBoundsException names in its message. */
  datatype Bound =
    | RowPosition     // "The row position (..) is out of bounds."
    | FirstRow        // "The first row position (..) is out of bounds."
    | LastRow         // "The last row position (..) is out of bounds."
    | SecondRow       // "The second row position (..) is out of bounds."
    | ColPosition     // "The col position (..) is out of bounds."
    | FirstCol        // "The first col position (..)" / "The first column position (..)"
    | LastCol         // "The last col position (..) is out of bounds."
    | SecondCol       // "The second column position (..) is out of bounds."

  datatype Error =
    | EmptyCollection            // RuntimeException: the vector must have at least one element
    | OutOfBounds(bound: Bound)  // IndexOutOfBoundsException, checked before any mutation
    | UnsupportedOperation       // UnsupportedOperationException from a dispatch switch
    | RaggedInput                // IllegalArgumentException: all columns must have the same length
    | MalformedNumber            // NumberFormatException from Double.valueOf on a token
    | AccessFault                // an unchecked array access outside its array

  /** Success or failure of an operation that returns nothing (a Java void method). */
  datatype Outcome = Pass | Fail(error: Error)

  /** Success with a value, or failure. */
  datatype Result<T> = Ok(value: T) | Err(error: Error)
}
