/** Result and error values that replace the Java exceptions of the parsing package. */
module Failures {

  /** Success with a value, or the error the Java code would have thrown. */
  datatype Result<+T, +E> = Ok(value: T) | Err(error: E) {
    predicate IsFailure() { Err? }

    function PropagateFailure<U>(): Result<U, E>
      requires Err?
    {
      Err(error)
    }

    function Extract(): T
      requires Ok?
    {
      value
    }
  }

  /** The outcome of an operation that returns nothing but may fail (RDInput.match). */
  datatype Outcome<+E> = Pass | Fail(error: E)

  /** A possibly missing value: `None` plays the role of Java's `null`. */
  datatype Option<+T> = None | Some(value: T)

  /** The two RuntimeExceptions raised while parsing. */
  datatype SyntaxError =
    | Expected(wanted: char, found: char)  // "expected <wanted> but found <found>", from match
    | ExpectedFactor                       // "expected a factor", from parseFactor
}
