/** The parts of the Java runtime the calculator touches: results that may carry a thrown
    exception, the exceptions themselves, and the library routines whose internals are not
    part of this model. */
module Runtime {

  /** The outcome of a Java call: a value, or the exception it throws. */
  datatype Result<+T, +E> = Success(value: T) | Failure(error: E)

  /** The exceptions the evaluator can raise; `message` is what getMessage() returns. */
  datatype JavaException =
    | ArithmeticException(message: string)
    | IllegalArgumentException(message: string)
    | NumberFormatException(message: string)
    | IndexOutOfBoundsException(message: string)

  /** Library routines called by the evaluator, passed in as parameters:
      - valueOf: Double.valueOf on a non-empty buffer, the value or the NumberFormatException message;
      - remainder: the double `%` operator;
      - pow: Math.pow;
      - show: the text of a double, as `"" + total` produces it;
      - outOfBounds: the message of List.get's IndexOutOfBoundsException for an index and a size. */
  datatype Platform = Platform(
    valueOf: string -> Result<real, string>,
    remainder: (real, real) -> real,
    pow: (real, real) -> real,
    show: real -> string,
    outOfBounds: (int, int) -> string
  )
}
