/** The exceptions the primitive types throw, and null references, as values. */
module Errors {

  /** The Java exception kinds the modelled code raises. */
  datatype Error =
    | NumberFormat      // java.lang.NumberFormatException
    | NoSuchElement     // java.util.NoSuchElementException
    | IllegalArgument   // java.lang.IllegalArgumentException
    | IndexOutOfBounds  // java.lang.StringIndexOutOfBoundsException or ArrayIndexOutOfBoundsException

  /** Either the value an operation returns or the exception it throws. */
  datatype Result<T> = Success(value: T) | Failure(error: Error)

  /** A reference argument that may be null (None). */
  datatype Option<T> = None | Some(value: T)
}
