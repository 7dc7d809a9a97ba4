/** Option and Result, and the Java exceptions the modelled code throws. */
module Wrappers {

  /** A value that may be absent: `None` stands for a Java `null`. */
  datatype Option<+T> = None | Some(value: T)

  /** The exceptions the modelled code raises, by their Java class. */
  datatype Exception =
    | IllegalArgument(message: string)
    | UnsupportedOperation
    | Setup(message: string)
    | Processing(message: string)
    | Sax(message: string)
    | Parse(position: int)
    | NumberFormat
    | ClassCast
    | IndexOutOfBounds
    | NullPointer
    | NoSuchElement

  /** The outcome of an operation that can throw. */
  datatype Result<+T> = Ok(value: T) | Err(error: Exception)

  /** The void outcome of an operation that can throw. */
  datatype Outcome = Pass | Fail(error: Exception)
}
