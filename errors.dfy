/** The exceptions the Java containers throw, as values. */
module Errors {

  /** `IndexOutOfBoundsException("Index: " + index + ", Size: " + size)`. */
  datatype IndexError = IndexOutOfBounds(index: int, size: int)

  /** The outcome of an operation that may throw an `IndexError`. */
  datatype Result<T> = Ok(value: T) | Err(error: IndexError)
}
