/** The exceptions the router raises or passes on, by class and message. */
module Faults {
  datatype Fault =
    | NullPointer                  // a `NullPointerException` from dereferencing a null field or argument
    | SqlError(message: string)    // an `SQLException` the router raises itself
    | Unsupported(message: string) // an `UnsupportedOperationException`
    | Backend(code: nat)           // an exception raised by a backend connection or statement

  /** The message of the exception every operation raises on a closed session. */
  const ClosedMessage := "No operations allowed after connection closed."
}
