/** The ways the client's operations end: a value or one of the Java exceptions it lets escape. */
module Outcomes {

  /** The exceptions the modelled code raises or lets through. */
  datatype Error =
    | NumberFormat        // Integer.parseInt on a malformed or out-of-range port
    | IndexOutOfBounds    // hostPort[0] on an entry that splits into nothing
    | NullPointer         // a call on a field that is still null
    | IllegalArgument     // the HTTP client builder refusing an empty host list
    | Serialization       // the event serializer failing
    | Transport           // the bulk call failing

  /** A computation that returns a value or raises. */
  datatype Result<T> = Success(value: T) | Failure(error: Error)

  /** A void method that returns normally or raises. */
  datatype Outcome = Pass | Fail(error: Error)

  /** A Java reference that may be null. */
  datatype Option<T> = None | Some(value: T)
}
