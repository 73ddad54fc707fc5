/** Option and Result values, and the kinds of Java exception the modelled code raises. */
module Wrappers {

  /** A Java reference that may be null. */
  datatype Option<+T> = None | Some(value: T)

  /** Why an operation threw an `IOException`. */
  datatype IOReason =
    | AlreadyFullyRead      // a buffer arrived after the message was judged complete
    | NotFullyRead          // a request or response was asked for before completion
    | UnreadableHeaderLine  // `readLine` returned null before the blank line
    | MalformedHeaderLine   // a header line without ':'
    | InvalidUriPath        // a path template that is null, empty or not starting with '/'

  /** The Java exceptions the modelled code can raise. */
  datatype JavaException =
    | IOException(reason: IOReason)
    | IllegalArgument        // IllegalArgumentException
    | IndexOutOfBounds       // ArrayIndexOutOfBoundsException
    | NumberFormat           // NumberFormatException
    | NullPointer            // NullPointerException

  /** The outcome of a Java call: a value, or the exception it threw. */
  datatype Result<+T> = Ok(value: T) | Err(error: JavaException)
}
