/** Option and Result, the two wrappers the model uses for Go's nil pointers
    and for the error paths that end the program. */
module Basics {

  /** A Go pointer that may be nil, or a lookup that may miss. */
  datatype Option<+T> = None | Some(value: T)

  /** The outcome of an operation that can stop with a fatal error
      (Go's `log.Fatalf`); the error carries the message. */
  datatype Result<+T> = Success(value: T) | Failure(error: string)
}
