/** Option and Result, the failure-carrying values used throughout the model. */
module Wrappers {

  datatype Option<+T> = None | Some(value: T)

  datatype Result<+T, +E> = Success(value: T) | Failure(error: E)
}

/**
 * The exceptions the plugin raises or lets through, one constructor per Java
 * exception class, each with its message.  A GradleException may wrap the
 * exception that caused it.
 */
module Exceptions {
  import opened Wrappers

  datatype Exception =
    | IllegalArgumentException(message: string)
    | IllegalStateException(message: string)
    | IOException(message: string)
    | UnsupportedOperationException(message: string)
    | GradleException(message: string, cause: Option<Exception>)
}
