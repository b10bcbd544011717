/** Failure-carrying values: `Option` for a host computation that may report
    nothing (the volume of a degenerate body), `Result` for a run that stops. */
module Wrappers {

  datatype Option<+T> = None | Some(value: T)

  datatype Result<+R, +E> = Success(value: R) | Failure(error: E)
}
