/** Failure-compatible values: Rust's `Option`, and the outcome of a fallible OS query. */
module Wrappers {

  datatype Option<+T> = None | Some(value: T)

  /** The outcome of a query to the windowing system. The modelled code only
      ever tests whether a query failed, so the error carries no payload. */
  datatype Result<+T> = Ok(value: T) | Err
}
