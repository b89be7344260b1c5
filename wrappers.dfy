/** Option and Result values used for the validators' outcomes. */
module Wrappers {

  datatype Option<+T> = None | Some(value: T)

  /** A validator either returns the cleaned value or raises one validation error. */
  datatype Result<+R, +E> = Ok(value: R) | Err(error: E)

  /** The error a field reports: the raised error, or none when it passed. */
  function ErrorOf<R, E>(r: Result<R, E>): Option<E>
  {
    if r.Err? then Some(r.error) else None
  }
}
