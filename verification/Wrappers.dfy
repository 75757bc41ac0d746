/** A value that may be missing, and an operation that may refuse. */
module Wrappers {

  datatype Option<+T> = None | Some(value: T)

  datatype Result<+T> = Ok(value: T) | Refused

  function ToOption<T>(r: Result<T>): Option<T> { if r.Ok? then Some(r.value) else None }
}
