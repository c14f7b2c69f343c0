/** Option and Result, for values that may be absent and for operations that
    raise instead of returning. */
module Wrappers {
  datatype Option<T> = None | Some(value: T)

  datatype Result<T> = Ok(value: T) | Err(error: string)
}
