/** An optional value, and the success-or-message result used by the value accessors and by the compiler's result flag. */
module Wrappers {
  datatype Option<T> = None | Some(value: T)

  datatype Result<T> = Ok(value: T) | Err(msg: string)
}
