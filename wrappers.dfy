/** The two outcome types used across the model: an optional value (a
    JavaScript `undefined`/`null` result) and a value-or-error (a call that
    may throw). */
module Wrappers {

  datatype Option<T> = None | Some(value: T)

  datatype Result<T> = Ok(value: T) | Err(error: string)
}
