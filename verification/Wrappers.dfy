/** The two outcome types used by every module: a value that may be absent (the
    source's `None`), and a value or a raised exception. */
module Wrappers {

  datatype Option<+T> = None | Some(value: T)

  datatype Result<+T, +E> = Ok(value: T) | Err(error: E)
}
