/** A value that may be missing. */
module Optional {
  datatype Option<+T> = None | Some(value: T)
}

/** A call that may fail, where the model does not tell one failure from another. */
module Fallible {
  datatype Result<+T> = Ok(value: T) | Err
}
