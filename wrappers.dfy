/** Option and Result, the two wrappers the model needs. */
module Wrappers {

  /** A value that may be absent: in this model, a JSON field that the
      client left out, which the driver binds as SQL NULL. */
  datatype Option<+T> = None | Some(value: T)

  /** The outcome of a statement that can fail inside the database engine. */
  datatype Result<+T, +E> = Ok(value: T) | Err(error: E)
}
