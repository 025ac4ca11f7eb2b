/** The optional value used wherever the source has `undefined`, a failed
    lookup or a decoding step that can throw, and the result of a step that
    either yields a value or returns an error. */
module Wrappers {

  datatype Option<+T> = None | Some(value: T)

  datatype Result<+T, +E> = Ok(value: T) | Err(error: E)
}
