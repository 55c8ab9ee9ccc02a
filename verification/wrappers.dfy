/** Optional values and results with an error side, used for the nullable
    columns, the `undefined` fields of request bodies and the outcomes of
    parsing and validation. */
module Wrappers {

  datatype Option<+T> = None | Some(value: T)

  datatype Result<+T, +E> = Ok(value: T) | Err(error: E)
}
