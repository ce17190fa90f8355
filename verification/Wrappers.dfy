/** The two failure-carrying datatypes used by the models in place of Go's nil and error results. */
module Wrappers {

  datatype Option<+T> = None | Some(value: T)

  datatype Result<+T, +E> = Ok(value: T) | Err(error: E)
}
