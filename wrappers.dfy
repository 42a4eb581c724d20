/** Result shapes shared by the model: an optional value, and the outcome of an
    operation that either succeeds or fails with an error value. */
module Wrappers {

  datatype Option<+T> = None | Some(value: T)

  datatype Outcome<+E> = Pass | Fail(error: E)
}
