/**
 * Option and Result datatypes shared by the models: `Option` stands for
 * Python's `Optional[...]` (with `None` as the missing result) and `Result`
 * for a value-or-raise outcome.
 */
module Wrappers {

  datatype Option<+T> = None | Some(value: T)

  datatype Result<+R, +E> = Success(value: R) | Failure(error: E)
}
