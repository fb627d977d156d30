/** Failure-carrying datatypes shared by the pipeline model. A missing table
    cell (pandas' NaN) is `None`; an operation that raises is `Err`. */
module Wrappers {

  datatype Option<+T> = None | Some(value: T)

  datatype Result<+T, +E> = Ok(value: T) | Err(error: E)
}
