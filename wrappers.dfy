/** Option and Result, the two failure-carrying shapes the model uses.
    `None` stands for a missing value (a NaN cell or a NaN count); `Err`
    for an exception or an `exit()` of the program. */
module Wrappers {

  datatype Option<+T> = None | Some(value: T)

  datatype Result<+T, +E> = Ok(value: T) | Err(error: E)
}
