/** Optional values and error-carrying results, used where the program
    signals "nothing here" with `None`/a falsy value or raises. */
module Wrappers {

  datatype Option<+T> = None | Some(value: T)

  datatype Result<+T, +E> = Ok(value: T) | Err(error: E)
}
