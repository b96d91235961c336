/** Option and Result, for values a query solution may leave unbound and for
    operations of the Java library that throw. */
module Wrappers {

  datatype Option<+T> = None | Some(value: T)

  datatype Result<+T, +E> = Ok(value: T) | Err(error: E)
}
