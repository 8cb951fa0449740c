/** Success/failure values for the outcome of a remote call or a service operation. */
module Wrappers {

  datatype Result<+T, +E> = Ok(value: T) | Err(error: E)

}
