/** Error kinds of the modelled code, and the Result and Option types that carry them. */
module Wrappers {
  /** The C++ exception classes the modelled functions throw. */
  datatype Error = DomainError | InvalidArgument | OutOfRange | RuntimeError

  datatype Result<T> = Ok(value: T) | Err(error: Error)

  datatype Option<T> = None | Some(value: T)
}
