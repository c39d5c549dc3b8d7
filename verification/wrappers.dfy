/** Error handling shared by every module: Python exceptions become `Err` values. */
module Wrappers {
  /** The Python exception classes the modelled code raises. */
  datatype Error =
    | ValueError(message: string)
    | TypeError(message: string)
    | KeyError(key: string)
    | AttributeError(name: string)
    | NotImplementedError
    | ZeroDivisionError

  datatype Option<T> = None | Some(value: T)

  datatype Result<T> = Ok(value: T) | Err(error: Error)
}
