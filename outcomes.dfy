/** Python's exceptions, as far as the modelled code raises them, and the
    result types that carry them instead of raising. */
module Outcomes {

  /** The exceptions the modelled code can raise. */
  datatype PyError =
    | KeyError(key: string)
    | TypeError(message: string)
    | ValueError(message: string)
    | AttributeError(name: string)
    | IndexError
    | NotImplementedError

  datatype Option<+T> = None | Some(value: T)

  /** A value, or the exception raised while computing it. */
  datatype Result<+T> = Ok(value: T) | Err(error: PyError)

  /** The outcome of a statement that returns nothing. */
  datatype Outcome = Pass | Fail(error: PyError)
}
