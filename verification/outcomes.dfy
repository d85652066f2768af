/** Optional values, the Python exceptions the core raises, and results that
    carry either a value or the exception raised instead. */
module Outcomes {

  datatype Option<+T> = None | Some(value: T)

  /** The exception classes the modelled code raises. */
  datatype Exc = TypeError | ValueError | AttributeError | IndexError | OverflowError

  datatype Result<+T> = Ok(value: T) | Err(exc: Exc)
}
