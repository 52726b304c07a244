/** Small result types shared by the model. */
module Wrappers {

  /** A value that may be absent (Python's `None`). */
  datatype Option<T> = None | Some(value: T)

  /** The exceptions the modelled Python code can raise. */
  datatype Error = TypeError | ValueError | KeyError | IndexError | AttributeError

  /** The outcome of a Python call: a returned value or a raised exception. */
  datatype Outcome<T> = Returned(value: T) | Raised(error: Error)
}
