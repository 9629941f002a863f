/** Failure-carrying result types shared by every module of the model. */
module Common {

  /** A value that may be absent (Python's `None`). */
  datatype Option<+T> = None | Some(value: T)

  /**
   * The Python exceptions the modelled code can raise. Each one aborts the
   * computation that raised it; the model returns it instead of a value.
   */
  datatype Error =
    | IndexError(what: string)      // a list index past the end
    | KeyError(what: string)        // a dictionary lookup of a missing key
    | ValueError(what: string)      // `int()` of a token that is not an integer
    | TypeError(what: string)       // a call with the wrong number of arguments, or `None * int`
    | NameError(what: string)       // a local variable read before it is assigned
    | AttributeError(what: string)  // a method call on `None`
    | ZeroDivisionError             // `x / 0`
    | InvalidArgument(what: string) // the explicit `raise Exception(...)` of the source

  /** Either a value or the exception that was raised instead. */
  datatype Result<+T> = Ok(value: T) | Err(error: Error)
}
