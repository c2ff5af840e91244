/** Python's failure modes as values: the exceptions the modelled code can
    raise, and the Option/Result/Outcome wrappers that carry them. */
module PyCore {

  /** The built-in exceptions that the modelled code can raise. */
  datatype PyError =
    | KeyError        // a dict lookup with a missing key
    | IndexError      // an index out of range, or the model's own IndexError
    | TypeError       // a value of the wrong type, e.g. int(None)
    | ValueError      // a malformed literal, e.g. int('abc'), or a bad unpacking
    | AttributeError  // an attribute read on None or on an object that lacks it
    | AssertionError  // a failed `assert`

  datatype Option<+T> = None | Some(value: T)

  datatype Result<+T> = Ok(value: T) | Err(error: PyError)

  /** The result of a statement sequence that returns nothing but can raise. */
  datatype Outcome = Pass | Fail(error: PyError)
}
