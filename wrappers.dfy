/** Failure-carrying values for the Python exceptions the scripts can raise
    while building code tables and classifying records. */
module Wrappers {

  datatype Option<+T> = None | Some(value: T)

  /** The exceptions the modelled Python code can raise. A raised exception
      ends the run of the script, so every operation that can raise returns
      a `Result` and its callers propagate the failure. */
  datatype PyError =
    | KeyError(key: string)          // a missing dict key (dict[k], dict.pop(k))
    | ValueError(text: string)       // int() or max() on an unusable argument
    | UnboundLocalError(name: string) // a local variable read before any assignment
    | TypeError(text: string)        // an argument of the wrong type, e.g. a list given to write()

  datatype Result<+T> = Ok(value: T) | Err(error: PyError) {
    predicate IsFailure() { Err? }

    function PropagateFailure<U>(): Result<U>
      requires Err?
    {
      Err(error)
    }

    function Extract(): T
      requires Ok?
    {
      value
    }
  }
}
