/** Option and Result, plus the Python exceptions the calibration scripts can raise. */
module Wrappers {

  datatype Option<+T> = None | Some(value: T)

  datatype Result<+T, +E> = Ok(value: T) | Err(error: E) {
    predicate IsFailure() { Err? }

    function PropagateFailure<U>(): Result<U, E>
      requires Err?
    {
      Err(error)
    }

    function Extract(): T
      requires Ok?
    {
      value
    }
  }

  /** The ways a script run ends early: a Python exception, or an explicit `sys.exit`/`quit`. */
  datatype Fault =
    | IndexError(what: string)      // `x[1]` on a too-short list or a 0-d numpy array
    | TypeError(what: string)       // `list(a)` of a 0-d numpy array
    | ValueError(what: string)      // `list.remove`, `list.index`, `np.nanargmin` of nothing, a bad float
    | NameError(what: string)       // a variable that no branch assigned
    | AttributeError(what: string)  // a misspelled library function
    | KeyError(what: string)        // a missing netCDF variable
    | Exit(what: string)            // the script prints an error and stops
}
