/** Outcomes of the core's operations: a value, or the Python exception the code raises or lets through. */
module Results {

  /** The exception classes that reach the callers of the analysis and mosaicing code. */
  datatype Error =
    | RuntimeError  // raised by the audio library: a file it cannot decode, a frame it cannot analyse
    | ValueError    // range() with step 0, an unknown choice policy, bad input to the neighbour search, a failed numpy broadcast
    | KeyError      // a feature name that is not a column of a row or table
    | IndexError    // the first row of an empty target table

  datatype Option<+T> = None | Some(value: T)

  datatype Result<+T> = Ok(value: T) | Err(error: Error) {
    predicate IsFailure() {
      Err?
    }

    function PropagateFailure<U>(): Result<U>
      requires Err?
    {
      Err(error)
    }

    function Extract(): T
      requires Ok?
    {
      value
    }
  }
}
