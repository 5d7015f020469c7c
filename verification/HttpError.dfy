/** The errors of ylong_http/src/error.rs, as far as chunks and headers report them. */
module HttpError {

  /** The only error is InvalidInput. */
  datatype Result<+T> = Ok(value: T) | InvalidInput {
    predicate IsFailure() {
      InvalidInput?
    }

    function PropagateFailure<U>(): Result<U>
      requires InvalidInput?
    {
      InvalidInput
    }

    function Extract(): T
      requires Ok?
    {
      value
    }
  }
}
