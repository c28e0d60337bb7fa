/** Success/failure results used by the parsing and evaluation functions.
    The C program aborts (via `assert`) where these functions return `Err`. */
module Results {

  datatype Result<+T> = Ok(value: T) | Err(msg: string) {

    predicate IsFailure() {
      Err?
    }

    function PropagateFailure<U>(): Result<U>
      requires Err?
    {
      Err(msg)
    }

    function Extract(): T
      requires Ok?
    {
      value
    }
  }
}
