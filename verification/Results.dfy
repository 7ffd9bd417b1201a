/** Optional values and the exceptions the modelled operations raise. */
module Results {

  datatype Option<+T> = None | Some(value: T)

  datatype Error =
    | ValueError         // bad number, bad argument, duplicate allocation
    | KeyError           // a record without its "id"
    | OverflowError      // an integer that SQLite's 64-bit column cannot hold
    | BindingError       // a value SQLite cannot bind to a parameter
    | IntegrityError     // PRIMARY KEY or UNIQUE violation
    | FactoryExhausted   // the MAC factory raised StopIteration
    | RetriesExhausted   // no unused MAC within the retry budget

  datatype Result<+T> = Ok(value: T) | Err(error: Error) {
    predicate IsFailure() { Err? }

    function PropagateFailure<U>(): Result<U>
      requires Err?
    {
      Err(error)
    }

    function Extract(): T
      requires Ok?
    {
      value
    }
  }
}
