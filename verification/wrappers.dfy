/** Failure-compatible result type shared by every script model.
    `Abort` stands for the scripts' `sys.exit()` (and for the uncaught
    Python exceptions that end a run the same way). */
module Wrappers {

  datatype Result<+T> = Ok(value: T) | Abort(reason: string) {

    predicate IsFailure() {
      Abort?
    }

    function PropagateFailure<U>(): Result<U>
      requires Abort?
    {
      Abort(reason)
    }

    function Extract(): T
      requires Ok?
    {
      value
    }
  }

  datatype Option<+T> = None | Some(value: T)
}
