/** Failure-carrying wrappers shared by every module of the model. */
module Results {

  /** A value that may be missing: Python's `None`, or JavaScript's `undefined`. */
  datatype Option<+T> = None | Some(value: T) {
    function GetOr(default: T): T {
      match this
      case Some(v) => v
      case None => default
    }
  }

  /** Why a request handler stops without producing its normal result. */
  datatype Error =
    | BadRequest      // the handler answers 400 with a message
    | NotFound        // the handler answers 404
    | Crash           // an exception escapes the handler (Flask answers 500)

  /** The outcome of a handler or helper that can fail. */
  datatype Result<+T> = Ok(value: T) | Err(error: Error) {
    predicate IsFailure() { Err? }

    function PropagateFailure<U>(): Result<U>
      requires Err?
    {
      Err(error)
    }

    function Extract(): T
      requires Ok?
    {
      value
    }
  }
}
