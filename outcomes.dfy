/** Option and Result values shared by every module, and the three ways the
    program can stop an operation: an error value returned through `?`, a
    panic raised by `expect`/`unwrap`, and `process::exit`. */
module Outcomes {

  datatype Option<+T> = None | Some(value: T) {
    /** `unwrap_or`: the value, or `default` when there is none. */
    function GetOr(default: T): T {
      match this
      case Some(v) => v
      case None => default
    }
  }

  /** How an operation that produced no value ended. */
  datatype Failure =
    | Error(message: string)   // an `Err` returned to the caller
    | Panic(message: string)   // `expect`/`unwrap` aborted the task
    | Exit(message: string)    // the message was logged, then `process::exit(1)`

  datatype Result<+T> = Ok(value: T) | Err(failure: Failure)

  /** The outcome of an HTTP GET followed by JSON decoding of the body. */
  datatype Http<+T> = Response(body: T) | HttpError(message: string)
}
