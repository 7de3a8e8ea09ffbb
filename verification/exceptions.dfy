/**
 * The exceptions the configuration editor raises and passes on, and the
 * result types its operations return instead of throwing.
 */
module Exceptions {

  /** The exception classes thrown by the editing engine and by the nidas library. */
  datatype Kind =
    | InternalProcessing   // InternalProcessingException
    | InvalidParameter     // InvalidParameterException
    | Unexpected           // anything else, caught with catch (...)

  /** A thrown exception: its class and its message. */
  datatype Exception = Exception(kind: Kind, what: string)

  function Internal(what: string): Exception { Exception(InternalProcessing, what) }
  function Invalid(what: string): Exception { Exception(InvalidParameter, what) }

  /** The value an operation returns, or the exception it throws. */
  datatype Result<+T> = Ok(value: T) | Err(error: Exception)
  {
    predicate Fails(k: Kind) { Err? && error.kind == k }
  }

  /** The outcome of an operation that returns nothing. */
  datatype Outcome = Pass | Fail(error: Exception)
  {
    predicate Fails(k: Kind) { Fail? && error.kind == k }
  }

  datatype Option<+T> = None | Some(value: T)
}
