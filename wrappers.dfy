/** Failure-compatible wrappers and the service's error kinds. */
module Wrappers {

  datatype Option<T> = None | Some(value: T)

  datatype Result<T, E> = Ok(value: T) | Err(error: E) {
    predicate IsFailure() { Err? }

    function PropagateFailure<U>(): Result<U, E>
      requires Err?
    {
      Err(error)
    }

    function Extract(): T
      requires Ok?
    {
      value
    }
  }

  /** The kinds of `std::io::Error` the core raises by itself. */
  datatype IoKind = NotFound | AlreadyExists | InvalidInput | Other

  /** The errors the service reports (`ServiceError` and the errors it wraps). */
  datatype ServiceError =
    | FromString(message: string)
    | NoWriteAccess
    | FileTooLarge(limit: nat)
    | FileTooSmall(limit: nat)
    | Io(kind: IoKind, message: string)
    | Internal(message: string)
    | InvalidRegex(pattern: string)

  type SResult<T> = Result<T, ServiceError>
}
