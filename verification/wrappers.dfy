/** Option and Result, the two shapes every nullable value and every thrown exception takes in this model. */
module Wrappers {

  /** A nullable reference or a `Nullable<T>`: `None` plays the part of `null`. */
  datatype Option<+T> = None | Some(value: T) {

    /** The value, or `default` when there is none (the `??` operator). */
    function GetOr(default: T): (r: T)
      ensures Some? ==> r == value
      ensures None? ==> r == default
    {
      match this
      case Some(v) => v
      case None => default
    }
  }

  /** The outcome of an operation that may throw: `Failure` carries what was thrown. */
  datatype Result<+R, +E> = Success(value: R) | Failure(error: E)

  /** The exception classes the modelled code throws. */
  datatype ExceptionKind = InvalidOperation | Argument

  /** Why an operation was refused. */
  datatype Cause =
    | PatientNotFound
    | DoctorNotFound
    | CannotSchedule
    | SlotTaken
    | CancellationRefused
    | NotCancellable
    | NotScheduled
    | DuplicateEmail
    | BlankSearchTerm

  /** A thrown exception: its class and the reason the source gives in its message. */
  datatype Error = Error(kind: ExceptionKind, cause: Cause)
}
