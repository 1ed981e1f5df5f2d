/** Failure-compatible result types shared by every module, and the error
    value a request handler answers with: an HTTP status plus the reason
    the handler gave (each distinct guard of the handlers has its own
    reason, so two 400 answers from different guards stay distinguishable). */
module Wrappers {

  datatype Option<+T> = None | Some(value: T) {
    predicate IsFailure() { None? }

    function PropagateFailure<U>(): Option<U>
      requires None?
    {
      None
    }

    function Extract(): T
      requires Some?
    {
      value
    }

    function GetOr(default: T): T {
      match this
      case Some(v) => v
      case None => default
    }
  }

  datatype Result<+R, +E> = Success(value: R) | Failure(error: E) {
    predicate IsFailure() { Failure? }

    function PropagateFailure<U>(): Result<U, E>
      requires Failure?
    {
      Failure(error)
    }

    function Extract(): R
      requires Success?
    {
      value
    }
  }

  /** Why a handler refused a request. */
  datatype Reason =
    | MissingParameters
    | InvalidKeyFormat
    | KeyNotFound
    | AlreadyOwner
    | AlreadyMember
    | InvalidRole
    | NoPermission
    | UserNotFound
    | TargetIsOwner
    | AlreadyHasAccess
    | ListNotFound
    | ListNotFoundOrNotOwner
    | TargetNotFound
    | CreatorProtected
    | NotShared
    | CategoryNotFound
    | NotificationNotFound
    | InvalidId
    | InvalidDate
    | InvalidIndex
    | InvalidStoredValue
    | NoFields
    | NameRequired
    | InvalidPriority
    | InvalidState
    | StateRequired
    | TaskNotFound
    | NotTaskOwner
    | MessageRejected
    | NoListAccess
    | MessageNotFound
    | NotAuthenticated
    | InvalidNote
    | Unhandled

  /** An HTTP error answer: its status code and the guard that produced it. */
  datatype Error = Error(status: nat, reason: Reason)

  const BadRequest: nat := 400
  const Unauthorized: nat := 401
  const Forbidden: nat := 403
  const NotFound: nat := 404
  const ServerError: nat := 500
}
