/** What a guard can do with a request: let it through, refuse it, or throw an HTTP exception. */
module GuardTypes {
  import opened Wrappers

  /** The HTTP exceptions the guards throw; a None message is the exception's default one. */
  datatype GuardError =
    | Unauthorized(message: Option<string>)
    | Forbidden(reason: string)

  /**
   * CanActivate.canActivate: resolves true, resolves false, rejects (an async
   * guard's throw), or raises synchronously before any promise exists (a plain
   * guard's throw).
   */
  datatype GuardOutcome = Pass | Deny | Throw(error: GuardError) | Raise(error: GuardError)
}
