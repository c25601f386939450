/** Values shared by the three stores of the portal: optional values and the
    reply every mutating store operation produces. */
module Common {

  /** A value that may be absent (`undefined` / `null` in the application). */
  datatype Option<+T> = None | Some(value: T) {

    /** The carried value, or `default` when absent (the `x || d` idiom). */
    function GetOr(default: T): T {
      match this
      case Some(v) => v
      case None => default
    }
  }

  /** Failures a store operation signals. Updating or deleting an absent id
      is not one of them: those calls are silent no-ops. */
  datatype Error = InvalidCredentials | DuplicateEmail

  datatype Status = Ok | Failed(error: Error)

  /** The registry as a store operation leaves it, and whether the operation
      succeeded. A failed operation hands back the registry it was given. */
  datatype Reply<S> = Reply(state: S, status: Status)
}
