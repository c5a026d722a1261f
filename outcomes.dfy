/** Optional values, thrown exceptions and call results shared by the four stores. */
module Outcomes {

  /** A value that may be missing: an optional record field, a field a payload may
      leave out, or a `T | undefined` return value. */
  datatype Option<T> = None | Some(value: T) {

    /** The nullish-coalescing operator `this ?? default`, and a spread key
        `{ ...current, ...payload }` where the payload may leave the key out. */
    function GetOr(default: T): (r: T)
      ensures this.Some? ==> r == value
      ensures this.None? ==> r == default
    {
      match this
      case Some(v) => v
      case None => default
    }

    /** The same for a key whose current value may itself be missing: what this
        supplies wins, and otherwise `other` is kept. */
    function Or(other: Option<T>): (r: Option<T>)
      ensures this.Some? ==> r == this
      ensures this.None? ==> r == other
    {
      if this.Some? then this else other
    }
  }

  /** What the message of a thrown exception reports. */
  datatype Cause =
    | UserNotFound(userId: int)               // "User with id … not found"
    | TeamNotFound(teamId: int)               // "Team with id … not found"
    | AlreadyMember(userId: int, teamId: int) // "User … is already a member of team …"
    | NotAMember(userId: int, teamId: int)    // "User … is not a member of team …"
    | NotFoundInTeam(userId: int, teamId: int) // "User with id … not found in team with id …"

  /** The two exception classes the services throw: a plain JavaScript `Error`,
      and the framework's `NotFoundException` (an HTTP 404). */
  datatype Exception = Error(cause: Cause) | NotFoundException(cause: Cause)

  /** A service call either returns a value or throws. */
  datatype Result<T> = Ok(value: T) | Fail(exception: Exception)
}
