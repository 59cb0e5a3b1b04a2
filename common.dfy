/** Identifiers, outcomes and the typed errors every controller answers with. */
module Common {

  /** Store identifiers (Mongo ObjectIds), allocated fresh by the store. */
  type UserId = nat
  type PostId = nat

  datatype Option<T> = None | Some(value: T)

  /** A controller's outcome: a success payload or a typed error. */
  datatype Result<T> = Ok(value: T) | Err(error: Error)

  /** What was looked up and not found. */
  datatype Missing = UserMissing | PostMissing

  /** The request-level rule a rejected request broke (the controllers' 400 answers). */
  datatype Violation =
    | CannotFollowSelf
    | NotPostOwner
    | EmptyComment
    | EmptyPost
    | BadEmailFormat
    | UsernameTaken
    | EmailRegistered
    | PasswordTooShort
    | PasswordPairRequired
    | WrongPassword
    | UnknownUsername

  datatype Error =
    | NotFound(what: Missing)
    | Invalid(why: Violation)
    /** "There are no suggested users": distinct from a fault. */
    | NoSuggestions
    /** The store refused the write (a unique index on username or email). */
    | StoreRejected
    /** The controller threw before answering (its catch answers 500). */
    | Internal

  /** JavaScript truthiness of a string field: absent and "" are both falsy. */
  predicate Present(s: string) { s != "" }

  /** `a || b` on two strings. */
  function OrElse(a: string, b: string): string
  {
    if Present(a) then a else b
  }
}
