/** The identity resolver. The remote user service is an oracle: for a bearer token and an e-mail
    (or an id) it either answers with an identity or fails (time-out, error status, open circuit).
    A failure is never passed on: the client substitutes a deterministic placeholder identity. */
module UserServiceClient {
  import opened Wrappers
  import opened Domain

  /** What one call to the user service came back with. */
  datatype Response = Body(user: UserDto) | Unavailable(cause: string)

  /** The two endpoints of the user service over the course of one operation. Every call can
      succeed or fail on its own (the circuit can open part-way through a listing), so a lookup
      by id is also told its position `call` among the operation's lookups by id; the same id
      asked twice may get two different answers. An operation looks an e-mail up at most once. */
  datatype UserService = UserService(
    searchByEmail: (string, string) -> Response,
    findById: (string, int, nat) -> Response)

  const Unknown := "unknown"
  const UnknownEmail := "unknown@gmail.com"

  /** The placeholder for a failed e-mail lookup: no real account (id -1), the e-mail asked for. */
  function GetUserByEmailFallback(auth: Authentication, email: string, t: string): (u: UserDto)
    ensures u.id == -1
    ensures u.email == email
    ensures u.name == Unknown && u.surname == Unknown && u.birthDate.None?
  {
    UserDto(-1, Unknown, Unknown, None, email)
  }

  /** The placeholder for a failed id lookup: the id asked for, a fixed unknown e-mail. */
  function GetUserByIdFallback(auth: Authentication, id: int, t: string): (u: UserDto)
    ensures u.id == id
    ensures u.email == UnknownEmail
    ensures u.name == Unknown && u.surname == Unknown && u.birthDate.None?
  {
    UserDto(id, Unknown, Unknown, None, UnknownEmail)
  }

  /** Resolves an identity by e-mail with the caller's token; total, whatever the service does. */
  function GetUserByEmail(auth: Authentication, email: string, users: UserService): (u: UserDto)
    ensures users.searchByEmail(auth.credentials, email).Body? ==>
              u == users.searchByEmail(auth.credentials, email).user
    ensures users.searchByEmail(auth.credentials, email).Unavailable? ==>
              u.id == -1 && u.email == email && u.name == Unknown && u.surname == Unknown
    ensures users.searchByEmail(auth.credentials, email).Unavailable? ==>
              u == GetUserByEmailFallback(auth, email, users.searchByEmail(auth.credentials, email).cause)
  {
    match users.searchByEmail(auth.credentials, email)
    case Body(user) => user
    case Unavailable(t) => GetUserByEmailFallback(auth, email, t)
  }

  /** Resolves an identity by id with the caller's token, as the operation's lookup number
      `call`; total, whatever the service does. */
  function GetUserById(auth: Authentication, id: int, users: UserService, call: nat): (u: UserDto)
    ensures users.findById(auth.credentials, id, call).Body? ==>
              u == users.findById(auth.credentials, id, call).user
    ensures users.findById(auth.credentials, id, call).Unavailable? ==>
              u.id == id && u.email == UnknownEmail && u.name == Unknown && u.surname == Unknown
    ensures users.findById(auth.credentials, id, call).Unavailable? ==>
              u == GetUserByIdFallback(auth, id, users.findById(auth.credentials, id, call).cause)
  {
    match users.findById(auth.credentials, id, call)
    case Body(user) => user
    case Unavailable(t) => GetUserByIdFallback(auth, id, t)
  }

  /** Neither placeholder depends on the failure that caused it, nor on the caller. */
  lemma FallbacksIgnoreCause(a1: Authentication, a2: Authentication, email: string, id: int,
                             t1: string, t2: string)
    ensures GetUserByEmailFallback(a1, email, t1) == GetUserByEmailFallback(a2, email, t2)
    ensures GetUserByIdFallback(a1, id, t1) == GetUserByIdFallback(a2, id, t2)
  {
  }
}
