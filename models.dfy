/** The rows of the site's tables and the values its handlers exchange.

    The Rust `User`, `AuthToken` and `OTP` models are stored in the `users`,
    `auth_tokens` and `otps` tables; their Text columns for permissions,
    status and properties are given their decoded shape here. Integers are the
    tables' Bigint columns; ids are never computed with, so no width is modelled.
 */
module Models {

  datatype Option<+T> = None | Some(value: T)

  /** Review status of a user; Found is the status of a pending registration. */
  datatype Status = Found | Approved | Denied

  /** The text stored in the `status` column for each status. */
  function StatusName(s: Status): string {
    match s
    case Found => "Found"
    case Approved => "Approved"
    case Denied => "Denied"
  }

  /** `Status::from_str`: exactly the variant names parse, anything else is an error. */
  function ParseStatus(text: string): (r: Option<Status>)
    ensures r.Some? ==> StatusName(r.value) == text
    ensures r.None? <==> text !in {"Found", "Approved", "Denied"}
  {
    if text == "Found" then Some(Found)
    else if text == "Approved" then Some(Approved)
    else if text == "Denied" then Some(Denied)
    else None
  }

  /** Parsing undoes the stored name. */
  lemma ParseStatusName(s: Status)
    ensures ParseStatus(StatusName(s)) == Some(s)
  {
  }

  /** The capability flags a user holds; each is checked on its own. */
  datatype Permissions = Permissions(moderator: bool, approveUser: bool, login: bool)

  /** The profile fields a moderator may edit. */
  datatype Properties = Properties(avatar: string, description: string)

  datatype User = User(
    id: int,
    discordId: int,
    username: string,
    password: string,      // bcrypt hash
    permissions: Permissions,
    status: Status,
    statusChanged: int,
    discoverer: string,
    reviewer: string,
    properties: Properties,
    created: int,
    title: string)

  datatype AuthToken = AuthToken(id: int, user: int, token: string, created: int)

  /** A one-time password row; `password` holds the code that is sent out. */
  datatype Otp = Otp(id: int, user: int, password: string, expiration: int, created: int)

  /** The gate shared by password login, OTP creation and OTP redemption. */
  predicate CanLogIn(u: User) {
    u.status == Approved && u.permissions.login
  }

  /** What a handler answers. `Unauthorized` carries nothing, so every
      unauthorized answer is the same answer. `Panic` is a panic inside the
      handler (an `unwrap` on a failed store write, an out-of-bounds `remove`). */
  datatype Response<+T> = Ok(data: T) | Unauthorized | NotFound | BadRequest | ServerError | Panic

  /** A call into the Reddit client; its success is an oracle of the handler. */
  datatype RedditCall =
    | About(name: string)
    | Submissions(name: string)
    | ApproveUser(user: User)
    | SendLogin(name: string, code: string)
}
