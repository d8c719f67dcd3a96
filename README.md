# RedditNobility moderation and login core, in Dafny

This project models the decision and state-transition logic of the
RedditNobility site: moderators review pending registrations, claim one at a
time so that two moderators do not review the same person, approve or deny
them, and approved users sign in with a password or a one-time code sent to
their Reddit account.

The model runs the handlers against an abstract store:

- `models.dfy` (`Models`) holds the rows (`User`, `AuthToken`, `Otp`), the
  `Status` values and their parser, the capability flags, the handler answer
  `Response` and the Reddit calls (`RedditCall`).
- `actions.dfy` (`Actions`) holds the table operations of
  `src/user/action.rs`. Queries are functions over the tables as sequences of
  rows in load order: `filter` keeps matching rows, `first` takes the first.
  Writes are methods of the `Database` class, which owns the three tables and
  keeps their primary keys unique (`Valid`: no two rows of a table share an
  id). Each write takes a `fault` oracle
  for a store failure; an insert also fails when its id is taken. Whether a
  failure panics (`unwrap`) or is passed on (`?`) follows the source, function
  by function.
- `moderator.dfy` (`Moderator`) holds `user_page`, `review_user`,
  `review_user_update` and `moderator_update_properties`. The shared
  `users_being_worked_on` claim set is the `ReviewRoom` class.
- `login.dfy` (`Login`) holds `me`, `login`, `one_time_password_create` and
  `one_time_password`.

Things outside the code are parameters of the handlers:

- `caller: Option<User>` is the user the auth header resolves to.
- `reddit: RedditCall -> bool` says whether each Reddit call succeeds. Each
  handler that calls Reddit also returns the calls it made, in order.
- `verify` stands for bcrypt's password check.
- Token values, OTP codes and row ids stand for the random or generated values.
- `now` is the clock.

The `next` branch of `review_user` is modelled exactly as written:

- The loop runs `for i in 0..result.len()` while `result.remove(i)` shrinks the
  vector, so it inspects sorted positions 0, 2, 4, ... only.
- `ScanAsWritten` carries this as loop invariants.
- It is proved equal to `NextAsWritten`: the first unclaimed candidate at an
  even position. If none is left, the answer is a panic when there are two or
  more candidates, and not-found otherwise.
- The oldest-first scan the handler evidently means is `ScanFirstUnclaimed`
  (see Findings). `ReviewUser` keeps the scan as written, since it models the
  handler.

The model follows the code, including where it departs from what a reader
of the site would expect:

- No claim is ever released: no release operation exists.
- Ties on `created` keep load order (a stable sort), with no id tie-break.
- Any parseable status is accepted, `Found` included, so a reviewed user can
  be put back to pending. The `Status` type is not part of this
  model; it is taken to have exactly the variants Found, Approved and Denied.
- The external approval call is given the acting moderator's record, not
  the target's.
- Redeeming an unknown code answers Unauthorized, not NotFound.
- The OTP's expiration is never compared.
- The OTP is deleted only after its owner passes the login gate, not
  together with the lookup.

Several helpers are not part of this model. The model gives them these meanings:

- `update_status` writes the status, the reviewer and `status_changed` of the
  rows with the id, and passes a failure on.
- `create_token` inserts a token row through `add_new_auth_token` and answers
  with the token value.
- `generate_otp` inserts an OTP row through `add_opt` and answers with the code.
- `RN::add_id` inserts the id into the claim set.

## Model

| member | source | states |
|---|---|---|
| `Models.ParseStatus` | src/moderator/controllers.rs:160-164 | a status text parses exactly when it is one of the three variant names, and then to the status with that name |
| `Models.ParseStatusName` | src/moderator/controllers.rs:160 | parsing the stored name of a status gives that status back |
| `Actions.GetUserByName` | src/user/action.rs:15-24 | the answer is a stored row with that username, and there is none exactly when no row has it |
| `Actions.GetUserById` | src/user/action.rs:26-32 | the answer is a stored row with that id, and there is none exactly when no row has it |
| `Actions.GetUserByIdFindsRow` | src/user/action.rs:26-32 | with unique ids, looking up a stored user's id finds exactly that user |
| `Actions.GetFoundUsers` | src/user/action.rs:34-37 | the answer holds exactly the stored rows whose status is Found |
| `Actions.GetAuthToken` | src/user/action.rs:126-136 | the answer is a stored token with that value, and there is none exactly when no token has it |
| `Actions.GetUserFromAuthToken` | src/user/action.rs:109-123 | a failed token read is passed on. An unknown token gives no user, and the owner is then never read. A known token gives the owner lookup, which can be empty or fail. A user returned owns a token with that value |
| `Actions.IssuedTokenResolves` | src/user/action.rs:109-148 | a token appended with a value no earlier token has resolves to its owner |
| `Actions.GetOpt` | src/user/action.rs:150-160 | the answer is a stored OTP with that code, and there is none exactly when no row has it |
| `Actions.OptExist` | src/user/action.rs:168-176 | true exactly when some OTP row's code equals the value |
| `Actions.OptExistIffGetOpt` | src/user/action.rs:150-176 | `opt_exist` is true exactly when `get_opt` finds a row |
| `Actions.WithoutOtp` | src/user/action.rs:162-166 | the rows left are exactly those whose id differs, and unique ids stay unique |
| `Actions.DeletedCodeIsGone` | src/user/action.rs:150-166 | after deleting the row a code finds, the code is unknown when no other row carried it |
| `Actions.UpdateUserRow` | src/user/action.rs:57-65 | the copied columns take the given user's values; id, username, permissions, created, discord id and title stay |
| `Actions.Database.constructor` | src/schema.rs:1-49 | an empty store satisfies the primary-key invariant |
| `Actions.Database.AddNewUser` | src/user/action.rs:6-13 | it panics on a store failure or a taken id; otherwise it appends the user. Other tables are unchanged and ids stay unique |
| `Actions.Database.DeleteUser` | src/user/action.rs:45-52 | it panics on a store failure; otherwise the table becomes `WithoutUser`: the users with a different id, in their order |
| `Actions.WithoutUser` | src/user/action.rs:48-50 | the rows left are exactly those whose id differs, and unique ids stay unique |
| `Actions.Database.UpdateUser` | src/user/action.rs:54-69 | it panics on a store failure; otherwise each row with the id gets the six columns, and every other row is unchanged |
| `Actions.Database.UpdateProperties` | src/user/action.rs:71-82 | it passes a store failure on; otherwise only the properties column of the rows with the id changes |
| `Actions.Database.UpdateTitle` | src/user/action.rs:83-94 | it passes a store failure on; otherwise only the title column of the rows with the id changes |
| `Actions.Database.UpdatePassword` | src/user/action.rs:96-107 | it passes a store failure on; otherwise only the password column of the rows with the id changes |
| `Actions.Database.UpdateStatus` | src/moderator/controllers.rs:172 | it passes a store failure on; otherwise only the status, reviewer and status_changed of the rows with the id change |
| `Actions.Database.AddNewAuthToken` | src/user/action.rs:138-148 | it panics on a store failure or a taken id; otherwise it appends the token |
| `Actions.Database.AddOpt` | src/user/action.rs:178-183 | it passes on a store failure or a taken id with nothing stored; otherwise it appends the OTP |
| `Actions.Database.DeleteOtp` | src/user/action.rs:162-166 | it passes a store failure on; otherwise exactly the OTP rows with that id are removed |
| `Moderator.UserPage` | src/moderator/controllers.rs:20-38 | unauthorized exactly when the caller is missing or not a moderator; otherwise the by-name lookup, which may be empty |
| `Moderator.SortByCreated` | src/moderator/controllers.rs:81 | the result is a permutation of the candidates, ordered by creation time |
| `Moderator.SortIsStable` | src/moderator/controllers.rs:81 | candidates with equal creation times keep their load order |
| `Moderator.ScanAsWritten` | src/moderator/controllers.rs:82-93 | the loop with `remove(i)` yields the first unclaimed candidate among sorted positions 0, 2, 4, … If there is none, it panics with two or more candidates and finds nobody otherwise |
| `Moderator.AsWrittenPicksEvenPosition` | src/moderator/controllers.rs:83-88 | a user handed out is unclaimed and sits at an even sorted position, with every earlier even position claimed |
| `Moderator.AsWrittenNobodyLeft` | src/moderator/controllers.rs:83-92 | with every even position claimed the scan panics exactly when there are two or more candidates |
| `Moderator.AsWrittenSkipsOddPositions` | src/moderator/controllers.rs:83-89 | an unclaimed candidate at an odd position does not stop a panic when every even position is claimed, while an oldest-first scan would hand that candidate out |
| `Moderator.AsWrittenPassesOverOlderCandidate` | src/moderator/controllers.rs:83-89 | with the oldest of three claimed, the scan hands out the newest rather than the middle one; with two it panics |
| `Moderator.ScanFirstUnclaimed` | src/moderator/controllers.rs:82-93 | the oldest-first scan finds the first unclaimed sorted candidate, or nobody |
| `Moderator.FirstUnclaimedIsOldest` | src/moderator/controllers.rs:81-93 | on sorted candidates the oldest-first scan returns an unclaimed candidate no newer than any other unclaimed one, and finds nobody exactly when all are claimed |
| `Moderator.ReviewRoom.constructor` | src/moderator/controllers.rs:85 | the claim set starts empty. `RN`'s constructor is not part of this model; the cited line only shows the `users_being_worked_on` map, whose keys are the claim set |
| `Moderator.ReviewRoom.AddId` | src/moderator/controllers.rs:102 | the id is added to the claim set |
| `Moderator.NextPickIsPendingAndUnclaimed` | src/moderator/controllers.rs:79-93 | `next` only picks a stored user whose status is Found and whose id is unclaimed |
| `Moderator.NextNeverRepeats` | src/moderator/controllers.rs:79-102 | once a picked user is claimed, `next` never picks them again, while no claim is released |
| `Moderator.NamedPickIgnoresClaims` | src/moderator/controllers.rs:94-99 | a lookup by name is the same whatever is claimed, and finds someone exactly when the name exists |
| `Moderator.ReviewUser` | src/moderator/controllers.rs:61-107 | a caller without approve_user is unauthorized. Both not-found outcomes and the panic leave the claims alone. A pick is claimed before the Reddit calls, and the claim stays if they fail. No claim is ever removed. A `next` answer is an unclaimed Found user |
| `Moderator.TwoReviewsGetDifferentUsers` | src/moderator/controllers.rs:79-102 | two `next` reviews in a row never both receive the same user |
| `Moderator.ReviewUserUpdate` | src/moderator/controllers.rs:139-174 | checks run in order: approve_user, target exists, status parses, then for Approved only the approval call on the moderator's record. The status is written only if all pass, with the parsed status, the moderator's name and the time; a failed write then answers ServerError |
| `Moderator.ModeratorUpdateProperties` | src/moderator/controllers.rs:182-220 | unauthorized unless a moderator; not found for a missing user. Avatar or description changes only that field of the target's properties. Any other key is a bad request, and nothing is written then. A failed write of a valid key answers ServerError |
| `Login.Me` | src/user/login.rs:14-24 | unauthorized exactly when no caller; otherwise exactly the caller |
| `Login.CreateToken` | src/user/login.rs:44 | appends a token of the user, or panics with nothing stored; a fresh token value then resolves to that user |
| `Login.Login` | src/user/login.rs:32-48 | unauthorized exactly when the user is missing, not Approved, lacks login or fails the password check, with no token stored. Otherwise it answers the token, stored for that user and resolving back to them, unless the insert fails or the token id is taken, which panics with nothing stored |
| `Login.GenerateOtp` | src/user/login.rs:77 | appends the OTP row with the code and answers the code, or stores nothing on a failed insert |
| `Login.OneTimePasswordCreate` | src/user/login.rs:55-85 | unauthorized, with nothing stored or sent, exactly when the user is missing or ineligible. An OTP row is added only for an eligible user, and its code is then sent to that user. For an eligible user with a working insert and a free id the row is added whatever the send does, so a failed send leaves it |
| `Login.OneTimePassword` | src/user/login.rs:93-118 | unknown code, missing owner or ineligible owner: unauthorized, and the OTP is kept. Otherwise a failed delete answers ServerError with nothing changed; else exactly that OTP is deleted, then the token is answered unless its insert fails or its id is taken, which panics. OTPs with other codes are untouched, and a code held by one row is unknown afterwards |
| `Login.RedeemTwice` | src/user/login.rs:99-117 | a code carried by one row is redeemed at most once |

## Findings

| source | as written | input that shows it | evidently intended | confidence | as-written member | corrected member |
|---|---|---|---|---|---|---|
| src/moderator/controllers.rs:83-89 | `for i in 0..result.len()` fixes the range, while `result.remove(i)` shrinks the vector. The scan sees sorted positions 0, 2, 4, … only, and panics on an out-of-bounds `remove` when those are all claimed and two or more candidates exist. The panic happens while the `rn` guard taken at controllers.rs:78 is held, which poisons the shared `Mutex`: every later `lock()?` fails until a restart, so `review_user` (controllers.rs:78), Approved updates (controllers.rs:166) and OTP creation (login.rs:75) all answer errors from then on | Found users A (created 1, claimed), B (created 2) and C (created 3): `next` hands out C, not B. With only A (claimed) and B, it panics | hand out the oldest unclaimed candidate, and answer not-found when every candidate is claimed; proved in `Moderator.FirstUnclaimedIsOldest` | high (not executed) | `Moderator.AsWrittenPassesOverOlderCandidate` | `Moderator.ScanFirstUnclaimed` |

## Left out

- HTTP framing is not modelled: routing, JSON bodies, `SiteResponse` and status codes such as 200 or 201. A handler answers a `Response` value.
- `get_user_by_header` is not part of this model. Handlers receive the user it resolves, or none.
- Connection-pool errors from `database.get()?` and lock poisoning from `lock()?` are not modelled.
- Each handler is one atomic step. Holding the `RN` lock across Reddit calls is not modelled: it only matters under concurrency.
- Reads are taken to succeed. Forwarding a failed read is shown only in `get_user_from_auth_token`. Handlers that forward read errors with `?` are not modelled on that path.
- A bcrypt error on a malformed stored hash is not modelled; `verify` is a yes/no oracle.
- Mapping Reddit data into `RedditUser` and `RedditPost` is not modelled. An `Ok` answer of `review_user` names the user whose profile is returned.
- Debug `println!` output in `one_time_password_create` is not modelled.
- OTP expiry and claim release are not modelled: neither exists in the code.
- `get_users`, `get_team_members` and `get_team_user` are not modelled. They are read-only projections that no modelled handler calls.
- `src/api/apiresponse.rs` is not modelled: it is a plain record.
- `src/schema.rs` lacks the `title` column that `update_title` writes. `User` keeps a `title` field so that the write can be stated.
- Integer columns are unbounded: ids and times are only compared, never computed with.
- Actions.GetUserByName: states that a row with the name is found, not that it is the first in load order (diesel's `first` without `ORDER BY`); `GetUserById`, `GetAuthToken` and `GetOpt` likewise.
- Actions.GetFoundUsers: states which rows are returned, not that load order is kept; the body keeps it.
- Actions.GetUserByName, Actions.GetFoundUsers, Actions.GetAuthToken, Actions.GetOpt, Actions.OptExist: text filters compare exactly, as under a binary collation. The tables live in MySQL, whose default collations compare case-insensitively, and the collation is not fixed in the code. Under such a collation `login("ALICE", …)` would find the row "alice" and an OTP code would match in another letter case; this is not modelled, and `CodeUnique` (used by `Login.RedeemTwice`) is then about exact codes only.
