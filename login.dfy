/** The credential handlers of `src/user/login.rs`.

    Password login and OTP creation share one gate: the user must exist, be
    Approved and hold the login permission. An OTP is redeemed by its code
    alone; it is deleted only once its owner passes the same gate, and then a
    token is issued. Every refusal is the same `Unauthorized` answer.
 */
module Login {
  import opened Models
  import opened Actions

  /** `me`: the caller's own record. */
  function Me(caller: Option<User>): (r: Response<User>)
    ensures r.Unauthorized? <==> caller.None?
    ensures r.Ok? ==> caller == Some(r.data)
    ensures r.Ok? || r.Unauthorized?
  {
    if caller.None? then Unauthorized else Ok(caller.value)
  }

  /** `create_token`: stores a new token of `user`, made of the fresh id and
      random value given, and answers with the value. The insert is
      `add_new_auth_token`, so a failed store panics. */
  method CreateToken(db: Database, user: User, tokenId: int, token: string, now: int, insertFails: bool)
    returns (r: Response<string>)
    requires db.Valid()
    modifies db
    ensures db.Valid()
    ensures db.users == old(db.users) && db.otps == old(db.otps)
    ensures r == if insertFails || (exists x :: x in old(db.authTokens) && x.id == tokenId) then Panic else Ok(token)
    ensures db.authTokens ==
      if r.Ok? then old(db.authTokens) + [AuthToken(tokenId, user.id, token, now)] else old(db.authTokens)
    ensures r.Ok? && user in db.users && GetAuthToken(old(db.authTokens), token).None? ==>
      GetUserFromAuthToken(db.authTokens, db.users, token, false, false) == Rows(Some(user))
  {
    var t := AuthToken(tokenId, user.id, token, now);
    var w := db.AddNewAuthToken(t, insertFails);
    if w != Done {
      return Panic;
    }
    if user in db.users && GetAuthToken(old(db.authTokens), token).None? {
      IssuedTokenResolves(old(db.authTokens), db.users, t, user);
    }
    r := Ok(token);
  }

  /** `login`: a token for the named user when the gate and the password check
      pass; a missing user, an ineligible one and a wrong password all get the
      same `Unauthorized`. */
  method Login(db: Database, username: string, password: string, verify: (string, string) -> bool,
               tokenId: int, token: string, now: int, insertFails: bool)
    returns (r: Response<string>)
    requires db.Valid()
    modifies db
    ensures db.Valid()
    ensures db.users == old(db.users) && db.otps == old(db.otps)
    ensures r.Ok? || r.Unauthorized? || r.Panic?
    ensures r.Unauthorized? <==>
      (var u := GetUserByName(db.users, username);
       u.None? || !CanLogIn(u.value) || !verify(password, u.value.password))
    ensures !r.Unauthorized? ==>
      r == if insertFails || (exists x :: x in old(db.authTokens) && x.id == tokenId) then Panic else Ok(token)
    ensures db.authTokens ==
      if r.Ok? then old(db.authTokens) + [AuthToken(tokenId, GetUserByName(db.users, username).value.id, token, now)]
      else old(db.authTokens)
    ensures r.Ok? && GetAuthToken(old(db.authTokens), token).None? ==>
      GetUserFromAuthToken(db.authTokens, db.users, token, false, false) == Rows(GetUserByName(db.users, username))
  {
    var option := GetUserByName(db.users, username);
    if option.None? {
      return Unauthorized;
    }
    var user := option.value;
    if user.status != Approved || !user.permissions.login {
      return Unauthorized;
    }
    if verify(password, user.password) {
      r := CreateToken(db, user, tokenId, token, now, insertFails);
      return;
    }
    return Unauthorized;
  }

  /** `generate_otp`: stores an OTP row for the user with the given random code
      and answers with the code; `add_opt` passes a failed insert on. */
  method GenerateOtp(db: Database, userId: int, code: string, otpId: int, expiration: int, now: int, insertFails: bool)
    returns (r: Option<string>)
    requires db.Valid()
    modifies db
    ensures db.Valid()
    ensures db.users == old(db.users) && db.authTokens == old(db.authTokens)
    ensures r.Some? <==> !insertFails && forall x :: x in old(db.otps) ==> x.id != otpId
    ensures r.Some? ==> r.value == code && db.otps == old(db.otps) + [Otp(otpId, userId, code, expiration, now)]
    ensures r.None? ==> db.otps == old(db.otps)
  {
    var w := db.AddOpt(Otp(otpId, userId, code, expiration, now), insertFails);
    if w != Done {
      return None;
    }
    r := Some(code);
  }

  /** `one_time_password_create`: behind the login gate, store an OTP and send
      its code to the user through Reddit. Nothing is stored or sent for an
      unknown or ineligible user; a failed send leaves the stored OTP in place. */
  method OneTimePasswordCreate(db: Database, username: string, code: string, otpId: int, expiration: int, now: int,
                               reddit: RedditCall -> bool, insertFails: bool)
    returns (r: Response<bool>, calls: seq<RedditCall>)
    requires db.Valid()
    modifies db
    ensures db.Valid()
    ensures db.users == old(db.users) && db.authTokens == old(db.authTokens)
    ensures r.Ok? || r.Unauthorized? || r.ServerError?
    ensures r.Unauthorized? <==>
      (var u := GetUserByName(db.users, username); u.None? || !CanLogIn(u.value))
    ensures db.otps != old(db.otps) ==>
      var u := GetUserByName(db.users, username);
      u.Some? && CanLogIn(u.value) &&
      db.otps == old(db.otps) + [Otp(otpId, u.value.id, code, expiration, now)] &&
      calls == [SendLogin(u.value.username, code)]
    ensures db.otps == old(db.otps) ==> calls == [] && !r.Ok?
    ensures insertFails ==> db.otps == old(db.otps) && calls == []
    ensures r.Ok? <==>
      (var u := GetUserByName(db.users, username);
       u.Some? && CanLogIn(u.value) && !insertFails && (forall x :: x in old(db.otps) ==> x.id != otpId) &&
       reddit(SendLogin(u.value.username, code)))
    ensures r.Ok? ==> r.data
    ensures (var u := GetUserByName(db.users, username);
             u.Some? && CanLogIn(u.value) && !insertFails && forall x :: x in old(db.otps) ==> x.id != otpId) ==>
      db.otps == old(db.otps) + [Otp(otpId, GetUserByName(db.users, username).value.id, code, expiration, now)]
  {
    calls := [];
    var option := GetUserByName(db.users, username);
    if option.None? {
      return Unauthorized, [];
    }
    var user := option.value;
    if user.status != Approved || !user.permissions.login {
      return Unauthorized, [];
    }
    var generated := GenerateOtp(db, user.id, code, otpId, expiration, now, insertFails);
    if generated.None? {
      return ServerError, [];
    }
    calls := [SendLogin(user.username, generated.value)];
    if !reddit(SendLogin(user.username, generated.value)) {
      return ServerError, calls;
    }
    r := Ok(true);
  }

  /** `one_time_password`: redeem a code for a token. The submitted username and
      the stored expiration play no part. An unknown code, or an OTP whose owner
      is missing or fails the gate, is refused and the OTP stays; otherwise that
      one OTP row is deleted before the token is created. */
  method OneTimePassword(db: Database, username: string, code: string, tokenId: int, token: string, now: int,
                         deleteFails: bool, insertFails: bool)
    returns (r: Response<string>)
    requires db.Valid()
    modifies db
    ensures db.Valid()
    ensures db.users == old(db.users)
    ensures r.Ok? || r.Unauthorized? || r.ServerError? || r.Panic?
    ensures r.Unauthorized? <==>
      (var o := GetOpt(old(db.otps), code);
       o.None? || GetUserById(db.users, o.value.user).None? || !CanLogIn(GetUserById(db.users, o.value.user).value))
    ensures r.ServerError? <==> !r.Unauthorized? && deleteFails
    ensures !r.Unauthorized? && !r.ServerError? ==>
      r == if insertFails || (exists x :: x in old(db.authTokens) && x.id == tokenId) then Panic else Ok(token)
    ensures r.Unauthorized? || r.ServerError? ==> db.otps == old(db.otps) && db.authTokens == old(db.authTokens)
    ensures r.Ok? || r.Panic? ==>
      var o := GetOpt(old(db.otps), code).value;
      db.otps == WithoutOtp(old(db.otps), o.id) &&
      db.authTokens ==
        if r.Ok? then old(db.authTokens) + [AuthToken(tokenId, GetUserById(db.users, o.user).value.id, token, now)]
        else old(db.authTokens)
    ensures forall x :: x in old(db.otps) && x.password != code ==> x in db.otps
    ensures r.Ok? && CodeUnique(old(db.otps), code) ==> GetOpt(db.otps, code).None?
  {
    var option := GetOpt(db.otps, code);
    if option.None? {
      return Unauthorized;
    }
    var otp := option.value;
    var owner := GetUserById(db.users, otp.user);
    if owner.None? {
      return Unauthorized;
    }
    var user := owner.value;
    if user.status != Approved || !user.permissions.login {
      return Unauthorized;
    }
    var w := db.DeleteOtp(otp.id, deleteFails);
    if w != Done {
      return ServerError;
    }
    assert db.otps == WithoutOtp(old(db.otps), otp.id) && db.authTokens == old(db.authTokens);
    if CodeUnique(old(db.otps), code) {
      DeletedCodeIsGone(old(db.otps), code);
    }
    ghost var remaining := db.otps;
    r := CreateToken(db, user, tokenId, token, now, insertFails);
    assert db.otps == remaining;
  }

  /** A code whose row is the only one carrying it is redeemed at most once. */
  method RedeemTwice(db: Database, code: string, first: (int, string), second: (int, string), now: int)
    returns (r1: Response<string>, r2: Response<string>)
    requires db.Valid() && CodeUnique(db.otps, code)
    modifies db
    ensures r1.Ok? ==> r2 == Unauthorized
  {
    r1 := OneTimePassword(db, "", code, first.0, first.1, now, false, false);
    r2 := OneTimePassword(db, "", code, second.0, second.1, now, false, false);
  }
}
