/** The table operations of `src/user/action.rs`.

    A table is the sequence of its rows in load order. A query is a pure
    function of the tables: a `filter` keeps the matching rows in order and
    `first` takes the first of them. The writes are methods of `Database`, the
    one object that owns the three tables; each takes a `fault` oracle that
    says whether the store rejects the statement.
 */
module Actions {
  import opened Models

  /** `filter(..).load()`: the rows `keep` accepts, in table order. */
  function Filter<T(!new)>(s: seq<T>, keep: T -> bool): (r: seq<T>)
    ensures |r| <= |s|
    ensures forall x :: x in r <==> x in s && keep(x)
  {
    if |s| == 0 then []
    else (if keep(s[0]) then [s[0]] else []) + Filter(s[1..], keep)
  }

  /** `.first()`: the first row of a result, if there is one. */
  function First<T>(s: seq<T>): Option<T> {
    if |s| == 0 then None else Some(s[0])
  }

  /** A filter over two tables put end to end is the two filters put end to end. */
  lemma {:induction false} FilterAppend<T(!new)>(a: seq<T>, b: seq<T>, keep: T -> bool)
    ensures Filter(a + b, keep) == Filter(a, keep) + Filter(b, keep)
  {
    if |a| == 0 {
      assert a + b == b;
    } else {
      assert (a + b)[1..] == a[1..] + b;
      FilterAppend(a[1..], b, keep);
    }
  }

  /** Filtering a table whose rows have pairwise different keys keeps them pairwise different. */
  lemma {:induction false} FilterKeepsDistinct<T(!new)>(s: seq<T>, keep: T -> bool, key: T -> int)
    requires forall i, j :: 0 <= i < j < |s| ==> key(s[i]) != key(s[j])
    ensures forall i, j :: 0 <= i < j < |Filter(s, keep)| ==> key(Filter(s, keep)[i]) != key(Filter(s, keep)[j])
  {
    if |s| > 0 {
      var rest := Filter(s[1..], keep);
      FilterKeepsDistinct(s[1..], keep, key);
      forall x | x in rest
        ensures key(x) != key(s[0])
      {
        var k :| 0 <= k < |s[1..]| && s[1..][k] == x;
        assert x == s[k + 1];
      }
      var r := Filter(s, keep);
      assert r == (if keep(s[0]) then [s[0]] else []) + rest;
      forall i, j | 0 <= i < j < |r|
        ensures key(r[i]) != key(r[j])
      {
        if keep(s[0]) {
          assert r[j] == rest[j - 1] && rest[j - 1] in rest;
          if i > 0 {
            assert r[i] == rest[i - 1];
            assert key(rest[i - 1]) != key(rest[j - 1]);
          } else {
            assert r[i] == s[0];
          }
        } else {
          assert r[i] == rest[i] && r[j] == rest[j];
        }
      }
    }
  }

  // Primary keys: no two rows of a table share an id.

  predicate UserIdsUnique(users: seq<User>) {
    forall i, j :: 0 <= i < j < |users| ==> users[i].id != users[j].id
  }

  predicate TokenIdsUnique(tokens: seq<AuthToken>) {
    forall i, j :: 0 <= i < j < |tokens| ==> tokens[i].id != tokens[j].id
  }

  predicate OtpIdsUnique(otps: seq<Otp>) {
    forall i, j :: 0 <= i < j < |otps| ==> otps[i].id != otps[j].id
  }

  /** `get_user_by_name`. */
  function GetUserByName(users: seq<User>, name: string): (r: Option<User>)
    ensures r.Some? ==> r.value in users && r.value.username == name
    ensures r.None? <==> forall u :: u in users ==> u.username != name
  {
    First(Filter(users, (u: User) => u.username == name))
  }

  /** `get_user_by_id`. */
  function GetUserById(users: seq<User>, id: int): (r: Option<User>)
    ensures r.Some? ==> r.value in users && r.value.id == id
    ensures r.None? <==> forall u :: u in users ==> u.id != id
  {
    First(Filter(users, (u: User) => u.id == id))
  }

  /** Under the primary key, looking a stored user up by its id finds exactly that user. */
  lemma GetUserByIdFindsRow(users: seq<User>, u: User)
    requires UserIdsUnique(users) && u in users
    ensures GetUserById(users, u.id) == Some(u)
  {
    var i :| 0 <= i < |users| && users[i] == u;
    var found := GetUserById(users, u.id).value;
    var j :| 0 <= j < |users| && users[j] == found;
    assert users[i].id == users[j].id;
  }

  /** `get_found_users`: the pending registrations, in load order. */
  function GetFoundUsers(users: seq<User>): (r: seq<User>)
    ensures forall u :: u in r <==> u in users && u.status == Found
  {
    Filter(users, (u: User) => u.status == Found)
  }

  /** `get_auth_token`. */
  function GetAuthToken(tokens: seq<AuthToken>, value: string): (r: Option<AuthToken>)
    ensures r.Some? ==> r.value in tokens && r.value.token == value
    ensures r.None? <==> forall t :: t in tokens ==> t.token != value
  {
    First(Filter(tokens, (t: AuthToken) => t.token == value))
  }

  /** The answer of one read: the rows, or the store's error passed on by `?`. */
  datatype Read<+T> = Rows(rows: T) | ReadError

  /** `get_user_from_auth_token`: the token lookup, then the lookup of its owner.
      Each read may fail; the owner is not read when no token matches. */
  function GetUserFromAuthToken(
    tokens: seq<AuthToken>, users: seq<User>, value: string,
    tokenReadFails: bool, userReadFails: bool): (r: Read<Option<User>>)
    ensures r.ReadError? <==> tokenReadFails || (GetAuthToken(tokens, value).Some? && userReadFails)
    ensures r == Rows(None) <==>
      !tokenReadFails &&
      (GetAuthToken(tokens, value).None? ||
       (!userReadFails && forall u :: u in users ==> u.id != GetAuthToken(tokens, value).value.user))
    ensures r.Rows? && r.rows.Some? ==>
      r.rows.value in users && exists t :: t in tokens && t.token == value && t.user == r.rows.value.id
  {
    if tokenReadFails then ReadError
    else match GetAuthToken(tokens, value)
      case None => Rows(None)
      case Some(t) => if userReadFails then ReadError else Rows(GetUserById(users, t.user))
  }

  /** A token appended with a value no earlier token has resolves to its owner. */
  lemma IssuedTokenResolves(tokens: seq<AuthToken>, users: seq<User>, t: AuthToken, owner: User)
    requires GetAuthToken(tokens, t.token).None?
    requires UserIdsUnique(users) && owner in users && t.user == owner.id
    ensures GetUserFromAuthToken(tokens + [t], users, t.token, false, false) == Rows(Some(owner))
  {
    var keep := (x: AuthToken) => x.token == t.token;
    FilterAppend(tokens, [t], keep);
    assert Filter([t], keep) == [t];
    assert GetAuthToken(tokens + [t], t.token) == Some(t);
    GetUserByIdFindsRow(users, owner);
  }

  /** `get_opt`. */
  function GetOpt(otps: seq<Otp>, value: string): (r: Option<Otp>)
    ensures r.Some? ==> r.value in otps && r.value.password == value
    ensures r.None? <==> forall o :: o in otps ==> o.password != value
  {
    First(Filter(otps, (o: Otp) => o.password == value))
  }

  /** `select(id)`: the id column of some OTP rows. */
  function OtpIds(otps: seq<Otp>): (r: seq<int>)
    ensures |r| == |otps|
    ensures forall k :: 0 <= k < |r| ==> r[k] == otps[k].id
  {
    seq(|otps|, k requires 0 <= k < |otps| => otps[k].id)
  }

  /** `opt_exist`: whether the id column of the matching rows is non-empty. */
  function OptExist(otps: seq<Otp>, value: string): (r: bool)
    ensures r <==> exists o :: o in otps && o.password == value
  {
    var matching := Filter(otps, (o: Otp) => o.password == value);
    assert |matching| > 0 ==> matching[0] in matching;
    First(OtpIds(matching)).Some?
  }

  /** `opt_exist` and `get_opt` agree on every code. */
  lemma OptExistIffGetOpt(otps: seq<Otp>, value: string)
    ensures OptExist(otps, value) <==> GetOpt(otps, value).Some?
  {
  }

  /** At most one OTP row carries `code`. */
  ghost predicate CodeUnique(otps: seq<Otp>, code: string) {
    forall x, y :: x in otps && y in otps && x.password == code && y.password == code ==> x.id == y.id
  }

  /** The rows that survive `delete ... filter(id.eq(id))`. */
  function WithoutOtp(otps: seq<Otp>, id: int): (r: seq<Otp>)
    ensures forall o :: o in r <==> o in otps && o.id != id
    ensures OtpIdsUnique(otps) ==> OtpIdsUnique(r)
  {
    var keep := (o: Otp) => o.id != id;
    var r := Filter(otps, keep);
    if OtpIdsUnique(otps) then
      var key := (o: Otp) => o.id;
      FilterKeepsDistinct(otps, keep, key);
      assert forall i, j :: 0 <= i < j < |r| ==> key(r[i]) != key(r[j]);
      r
    else r
  }

  /** The user rows that survive `delete ... filter(id.eq(id))`, in their order. */
  function WithoutUser(users: seq<User>, id: int): (r: seq<User>)
    ensures forall u :: u in r <==> u in users && u.id != id
    ensures UserIdsUnique(users) ==> UserIdsUnique(r)
  {
    var keep := (u: User) => u.id != id;
    var r := Filter(users, keep);
    if UserIdsUnique(users) then
      var key := (u: User) => u.id;
      FilterKeepsDistinct(users, keep, key);
      assert forall i, j :: 0 <= i < j < |r| ==> key(r[i]) != key(r[j]);
      r
    else r
  }

  /** Deleting the row a code finds, when no other row has the code, leaves the code unknown. */
  lemma DeletedCodeIsGone(otps: seq<Otp>, code: string)
    requires CodeUnique(otps, code) && GetOpt(otps, code).Some?
    ensures GetOpt(WithoutOtp(otps, GetOpt(otps, code).value.id), code).None?
  {
  }

  /** Whether a store write happened, was refused (`?` passes the error on),
      or made the handler panic (`unwrap` on the error). */
  datatype Written = Done | Failed | Panicked

  /** Rewriting rows in place without touching ids keeps the primary key. */
  lemma RewriteKeepsIdsUnique(before: seq<User>, after: seq<User>)
    requires UserIdsUnique(before)
    requires |after| == |before|
    requires forall k :: 0 <= k < |after| ==> after[k].id == before[k].id
    ensures UserIdsUnique(after)
  {
  }

  /** The columns `update_user` copies from the given user onto a stored row. */
  function UpdateUserRow(row: User, from: User): (r: User)
    ensures r.password == from.password && r.status == from.status
    ensures r.statusChanged == from.statusChanged && r.reviewer == from.reviewer
    ensures r.properties == from.properties && r.discoverer == from.discoverer
    ensures r.id == row.id && r.username == row.username && r.permissions == row.permissions
    ensures r.created == row.created && r.discordId == row.discordId && r.title == row.title
  {
    row.(password := from.password, status := from.status, statusChanged := from.statusChanged,
         reviewer := from.reviewer, properties := from.properties, discoverer := from.discoverer)
  }

  /** The store behind one database connection. */
  class Database {
    var users: seq<User>
    var authTokens: seq<AuthToken>
    var otps: seq<Otp>

    ghost predicate Valid()
      reads this
    {
      UserIdsUnique(users) && TokenIdsUnique(authTokens) && OtpIdsUnique(otps)
    }

    constructor ()
      ensures Valid() && users == [] && authTokens == [] && otps == []
    {
      users, authTokens, otps := [], [], [];
    }

    /** `add_new_user`: any failed insert, a taken id among them, panics in `unwrap`. */
    method AddNewUser(user: User, fault: bool) returns (w: Written)
      requires Valid()
      modifies this
      ensures Valid()
      ensures w == (if fault || GetUserById(old(users), user.id).Some? then Panicked else Done)
      ensures users == (if w == Done then old(users) + [user] else old(users))
      ensures authTokens == old(authTokens) && otps == old(otps)
    {
      if fault || GetUserById(users, user.id).Some? {
        return Panicked;
      }
      users := users + [user];
      w := Done;
    }

    /** `delete_user`: removes every row with the id; a failure panics in `unwrap`. */
    method DeleteUser(id: int, fault: bool) returns (w: Written)
      requires Valid()
      modifies this
      ensures Valid()
      ensures w == (if fault then Panicked else Done)
      ensures users == (if w == Done then WithoutUser(old(users), id) else old(users))
      ensures authTokens == old(authTokens) && otps == old(otps)
    {
      if fault {
        return Panicked;
      }
      users := WithoutUser(users, id);
      w := Done;
    }

    /** `update_user`: copies password, status, status_changed, reviewer,
        properties and discoverer onto the rows with the user's id; a failure
        panics in `unwrap`. */
    method UpdateUser(user: User, fault: bool) returns (w: Written)
      requires Valid()
      modifies this
      ensures Valid()
      ensures w == (if fault then Panicked else Done)
      ensures |users| == |old(users)|
      ensures forall k :: 0 <= k < |users| ==>
        users[k] == if w == Done && old(users)[k].id == user.id then UpdateUserRow(old(users)[k], user) else old(users)[k]
      ensures authTokens == old(authTokens) && otps == old(otps)
    {
      if fault {
        return Panicked;
      }
      var before := users;
      users := seq(|before|, k requires 0 <= k < |before| =>
        if before[k].id == user.id then UpdateUserRow(before[k], user) else before[k]);
      RewriteKeepsIdsUnique(before, users);
      w := Done;
    }

    /** `update_properties`: sets the properties column of the rows with the id; `?` passes a failure on. */
    method UpdateProperties(id: int, props: Properties, fault: bool) returns (w: Written)
      requires Valid()
      modifies this
      ensures Valid()
      ensures w == (if fault then Failed else Done)
      ensures |users| == |old(users)|
      ensures forall k :: 0 <= k < |users| ==>
        users[k] == if w == Done && old(users)[k].id == id then old(users)[k].(properties := props) else old(users)[k]
      ensures authTokens == old(authTokens) && otps == old(otps)
    {
      if fault {
        return Failed;
      }
      var before := users;
      users := seq(|before|, k requires 0 <= k < |before| =>
        if before[k].id == id then before[k].(properties := props) else before[k]);
      RewriteKeepsIdsUnique(before, users);
      w := Done;
    }

    /** `update_title`: sets the title column of the rows with the id; `?` passes a failure on. */
    method UpdateTitle(id: int, title: string, fault: bool) returns (w: Written)
      requires Valid()
      modifies this
      ensures Valid()
      ensures w == (if fault then Failed else Done)
      ensures |users| == |old(users)|
      ensures forall k :: 0 <= k < |users| ==>
        users[k] == if w == Done && old(users)[k].id == id then old(users)[k].(title := title) else old(users)[k]
      ensures authTokens == old(authTokens) && otps == old(otps)
    {
      if fault {
        return Failed;
      }
      var before := users;
      users := seq(|before|, k requires 0 <= k < |before| =>
        if before[k].id == id then before[k].(title := title) else before[k]);
      RewriteKeepsIdsUnique(before, users);
      w := Done;
    }

    /** `update_password`: sets the password column of the rows with the id; `?` passes a failure on. */
    method UpdatePassword(id: int, password: string, fault: bool) returns (w: Written)
      requires Valid()
      modifies this
      ensures Valid()
      ensures w == (if fault then Failed else Done)
      ensures |users| == |old(users)|
      ensures forall k :: 0 <= k < |users| ==>
        users[k] == if w == Done && old(users)[k].id == id then old(users)[k].(password := password) else old(users)[k]
      ensures authTokens == old(authTokens) && otps == old(otps)
    {
      if fault {
        return Failed;
      }
      var before := users;
      users := seq(|before|, k requires 0 <= k < |before| =>
        if before[k].id == id then before[k].(password := password) else before[k]);
      RewriteKeepsIdsUnique(before, users);
      w := Done;
    }

    /** `update_status` of the moderator actions: writes status, reviewer and
        status_changed of the rows with the id; `?` passes a failure on. */
    method UpdateStatus(id: int, status: Status, reviewer: string, changed: int, fault: bool) returns (w: Written)
      requires Valid()
      modifies this
      ensures Valid()
      ensures w == (if fault then Failed else Done)
      ensures |users| == |old(users)|
      ensures forall k :: 0 <= k < |users| ==>
        users[k] == if w == Done && old(users)[k].id == id
                    then old(users)[k].(status := status, reviewer := reviewer, statusChanged := changed)
                    else old(users)[k]
      ensures authTokens == old(authTokens) && otps == old(otps)
    {
      if fault {
        return Failed;
      }
      var before := users;
      users := seq(|before|, k requires 0 <= k < |before| =>
        if before[k].id == id then before[k].(status := status, reviewer := reviewer, statusChanged := changed) else before[k]);
      RewriteKeepsIdsUnique(before, users);
      w := Done;
    }

    /** `add_new_auth_token`: any failed insert, a taken id among them, panics in `unwrap`. */
    method AddNewAuthToken(t: AuthToken, fault: bool) returns (w: Written)
      requires Valid()
      modifies this
      ensures Valid()
      ensures w == (if fault || (exists x :: x in old(authTokens) && x.id == t.id) then Panicked else Done)
      ensures authTokens == (if w == Done then old(authTokens) + [t] else old(authTokens))
      ensures users == old(users) && otps == old(otps)
    {
      if fault || (exists x :: x in authTokens && x.id == t.id) {
        return Panicked;
      }
      authTokens := authTokens + [t];
      w := Done;
    }

    /** `add_opt`: a failed insert, a taken id among them, is passed on by `?`. */
    method AddOpt(o: Otp, fault: bool) returns (w: Written)
      requires Valid()
      modifies this
      ensures Valid()
      ensures w == (if fault || (exists x :: x in old(otps) && x.id == o.id) then Failed else Done)
      ensures otps == (if w == Done then old(otps) + [o] else old(otps))
      ensures users == old(users) && authTokens == old(authTokens)
    {
      if fault || (exists x :: x in otps && x.id == o.id) {
        return Failed;
      }
      otps := otps + [o];
      w := Done;
    }

    /** `delete_otp`: removes the rows with the id and no other; `?` passes a failure on. */
    method DeleteOtp(id: int, fault: bool) returns (w: Written)
      requires Valid()
      modifies this
      ensures Valid()
      ensures w == (if fault then Failed else Done)
      ensures otps == (if w == Done then WithoutOtp(old(otps), id) else old(otps))
      ensures users == old(users) && authTokens == old(authTokens)
    {
      if fault {
        return Failed;
      }
      otps := WithoutOtp(otps, id);
      w := Done;
    }
  }
}
