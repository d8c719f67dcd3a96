/** The moderator handlers of `src/moderator/controllers.rs`.

    `review_user` hands out a pending registration for review and records its
    id in the shared set of users being worked on; `review_user_update` moves a
    user to a new status behind the approval permission and, for Approved, an
    external approval call; `moderator_update_properties` edits one profile
    field. The caller is the user the request's auth header resolves to.
 */
module Moderator {
  import opened Models
  import opened Actions

  predicate IsModerator(caller: Option<User>) {
    caller.Some? && caller.value.permissions.moderator
  }

  predicate MayApprove(caller: Option<User>) {
    caller.Some? && caller.value.permissions.approveUser
  }

  /** `user_page`: a moderator may look any user up by name. */
  function UserPage(users: seq<User>, caller: Option<User>, name: string): (r: Response<Option<User>>)
    ensures r.Unauthorized? <==> !IsModerator(caller)
    ensures r.Ok? <==> IsModerator(caller)
    ensures r.Ok? ==> (r.data.Some? ==> r.data.value in users && r.data.value.username == name)
    ensures r.Ok? ==> (r.data.None? <==> forall u :: u in users ==> u.username != name)
  {
    if caller.None? then Unauthorized
    else if !caller.value.permissions.moderator then Unauthorized
    else Ok(GetUserByName(users, name))
  }

  // ---------------------------------------------------------------------------
  // `result.sort_by_key(|x| x.created)`: a stable sort on the creation time.

  ghost predicate SortedByCreated(s: seq<User>) {
    forall i, j :: 0 <= i < j < |s| ==> s[i].created <= s[j].created
  }

  /** The rows of `s` created at time `c`, in their order in `s`. */
  function Tied(s: seq<User>, c: int): seq<User> {
    if |s| == 0 then []
    else (if s[0].created == c then [s[0]] else []) + Tied(s[1..], c)
  }

  /** Puts `x` in front of the first row created no earlier than it. */
  function InsertByCreated(x: User, sorted: seq<User>): (r: seq<User>)
    ensures multiset(r) == multiset(sorted) + multiset{x}
  {
    if |sorted| == 0 then [x]
    else if x.created <= sorted[0].created then [x] + sorted
    else
      assert sorted == [sorted[0]] + sorted[1..];
      [sorted[0]] + InsertByCreated(x, sorted[1..])
  }

  lemma InsertMembers(x: User, t: seq<User>, y: User)
    requires y in InsertByCreated(x, t)
    ensures y == x || y in t
  {
    assert y in multiset(InsertByCreated(x, t));
  }

  lemma {:induction false} InsertKeepsSorted(x: User, t: seq<User>)
    requires SortedByCreated(t)
    ensures SortedByCreated(InsertByCreated(x, t))
  {
    if |t| > 0 && x.created > t[0].created {
      var rest := InsertByCreated(x, t[1..]);
      InsertKeepsSorted(x, t[1..]);
      assert forall y :: y in rest ==> t[0].created <= y.created by {
        forall y | y in rest
          ensures t[0].created <= y.created
        {
          InsertMembers(x, t[1..], y);
        }
      }
      assert InsertByCreated(x, t) == [t[0]] + rest;
    }
  }

  /** Insertion sort on `created`; each row goes in front of the later rows it ties with. */
  function SortByCreated(s: seq<User>): (r: seq<User>)
    ensures multiset(r) == multiset(s)
    ensures SortedByCreated(r)
  {
    if |s| == 0 then []
    else
      var rest := SortByCreated(s[1..]);
      InsertKeepsSorted(s[0], rest);
      assert s == [s[0]] + s[1..];
      InsertByCreated(s[0], rest)
  }

  lemma {:induction false} TiedAppend(a: seq<User>, b: seq<User>, c: int)
    ensures Tied(a + b, c) == Tied(a, c) + Tied(b, c)
  {
    if |a| > 0 {
      assert (a + b)[1..] == a[1..] + b;
      TiedAppend(a[1..], b, c);
    } else {
      assert a + b == b;
    }
  }

  lemma {:induction false} InsertKeepsTies(x: User, t: seq<User>, c: int)
    ensures Tied(InsertByCreated(x, t), c) == (if x.created == c then [x] else []) + Tied(t, c)
  {
    if |t| == 0 || x.created <= t[0].created {
      assert InsertByCreated(x, t) == [x] + t;
      TiedAppend([x], t, c);
    } else {
      InsertKeepsTies(x, t[1..], c);
      InsertPastHeadKeepsTies(x, t, c);
    }
  }

  /** The step of `InsertKeepsTies` where `x` goes past the head of `t`. */
  lemma InsertPastHeadKeepsTies(x: User, t: seq<User>, c: int)
    requires |t| > 0 && x.created > t[0].created
    requires Tied(InsertByCreated(x, t[1..]), c) == (if x.created == c then [x] else []) + Tied(t[1..], c)
    ensures Tied(InsertByCreated(x, t), c) == (if x.created == c then [x] else []) + Tied(t, c)
  {
    var rest := InsertByCreated(x, t[1..]);
    assert InsertByCreated(x, t) == [t[0]] + rest;
    assert t == [t[0]] + t[1..];
    TiedAppend([t[0]], rest, c);
    TiedAppend([t[0]], t[1..], c);
    if x.created == c {
      assert Tied([t[0]], c) == [];
    }
  }

  /** The sort keeps rows with equal creation times in load order: there is no
      secondary key. */
  lemma {:induction false} SortIsStable(s: seq<User>, c: int)
    ensures Tied(SortByCreated(s), c) == Tied(s, c)
  {
    if |s| > 0 {
      InsertKeepsTies(s[0], SortByCreated(s[1..]), c);
      SortIsStable(s[1..], c);
    }
  }

  // ---------------------------------------------------------------------------
  // The `next` scan.

  /** How a scan over the sorted candidates ends. */
  datatype Scan = Picked(user: User) | Exhausted | RemovePanic

  /** The rows at positions 0, 2, 4, ... */
  function Evens(s: seq<User>): (e: seq<User>)
    ensures |e| == (|s| + 1) / 2
    ensures forall k :: 0 <= k < |e| ==> e[k] == s[2 * k]
  {
    if |s| <= 1 then s else [s[0]] + Evens(s[2..])
  }

  /** The position of the first row whose id is not claimed. */
  function FirstUnclaimed(s: seq<User>, claimed: set<int>): (r: Option<nat>)
    ensures r.Some? ==> r.value < |s| && s[r.value].id !in claimed
    ensures r.Some? ==> forall j :: 0 <= j < r.value ==> s[j].id in claimed
    ensures r.None? ==> forall j :: 0 <= j < |s| ==> s[j].id in claimed
  {
    if |s| == 0 then None
    else if s[0].id !in claimed then Some(0)
    else match FirstUnclaimed(s[1..], claimed)
      case None => None
      case Some(k) => Some(k + 1)
  }

  /** What the `next` scan does: it looks only at the even positions; when all of
      those are claimed it panics if there are two candidates or more. */
  function NextAsWritten(sorted: seq<User>, claimed: set<int>): Scan {
    var evens := Evens(sorted);
    match FirstUnclaimed(evens, claimed)
    case Some(k) => Picked(evens[k])
    case None => if |sorted| >= 2 then RemovePanic else Exhausted
  }

  /** The oldest-first scan the handler is meant to perform. */
  function NextFirstUnclaimed(sorted: seq<User>, claimed: set<int>): Scan {
    match FirstUnclaimed(sorted, claimed)
    case Some(k) => Picked(sorted[k])
    case None => Exhausted
  }

  /** The first unclaimed row is at `i` when row `i` is unclaimed and every earlier row is claimed. */
  lemma {:induction false} FirstUnclaimedAt(s: seq<User>, claimed: set<int>, i: nat)
    requires i < |s| && s[i].id !in claimed
    requires forall k :: 0 <= k < i ==> s[k].id in claimed
    ensures FirstUnclaimed(s, claimed) == Some(i)
  {
    if i > 0 {
      assert s[0].id in claimed;
      assert forall k :: 0 <= k < i - 1 ==> s[1..][k] == s[k + 1];
      FirstUnclaimedAt(s[1..], claimed, i - 1);
    }
  }

  /** The loop of `review_user`: `0..result.len()` is fixed before the loop while
      `result.remove(i)` shrinks the vector, so position `i` of the vector holds
      the candidate at sorted position `2 * i`. */
  method ScanAsWritten(sorted: seq<User>, claimed: set<int>) returns (r: Scan)
    ensures r == NextAsWritten(sorted, claimed)
  {
    ghost var evens := Evens(sorted);
    var result := sorted;
    var n := |result|;
    var v: Option<User> := None;
    var i := 0;
    while i < n
      invariant 0 <= i <= n && |result| == n - i
      invariant i <= |evens|
      invariant i <= |result| ==> result[i..] == sorted[2 * i..]
      invariant v.None?
      invariant forall k :: 0 <= k < i ==> evens[k].id in claimed
    {
      if i >= |result| {
        // `Vec::remove` with an index past the end panics.
        assert i == |evens|;
        return RemovePanic;
      }
      var user := result[i];
      assert user == sorted[2 * i] == evens[i] by {
        assert result[i..][0] == sorted[2 * i..][0];
      }
      ghost var before := result;
      result := result[..i] + result[i + 1..];
      if user.id !in claimed {
        v := Some(user);
        FirstUnclaimedAt(evens, claimed, i);
        break;
      }
      if i + 1 <= |result| {
        assert result[i + 1..] == before[i + 2..];
        assert before[i + 2..] == before[i..][2..];
      }
      i := i + 1;
    }
    if v.None? {
      return Exhausted;
    }
    return Picked(v.value);
  }

  /** The oldest-first scan: a loop over the sorted candidates without removals. */
  method ScanFirstUnclaimed(sorted: seq<User>, claimed: set<int>) returns (r: Scan)
    ensures r == NextFirstUnclaimed(sorted, claimed)
  {
    for i := 0 to |sorted|
      invariant forall k :: 0 <= k < i ==> sorted[k].id in claimed
    {
      if sorted[i].id !in claimed {
        return Picked(sorted[i]);
      }
    }
    return Exhausted;
  }

  /** The scan as written answers with a candidate only from an even position,
      and then with the first unclaimed one among those. */
  lemma AsWrittenPicksEvenPosition(sorted: seq<User>, claimed: set<int>, u: User)
    requires NextAsWritten(sorted, claimed) == Picked(u)
    ensures u.id !in claimed
    ensures exists k :: 0 <= k < |Evens(sorted)| && Evens(sorted)[k] == u &&
                        (forall j :: 0 <= j < k ==> Evens(sorted)[j].id in claimed)
  {
    var k := FirstUnclaimed(Evens(sorted), claimed).value;
    assert Evens(sorted)[k] == u;
  }

  /** When it answers with nobody, the scan as written panics exactly when there
      are two candidates or more. */
  lemma AsWrittenNobodyLeft(sorted: seq<User>, claimed: set<int>)
    requires forall k :: 0 <= k < |Evens(sorted)| ==> Evens(sorted)[k].id in claimed
    ensures NextAsWritten(sorted, claimed) == if |sorted| >= 2 then RemovePanic else Exhausted
  {
  }

  /** An unclaimed candidate at an odd position is passed over, and if every even
      position is claimed the scan panics while candidates remain. */
  lemma AsWrittenSkipsOddPositions(sorted: seq<User>, claimed: set<int>, j: nat)
    requires j < |sorted| && sorted[j].id !in claimed
    requires forall k :: 0 <= k < |Evens(sorted)| ==> Evens(sorted)[k].id in claimed
    ensures |sorted| >= 2
    ensures NextAsWritten(sorted, claimed) == RemovePanic
    ensures NextFirstUnclaimed(sorted, claimed).Picked?
  {
    AsWrittenNobodyLeft(sorted, claimed);
  }

  /** A pending user created at time `created`. */
  function Pending(id: int, created: int): User {
    User(id, 0, "", "", Permissions(false, false, false), Found, 0, "", "", Properties("", ""), created, "")
  }

  /** Three candidates, the oldest claimed: the scan as written hands out the
      newest one, the oldest-first scan the middle one. With only the first two,
      the scan as written panics. */
  lemma AsWrittenPassesOverOlderCandidate()
    ensures NextAsWritten([Pending(1, 1), Pending(2, 2), Pending(3, 3)], {1}) == Picked(Pending(3, 3))
    ensures NextFirstUnclaimed([Pending(1, 1), Pending(2, 2), Pending(3, 3)], {1}) == Picked(Pending(2, 2))
    ensures NextAsWritten([Pending(1, 1), Pending(2, 2)], {1}) == RemovePanic
  {
    var three := [Pending(1, 1), Pending(2, 2), Pending(3, 3)];
    assert Evens(three) == [Pending(1, 1), Pending(3, 3)];
    var two := [Pending(1, 1), Pending(2, 2)];
    assert Evens(two) == [Pending(1, 1)];
  }

  /** The oldest-first scan hands out the oldest unclaimed candidate, and finds
      nobody only when every candidate is claimed. */
  lemma FirstUnclaimedIsOldest(sorted: seq<User>, claimed: set<int>)
    requires SortedByCreated(sorted)
    ensures NextFirstUnclaimed(sorted, claimed).Exhausted? <==> forall v :: v in sorted ==> v.id in claimed
    ensures NextFirstUnclaimed(sorted, claimed).Picked? ==>
      var u := NextFirstUnclaimed(sorted, claimed).user;
      u in sorted && u.id !in claimed &&
      forall v :: v in sorted && v.id !in claimed ==> u.created <= v.created
  {
    match FirstUnclaimed(sorted, claimed)
    case None =>
    case Some(k) =>
      forall v | v in sorted && v.id !in claimed
        ensures sorted[k].created <= v.created
      {
        var j :| 0 <= j < |sorted| && sorted[j] == v;
        assert k <= j;
      }
  }

  // ---------------------------------------------------------------------------
  // `review_user`.

  /** The shared `RN` state: the ids of the users some moderator is reviewing.
      It lives in memory only, so a restart empties it. */
  class ReviewRoom {
    var usersBeingWorkedOn: set<int>

    constructor ()
      ensures usersBeingWorkedOn == {}
    {
      usersBeingWorkedOn := {};
    }

    /** `RN::add_id`. */
    method AddId(id: int)
      modifies this
      ensures usersBeingWorkedOn == old(usersBeingWorkedOn) + {id}
    {
      usersBeingWorkedOn := usersBeingWorkedOn + {id};
    }
  }

  /** The user `review_user` settles on before claiming: for `next` the scan of
      the sorted pending users, otherwise the user with that name. */
  function ReviewPick(users: seq<User>, target: string, claimed: set<int>): Scan {
    if target == "next" then NextAsWritten(SortByCreated(GetFoundUsers(users)), claimed)
    else match GetUserByName(users, target)
      case None => Exhausted
      case Some(u) => Picked(u)
  }

  /** `next` only hands out a pending user nobody has claimed. */
  lemma NextPickIsPendingAndUnclaimed(users: seq<User>, claimed: set<int>, u: User)
    requires ReviewPick(users, "next", claimed) == Picked(u)
    ensures u in users && u.status == Found && u.id !in claimed
  {
    var sorted := SortByCreated(GetFoundUsers(users));
    AsWrittenPicksEvenPosition(sorted, claimed, u);
    var k :| 0 <= k < |Evens(sorted)| && Evens(sorted)[k] == u;
    assert u in sorted;
    assert u in multiset(sorted);
  }

  /** Once claimed, a user is never handed out by `next` again, whatever else
      gets claimed meanwhile: no two reviews receive the same user. */
  lemma NextNeverRepeats(users: seq<User>, before: set<int>, after: set<int>, u: User)
    requires ReviewPick(users, "next", before) == Picked(u)
    requires before + {u.id} <= after
    ensures ReviewPick(users, "next", after) != Picked(u)
  {
    NextPickIsPendingAndUnclaimed(users, before, u);
    if ReviewPick(users, "next", after) == Picked(u) {
      NextPickIsPendingAndUnclaimed(users, after, u);
    }
  }

  /** A lookup by name does not consult the claims: it may hand out a user
      who is already being reviewed. */
  lemma NamedPickIgnoresClaims(users: seq<User>, target: string, claimed: set<int>)
    requires target != "next"
    ensures ReviewPick(users, target, claimed) == ReviewPick(users, target, {})
    ensures ReviewPick(users, target, claimed).Picked? <==> GetUserByName(users, target).Some?
  {
  }

  /** `review_user`. The answer's profile data comes from Reddit; `Ok(u)` stands
      for the profile of `u`. */
  method ReviewUser(db: Database, room: ReviewRoom, caller: Option<User>, target: string, reddit: RedditCall -> bool)
    returns (r: Response<User>, calls: seq<RedditCall>)
    modifies room
    ensures old(room.usersBeingWorkedOn) <= room.usersBeingWorkedOn
    ensures !MayApprove(caller) ==>
      r == Unauthorized && calls == [] && room.usersBeingWorkedOn == old(room.usersBeingWorkedOn)
    ensures MayApprove(caller) ==>
      match ReviewPick(db.users, target, old(room.usersBeingWorkedOn))
      case Exhausted =>
        r == NotFound && calls == [] && room.usersBeingWorkedOn == old(room.usersBeingWorkedOn)
      case RemovePanic =>
        r == Panic && calls == [] && room.usersBeingWorkedOn == old(room.usersBeingWorkedOn)
      case Picked(u) =>
        room.usersBeingWorkedOn == old(room.usersBeingWorkedOn) + {u.id} &&
        calls == [About(u.username)] + (if reddit(About(u.username)) then [Submissions(u.username)] else []) &&
        r == (if reddit(About(u.username)) && reddit(Submissions(u.username)) then Ok(u) else ServerError)
    ensures r.Ok? && target == "next" ==>
      r.data in db.users && r.data.status == Found && r.data.id !in old(room.usersBeingWorkedOn)
  {
    calls := [];
    if caller.None? {
      return Unauthorized, [];
    }
    if !caller.value.permissions.approveUser {
      return Unauthorized, [];
    }
    var pick: Scan;
    if target == "next" {
      var result := GetFoundUsers(db.users);
      result := SortByCreated(result);
      pick := ScanAsWritten(result, room.usersBeingWorkedOn);
    } else {
      var lookup := GetUserByName(db.users, target);
      if lookup.None? {
        return NotFound, [];
      }
      pick := Picked(lookup.value);
    }
    match pick {
      case Exhausted =>
        return NotFound, [];
      case RemovePanic =>
        return Panic, [];
      case Picked(u) =>
        if target == "next" {
          NextPickIsPendingAndUnclaimed(db.users, room.usersBeingWorkedOn, u);
        }
        room.AddId(u.id);
        calls := [About(u.username)];
        if !reddit(About(u.username)) {
          return ServerError, calls;
        }
        calls := calls + [Submissions(u.username)];
        if !reddit(Submissions(u.username)) {
          return ServerError, calls;
        }
        r := Ok(u);
    }
  }

  /** Two `next` reviews in a row, with no claim released between them, never
      receive the same user. */
  method TwoReviewsGetDifferentUsers(db: Database, room: ReviewRoom, first: Option<User>, second: Option<User>,
                                     reddit: RedditCall -> bool)
    returns (r1: Response<User>, r2: Response<User>)
    modifies room
    ensures r1.Ok? && r2.Ok? ==> r1.data.id != r2.data.id
  {
    var calls: seq<RedditCall>;
    r1, calls := ReviewUser(db, room, first, "next", reddit);
    r2, calls := ReviewUser(db, room, second, "next", reddit);
  }

  // ---------------------------------------------------------------------------
  // `review_user_update`.

  /** `review_user_update`. The checks run in order: the approval permission,
      the target's existence, the status text, and for Approved the external
      approval call, which is given the acting moderator's record. The status
      is written only when all of them pass. */
  method ReviewUserUpdate(db: Database, caller: Option<User>, target: string, status: string,
                          reddit: RedditCall -> bool, now: int, writeFails: bool)
    returns (r: Response<bool>, calls: seq<RedditCall>)
    requires db.Valid()
    modifies db
    ensures db.Valid()
    ensures db.authTokens == old(db.authTokens) && db.otps == old(db.otps)
    ensures !MayApprove(caller) ==> r == Unauthorized
    ensures MayApprove(caller) && GetUserByName(old(db.users), target).None? ==> r == NotFound
    ensures MayApprove(caller) && GetUserByName(old(db.users), target).Some? && ParseStatus(status).None? ==>
      r == BadRequest
    ensures calls ==
      if MayApprove(caller) && GetUserByName(old(db.users), target).Some? && ParseStatus(status) == Some(Approved)
      then [ApproveUser(caller.value)] else []
    ensures calls != [] && !reddit(calls[0]) ==> r == ServerError
    ensures (MayApprove(caller) && GetUserByName(old(db.users), target).Some? && ParseStatus(status).Some? &&
             (ParseStatus(status) == Some(Approved) ==> reddit(ApproveUser(caller.value))) && writeFails) ==>
      r == ServerError
    ensures r.Ok? <==>
      MayApprove(caller) && GetUserByName(old(db.users), target).Some? && ParseStatus(status).Some? &&
      (ParseStatus(status) == Some(Approved) ==> reddit(ApproveUser(caller.value))) && !writeFails
    ensures r.Ok? ==> r.data
    ensures !r.Ok? ==> db.users == old(db.users)
    ensures r.Ok? ==>
      var id := GetUserByName(old(db.users), target).value.id;
      var s := ParseStatus(status).value;
      |db.users| == |old(db.users)| &&
      forall k :: 0 <= k < |db.users| ==>
        db.users[k] == if old(db.users)[k].id == id
                       then old(db.users)[k].(status := s, reviewer := caller.value.username, statusChanged := now)
                       else old(db.users)[k]
  {
    calls := [];
    if caller.None? {
      return Unauthorized, [];
    }
    var user := caller.value;
    if !user.permissions.approveUser {
      return Unauthorized, [];
    }
    var option := GetUserByName(db.users, target);
    if option.None? {
      return NotFound, [];
    }
    var parsed := ParseStatus(status);
    if parsed.None? {
      return BadRequest, [];
    }
    var s := parsed.value;
    if s == Approved {
      calls := [ApproveUser(user)];
      if !reddit(ApproveUser(user)) {
        return ServerError, calls;
      }
    }
    var w := db.UpdateStatus(option.value.id, s, user.username, now, writeFails);
    if w != Done {
      return ServerError, calls;
    }
    r := Ok(true);
  }

  // ---------------------------------------------------------------------------
  // `moderator_update_properties`.

  /** `moderator_update_properties`: a moderator sets the avatar or the
      description of a user; any other key is refused before anything is written. */
  method ModeratorUpdateProperties(db: Database, caller: Option<User>, target: string, key: string, value: string,
                                   writeFails: bool)
    returns (r: Response<bool>)
    requires db.Valid()
    modifies db
    ensures db.Valid()
    ensures db.authTokens == old(db.authTokens) && db.otps == old(db.otps)
    ensures !IsModerator(caller) ==> r == Unauthorized
    ensures IsModerator(caller) && GetUserByName(old(db.users), target).None? ==> r == NotFound
    ensures IsModerator(caller) && GetUserByName(old(db.users), target).Some? && key != "avatar" && key != "description" ==>
      r == BadRequest
    ensures r.Ok? <==>
      IsModerator(caller) && GetUserByName(old(db.users), target).Some? &&
      (key == "avatar" || key == "description") && !writeFails
    ensures (IsModerator(caller) && GetUserByName(old(db.users), target).Some? &&
             (key == "avatar" || key == "description") && writeFails) ==>
      r == ServerError
    ensures r.Ok? ==> r.data
    ensures !r.Ok? ==> db.users == old(db.users)
    ensures r.Ok? ==>
      var u := GetUserByName(old(db.users), target).value;
      var props := if key == "avatar" then u.properties.(avatar := value) else u.properties.(description := value);
      |db.users| == |old(db.users)| &&
      forall k :: 0 <= k < |db.users| ==>
        db.users[k] == if old(db.users)[k].id == u.id then old(db.users)[k].(properties := props) else old(db.users)[k]
  {
    if caller.None? {
      return Unauthorized;
    }
    var moderator := caller.value;
    if !moderator.permissions.moderator {
      return Unauthorized;
    }
    var option := GetUserByName(db.users, target);
    if option.None? {
      return NotFound;
    }
    var user := option.value;
    if key == "avatar" {
      user := user.(properties := user.properties.(avatar := value));
    } else if key == "description" {
      user := user.(properties := user.properties.(description := value));
    } else {
      return BadRequest;
    }
    var w := db.UpdateProperties(user.id, user.properties, writeFails);
    if w != Done {
      return ServerError;
    }
    r := Ok(true);
  }
}
