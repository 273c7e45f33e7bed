/**
 * The platform's persistent store, reduced to the tables the pages touch:
 * `subscription_plans`, `users`, `active_sessions` and the append-only
 * `session_logs`, plus the per-browser PHP session (`$_SESSION`) that the
 * pages read and write. Each SQL statement the pages issue against
 * `active_sessions` is a function over the table's rows here, with the
 * lemmas the session engine's proofs rely on.
 */
module Store {
  import opened Common

  /** Inactivity limit of an active session, in seconds (SESSION_LIFETIME, 24 hours). */
  const SessionLifetime: int := 86400

  datatype Plan = Plan(id: int, name: string, maxSessions: int)

  datatype User = User(
    id: nat,
    email: string,
    passwordHash: string,
    role: string,
    planId: int,
    verified: bool,
    verificationToken: Option<string>,
    tokenExpiresAt: Option<int>)

  /** A row of `active_sessions`; timestamps are seconds. */
  datatype Session = Session(
    id: nat,
    userId: int,
    token: string,
    deviceInfo: string,
    ipAddress: string,
    userAgent: string,
    createdAt: int,
    lastActivity: int)

  /** The `action` column of `session_logs`. */
  datatype Action = Login | Logout | SessionRotated | SessionExpired | ForcedLogout

  /** The value stored in the `action` column. */
  function ActionName(a: Action): (r: string)
    ensures |r| > 0
  {
    match a
    case Login => "login"
    case Logout => "logout"
    case SessionRotated => "session_rotated"
    case SessionExpired => "session_expired"
    case ForcedLogout => "forced_logout"
  }

  lemma ActionNameInjective(a: Action, b: Action)
    requires ActionName(a) == ActionName(b)
    ensures a == b
  {
    match a
    case Login => assert ActionName(b)[0] == 'l' && |ActionName(b)| == 5;
    case Logout => assert ActionName(b)[0] == 'l' && |ActionName(b)| == 6;
    case SessionRotated => assert ActionName(b)[8] == 'r';
    case SessionExpired => assert ActionName(b)[8] == 'e';
    case ForcedLogout => assert ActionName(b)[0] == 'f';
  }

  /** A row of `session_logs`; `ipAddress` is NULL for the administrator's forced logout. */
  datatype LogEntry = LogEntry(
    userId: int,
    action: Action,
    deviceInfo: string,
    ipAddress: Option<string>,
    details: string,
    timestamp: int)

  /** The entries of `$_SESSION` the pages use; `None` is an unset key. */
  datatype CallerState = CallerState(
    userId: Option<int>,
    sessionToken: Option<string>,
    email: Option<string>,
    role: Option<string>,
    planName: Option<string>,
    maxSessions: Option<int>,
    loginTime: Option<int>,
    lastActivity: Option<int>,
    lastRegeneration: Option<int>,
    registrationEmail: Option<string>)

  /** `$_SESSION = array()`. */
  const EmptyCaller: CallerState :=
    CallerState(None, None, None, None, None, None, None, None, None, None)

  /** Both `user_id` and `session_token` are set: the caller claims a session. */
  predicate HasClaim(c: CallerState)
  {
    c.userId.Some? && c.sessionToken.Some?
  }

  // ---------------------------------------------------------------------
  // Queries over active_sessions
  // ---------------------------------------------------------------------

  /** SELECT COUNT(*) FROM active_sessions WHERE user_id = uid */
  function CountFor(s: seq<Session>, uid: int): nat
  {
    if s == [] then 0
    else CountFor(s[..|s| - 1], uid) + (if s[|s| - 1].userId == uid then 1 else 0)
  }

  lemma {:induction false} CountForPositive(s: seq<Session>, uid: int)
    ensures CountFor(s, uid) > 0 <==> exists x :: x in s && x.userId == uid
  {
    if s != [] {
      var p := s[..|s| - 1];
      CountForPositive(p, uid);
      assert s == p + [s[|s| - 1]];
      assert forall x :: x in s <==> x in p || x == s[|s| - 1];
    }
  }

  lemma CountForAppend(s: seq<Session>, x: Session, uid: int)
    ensures CountFor(s + [x], uid) == CountFor(s, uid) + (if x.userId == uid then 1 else 0)
  {
    assert (s + [x])[..|s|] == s;
  }

  predicate UniqueIds(s: seq<Session>)
  {
    forall i, j :: 0 <= i < j < |s| ==> s[i].id != s[j].id
  }

  /** `session_token` is a UNIQUE column. */
  predicate UniqueTokens(s: seq<Session>)
  {
    forall i, j :: 0 <= i < j < |s| ==> s[i].token != s[j].token
  }

  predicate HasToken(s: seq<Session>, token: string)
  {
    exists i :: 0 <= i < |s| && s[i].token == token
  }

  /** Row k is one of uid's rows and no row of uid has an earlier last_activity. */
  predicate IsOldest(s: seq<Session>, uid: int, k: int)
  {
    0 <= k < |s| && s[k].userId == uid &&
    forall j :: 0 <= j < |s| && s[j].userId == uid ==> s[k].lastActivity <= s[j].lastActivity
  }

  /**
   * A witness for `ORDER BY last_activity ASC LIMIT 1` over uid's rows: some
   * row with minimal last_activity exists exactly when uid has a row.
   */
  function OldestFor(s: seq<Session>, uid: int): (r: Option<nat>)
    ensures r.None? <==> CountFor(s, uid) == 0
    ensures r.Some? ==> IsOldest(s, uid, r.value)
  {
    if s == [] then None
    else
      var n := |s| - 1;
      var p := OldestFor(s[..n], uid);
      assert forall j :: 0 <= j < n ==> s[..n][j] == s[j];
      CountForPositive(s[..n], uid);
      if s[n].userId != uid then p
      else if p.Some? && s[p.value].lastActivity <= s[n].lastActivity then p
      else Some(n)
  }

  /**
   * SELECT ... WHERE user_id = uid AND session_token = token LIMIT 1: the first
   * row carrying both, if any.
   */
  function FindSession(s: seq<Session>, uid: int, token: string): (r: Option<nat>)
    ensures r.Some? ==> r.value < |s| && s[r.value].userId == uid && s[r.value].token == token
    ensures r.None? <==> forall i :: 0 <= i < |s| ==> !(s[i].userId == uid && s[i].token == token)
  {
    if s == [] then None
    else
      var n := |s| - 1;
      var p := FindSession(s[..n], uid, token);
      if p.Some? then p
      else if s[n].userId == uid && s[n].token == token then Some(n)
      else None
  }

  // ---------------------------------------------------------------------
  // Statements over active_sessions
  // ---------------------------------------------------------------------

  /** The WHERE clauses of the DELETE statements the pages issue. */
  datatype Condition =
    | IdIs(id: nat)                                 // WHERE id = :id
    | UserAndToken(uid: int, token: string)         // WHERE user_id = :user_id AND session_token = :token
    | UserIs(uid: int)                              // WHERE user_id = :id

  predicate Matches(c: Condition, x: Session)
  {
    match c
    case IdIs(id) => x.id == id
    case UserAndToken(uid, token) => x.userId == uid && x.token == token
    case UserIs(uid) => x.userId == uid
  }

  /** DELETE FROM active_sessions WHERE c: the rows not matching c, in table order. */
  function DeleteWhere(s: seq<Session>, c: Condition): (r: seq<Session>)
    ensures |r| <= |s|
  {
    if s == [] then []
    else
      var n := |s| - 1;
      DeleteWhere(s[..n], c) + (if Matches(c, s[n]) then [] else [s[n]])
  }

  /** A row survives the DELETE exactly when it was there and does not match. */
  lemma {:induction false} DeleteWhereRows(s: seq<Session>, c: Condition)
    ensures forall x :: x in DeleteWhere(s, c) <==> x in s && !Matches(c, x)
  {
    if s != [] {
      var n := |s| - 1;
      DeleteWhereRows(s[..n], c);
      assert s == s[..n] + [s[n]];
    }
  }

  /** UPDATE active_sessions SET last_activity = now WHERE id = :id */
  function Touch(s: seq<Session>, id: nat, now: int): (r: seq<Session>)
    ensures |r| == |s|
    ensures forall i :: 0 <= i < |s| ==>
      r[i] == if s[i].id == id then s[i].(lastActivity := now) else s[i]
  {
    if s == [] then []
    else
      var n := |s| - 1;
      Touch(s[..n], id, now) + [if s[n].id == id then s[n].(lastActivity := now) else s[n]]
  }

  // ---------------------------------------------------------------------
  // Lemmas about those statements
  // ---------------------------------------------------------------------

  /** One step of DeleteWhere, stated for the last row. */
  lemma DeleteWhereLast(s: seq<Session>, c: Condition)
    requires s != []
    ensures DeleteWhere(s, c) ==
      if Matches(c, s[|s| - 1]) then DeleteWhere(s[..|s| - 1], c)
      else DeleteWhere(s[..|s| - 1], c) + [s[|s| - 1]]
  {
  }

  /** Appending a row whose id and token no earlier row has keeps both keys unique. */
  lemma AppendKeepsUnique(p: seq<Session>, x: Session)
    requires UniqueIds(p) && UniqueTokens(p)
    requires forall i :: 0 <= i < |p| ==> p[i].id != x.id && p[i].token != x.token
    ensures UniqueIds(p + [x]) && UniqueTokens(p + [x])
  {
    var q := p + [x];
    forall i, j | 0 <= i < j < |q|
      ensures q[i].id != q[j].id && q[i].token != q[j].token
    {
      assert q[i] == p[i];
      if j < |p| {
        assert q[j] == p[j];
      }
    }
  }

  lemma {:induction false} DeleteKeepsUnique(s: seq<Session>, c: Condition)
    requires UniqueIds(s) && UniqueTokens(s)
    ensures UniqueIds(DeleteWhere(s, c)) && UniqueTokens(DeleteWhere(s, c))
  {
    if s != [] {
      var n := |s| - 1;
      var p := DeleteWhere(s[..n], c);
      DeleteKeepsUnique(s[..n], c);
      DeleteWhereRows(s[..n], c);
      DeleteWhereLast(s, c);
      forall i | 0 <= i < |p|
        ensures p[i].id != s[n].id && p[i].token != s[n].token
      {
        assert p[i] in s[..n];
        var j :| 0 <= j < n && s[..n][j] == p[i];
        assert s[j] == p[i];
      }
      if !Matches(c, s[n]) {
        AppendKeepsUnique(p, s[n]);
      }
    }
  }

  /** Deleting only rows of other users keeps uid's count. */
  lemma {:induction false} CountDeleteNoneOf(s: seq<Session>, c: Condition, uid: int)
    requires forall i :: 0 <= i < |s| && s[i].userId == uid ==> !Matches(c, s[i])
    ensures CountFor(DeleteWhere(s, c), uid) == CountFor(s, uid)
  {
    if s != [] {
      var n := |s| - 1;
      var p := DeleteWhere(s[..n], c);
      DeleteWhereLast(s, c);
      CountDeleteNoneOf(s[..n], c, uid);
      CountForAppend(p, s[n], uid);
    }
  }

  /** Deleting every row of uid leaves uid without rows. */
  lemma {:induction false} CountDeleteAllOf(s: seq<Session>, c: Condition, uid: int)
    requires forall i :: 0 <= i < |s| && s[i].userId == uid ==> Matches(c, s[i])
    ensures CountFor(DeleteWhere(s, c), uid) == 0
  {
    if s != [] {
      var n := |s| - 1;
      var p := DeleteWhere(s[..n], c);
      DeleteWhereLast(s, c);
      CountDeleteAllOf(s[..n], c, uid);
      CountForAppend(p, s[n], uid);
    }
  }

  /** A DELETE matching row k and no other row lowers only row k's owner's count, by one. */
  lemma {:induction false} CountDeleteOnly(s: seq<Session>, c: Condition, k: nat, uid: int)
    requires k < |s| && Matches(c, s[k])
    requires forall i :: 0 <= i < |s| && i != k ==> !Matches(c, s[i])
    ensures CountFor(DeleteWhere(s, c), uid) == CountFor(s, uid) - (if s[k].userId == uid then 1 else 0)
  {
    var n := |s| - 1;
    var p := s[..n];
    assert CountFor(s, uid) == CountFor(p, uid) + (if s[n].userId == uid then 1 else 0);
    DeleteWhereLast(s, c);
    if k == n {
      forall i | 0 <= i < |p| && p[i].userId == uid
        ensures !Matches(c, p[i])
      {
        assert p[i] == s[i];
      }
      CountDeleteNoneOf(p, c, uid);
    } else {
      forall i | 0 <= i < |p| && i != k
        ensures !Matches(c, p[i])
      {
        assert p[i] == s[i];
      }
      assert p[k] == s[k];
      CountDeleteOnly(p, c, k, uid);
      CountForAppend(DeleteWhere(p, c), s[n], uid);
    }
  }

  /** Deleting row k by its (unique) id lowers its owner's count by one and no one else's. */
  lemma CountDeleteId(s: seq<Session>, k: nat, uid: int)
    requires UniqueIds(s) && k < |s|
    ensures CountFor(DeleteWhere(s, IdIs(s[k].id)), uid) == CountFor(s, uid) - (if s[k].userId == uid then 1 else 0)
  {
    forall i | 0 <= i < |s| && i != k
      ensures !Matches(IdIs(s[k].id), s[i])
    {
      if i < k {
        assert s[i].id != s[k].id;
      } else {
        assert s[k].id != s[i].id;
      }
    }
    CountDeleteOnly(s, IdIs(s[k].id), k, uid);
  }

  /** Refreshing last_activity changes no one's count. */
  lemma {:induction false} CountTouch(s: seq<Session>, id: nat, now: int, uid: int)
    ensures CountFor(Touch(s, id, now), uid) == CountFor(s, uid)
  {
    if s != [] {
      var n := |s| - 1;
      var t := Touch(s, id, now);
      assert t[..n] == Touch(s[..n], id, now);
      CountTouch(s[..n], id, now, uid);
    }
  }

  /** Refreshing last_activity does not change which row a lookup finds. */
  lemma {:induction false} FindSessionTouch(s: seq<Session>, id: nat, now: int, uid: int, token: string)
    ensures FindSession(Touch(s, id, now), uid, token) == FindSession(s, uid, token)
  {
    if s != [] {
      var n := |s| - 1;
      var t := Touch(s, id, now);
      assert t[..n] == Touch(s[..n], id, now);
      FindSessionTouch(s[..n], id, now, uid, token);
    }
  }

  /**
   * After the row holding a (unique) token is deleted by id, no row answers a
   * lookup with that token any more: a deleted session cannot re-validate.
   */
  lemma DeletedTokenNotFound(s: seq<Session>, k: nat)
    requires UniqueTokens(s) && k < |s|
    ensures FindSession(DeleteWhere(s, IdIs(s[k].id)), s[k].userId, s[k].token).None?
  {
    var r := DeleteWhere(s, IdIs(s[k].id));
    DeleteWhereRows(s, IdIs(s[k].id));
    forall i | 0 <= i < |r|
      ensures r[i].token != s[k].token
    {
      assert r[i] in s;
      var j :| 0 <= j < |s| && s[j] == r[i];
      assert j != k;
    }
  }

  /** After a logout-style delete, the (uid, token) pair matches nothing. */
  lemma DeleteLeavesNoMatch(s: seq<Session>, uid: int, token: string)
    ensures FindSession(DeleteWhere(s, UserAndToken(uid, token)), uid, token).None?
  {
    var r := DeleteWhere(s, UserAndToken(uid, token));
    DeleteWhereRows(s, UserAndToken(uid, token));
    forall i | 0 <= i < |r|
      ensures !(r[i].userId == uid && r[i].token == token)
    {
      assert r[i] in r;
    }
  }

  /** A DELETE that finds nothing to delete leaves the table as it was. */
  lemma {:induction false} DeleteNothing(s: seq<Session>, c: Condition)
    requires forall i :: 0 <= i < |s| ==> !Matches(c, s[i])
    ensures DeleteWhere(s, c) == s
  {
    if s != [] {
      var n := |s| - 1;
      DeleteWhereLast(s, c);
      DeleteNothing(s[..n], c);
      assert s == s[..n] + [s[n]];
    }
  }

  /** Running the same DELETE twice deletes nothing the second time. */
  lemma DeleteIdempotent(s: seq<Session>, c: Condition)
    ensures DeleteWhere(DeleteWhere(s, c), c) == DeleteWhere(s, c)
  {
    var r := DeleteWhere(s, c);
    DeleteWhereRows(s, c);
    forall i | 0 <= i < |r|
      ensures !Matches(c, r[i])
    {
      assert r[i] in r;
    }
    DeleteNothing(r, c);
  }

  // ---------------------------------------------------------------------
  // Lookups over users and plans
  // ---------------------------------------------------------------------

  predicate UniqueUserIds(u: seq<User>)
  {
    forall i, j :: 0 <= i < j < |u| ==> u[i].id != u[j].id
  }

  /** `users.email` is UNIQUE. */
  predicate UniqueEmails(u: seq<User>)
  {
    forall i, j :: 0 <= i < j < |u| ==> u[i].email != u[j].email
  }

  predicate HasEmail(u: seq<User>, email: string)
  {
    exists i :: 0 <= i < |u| && u[i].email == email
  }

  /** SELECT ... FROM users WHERE email = :email LIMIT 1 */
  function FindUserByEmail(u: seq<User>, email: string): (r: Option<nat>)
    ensures r.Some? ==> r.value < |u| && u[r.value].email == email
    ensures r.None? <==> !HasEmail(u, email)
  {
    if u == [] then None
    else if u[0].email == email then Some(0)
    else
      var p := FindUserByEmail(u[1..], email);
      assert forall i :: 0 < i < |u| ==> u[i] == u[1..][i - 1];
      if p.Some? then Some(p.value + 1) else None
  }

  /** SELECT ... FROM subscription_plans WHERE id = :id */
  function FindPlan(p: seq<Plan>, id: int): (r: Option<nat>)
    ensures r.Some? ==> r.value < |p| && p[r.value].id == id
    ensures r.None? <==> forall i :: 0 <= i < |p| ==> p[i].id != id
  {
    if p == [] then None
    else if p[0].id == id then Some(0)
    else
      var q := FindPlan(p[1..], id);
      assert forall i :: 0 < i < |p| ==> p[i] == p[1..][i - 1];
      if q.Some? then Some(q.value + 1) else None
  }

  /** The user rows after an UPDATE that rewrites the row(s) with the given id. */
  function UpdateUser(u: seq<User>, id: int, f: User -> User): (r: seq<User>)
    ensures |r| == |u|
    ensures forall i :: 0 <= i < |u| ==> r[i] == if u[i].id == id then f(u[i]) else u[i]
  {
    seq(|u|, i requires 0 <= i < |u| => if u[i].id == id then f(u[i]) else u[i])
  }

  /** DELETE FROM users WHERE id = :id */
  function DeleteUser(u: seq<User>, id: int): (r: seq<User>)
    ensures |r| <= |u|
    ensures forall x :: x in r <==> x in u && x.id != id
  {
    if u == [] then []
    else
      var n := |u| - 1;
      DeleteUser(u[..n], id) + (if u[n].id != id then [u[n]] else [])
  }

  /** Appending a user whose id and email no earlier row has keeps both keys unique. */
  lemma AppendUserKeepsUnique(p: seq<User>, x: User)
    requires UniqueUserIds(p) && UniqueEmails(p)
    requires forall y :: y in p ==> y.id != x.id && y.email != x.email
    ensures UniqueUserIds(p + [x]) && UniqueEmails(p + [x])
  {
    var q := p + [x];
    forall i, j | 0 <= i < j < |q|
      ensures q[i].id != q[j].id && q[i].email != q[j].email
    {
      assert q[i] == p[i];
      if j < |p| {
        assert q[j] == p[j];
      } else {
        assert q[i] in p;
      }
    }
  }

  lemma {:induction false} DeleteUserKeepsUnique(u: seq<User>, id: int)
    requires UniqueUserIds(u) && UniqueEmails(u)
    ensures UniqueUserIds(DeleteUser(u, id)) && UniqueEmails(DeleteUser(u, id))
  {
    if u != [] {
      var n := |u| - 1;
      var p := DeleteUser(u[..n], id);
      DeleteUserKeepsUnique(u[..n], id);
      forall y | y in p
        ensures y.id != u[n].id && y.email != u[n].email
      {
        var j :| 0 <= j < n && u[..n][j] == y;
        assert u[j] == y;
      }
      if u[n].id != id {
        AppendUserKeepsUnique(p, u[n]);
      }
    }
  }

  // ---------------------------------------------------------------------
  // The database
  // ---------------------------------------------------------------------

  class Database {
    var plans: seq<Plan>
    var users: seq<User>
    var sessions: seq<Session>
    var logs: seq<LogEntry>
    /** The next AUTO_INCREMENT values of users.id and active_sessions.id. */
    var nextUserId: nat
    var nextSessionId: nat

    /** The constraints the schema keeps: unique keys and fresh AUTO_INCREMENT values. */
    ghost predicate Valid()
      reads this
    {
      UniqueIds(sessions) && UniqueTokens(sessions) &&
      (forall i :: 0 <= i < |sessions| ==> sessions[i].id < nextSessionId) &&
      UniqueUserIds(users) && UniqueEmails(users) &&
      (forall i :: 0 <= i < |users| ==> users[i].id < nextUserId)
    }

    constructor (plans: seq<Plan>, users: seq<User>, nextUserId: nat)
      requires UniqueUserIds(users) && UniqueEmails(users)
      requires forall i :: 0 <= i < |users| ==> users[i].id < nextUserId
      ensures Valid()
      ensures this.plans == plans && this.users == users && this.nextUserId == nextUserId
      ensures sessions == [] && logs == []
    {
      this.plans := plans;
      this.users := users;
      this.nextUserId := nextUserId;
      sessions := [];
      logs := [];
      nextSessionId := 1;
    }

    /** DELETE FROM active_sessions WHERE c, keeping the schema's constraints. */
    method DeleteSessions(c: Condition)
      requires Valid()
      modifies this
      ensures Valid()
      ensures sessions == DeleteWhere(old(sessions), c)
      ensures plans == old(plans) && users == old(users) && logs == old(logs)
      ensures nextUserId == old(nextUserId) && nextSessionId == old(nextSessionId)
    {
      DeleteKeepsUnique(sessions, c);
      DeleteWhereRows(sessions, c);
      ghost var before := sessions;
      sessions := DeleteWhere(sessions, c);
      forall i | 0 <= i < |sessions|
        ensures sessions[i].id < nextSessionId
      {
        assert sessions[i] in before;
      }
    }

    /** UPDATE active_sessions SET last_activity = now WHERE id = :id, keeping the schema's constraints. */
    method TouchSession(id: nat, now: int)
      requires Valid()
      modifies this
      ensures Valid()
      ensures sessions == Touch(old(sessions), id, now)
      ensures plans == old(plans) && users == old(users) && logs == old(logs)
      ensures nextUserId == old(nextUserId) && nextSessionId == old(nextSessionId)
    {
      ghost var before := sessions;
      sessions := Touch(sessions, id, now);
      assert forall i :: 0 <= i < |sessions| ==> sessions[i].id == before[i].id && sessions[i].token == before[i].token;
    }

    /** INSERT INTO session_logs: the log is append-only and carries no constraint. */
    method AppendLog(e: LogEntry)
      requires Valid()
      modifies this
      ensures Valid()
      ensures logs == old(logs) + [e]
      ensures plans == old(plans) && users == old(users) && sessions == old(sessions)
      ensures nextUserId == old(nextUserId) && nextSessionId == old(nextSessionId)
    {
      logs := logs + [e];
    }

    /** INSERT INTO users a row carrying the next id and an email not yet registered. */
    method InsertUser(row: User)
      requires Valid() && row.id == nextUserId && !HasEmail(users, row.email)
      modifies this
      ensures Valid()
      ensures users == old(users) + [row] && nextUserId == old(nextUserId) + 1
      ensures plans == old(plans) && sessions == old(sessions) && logs == old(logs)
      ensures nextSessionId == old(nextSessionId)
    {
      users := users + [row];
      nextUserId := nextUserId + 1;
    }

    /** UPDATE users SET ... WHERE id = :id, for an update that keeps id and email. */
    method UpdateUserRow(id: int, f: User -> User)
      requires Valid()
      requires forall x :: f(x).id == x.id && f(x).email == x.email
      modifies this
      ensures Valid()
      ensures users == UpdateUser(old(users), id, f)
      ensures plans == old(plans) && sessions == old(sessions) && logs == old(logs)
      ensures nextUserId == old(nextUserId) && nextSessionId == old(nextSessionId)
    {
      users := UpdateUser(users, id, f);
    }

    /** DELETE FROM users WHERE id = :id */
    method DeleteUserRow(id: int)
      requires Valid()
      modifies this
      ensures Valid()
      ensures users == DeleteUser(old(users), id)
      ensures plans == old(plans) && sessions == old(sessions) && logs == old(logs)
      ensures nextUserId == old(nextUserId) && nextSessionId == old(nextSessionId)
    {
      DeleteUserKeepsUnique(users, id);
      ghost var before := users;
      users := DeleteUser(users, id);
      forall i | 0 <= i < |users|
        ensures users[i].id < nextUserId
      {
        assert users[i] in before;
      }
    }
  }
}
