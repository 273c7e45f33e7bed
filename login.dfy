/**
 * The login page: the credential gate, then admission with rotation. When
 * the user already holds as many active sessions as the plan allows, the
 * session with the oldest last_activity is logged as rotated and deleted;
 * a fresh session row and a `login` log entry follow, all in one
 * transaction, and the new token is handed to the caller's PHP session.
 */
module Login {
  import opened Common
  import opened Store
  import AuthCheck

  /** `random_bytes(64)`: the session token is the hex form of 64 random bytes. */
  const TokenBytes: nat := 64
  /** `substr($userAgent, 0, 500)` bounds the stored device description. */
  const DeviceInfoLimit: nat := 500

  const MsgFillAll := "Por favor completa todos los campos."
  const MsgBadCredentials := "Credenciales incorrectas."
  const MsgUnverified := "Debes verificar tu cuenta antes de iniciar sesión. Revisa tu email."
  const MsgLoginFailed := "Error al procesar el login. Por favor intenta nuevamente."

  // ---------------------------------------------------------------------
  // Credential gate
  // ---------------------------------------------------------------------

  datatype Gate = Denied(message: string) | Granted(user: User, plan: Plan)

  /**
   * The checks that precede admission, in the page's order: empty fields,
   * unknown e-mail (the user row joined with its plan), unverified account,
   * wrong password. `verify` stands for `password_verify`.
   */
  function CheckCredentials(users: seq<User>, plans: seq<Plan>, email: string, password: string,
                            verify: (string, string) -> bool): (g: Gate)
    ensures (g == Denied(MsgFillAll)) <==> PhpEmpty(email) || PhpEmpty(password)
    ensures g.Granted? ==>
      g.user in users && g.user.email == email && g.user.verified &&
      verify(password, g.user.passwordHash) && g.plan in plans && g.plan.id == g.user.planId
    ensures !PhpEmpty(email) && !PhpEmpty(password) && !HasEmail(users, email) ==>
      g == Denied(MsgBadCredentials)
    ensures !PhpEmpty(email) && !PhpEmpty(password) && UniqueEmails(users) ==>
      forall i :: (0 <= i < |users| && users[i].email == email && !users[i].verified &&
                   FindPlan(plans, users[i].planId).Some?) ==> g == Denied(MsgUnverified)
  {
    if PhpEmpty(email) || PhpEmpty(password) then Denied(MsgFillAll)
    else
      match FindUserByEmail(users, email)
      case None => Denied(MsgBadCredentials)
      case Some(i) =>
        match FindPlan(plans, users[i].planId)
        case None => Denied(MsgBadCredentials)
        case Some(p) =>
          if !users[i].verified then Denied(MsgUnverified)
          else if !verify(password, users[i].passwordHash) then Denied(MsgBadCredentials)
          else Granted(users[i], plans[p])
  }

  /**
   * The holder of the email decides the outcome: with no plan row the login
   * is refused as bad credentials; a verified holder with a plan is granted
   * exactly when `password_verify` accepts, and refused as bad credentials
   * otherwise.
   */
  lemma HolderDecides(users: seq<User>, plans: seq<Plan>, email: string, password: string,
                      verify: (string, string) -> bool, i: nat)
    requires !PhpEmpty(email) && !PhpEmpty(password) && UniqueEmails(users)
    requires i < |users| && users[i].email == email
    ensures FindPlan(plans, users[i].planId).None? ==>
      CheckCredentials(users, plans, email, password, verify) == Denied(MsgBadCredentials)
    ensures users[i].verified && FindPlan(plans, users[i].planId).Some? ==>
      var g := CheckCredentials(users, plans, email, password, verify);
      (verify(password, users[i].passwordHash) ==>
         g == Granted(users[i], plans[FindPlan(plans, users[i].planId).value])) &&
      (!verify(password, users[i].passwordHash) ==> g == Denied(MsgBadCredentials))
  {
    var found := FindUserByEmail(users, email);
    assert found.Some?;
    assert found.value == i;
  }

  // ---------------------------------------------------------------------
  // Admission: what one successful transaction does to the tables
  // ---------------------------------------------------------------------

  /**
   * The eviction the page may perform: none while the user is below the
   * cap; at or above it, one of the user's rows with minimal last_activity
   * (the query orders by last_activity only, so any such row may come first),
   * and none if the user has no row at all.
   */
  predicate AllowedEviction(s: seq<Session>, uid: int, maxSessions: int, evict: Option<nat>)
  {
    if CountFor(s, uid) >= maxSessions && CountFor(s, uid) > 0
    then evict.Some? && IsOldest(s, uid, evict.value)
    else evict.None?
  }

  /** The active_sessions rows after evicting `evict` (if any) and inserting `row`. */
  function AfterAdmission(s: seq<Session>, evict: Option<nat>, row: Session): seq<Session>
    requires evict.Some? ==> evict.value < |s|
  {
    (if evict.Some? then DeleteWhere(s, IdIs(s[evict.value].id)) else s) + [row]
  }

  /**
   * Admission moves the user's count to count + 1 below the cap and keeps it
   * at count when a row was rotated out; every other user's count is untouched.
   */
  lemma AdmissionCount(s: seq<Session>, uid: int, maxSessions: int, evict: Option<nat>, row: Session, other: int)
    requires UniqueIds(s) && AllowedEviction(s, uid, maxSessions, evict) && row.userId == uid
    requires other != uid
    ensures CountFor(AfterAdmission(s, evict, row), uid) ==
      if evict.Some? then CountFor(s, uid) else CountFor(s, uid) + 1
    ensures CountFor(s, uid) < maxSessions ==> CountFor(AfterAdmission(s, evict, row), uid) == CountFor(s, uid) + 1
    ensures CountFor(AfterAdmission(s, evict, row), other) == CountFor(s, other)
  {
    var kept := if evict.Some? then DeleteWhere(s, IdIs(s[evict.value].id)) else s;
    CountForAppend(kept, row, uid);
    CountForAppend(kept, row, other);
    if evict.Some? {
      CountDeleteId(s, evict.value, uid);
      CountDeleteId(s, evict.value, other);
    }
  }

  /**
   * The cap is kept, but only from a state that already respected it: with
   * at most `maxSessions` rows before (and a cap of at least one), there are
   * at most `maxSessions` rows after.
   */
  lemma AdmissionKeepsCap(s: seq<Session>, uid: int, maxSessions: int, evict: Option<nat>, row: Session)
    requires UniqueIds(s) && AllowedEviction(s, uid, maxSessions, evict) && row.userId == uid
    requires maxSessions >= 1 && CountFor(s, uid) <= maxSessions
    ensures CountFor(AfterAdmission(s, evict, row), uid) <= maxSessions
  {
    AdmissionCount(s, uid, maxSessions, evict, row, uid + 1);
  }

  /**
   * Only one row can be rotated out per login: a user who is already two or
   * more rows above the cap stays above it.
   */
  lemma AdmissionDoesNotRepairOvershoot(s: seq<Session>, uid: int, maxSessions: int, evict: Option<nat>, row: Session)
    requires UniqueIds(s) && AllowedEviction(s, uid, maxSessions, evict) && row.userId == uid
    requires maxSessions >= 0 && CountFor(s, uid) > maxSessions
    ensures CountFor(AfterAdmission(s, evict, row), uid) == CountFor(s, uid)
    ensures CountFor(AfterAdmission(s, evict, row), uid) > maxSessions
  {
    AdmissionCount(s, uid, maxSessions, evict, row, uid + 1);
  }

  /** The rotated row is the user's and no row of the user was less recently active. */
  lemma EvictedIsLeastRecent(s: seq<Session>, uid: int, maxSessions: int, k: nat, j: nat)
    requires AllowedEviction(s, uid, maxSessions, Some(k))
    requires j < |s| && s[j].userId == uid
    ensures k < |s| && s[k].userId == uid && s[k].lastActivity <= s[j].lastActivity
    ensures CountFor(s, uid) >= maxSessions
  {
  }

  /** The rows the page writes. */
  function NewSession(id: nat, uid: int, token: string, deviceInfo: string, ipAddress: string,
                      userAgent: string, now: int): Session
  {
    Session(id, uid, token, deviceInfo, ipAddress, userAgent, now, now)
  }

  function RotationDetails(maxSessions: int, incomingIp: string): (d: string)
    ensures |d| >= |incomingIp| && d[|d| - |incomingIp|..] == incomingIp
  {
    "Sesión rotada automáticamente. Límite: " + IntToString(maxSessions) +
    " sesiones. Nueva desde IP: " + incomingIp
  }

  /** The `session_rotated` entry names the evicted device and IP; the new IP is in the details. */
  function RotationEntry(uid: int, evicted: Session, maxSessions: int, incomingIp: string, now: int): LogEntry
  {
    LogEntry(uid, SessionRotated, evicted.deviceInfo, Some(evicted.ipAddress),
             RotationDetails(maxSessions, incomingIp), now)
  }

  function LoginEntry(uid: int, deviceInfo: string, ipAddress: string, planName: string, now: int): LogEntry
  {
    LogEntry(uid, Login, deviceInfo, Some(ipAddress), "Login exitoso. Plan: " + planName, now)
  }

  /** The log entries a successful admission appends, in order. */
  function AdmissionLog(s: seq<Session>, uid: int, maxSessions: int, evict: Option<nat>,
                        deviceInfo: string, ipAddress: string, planName: string, now: int): seq<LogEntry>
    requires evict.Some? ==> evict.value < |s|
  {
    (if evict.Some? then [RotationEntry(uid, s[evict.value], maxSessions, ipAddress, now)] else []) +
    [LoginEntry(uid, deviceInfo, ipAddress, planName, now)]
  }

  /**
   * Rotation is logged exactly when a row is evicted, before the `login`
   * entry, and the `login` entry is always last.
   */
  lemma AdmissionLogShape(s: seq<Session>, uid: int, maxSessions: int, evict: Option<nat>,
                          deviceInfo: string, ipAddress: string, planName: string, now: int)
    requires evict.Some? ==> evict.value < |s|
    ensures var l := AdmissionLog(s, uid, maxSessions, evict, deviceInfo, ipAddress, planName, now);
      |l| == (if evict.Some? then 2 else 1) &&
      l[|l| - 1].action == Login && l[|l| - 1].deviceInfo == deviceInfo &&
      (forall i :: 0 <= i < |l| - 1 ==> l[i].action == SessionRotated) &&
      (evict.Some? ==> l[0].deviceInfo == s[evict.value].deviceInfo &&
                       l[0].ipAddress == Some(s[evict.value].ipAddress))
  {
  }

  /** Inserting a row with the next id and an unused token keeps both keys unique. */
  lemma InsertKeepsKeys(s: seq<Session>, row: Session, next: nat)
    requires UniqueIds(s) && UniqueTokens(s) && forall i :: 0 <= i < |s| ==> s[i].id < next
    requires row.id == next && !HasToken(s, row.token)
    ensures UniqueIds(s + [row]) && UniqueTokens(s + [row])
    ensures forall i :: 0 <= i < |s + [row]| ==> (s + [row])[i].id < next + 1
  {
  }

  /** The freshly inserted row answers the middleware's lookup by user and token. */
  lemma AdmittedRowFound(s: seq<Session>, evict: Option<nat>, row: Session)
    requires evict.Some? ==> evict.value < |s|
    ensures FindSession(AfterAdmission(s, evict, row), row.userId, row.token).Some?
  {
    var t := AfterAdmission(s, evict, row);
    assert t[|t| - 1] == row;
  }

  /**
   * The rotated-out device is locked out: once its row has been evicted and
   * a row with another token inserted, the middleware classifies a caller
   * still holding the evicted user id and token as NotFound, whatever the
   * time. A new token equal to the evicted one would revive the old cookie:
   * the uniqueness check runs after the DELETE.
   */
  lemma {:induction false} RotatedThenNotFound(s: seq<Session>, uid: int, maxSessions: int, evict: Option<nat>,
                                                row: Session, caller: CallerState, later: int)
    requires UniqueTokens(s) && AllowedEviction(s, uid, maxSessions, evict) && evict.Some?
    requires caller.userId == Some(s[evict.value].userId) && caller.sessionToken == Some(s[evict.value].token)
    requires row.token != s[evict.value].token
    ensures AuthCheck.Classify(AfterAdmission(s, evict, row), caller, later) == AuthCheck.NotFound
  {
    var k := evict.value;
    var kept := DeleteWhere(s, IdIs(s[k].id));
    DeletedTokenNotFound(s, k);
    var t := kept + [row];
    forall i | 0 <= i < |t|
      ensures !(t[i].userId == s[k].userId && t[i].token == s[k].token)
    {
      if i < |kept| {
        assert t[i] == kept[i];
      }
    }
  }

  // ---------------------------------------------------------------------
  // Admission: the transaction
  // ---------------------------------------------------------------------

  /**
   * Steps 1-3 of the transaction: when the user is at or above the cap, log
   * the rotation of one least recently active row and delete it.
   */
  method RotateIfFull(db: Database, uid: int, maxSessions: int, incomingIp: string, now: int)
    returns (evicted: Option<nat>)
    requires db.Valid()
    modifies db
    ensures db.Valid()
    ensures db.users == old(db.users) && db.plans == old(db.plans)
    ensures db.nextUserId == old(db.nextUserId) && db.nextSessionId == old(db.nextSessionId)
    ensures AllowedEviction(old(db.sessions), uid, maxSessions, evicted)
    ensures db.sessions == (if evicted.Some? then DeleteWhere(old(db.sessions), IdIs(old(db.sessions)[evicted.value].id))
                            else old(db.sessions))
    ensures db.logs == old(db.logs) +
      (if evicted.Some? then [RotationEntry(uid, old(db.sessions)[evicted.value], maxSessions, incomingIp, now)] else [])
    ensures forall t :: HasToken(db.sessions, t) ==> HasToken(old(db.sessions), t)
  {
    evicted := None;
    var count := CountFor(db.sessions, uid);
    if count >= maxSessions {
      var oldest := OldestFor(db.sessions, uid);
      if oldest.Some? {
        var k :| 0 <= k < |db.sessions| && IsOldest(db.sessions, uid, k);
        var victim := db.sessions[k];
        ghost var before := db.sessions;
        db.AppendLog(RotationEntry(uid, victim, maxSessions, incomingIp, now));
        db.DeleteSessions(IdIs(victim.id));
        DeleteWhereRows(before, IdIs(victim.id));
        forall t | HasToken(db.sessions, t)
          ensures HasToken(before, t)
        {
          var i :| 0 <= i < |db.sessions| && db.sessions[i].token == t;
          assert db.sessions[i] in before;
        }
        evicted := Some(k);
      }
    }
  }

  /** Step 5: INSERT INTO active_sessions a row carrying the next id and an unused token. */
  method InsertSession(db: Database, row: Session)
    requires db.Valid() && row.id == db.nextSessionId && !HasToken(db.sessions, row.token)
    modifies db
    ensures db.Valid()
    ensures db.sessions == old(db.sessions) + [row] && db.nextSessionId == old(db.nextSessionId) + 1
    ensures db.users == old(db.users) && db.plans == old(db.plans) && db.logs == old(db.logs)
    ensures db.nextUserId == old(db.nextUserId)
    ensures FindSession(db.sessions, row.userId, row.token) == Some(|db.sessions| - 1)
  {
    InsertKeepsKeys(db.sessions, row, db.nextSessionId);
    db.sessions := db.sessions + [row];
    db.nextSessionId := db.nextSessionId + 1;
  }

  /**
   * The admission transaction for a user whose credentials passed. `token`
   * is the fresh token; `txFails` says that a statement inside the
   * transaction raises. Inserting a token already present violates the
   * UNIQUE key and raises as well. On any failure the transaction is rolled
   * back: no row is evicted, inserted or logged. `evicted` is the position of
   * the rotated row in the old table.
   */
  method Admit(db: Database, user: User, plan: Plan, deviceInfo: string, ipAddress: string,
               userAgent: string, token: string, now: int, txFails: bool)
    returns (ok: bool, evicted: Option<nat>)
    requires db.Valid()
    modifies db
    ensures db.Valid()
    ensures db.users == old(db.users) && db.plans == old(db.plans)
    ensures db.nextUserId == old(db.nextUserId) && db.nextSessionId == old(db.nextSessionId) + (if ok then 1 else 0)
    ensures ok ==> !txFails
    ensures !txFails && !HasToken(old(db.sessions), token) ==> ok
    ensures !ok ==> db.sessions == old(db.sessions) && db.logs == old(db.logs) && evicted.None?
    ensures ok ==> AllowedEviction(old(db.sessions), user.id, plan.maxSessions, evicted)
    ensures ok ==> db.sessions == AfterAdmission(old(db.sessions), evicted,
                     NewSession(old(db.nextSessionId), user.id, token, deviceInfo, ipAddress, userAgent, now))
    ensures ok ==> db.logs == old(db.logs) + AdmissionLog(old(db.sessions), user.id, plan.maxSessions, evicted,
                                                          deviceInfo, ipAddress, plan.name, now)
  {
    var savedSessions, savedLogs := db.sessions, db.logs;
    var row := NewSession(db.nextSessionId, user.id, token, deviceInfo, ipAddress, userAgent, now);
    evicted := RotateIfFull(db, user.id, plan.maxSessions, ipAddress, now);
    var kept := db.sessions;

    if txFails || HasToken(kept, token) {
      // the INSERT (or an earlier statement) raised: ROLLBACK
      db.sessions, db.logs := savedSessions, savedLogs;
      ok, evicted := false, None;
      return;
    }
    InsertSession(db, row);
    db.AppendLog(LoginEntry(user.id, deviceInfo, ipAddress, plan.name, now));
    assert db.logs == savedLogs + AdmissionLog(savedSessions, user.id, plan.maxSessions, evicted,
                                               deviceInfo, ipAddress, plan.name, now);
    ok := true;
  }

  // ---------------------------------------------------------------------
  // The page
  // ---------------------------------------------------------------------

  datatype LoginOutcome =
    | AlreadySignedIn             // redirected to the dashboard before any check
    | Rejected(errors: seq<string>)
    | SignedIn(token: string)     // redirected to the dashboard with a fresh session

  /** The `$_SESSION` entries written after commit. */
  function SignedInCaller(caller: CallerState, user: User, plan: Plan, token: string, now: int): CallerState
  {
    caller.(userId := Some(user.id), email := Some(user.email), role := Some(user.role),
            planName := Some(plan.name), maxSessions := Some(plan.maxSessions),
            sessionToken := Some(token), loginTime := Some(now))
  }

  /**
   * A POST to the login page. The email field goes through
   * FILTER_SANITIZE_EMAIL; `verify` is `password_verify`; `userAgent` and
   * `remoteAddr` are the request headers (absent ones become "Unknown");
   * `randomBytes` is what `random_bytes(64)` returned. Store statements are
   * numbered 0 (user lookup), 1 (session count) and 2 (the transaction).
   */
  method LoginPost(db: Database, caller: CallerState, rawEmail: Option<string>, rawPassword: Option<string>,
                   verify: (string, string) -> bool, userAgent: Option<string>, remoteAddr: Option<string>,
                   randomBytes: seq<Byte>, now: int, failAt: Option<nat>)
    returns (outcome: LoginOutcome, after: CallerState, evicted: Option<nat>)
    requires db.Valid() && |randomBytes| == TokenBytes
    modifies db
    ensures db.Valid()
    ensures db.users == old(db.users) && db.plans == old(db.plans)
    ensures db.nextUserId == old(db.nextUserId)
    ensures db.nextSessionId == old(db.nextSessionId) + (if outcome.SignedIn? then 1 else 0)
    ensures HasClaim(caller) ==> outcome == AlreadySignedIn
    ensures !outcome.SignedIn? ==>
      db.sessions == old(db.sessions) && db.logs == old(db.logs) && after == caller && evicted.None?
    ensures !HasClaim(caller) && (PhpEmpty(PostedEmail(rawEmail)) || PhpEmpty(Posted(rawPassword))) ==> outcome == Rejected([MsgFillAll])
    ensures !HasClaim(caller) && !Raises(failAt, 0) ==>
      var g := CheckCredentials(db.users, db.plans, PostedEmail(rawEmail), Posted(rawPassword), verify);
      (g.Denied? ==> outcome == Rejected([g.message])) &&
      (g.Granted? && failAt.None? && !HasToken(old(db.sessions), Bin2Hex(randomBytes)) ==> outcome.SignedIn?) &&
      (g.Granted? && (Raises(failAt, 1) || Raises(failAt, 2)) ==> outcome == Rejected([MsgLoginFailed]))
    ensures (!HasClaim(caller) && !PhpEmpty(PostedEmail(rawEmail)) && !PhpEmpty(Posted(rawPassword)) &&
             Raises(failAt, 0)) ==> outcome == Rejected([MsgLoginFailed])
    ensures outcome.SignedIn? ==>
      var g := CheckCredentials(db.users, db.plans, PostedEmail(rawEmail), Posted(rawPassword), verify);
      g.Granted? && outcome.token == Bin2Hex(randomBytes) && |outcome.token| == 2 * TokenBytes &&
      after == SignedInCaller(caller, g.user, g.plan, outcome.token, now) &&
      FindSession(db.sessions, g.user.id, outcome.token).Some? &&
      db.sessions[|db.sessions| - 1].deviceInfo ==
        Truncate(if userAgent.Some? then userAgent.value else "Unknown", DeviceInfoLimit) &&
      |db.sessions[|db.sessions| - 1].deviceInfo| <= DeviceInfoLimit
    ensures outcome.SignedIn? ==>
      var g := CheckCredentials(db.users, db.plans, PostedEmail(rawEmail), Posted(rawPassword), verify);
      var agent := if userAgent.Some? then userAgent.value else "Unknown";
      var ip := if remoteAddr.Some? then remoteAddr.value else "Unknown";
      var deviceInfo := Truncate(agent, DeviceInfoLimit);
      g.Granted? && AllowedEviction(old(db.sessions), g.user.id, g.plan.maxSessions, evicted) &&
      db.sessions == AfterAdmission(old(db.sessions), evicted,
                       NewSession(old(db.nextSessionId), g.user.id, outcome.token, deviceInfo, ip, agent, now)) &&
      db.logs == old(db.logs) + AdmissionLog(old(db.sessions), g.user.id, g.plan.maxSessions, evicted,
                                             deviceInfo, ip, g.plan.name, now)
  {
    evicted := None;
    after := caller;
    if HasClaim(caller) {
      return AlreadySignedIn, after, None;
    }
    var email, password := PostedEmail(rawEmail), Posted(rawPassword);
    if PhpEmpty(email) || PhpEmpty(password) {
      return Rejected([MsgFillAll]), after, None;
    }
    if Raises(failAt, 0) {
      return Rejected([MsgLoginFailed]), after, None;
    }
    var gate := CheckCredentials(db.users, db.plans, email, password, verify);
    if gate.Denied? {
      return Rejected([gate.message]), after, None;
    }
    if Raises(failAt, 1) {
      return Rejected([MsgLoginFailed]), after, None;
    }

    var agent := if userAgent.Some? then userAgent.value else "Unknown";
    var ip := if remoteAddr.Some? then remoteAddr.value else "Unknown";
    var deviceInfo := Truncate(agent, DeviceInfoLimit);
    var token := Bin2Hex(randomBytes);

    var ok;
    ok, evicted := Admit(db, gate.user, gate.plan, deviceInfo, ip, agent, token, now, Raises(failAt, 2));
    if !ok {
      return Rejected([MsgLoginFailed]), after, None;
    }
    AdmittedRowFound(old(db.sessions), evicted,
                     NewSession(old(db.nextSessionId), gate.user.id, token, deviceInfo, ip, agent, now));
    after := SignedInCaller(caller, gate.user, gate.plan, token, now);
    outcome := SignedIn(token);
  }
}
