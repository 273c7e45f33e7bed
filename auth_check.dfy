/**
 * The middleware every protected page includes first. It reads the caller's
 * `user_id` and `session_token`, finds the matching `active_sessions` row,
 * and takes one of four branches: Absent (no claim), NotFound (the row was
 * rotated out or deleted), Expired (inactive for more than the session
 * lifetime) or Active (refresh last_activity and let the request through).
 * Only Active lets the request continue.
 */
module AuthCheck {
  import opened Common
  import opened Store

  /** The PHP session id is regenerated when more than this many seconds passed. */
  const RegenerationInterval: int := 1800

  const MsgRotated := "Tu sesión fue cerrada porque se alcanzó el límite de dispositivos simultáneos."
  const MsgExpired := "Tu sesión expiró por inactividad."
  const MsgSystemError := "Error de sistema. Por favor intenta nuevamente."

  /** APP_ENV: a storage error logs the caller out in production and stops the page in development. */
  datatype Env = Development | Production

  /** How the request ends: it continues, `forceLogout` redirects to the login page, or `die`. */
  datatype Verdict = Allowed | ForcedOut(message: string) | Died

  /** The branch the middleware takes for a caller against the current table. */
  datatype Check = Absent | NotFound | Expired(row: nat) | Active(row: nat)

  function Classify(s: seq<Session>, caller: CallerState, now: int): (c: Check)
    ensures c.Absent? <==> !HasClaim(caller)
    ensures c.NotFound? <==>
      HasClaim(caller) && forall i :: 0 <= i < |s| ==>
        !(s[i].userId == caller.userId.value && s[i].token == caller.sessionToken.value)
    ensures (c.Expired? || c.Active?) ==>
      HasClaim(caller) && c.row < |s| &&
      s[c.row].userId == caller.userId.value && s[c.row].token == caller.sessionToken.value
    ensures c.Expired? ==> now - s[c.row].lastActivity > SessionLifetime
    ensures c.Active? ==> now - s[c.row].lastActivity <= SessionLifetime
  {
    if !HasClaim(caller) then Absent
    else
      match FindSession(s, caller.userId.value, caller.sessionToken.value)
      case None => NotFound
      case Some(k) => if now - s[k].lastActivity > SessionLifetime then Expired(k) else Active(k)
  }

  /**
   * The `last_regeneration` entry after a request that got through: set when
   * absent, reset to now only when more than RegenerationInterval seconds
   * have elapsed (the session id is regenerated at the same moment).
   */
  function NextRegeneration(last: Option<int>, now: int): (r: Option<int>)
    ensures r.Some?
    ensures last.None? ==> r == Some(now)
    ensures last.Some? && now - last.value > RegenerationInterval ==> r == Some(now)
    ensures last.Some? && now - last.value <= RegenerationInterval ==> r == last
  {
    if last.None? then Some(now)
    else if now - last.value > RegenerationInterval then Some(now)
    else last
  }

  /** Once reset, the timestamp stays put for the next RegenerationInterval seconds. */
  lemma RegenerationIsPeriodic(last: Option<int>, now: int, later: int)
    requires now <= later <= now + RegenerationInterval
    ensures NextRegeneration(NextRegeneration(last, now), later) == NextRegeneration(last, now) ||
            NextRegeneration(NextRegeneration(last, now), later) == Some(later)
    ensures NextRegeneration(last, now) == Some(now) ==> NextRegeneration(Some(now), later) == Some(now)
  {
  }

  function ForcedLogoutEntry(uid: int, agent: string, ip: string, now: int): LogEntry
  {
    LogEntry(uid, ForcedLogout, agent, Some(ip), "Sesión rotada por límite de dispositivos concurrentes", now)
  }

  function ExpiredEntry(uid: int, agent: string, ip: string, now: int): LogEntry
  {
    LogEntry(uid, SessionExpired, agent, Some(ip), "Sesión expirada por inactividad", now)
  }

  /** What an uncaught storage error does to the request. */
  function FailVerdict(env: Env): Verdict
  {
    if env == Production then ForcedOut(MsgSystemError) else Died
  }

  function FailCaller(env: Env, caller: CallerState): CallerState
  {
    if env == Production then EmptyCaller else caller
  }

  /**
   * Expiry is final: once the Expired branch deleted the row, the same
   * caller takes the NotFound branch at any later time.
   */
  lemma ExpiredThenNotFound(s: seq<Session>, caller: CallerState, now: int, later: int)
    requires UniqueTokens(s) && Classify(s, caller, now).Expired?
    ensures Classify(DeleteWhere(s, IdIs(s[Classify(s, caller, now).row].id)), caller, later) == NotFound
  {
    var k := Classify(s, caller, now).row;
    DeletedTokenNotFound(s, k);
  }

  /**
   * The Active branch keeps the caller active: right after the refresh the
   * elapsed time is zero, and no user's session count changes.
   */
  lemma TouchKeepsActive(s: seq<Session>, caller: CallerState, now: int, uid: int)
    requires Classify(s, caller, now).Active?
    ensures var t := Touch(s, s[Classify(s, caller, now).row].id, now);
      Classify(t, caller, now).Active? && CountFor(t, uid) == CountFor(s, uid)
  {
    var k := Classify(s, caller, now).row;
    var t := Touch(s, s[k].id, now);
    CountTouch(s, s[k].id, now, uid);
    FindSessionTouch(s, s[k].id, now, caller.userId.value, caller.sessionToken.value);
  }

  /**
   * One pass of the middleware. `userAgent` and `remoteAddr` are the request
   * headers (absent ones become "Unknown"). Store statements are numbered
   * 0 (the lookup), 1 (the forced_logout entry, the expiry DELETE or the
   * refresh UPDATE) and 2 (the session_expired entry). A failure of a log
   * INSERT is swallowed; any other failure is a storage error.
   */
  method Validate(db: Database, caller: CallerState, userAgent: Option<string>, remoteAddr: Option<string>,
                  now: int, env: Env, failAt: Option<nat>)
    returns (verdict: Verdict, after: CallerState)
    requires db.Valid()
    modifies db
    ensures db.Valid()
    ensures db.users == old(db.users) && db.plans == old(db.plans)
    ensures db.nextUserId == old(db.nextUserId) && db.nextSessionId == old(db.nextSessionId)
    ensures verdict == Allowed <==>
      Classify(old(db.sessions), caller, now).Active? && !Raises(failAt, 0) && !Raises(failAt, 1)
    ensures HasClaim(caller) && Raises(failAt, 0) ==>
      verdict == FailVerdict(env) && after == FailCaller(env, caller) &&
      db.sessions == old(db.sessions) && db.logs == old(db.logs)
    ensures var agent := if userAgent.Some? then userAgent.value else "Unknown";
      var ip := if remoteAddr.Some? then remoteAddr.value else "Unknown";
      var s := old(db.sessions);
      match Classify(s, caller, now)
      case Absent =>
        verdict == ForcedOut("") && after == EmptyCaller && db.sessions == s && db.logs == old(db.logs)
      case NotFound =>
        !Raises(failAt, 0) ==>
          verdict == ForcedOut(MsgRotated) && after == EmptyCaller && db.sessions == s &&
          db.logs == old(db.logs) +
            (if Raises(failAt, 1) then [] else [ForcedLogoutEntry(caller.userId.value, agent, ip, now)])
      case Expired(k) =>
        !Raises(failAt, 0) ==>
          if Raises(failAt, 1) then
            verdict == FailVerdict(env) && after == FailCaller(env, caller) &&
            db.sessions == s && db.logs == old(db.logs)
          else
            verdict == ForcedOut(MsgExpired) && after == EmptyCaller &&
            db.sessions == DeleteWhere(s, IdIs(s[k].id)) &&
            db.logs == old(db.logs) +
              (if Raises(failAt, 2) then [] else [ExpiredEntry(caller.userId.value, agent, ip, now)])
      case Active(k) =>
        !Raises(failAt, 0) ==>
          if Raises(failAt, 1) then
            verdict == FailVerdict(env) && after == FailCaller(env, caller) &&
            db.sessions == s && db.logs == old(db.logs)
          else
            verdict == Allowed && db.sessions == Touch(s, s[k].id, now) && db.logs == old(db.logs) &&
            after == caller.(lastActivity := Some(now),
                             lastRegeneration := NextRegeneration(caller.lastRegeneration, now))
  {
    after := caller;
    if !HasClaim(caller) {
      return ForcedOut(""), EmptyCaller;
    }
    var uid, token := caller.userId.value, caller.sessionToken.value;
    var agent := if userAgent.Some? then userAgent.value else "Unknown";
    var ip := if remoteAddr.Some? then remoteAddr.value else "Unknown";

    if Raises(failAt, 0) {
      return FailVerdict(env), FailCaller(env, caller);
    }
    var found := FindSession(db.sessions, uid, token);
    if found.None? {
      if !Raises(failAt, 1) {
        db.AppendLog(ForcedLogoutEntry(uid, agent, ip, now));
      }
      return ForcedOut(MsgRotated), EmptyCaller;
    }

    var k := found.value;
    var row := db.sessions[k];
    if now - row.lastActivity > SessionLifetime {
      if Raises(failAt, 1) {
        return FailVerdict(env), FailCaller(env, caller);
      }
      db.DeleteSessions(IdIs(row.id));
      if !Raises(failAt, 2) {
        db.AppendLog(ExpiredEntry(uid, agent, ip, now));
      }
      return ForcedOut(MsgExpired), EmptyCaller;
    }

    if Raises(failAt, 1) {
      return FailVerdict(env), FailCaller(env, caller);
    }
    db.TouchSession(row.id, now);
    after := caller.(lastActivity := Some(now));
    after := after.(lastRegeneration := NextRegeneration(caller.lastRegeneration, now));
    verdict := Allowed;
  }
}
