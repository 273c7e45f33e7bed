/**
 * Manual logout: delete the caller's own row of `active_sessions`, log a
 * `logout` entry and destroy the server-side session. Storage errors are
 * swallowed; the caller is logged out whatever happens.
 */
module Logout {
  import opened Common
  import opened Store
  import AuthCheck

  function LogoutEntry(uid: int, agent: string, ip: string, now: int): LogEntry
  {
    LogEntry(uid, Action.Logout, agent, Some(ip), "Logout manual del usuario", now)
  }

  /**
   * The logout page. Store statements: 0 the DELETE of the caller's row,
   * 1 the log INSERT; both sit in one try block, so when the DELETE raises
   * no entry is written. The session is emptied in every case.
   */
  method LogoutPost(db: Database, caller: CallerState, userAgent: Option<string>, remoteAddr: Option<string>,
                    now: int, failAt: Option<nat>)
    returns (after: CallerState)
    requires db.Valid()
    modifies db
    ensures db.Valid()
    ensures after == EmptyCaller
    ensures db.users == old(db.users) && db.plans == old(db.plans)
    ensures db.nextUserId == old(db.nextUserId) && db.nextSessionId == old(db.nextSessionId)
    ensures !HasClaim(caller) || Raises(failAt, 0) ==>
      db.sessions == old(db.sessions) && db.logs == old(db.logs)
    ensures HasClaim(caller) && !Raises(failAt, 0) ==>
      var agent := if userAgent.Some? then userAgent.value else "Unknown";
      var ip := if remoteAddr.Some? then remoteAddr.value else "Unknown";
      db.sessions == DeleteWhere(old(db.sessions), UserAndToken(caller.userId.value, caller.sessionToken.value)) &&
      db.logs == old(db.logs) +
        (if Raises(failAt, 1) then [] else [LogoutEntry(caller.userId.value, agent, ip, now)])
  {
    if HasClaim(caller) && !Raises(failAt, 0) {
      var uid, token := caller.userId.value, caller.sessionToken.value;
      db.DeleteSessions(UserAndToken(uid, token));
      if !Raises(failAt, 1) {
        var agent := if userAgent.Some? then userAgent.value else "Unknown";
        var ip := if remoteAddr.Some? then remoteAddr.value else "Unknown";
        db.AppendLog(LogoutEntry(uid, agent, ip, now));
      }
    }
    after := EmptyCaller;
  }

  /**
   * A logged-out token is dead: should the same cookie be presented again
   * (say, from a copy of the old session), the middleware no longer finds it.
   */
  lemma LogoutEndsSession(s: seq<Session>, caller: CallerState, later: int)
    requires HasClaim(caller)
    ensures AuthCheck.Classify(DeleteWhere(s, UserAndToken(caller.userId.value, caller.sessionToken.value)),
                               caller, later) == AuthCheck.NotFound
  {
    DeleteLeavesNoMatch(s, caller.userId.value, caller.sessionToken.value);
  }

  /** Logging out on one device touches no other user's sessions. */
  lemma LogoutSparesOthers(s: seq<Session>, uid: int, token: string, other: int)
    requires other != uid
    ensures CountFor(DeleteWhere(s, UserAndToken(uid, token)), other) == CountFor(s, other)
  {
    CountDeleteNoneOf(s, UserAndToken(uid, token), other);
  }

  /**
   * With unique tokens, logging out frees exactly one slot of the caller's
   * cap when the row was still there, and none when it was already gone.
   */
  lemma {:induction false} LogoutFreesOneSlot(s: seq<Session>, uid: int, token: string)
    requires UniqueTokens(s)
    ensures CountFor(DeleteWhere(s, UserAndToken(uid, token)), uid) ==
      CountFor(s, uid) - (if FindSession(s, uid, token).Some? then 1 else 0)
  {
    if s != [] {
      var n := |s| - 1;
      var c := UserAndToken(uid, token);
      var p := DeleteWhere(s[..n], c);
      DeleteWhereLast(s, c);
      assert UniqueTokens(s[..n]);
      LogoutFreesOneSlot(s[..n], uid, token);
      CountForAppend(p, s[n], uid);
      if Matches(c, s[n]) {
        assert FindSession(s[..n], uid, token).None? by {
          forall i | 0 <= i < n
            ensures s[..n][i].token != token
          {
            assert s[..n][i] == s[i];
          }
        }
      }
    }
  }
}
