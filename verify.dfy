/**
 * Email verification: the link sent at registration carries the user's
 * verification token. The page finds the user holding it and either reports
 * why nothing happens (no token, unknown token, already verified, expired)
 * or marks the account verified and clears the token, so the link works once.
 */
module Verify {
  import opened Common
  import opened Store

  const MsgNoToken := "No se proporcionó un token de verificación."
  const MsgUnknown := "Token de verificación inválido o ya utilizado."
  const MsgAlready := "Esta cuenta ya ha sido verificada. Puedes iniciar sesión."
  const MsgExpired := "El token de verificación ha expirado. Por favor, solicita uno nuevo."
  const MsgVerified := "¡Cuenta verificada exitosamente! Ya puedes iniciar sesión."
  const MsgError := "Error al verificar la cuenta. Por favor intenta nuevamente."

  /** The alert class the page renders the message with. */
  datatype Kind = Danger | Info | Warning | Success

  /** The branch the page takes, with the index of the user row it concerns. */
  datatype Branch = NoToken | UnknownToken | AlreadyVerified(row: nat) | TokenExpired(row: nat) | Verifies(row: nat)

  /** SELECT ... FROM users WHERE verification_token = :token LIMIT 1 */
  function FindUserByToken(u: seq<User>, token: string): (r: Option<nat>)
    ensures r.Some? ==> r.value < |u| && u[r.value].verificationToken == Some(token)
    ensures r.None? <==> forall i :: 0 <= i < |u| ==> u[i].verificationToken != Some(token)
  {
    if u == [] then None
    else if u[0].verificationToken == Some(token) then Some(0)
    else
      var p := FindUserByToken(u[1..], token);
      assert forall i :: 0 < i < |u| ==> u[i] == u[1..][i - 1];
      if p.Some? then Some(p.value + 1) else None
  }

  /**
   * The expiry test. A NULL `token_expires_at` makes `strtotime` return
   * false, which compares below any current time, so it counts as expired.
   */
  predicate Expired(expiresAt: Option<int>, now: int)
  {
    expiresAt.None? || expiresAt.value < now
  }

  /**
   * Branch selection over the fetched row: the already-verified test comes
   * before the expiry test, and expiry is strict (a token expiring exactly
   * now still verifies).
   */
  function Classify(u: seq<User>, token: Option<string>, now: int): (b: Branch)
    ensures b.NoToken? <==> token.None? || PhpEmpty(token.value)
    ensures b.UnknownToken? <==>
      token.Some? && !PhpEmpty(token.value) && forall i :: 0 <= i < |u| ==> u[i].verificationToken != Some(token.value)
    ensures (b.AlreadyVerified? || b.TokenExpired? || b.Verifies?) ==>
      token.Some? && b.row < |u| && u[b.row].verificationToken == Some(token.value)
    ensures b.AlreadyVerified? ==> u[b.row].verified
    ensures b.TokenExpired? ==> !u[b.row].verified && Expired(u[b.row].tokenExpiresAt, now)
    ensures b.Verifies? ==> !u[b.row].verified && !Expired(u[b.row].tokenExpiresAt, now)
  {
    if token.None? || PhpEmpty(token.value) then NoToken
    else
      match FindUserByToken(u, token.value)
      case None => UnknownToken
      case Some(k) =>
        if u[k].verified then AlreadyVerified(k)
        else if Expired(u[k].tokenExpiresAt, now) then TokenExpired(k)
        else Verifies(k)
  }

  /** The row update on success: verified, token and expiry cleared. */
  function MarkVerified(x: User): (r: User)
    ensures r.id == x.id && r.email == x.email && r.passwordHash == x.passwordHash
    ensures r.role == x.role && r.planId == x.planId
    ensures r.verified && r.verificationToken.None? && r.tokenExpiresAt.None?
  {
    x.(verified := true, verificationToken := None, tokenExpiresAt := None)
  }

  /**
   * The page. Store statements: 0 the lookup, 1 the UPDATE on success. A
   * failure shows the generic error with `verified` false.
   */
  method VerifyGet(db: Database, token: Option<string>, now: int, failAt: Option<nat>)
    returns (kind: Kind, message: string, verified: bool)
    requires db.Valid()
    modifies db
    ensures db.Valid()
    ensures db.plans == old(db.plans) && db.sessions == old(db.sessions) && db.logs == old(db.logs)
    ensures db.nextUserId == old(db.nextUserId) && db.nextSessionId == old(db.nextSessionId)
    ensures var b := Classify(old(db.users), token, now);
      if b.NoToken? then
        kind == Danger && message == MsgNoToken && !verified && db.users == old(db.users)
      else if Raises(failAt, 0) then
        kind == Danger && message == MsgError && !verified && db.users == old(db.users)
      else
        match b
        case UnknownToken =>
          kind == Danger && message == MsgUnknown && !verified && db.users == old(db.users)
        case AlreadyVerified(_) =>
          kind == Info && message == MsgAlready && verified && db.users == old(db.users)
        case TokenExpired(_) =>
          kind == Warning && message == MsgExpired && !verified && db.users == old(db.users)
        case Verifies(k) =>
          if Raises(failAt, 1) then
            kind == Danger && message == MsgError && !verified && db.users == old(db.users)
          else
            kind == Success && message == MsgVerified && verified &&
            db.users == UpdateUser(old(db.users), old(db.users)[k].id, MarkVerified)
  {
    var b := Classify(db.users, token, now);
    if b.NoToken? {
      return Danger, MsgNoToken, false;
    }
    if Raises(failAt, 0) {
      return Danger, MsgError, false;
    }
    match b
    case UnknownToken =>
      kind, message, verified := Danger, MsgUnknown, false;
    case AlreadyVerified(_) =>
      kind, message, verified := Info, MsgAlready, true;
    case TokenExpired(_) =>
      kind, message, verified := Warning, MsgExpired, false;
    case Verifies(k) =>
      if Raises(failAt, 1) {
        return Danger, MsgError, false;
      }
      db.UpdateUserRow(db.users[k].id, MarkVerified);
      kind, message, verified := Success, MsgVerified, true;
  }

  /** At most one account holds any given verification token. */
  predicate UniqueVerificationTokens(u: seq<User>)
  {
    forall i, j ::
      (0 <= i < |u| && 0 <= j < |u| && u[i].verificationToken.Some? &&
       u[i].verificationToken == u[j].verificationToken) ==> i == j
  }

  /**
   * A verification link works once: after it succeeded, the same token is
   * unknown to the table, at any later time.
   */
  lemma LinkWorksOnce(u: seq<User>, token: Option<string>, now: int, later: int)
    requires UniqueUserIds(u) && UniqueVerificationTokens(u)
    requires Classify(u, token, now).Verifies?
    ensures Classify(UpdateUser(u, u[Classify(u, token, now).row].id, MarkVerified), token, later) == UnknownToken
  {
    var k := Classify(u, token, now).row;
    var v := UpdateUser(u, u[k].id, MarkVerified);
    forall i | 0 <= i < |v|
      ensures v[i].verificationToken != Some(token.value)
    {
      if u[i].id != u[k].id {
        assert i != k;
      }
    }
  }

  /** Verification touches only the account holding the token. */
  lemma VerifyTouchesOnlyHolder(u: seq<User>, token: Option<string>, now: int, i: nat)
    requires UniqueUserIds(u) && Classify(u, token, now).Verifies?
    requires i < |u| && i != Classify(u, token, now).row
    ensures UpdateUser(u, u[Classify(u, token, now).row].id, MarkVerified)[i] == u[i]
  {
    var k := Classify(u, token, now).row;
    assert u[i].id != u[k].id;
  }
}
