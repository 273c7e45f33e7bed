/**
 * The administrator panel's POST handlers: delete a user, update a user's
 * plan and verification flag, create a user, and close every session of a
 * user. Only a caller whose role is exactly "admin" reaches them. Each
 * handler reports through the page's `success` and `errors` lists.
 */
module AdminDashboard {
  import opened Common
  import opened Store
  import AuthCheck

  /** The message the data-access layer throws for any failing statement. */
  const MsgDbError := "Error en la consulta a la base de datos."

  const MsgSelfDelete := "No puedes eliminarte a ti mismo."
  const MsgRequired := "Email y contraseña son requeridos."
  const MsgDuplicate := "Este email ya está registrado."

  const MsgDeleted := "Usuario eliminado correctamente."
  const MsgUpdated := "Usuario actualizado correctamente."
  const MsgCreated := "Usuario creado correctamente."
  const MsgClosed := "Todas las sesiones del usuario han sido cerradas."

  /** The POST a request carries; `NoAction` when no handler's guard matches. */
  datatype Request =
    | DeleteUser(target: int)
    | UpdateUser(target: int, planId: int, verified: bool)
    | CreateUser(email: Option<string>, password: Option<string>, role: Option<string>, planId: int)
    | LogoutUser(target: int)
    | NoAction

  /** The page either redirects a non-admin away or renders with its message lists. */
  datatype Outcome = AccessDenied | Rendered(success: seq<string>, errors: seq<string>)

  // ---------------------------------------------------------------------
  // The handlers
  // ---------------------------------------------------------------------

  /** The entry the `logout_user` handler writes: no IP, fixed device text. */
  function AdminLogoutEntry(target: int, now: int): LogEntry
  {
    LogEntry(target, ForcedLogout, "Admin action", None, "Sesiones cerradas por administrador", now)
  }

  /**
   * `delete`: refuse to delete the caller's own account, otherwise remove the
   * user row with that id (store statement 0). Exactly one message is added.
   */
  method DeleteHandler(db: Database, callerId: int, target: int, failAt: Option<nat>)
    returns (success: seq<string>, errors: seq<string>)
    requires db.Valid()
    modifies db
    ensures db.Valid()
    ensures target == callerId || Raises(failAt, 0) ==> unchanged(db)
    ensures target == callerId ==> success == [] && errors == ["Error al eliminar usuario: " + MsgSelfDelete]
    ensures target != callerId && Raises(failAt, 0) ==> success == [] && errors == ["Error al eliminar usuario: " + MsgDbError]
    ensures target != callerId && !Raises(failAt, 0) ==>
      success == [MsgDeleted] && errors == [] &&
      db.users == Store.DeleteUser(old(db.users), target) &&
      db.plans == old(db.plans) && db.sessions == old(db.sessions) && db.logs == old(db.logs) &&
      db.nextUserId == old(db.nextUserId) && db.nextSessionId == old(db.nextSessionId)
  {
    if target == callerId {
      return [], ["Error al eliminar usuario: " + MsgSelfDelete];
    }
    if Raises(failAt, 0) {
      return [], ["Error al eliminar usuario: " + MsgDbError];
    }
    db.DeleteUserRow(target);
    success, errors := [MsgDeleted], [];
  }

  function SetPlanAndVerified(planId: int, verified: bool): User -> User
  {
    (x: User) => x.(planId := planId, verified := verified)
  }

  /**
   * `update`: rewrite only subscription_plan_id and is_verified of the
   * target (store statement 0). Sessions are left alone, whatever the new
   * plan's cap.
   */
  method UpdateHandler(db: Database, target: int, planId: int, verified: bool, failAt: Option<nat>)
    returns (success: seq<string>, errors: seq<string>)
    requires db.Valid()
    modifies db
    ensures db.Valid()
    ensures Raises(failAt, 0) ==>
      unchanged(db) && success == [] && errors == ["Error al actualizar usuario: " + MsgDbError]
    ensures !Raises(failAt, 0) ==>
      success == [MsgUpdated] && errors == [] &&
      |db.users| == |old(db.users)| &&
      (forall i :: 0 <= i < |db.users| ==>
        db.users[i] == if old(db.users)[i].id == target
                       then old(db.users)[i].(planId := planId, verified := verified)
                       else old(db.users)[i]) &&
      db.plans == old(db.plans) && db.sessions == old(db.sessions) && db.logs == old(db.logs) &&
      db.nextUserId == old(db.nextUserId) && db.nextSessionId == old(db.nextSessionId)
  {
    if Raises(failAt, 0) {
      return [], ["Error al actualizar usuario: " + MsgDbError];
    }
    db.UpdateUserRow(target, SetPlanAndVerified(planId, verified));
    success, errors := [MsgUpdated], [];
  }

  /**
   * `create`: sanitize the email, require a non-empty email and password,
   * refuse an address already registered (store statement 0, the lookup),
   * then insert one verified user (store statement 1). `hash` stands for
   * `password_hash`.
   */
  method CreateHandler(db: Database, email: Option<string>, password: Option<string>, role: Option<string>,
                       planId: int, hash: string -> string, failAt: Option<nat>)
    returns (success: seq<string>, errors: seq<string>)
    requires db.Valid()
    modifies db
    ensures db.Valid()
    ensures var e := PostedEmail(email);
      var p := Posted(password);
      var r := if role.Some? then role.value else "student";
      if PhpEmpty(e) || PhpEmpty(p) then
        unchanged(db) && success == [] && errors == ["Error al crear usuario: " + MsgRequired]
      else if Raises(failAt, 0) then
        unchanged(db) && success == [] && errors == ["Error al crear usuario: " + MsgDbError]
      else if HasEmail(old(db.users), e) then
        unchanged(db) && success == [] && errors == ["Error al crear usuario: " + MsgDuplicate]
      else if Raises(failAt, 1) then
        unchanged(db) && success == [] && errors == ["Error al crear usuario: " + MsgDbError]
      else
        success == [MsgCreated] && errors == [] &&
        db.users == old(db.users) + [User(old(db.nextUserId), e, hash(p), r, planId, true, None, None)] &&
        db.plans == old(db.plans) && db.sessions == old(db.sessions) && db.logs == old(db.logs) &&
        db.nextUserId == old(db.nextUserId) + 1 && db.nextSessionId == old(db.nextSessionId)
  {
    var e := PostedEmail(email);
    var p := Posted(password);
    var r := if role.Some? then role.value else "student";
    if PhpEmpty(e) || PhpEmpty(p) {
      return [], ["Error al crear usuario: " + MsgRequired];
    }
    if Raises(failAt, 0) {
      return [], ["Error al crear usuario: " + MsgDbError];
    }
    if FindUserByEmail(db.users, e).Some? {
      return [], ["Error al crear usuario: " + MsgDuplicate];
    }
    if Raises(failAt, 1) {
      return [], ["Error al crear usuario: " + MsgDbError];
    }
    db.InsertUser(User(db.nextUserId, e, hash(p), r, planId, true, None, None));
    success, errors := [MsgCreated], [];
  }

  /**
   * `logout_user`: delete every session of the target (store statement 0),
   * then write ONE forced_logout entry however many rows went (statement 1).
   * There is no transaction: when the entry fails, the rows stay deleted.
   */
  method LogoutUserHandler(db: Database, target: int, now: int, failAt: Option<nat>)
    returns (success: seq<string>, errors: seq<string>)
    requires db.Valid()
    modifies db
    ensures db.Valid()
    ensures db.users == old(db.users) && db.plans == old(db.plans)
    ensures db.nextUserId == old(db.nextUserId) && db.nextSessionId == old(db.nextSessionId)
    ensures Raises(failAt, 0) ==>
      unchanged(db) && success == [] && errors == ["Error: " + MsgDbError]
    ensures !Raises(failAt, 0) ==> db.sessions == DeleteWhere(old(db.sessions), UserIs(target))
    ensures Raises(failAt, 1) ==>
      db.logs == old(db.logs) && success == [] && errors == ["Error: " + MsgDbError]
    ensures !Raises(failAt, 0) && !Raises(failAt, 1) ==>
      db.logs == old(db.logs) + [AdminLogoutEntry(target, now)] && success == [MsgClosed] && errors == []
  {
    if Raises(failAt, 0) {
      return [], ["Error: " + MsgDbError];
    }
    db.DeleteSessions(UserIs(target));
    if Raises(failAt, 1) {
      return [], ["Error: " + MsgDbError];
    }
    db.AppendLog(AdminLogoutEntry(target, now));
    success, errors := [MsgClosed], [];
  }

  /**
   * The page: a caller whose role is not exactly "admin" is redirected before
   * any handler runs; otherwise the request's handler runs, adding exactly
   * one message to one of the two lists. The middleware ran first, so the
   * caller carries a user id.
   */
  method AdminPost(db: Database, caller: CallerState, req: Request, hash: string -> string, now: int,
                   failAt: Option<nat>)
    returns (outcome: Outcome)
    requires db.Valid() && caller.userId.Some?
    modifies db
    ensures db.Valid()
    ensures outcome.AccessDenied? <==> caller.role != Some("admin")
    ensures outcome.AccessDenied? || req.NoAction? ==> unchanged(db)
    ensures db.nextSessionId == old(db.nextSessionId)
    ensures db.nextUserId ==
      old(db.nextUserId) + (if req.CreateUser? && outcome.Rendered? && outcome.success != [] then 1 else 0)
    ensures req.NoAction? && outcome.Rendered? ==> outcome.success == [] && outcome.errors == []
    ensures !req.NoAction? && outcome.Rendered? ==> |outcome.success| + |outcome.errors| == 1
  {
    if caller.role != Some("admin") {
      return AccessDenied;
    }
    var success, errors := [], [];
    match req {
      case DeleteUser(target) =>
        success, errors := DeleteHandler(db, caller.userId.value, target, failAt);
      case UpdateUser(target, planId, verified) =>
        success, errors := UpdateHandler(db, target, planId, verified, failAt);
      case CreateUser(email, password, role, planId) =>
        success, errors := CreateHandler(db, email, password, role, planId, hash, failAt);
      case LogoutUser(target) =>
        success, errors := LogoutUserHandler(db, target, now, failAt);
      case NoAction =>
    }
    outcome := Rendered(success, errors);
  }

  // ---------------------------------------------------------------------
  // Properties of the handlers' effects
  // ---------------------------------------------------------------------

  /**
   * After `logout_user` the target has no session left, every other user
   * keeps theirs, and any cookie the target still holds is rejected by the
   * middleware as not found.
   */
  lemma ForcedLogoutClearsTarget(s: seq<Session>, target: int, other: int, caller: CallerState, now: int)
    requires other != target
    requires HasClaim(caller) && caller.userId.value == target
    ensures CountFor(DeleteWhere(s, UserIs(target)), target) == 0
    ensures CountFor(DeleteWhere(s, UserIs(target)), other) == CountFor(s, other)
    ensures AuthCheck.Classify(DeleteWhere(s, UserIs(target)), caller, now) == AuthCheck.NotFound
  {
    var r := DeleteWhere(s, UserIs(target));
    CountDeleteAllOf(s, UserIs(target), target);
    CountDeleteNoneOf(s, UserIs(target), other);
    DeleteWhereRows(s, UserIs(target));
    forall i | 0 <= i < |r|
      ensures r[i].userId != target
    {
      assert r[i] in r;
    }
  }
}
