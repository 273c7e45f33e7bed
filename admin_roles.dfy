/**
 * The role-management page: an administrator creates, renames and deletes
 * rows of the `roles` table. Role names stay unique, and a role still
 * assigned to some row of `usuarios` cannot be deleted. This page keeps
 * its own session keys (`usuario_id`, `rol`) and its own connection.
 */
module AdminRoles {
  import opened Common

  const MsgNameRequired := "El nombre del rol es obligatorio."
  const MsgUpdated := "Rol actualizado exitosamente."
  const MsgDeleted := "Rol eliminado exitosamente."

  datatype Role = Role(id: nat, name: string, description: string)

  /** The Bootstrap alert class shown with the page's single message. */
  datatype Alert = Danger | Warning | Success

  /** The session keys this page reads. */
  datatype RoleSession = RoleSession(usuarioId: Option<int>, rol: Option<string>)

  /** Where the gate sends the request: to the login page, to the home page, or on to the handlers. */
  datatype Access = ToLogin | ToIndex | Granted

  /** The gate: both keys must be set, and `rol` must be exactly "Admin" (case matters). */
  function CheckAccess(s: RoleSession): (a: Access)
    ensures a == ToLogin <==> s.usuarioId.None? || s.rol.None?
    ensures a == Granted <==> s.usuarioId.Some? && s.rol == Some("Admin")
  {
    if s.usuarioId.None? || s.rol.None? then ToLogin
    else if s.rol.value != "Admin" then ToIndex
    else Granted
  }

  // ---------------------------------------------------------------------
  // The roles table
  // ---------------------------------------------------------------------

  predicate UniqueRoleIds(roles: seq<Role>)
  {
    forall i, j :: 0 <= i < j < |roles| ==> roles[i].id != roles[j].id
  }

  predicate UniqueNames(roles: seq<Role>)
  {
    forall i, j :: 0 <= i < j < |roles| ==> roles[i].name != roles[j].name
  }

  /** SELECT id_rol FROM roles WHERE nombre_rol = ? finds a row. */
  predicate HasName(roles: seq<Role>, name: string)
  {
    exists i :: 0 <= i < |roles| && roles[i].name == name
  }

  /** SELECT id_rol FROM roles WHERE nombre_rol = ? AND id_rol != ? finds a row. */
  predicate NameTakenByOther(roles: seq<Role>, name: string, id: int)
  {
    exists i :: 0 <= i < |roles| && roles[i].name == name && roles[i].id != id
  }

  /** UPDATE roles SET nombre_rol = ?, descripcion = ? WHERE id_rol = ? */
  function RenameRole(roles: seq<Role>, id: int, name: string, description: string): (r: seq<Role>)
    ensures |r| == |roles|
    ensures forall i :: 0 <= i < |roles| ==>
      r[i] == if roles[i].id == id then roles[i].(name := name, description := description) else roles[i]
  {
    seq(|roles|, i requires 0 <= i < |roles| =>
      if roles[i].id == id then roles[i].(name := name, description := description) else roles[i])
  }

  /** DELETE FROM roles WHERE id_rol = ? */
  function RemoveRole(roles: seq<Role>, id: int): (r: seq<Role>)
    ensures |r| <= |roles|
    ensures forall x :: x in r <==> x in roles && x.id != id
  {
    if roles == [] then []
    else
      var n := |roles| - 1;
      RemoveRole(roles[..n], id) + (if roles[n].id != id then [roles[n]] else [])
  }

  /** SELECT COUNT(*) FROM usuarios WHERE id_rol = ?, over the id_rol column of `usuarios`. */
  function CountAssigned(userRoles: seq<int>, id: int): (c: nat)
    ensures c <= |userRoles|
    ensures c == 0 <==> forall i :: 0 <= i < |userRoles| ==> userRoles[i] != id
  {
    if userRoles == [] then 0
    else
      var n := |userRoles| - 1;
      CountAssigned(userRoles[..n], id) + (if userRoles[n] == id then 1 else 0)
  }

  /** Renaming to a name no other role holds keeps names unique. */
  lemma RenameKeepsNamesUnique(roles: seq<Role>, id: int, name: string, description: string)
    requires UniqueRoleIds(roles) && UniqueNames(roles) && !NameTakenByOther(roles, name, id)
    ensures UniqueRoleIds(RenameRole(roles, id, name, description))
    ensures UniqueNames(RenameRole(roles, id, name, description))
  {
    var r := RenameRole(roles, id, name, description);
    forall i, j | 0 <= i < j < |r|
      ensures r[i].name != r[j].name
    {
      if roles[i].id == id && roles[j].id == id {
        assert false;
      } else if roles[i].id == id {
        assert r[j] == roles[j];
      } else if roles[j].id == id {
        assert r[i] == roles[i];
      }
    }
  }

  /** Appending a role whose id and name no earlier role has keeps both keys unique. */
  lemma AppendRoleKeepsUnique(p: seq<Role>, x: Role)
    requires UniqueRoleIds(p) && UniqueNames(p)
    requires forall y :: y in p ==> y.id != x.id && y.name != x.name
    ensures UniqueRoleIds(p + [x]) && UniqueNames(p + [x])
  {
    var q := p + [x];
    forall i, j | 0 <= i < j < |q|
      ensures q[i].id != q[j].id && q[i].name != q[j].name
    {
      assert q[i] == p[i];
      if j < |p| {
        assert q[j] == p[j];
      } else {
        assert q[i] in p;
      }
    }
  }

  /** Deleting rows keeps both keys unique. */
  lemma {:induction false} RemoveKeepsUnique(roles: seq<Role>, id: int)
    requires UniqueRoleIds(roles) && UniqueNames(roles)
    ensures UniqueRoleIds(RemoveRole(roles, id)) && UniqueNames(RemoveRole(roles, id))
  {
    if roles != [] {
      var n := |roles| - 1;
      var p := RemoveRole(roles[..n], id);
      RemoveKeepsUnique(roles[..n], id);
      forall y | y in p
        ensures y.id != roles[n].id && y.name != roles[n].name
      {
        var j :| 0 <= j < n && roles[..n][j] == y;
        assert roles[j] == y;
      }
      if roles[n].id != id {
        AppendRoleKeepsUnique(p, roles[n]);
      }
    }
  }

  // ---------------------------------------------------------------------
  // The page's state and handlers
  // ---------------------------------------------------------------------

  class RoleStore {
    var roles: seq<Role>
    /** The id_rol column of `usuarios`, one entry per user row. */
    var userRoles: seq<int>
    /** The next AUTO_INCREMENT value of roles.id_rol. */
    var nextRoleId: nat

    ghost predicate Valid()
      reads this
    {
      UniqueRoleIds(roles) && UniqueNames(roles) &&
      forall i :: 0 <= i < |roles| ==> roles[i].id < nextRoleId
    }

    constructor (roles: seq<Role>, userRoles: seq<int>, nextRoleId: nat)
      requires UniqueRoleIds(roles) && UniqueNames(roles)
      requires forall i :: 0 <= i < |roles| ==> roles[i].id < nextRoleId
      ensures Valid()
      ensures this.roles == roles && this.userRoles == userRoles && this.nextRoleId == nextRoleId
    {
      this.roles := roles;
      this.userRoles := userRoles;
      this.nextRoleId := nextRoleId;
    }

    /**
     * `crear`: trim both fields, refuse an empty name (PHP `empty`, so "0"
     * too), warn on a name already present, otherwise insert one role.
     * `writeError` is the connection's error text when the INSERT fails.
     */
    method Create(rawName: string, rawDescription: string, writeError: Option<string>)
      returns (message: string, alert: Alert)
      requires Valid()
      modifies this
      ensures Valid()
      ensures userRoles == old(userRoles)
      ensures var name := Trim(rawName);
        if PhpEmpty(name) then
          unchanged(this) && message == MsgNameRequired && alert == Danger
        else if HasName(old(roles), name) then
          unchanged(this) && message == "Ya existe un rol con el nombre '" + name + "'." && alert == Warning
        else if writeError.Some? then
          unchanged(this) && message == "Error al crear el rol: " + writeError.value && alert == Danger
        else
          roles == old(roles) + [Role(old(nextRoleId), name, Trim(rawDescription))] &&
          nextRoleId == old(nextRoleId) + 1 &&
          message == "Rol '" + name + "' creado exitosamente." && alert == Success
      ensures var name := Trim(rawName);
        var ok := !PhpEmpty(name) && !HasName(old(roles), name) && writeError.None?;
        (alert == Success <==> ok) &&
        roles == (if ok then old(roles) + [Role(old(nextRoleId), name, Trim(rawDescription))] else old(roles))
    {
      var name := Trim(rawName);
      var description := Trim(rawDescription);
      if PhpEmpty(name) {
        return MsgNameRequired, Danger;
      }
      if HasName(roles, name) {
        return "Ya existe un rol con el nombre '" + name + "'.", Warning;
      }
      if writeError.Some? {
        return "Error al crear el rol: " + writeError.value, Danger;
      }
      CreatedNameIsUnique(roles, Role(nextRoleId, name, description));
      roles := roles + [Role(nextRoleId, name, description)];
      nextRoleId := nextRoleId + 1;
      message, alert := "Rol '" + name + "' creado exitosamente.", Success;
    }

    /**
     * `editar`: trim both fields, refuse an empty name, warn when another
     * role already holds the name, otherwise rewrite that role's name and
     * description (an id matching no row changes nothing and still succeeds).
     */
    method Edit(id: int, rawName: string, rawDescription: string, writeError: Option<string>)
      returns (message: string, alert: Alert)
      requires Valid()
      modifies this
      ensures Valid()
      ensures userRoles == old(userRoles) && nextRoleId == old(nextRoleId)
      ensures var name := Trim(rawName);
        if PhpEmpty(name) then
          unchanged(this) && message == MsgNameRequired && alert == Danger
        else if NameTakenByOther(old(roles), name, id) then
          unchanged(this) && message == "Ya existe otro rol con el nombre '" + name + "'." && alert == Warning
        else if writeError.Some? then
          unchanged(this) && message == "Error al actualizar el rol: " + writeError.value && alert == Danger
        else
          roles == RenameRole(old(roles), id, name, Trim(rawDescription)) &&
          message == MsgUpdated && alert == Success
      ensures var name := Trim(rawName);
        var ok := !PhpEmpty(name) && !NameTakenByOther(old(roles), name, id) && writeError.None?;
        (alert == Success <==> ok) &&
        roles == (if ok then RenameRole(old(roles), id, name, Trim(rawDescription)) else old(roles))
    {
      var name := Trim(rawName);
      var description := Trim(rawDescription);
      if PhpEmpty(name) {
        return MsgNameRequired, Danger;
      }
      if NameTakenByOther(roles, name, id) {
        return "Ya existe otro rol con el nombre '" + name + "'.", Warning;
      }
      if writeError.Some? {
        return "Error al actualizar el rol: " + writeError.value, Danger;
      }
      RenameKeepsNamesUnique(roles, id, name, description);
      roles := RenameRole(roles, id, name, description);
      message, alert := MsgUpdated, Success;
    }

    /**
     * `eliminar`: refuse while any user row carries the role, stating how
     * many; otherwise delete the role.
     */
    method Delete(id: int, writeError: Option<string>)
      returns (message: string, alert: Alert)
      requires Valid()
      modifies this
      ensures Valid()
      ensures userRoles == old(userRoles) && nextRoleId == old(nextRoleId)
      ensures var holders := CountAssigned(old(userRoles), id);
        if holders > 0 then
          unchanged(this) && alert == Danger &&
          message == "No se puede eliminar este rol porque tiene " + NatToString(holders) +
                     " usuario(s) asignado(s). Primero reasigne o elimine los usuarios."
        else if writeError.Some? then
          unchanged(this) && message == "Error al eliminar el rol: " + writeError.value && alert == Danger
        else
          roles == RemoveRole(old(roles), id) && message == MsgDeleted && alert == Success
      ensures var ok := CountAssigned(old(userRoles), id) == 0 && writeError.None?;
        (alert == Success <==> ok) && roles == (if ok then RemoveRole(old(roles), id) else old(roles))
    {
      var holders := CountAssigned(userRoles, id);
      if holders > 0 {
        return "No se puede eliminar este rol porque tiene " + NatToString(holders) +
               " usuario(s) asignado(s). Primero reasigne o elimine los usuarios.", Danger;
      }
      if writeError.Some? {
        return "Error al eliminar el rol: " + writeError.value, Danger;
      }
      RemoveKeepsUnique(roles, id);
      ghost var before := roles;
      roles := RemoveRole(roles, id);
      forall i | 0 <= i < |roles|
        ensures roles[i].id < nextRoleId
      {
        assert roles[i] in before;
      }
      message, alert := MsgDeleted, Success;
    }
  }

  /** The POST the page receives; `NoAction` when `accion` names no handler. */
  datatype RoleRequest =
    | CreateRole(name: string, description: string)
    | EditRole(id: int, name: string, description: string)
    | DeleteRole(id: int)
    | NoAction

  /**
   * The page: the gate runs before any handler, so a caller it turns away
   * changes nothing; otherwise the request's handler runs and sets the one
   * message (none without an action).
   */
  method RolesPost(store: RoleStore, session: RoleSession, req: RoleRequest, writeError: Option<string>)
    returns (access: Access, message: string, alert: Option<Alert>)
    requires store.Valid()
    modifies store
    ensures store.Valid()
    ensures access == CheckAccess(session)
    ensures access != Granted || req.NoAction? ==> unchanged(store) && message == "" && alert.None?
    ensures access == Granted && !req.NoAction? ==> alert.Some?
    ensures store.userRoles == old(store.userRoles)
    ensures access == Granted && req.CreateRole? ==>
      var name := Trim(req.name);
      var ok := !PhpEmpty(name) && !HasName(old(store.roles), name) && writeError.None?;
      (alert == Some(Success) <==> ok) &&
      store.roles == (if ok then old(store.roles) + [Role(old(store.nextRoleId), name, Trim(req.description))]
                      else old(store.roles))
    ensures access == Granted && req.EditRole? ==>
      var name := Trim(req.name);
      var ok := !PhpEmpty(name) && !NameTakenByOther(old(store.roles), name, req.id) && writeError.None?;
      (alert == Some(Success) <==> ok) &&
      store.roles == (if ok then RenameRole(old(store.roles), req.id, name, Trim(req.description))
                      else old(store.roles))
    ensures access == Granted && req.DeleteRole? ==>
      var ok := CountAssigned(old(store.userRoles), req.id) == 0 && writeError.None?;
      (alert == Some(Success) <==> ok) &&
      store.roles == (if ok then RemoveRole(old(store.roles), req.id) else old(store.roles))
  {
    access := CheckAccess(session);
    message, alert := "", None;
    ghost var roles0, userRoles0, next0 := store.roles, store.userRoles, store.nextRoleId;
    if access != Granted {
      return;
    }
    match req {
      case CreateRole(name, description) =>
        var m, a := store.Create(name, description, writeError);
        ghost var ok := !PhpEmpty(Trim(name)) && !HasName(roles0, Trim(name)) && writeError.None?;
        assert (a == Success <==> ok) &&
          store.roles == (if ok then roles0 + [Role(next0, Trim(name), Trim(description))] else roles0);
        message, alert := m, Some(a);
      case EditRole(id, name, description) =>
        var m, a := store.Edit(id, name, description, writeError);
        ghost var ok := !PhpEmpty(Trim(name)) && !NameTakenByOther(roles0, Trim(name), id) && writeError.None?;
        assert (a == Success <==> ok) &&
          store.roles == (if ok then RenameRole(roles0, id, Trim(name), Trim(description)) else roles0);
        message, alert := m, Some(a);
      case DeleteRole(id) =>
        var m, a := store.Delete(id, writeError);
        ghost var ok := CountAssigned(userRoles0, id) == 0 && writeError.None?;
        assert (a == Success <==> ok) && store.roles == (if ok then RemoveRole(roles0, id) else roles0);
        message, alert := m, Some(a);
      case NoAction =>
    }
  }

  // ---------------------------------------------------------------------
  // What the handlers guarantee together
  // ---------------------------------------------------------------------

  /**
   * After a successful create the new name is present exactly once, and a
   * role carrying the next AUTO_INCREMENT id keeps ids unique.
   */
  lemma {:induction false} CreatedNameIsUnique(roles: seq<Role>, row: Role)
    requires UniqueRoleIds(roles) && UniqueNames(roles) && !HasName(roles, row.name)
    requires forall i :: 0 <= i < |roles| ==> roles[i].id < row.id
    ensures UniqueRoleIds(roles + [row]) && UniqueNames(roles + [row]) && HasName(roles + [row], row.name)
  {
    var r := roles + [row];
    assert r[|roles|] == row;
    forall i, j | 0 <= i < j < |r|
      ensures r[i].name != r[j].name && r[i].id != r[j].id
    {
      if j == |roles| {
        assert r[i] == roles[i];
      } else {
        assert r[i] == roles[i] && r[j] == roles[j];
      }
    }
  }
}
