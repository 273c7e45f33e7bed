/**
 * Registration: every input rule is checked and the failures accumulate,
 * one message per failed rule; only a form without errors reaches the
 * store, which refuses a registered email and otherwise inserts one
 * unverified student carrying a fresh verification token valid for 24 hours.
 */
module Register {
  import opened Common
  import opened Store
  import Login
  import Verify

  /** PASSWORD_MIN_LENGTH */
  const PasswordMinLength: nat := 8
  /** TOKEN_LENGTH: hexadecimal characters of a verification token. */
  const TokenLength: nat := 64
  /** The verification link stays valid for 24 hours. */
  const TokenValidity: int := 86400

  const MsgInvalidEmail := "Por favor ingresa un email válido."
  /** The message interpolates PASSWORD_MIN_LENGTH, that is 8. */
  const MsgTooShort := "La contraseña debe tener al menos " + "8 caracteres."
  const MsgMismatch := "Las contraseñas no coinciden."
  const MsgWeak :=
    "La contraseña debe contener al menos: " + "1 mayúscula, 1 minúscula, 1 número y " +
    "1 carácter especial (@$!%*?&#)."
  const MsgBadPlan := "Por favor selecciona un plan válido."
  const MsgDuplicate := "Este email ya está registrado."
  const MsgMailFailed :=
    "Usuario registrado, pero hubo un error al enviar el email de verificación. Por favor contacta a soporte."
  const MsgFailed := "Error al procesar el registro. Por favor intenta nuevamente."

  // ---------------------------------------------------------------------
  // The rules
  // ---------------------------------------------------------------------

  predicate HasUpper(s: string) { exists i :: 0 <= i < |s| && 'A' <= s[i] <= 'Z' }
  predicate HasLower(s: string) { exists i :: 0 <= i < |s| && 'a' <= s[i] <= 'z' }
  predicate HasDigit(s: string) { exists i :: 0 <= i < |s| && IsDigit(s[i]) }
  predicate HasSpecial(s: string) { exists i :: 0 <= i < |s| && s[i] in "@$!%*?&#" }

  /** The complexity rule: one upper-case letter, one lower-case letter, one digit, one of @$!%*?&#. */
  predicate IsComplex(s: string)
  {
    HasUpper(s) && HasLower(s) && HasDigit(s) && HasSpecial(s)
  }

  /** The sanitized email is non-empty (in PHP's sense) and `validEmail` accepts it. */
  predicate EmailOk(email: string, validEmail: string -> bool)
  {
    !PhpEmpty(email) && validEmail(email)
  }

  /** `in_array($plan, [1, 2, 3])`; `None` is a missing or non-integer field. */
  predicate PlanOk(plan: Option<int>)
  {
    plan.Some? && plan.value in {1, 2, 3}
  }

  function Check(ok: bool, message: string): seq<string>
  {
    if ok then [] else [message]
  }

  /** The number of rules a form breaks. */
  function FailedRules(email: string, validEmail: string -> bool, password: string, confirm: string,
                       plan: Option<int>): nat
  {
    (if EmailOk(email, validEmail) then 0 else 1) +
    (if |password| >= PasswordMinLength then 0 else 1) +
    (if password == confirm then 0 else 1) +
    (if IsComplex(password) then 0 else 1) +
    (if PlanOk(plan) then 0 else 1)
  }

  /** The accumulated messages, in the order the rules are checked. */
  function RegistrationErrors(email: string, validEmail: string -> bool, password: string, confirm: string,
                              plan: Option<int>): (errors: seq<string>)
    ensures |errors| == FailedRules(email, validEmail, password, confirm, plan)
    ensures errors == [] <==>
      EmailOk(email, validEmail) && |password| >= PasswordMinLength && password == confirm &&
      IsComplex(password) && PlanOk(plan)
  {
    Check(EmailOk(email, validEmail), MsgInvalidEmail) +
    Check(|password| >= PasswordMinLength, MsgTooShort) +
    Check(password == confirm, MsgMismatch) +
    Check(IsComplex(password), MsgWeak) +
    Check(PlanOk(plan), MsgBadPlan)
  }

  /** The five rule messages are pairwise different. */
  lemma RuleMessagesDistinct()
    ensures MsgInvalidEmail != MsgTooShort && MsgInvalidEmail != MsgMismatch
    ensures MsgInvalidEmail != MsgWeak && MsgInvalidEmail != MsgBadPlan
    ensures MsgTooShort != MsgMismatch && MsgTooShort != MsgWeak && MsgTooShort != MsgBadPlan
    ensures MsgMismatch != MsgWeak && MsgMismatch != MsgBadPlan && MsgWeak != MsgBadPlan
  {
    assert |MsgInvalidEmail| == 34 && |MsgTooShort| == 47 && |MsgMismatch| == 29;
    assert |MsgWeak| == 106 && |MsgBadPlan| == 36;
  }

  /** A message is among five checks' output exactly when one of them failed with it. */
  lemma InChecks(x: string, a: seq<string>, b: seq<string>, c: seq<string>, d: seq<string>, e: seq<string>)
    ensures x in a + b + c + d + e <==> x in a || x in b || x in c || x in d || x in e
  {
  }

  /** Each rule's message appears exactly when that rule fails. */
  lemma ErrorsNameFailedRules(email: string, validEmail: string -> bool, password: string, confirm: string,
                              plan: Option<int>)
    ensures var errors := RegistrationErrors(email, validEmail, password, confirm, plan);
      (MsgInvalidEmail in errors <==> !EmailOk(email, validEmail)) &&
      (MsgTooShort in errors <==> |password| < PasswordMinLength) &&
      (MsgMismatch in errors <==> password != confirm) &&
      (MsgWeak in errors <==> !IsComplex(password)) &&
      (MsgBadPlan in errors <==> !PlanOk(plan))
  {
    var a := Check(EmailOk(email, validEmail), MsgInvalidEmail);
    var b := Check(|password| >= PasswordMinLength, MsgTooShort);
    var c := Check(password == confirm, MsgMismatch);
    var d := Check(IsComplex(password), MsgWeak);
    var e := Check(PlanOk(plan), MsgBadPlan);
    RuleMessagesDistinct();
    InChecks(MsgInvalidEmail, a, b, c, d, e);
    InChecks(MsgTooShort, a, b, c, d, e);
    InChecks(MsgMismatch, a, b, c, d, e);
    InChecks(MsgWeak, a, b, c, d, e);
    InChecks(MsgBadPlan, a, b, c, d, e);
  }

  /** A password of fewer than eight characters is refused, whatever else holds. */
  lemma ShortPasswordRefused(email: string, validEmail: string -> bool, password: string, confirm: string,
                             plan: Option<int>)
    requires |password| < PasswordMinLength
    ensures RegistrationErrors(email, validEmail, password, confirm, plan) != []
    ensures MsgTooShort in RegistrationErrors(email, validEmail, password, confirm, plan)
  {
    ErrorsNameFailedRules(email, validEmail, password, confirm, plan);
  }

  // ---------------------------------------------------------------------
  // The page
  // ---------------------------------------------------------------------

  /** Either an authenticated caller is sent to the dashboard, or the form is shown with its outcome. */
  datatype Outcome = ToDashboard | Form(errors: seq<string>, success: bool)

  /**
   * What the mail step answered after the INSERT: the verification email
   * went out, the service reported a failure, or setting up the service
   * threw (the exception reaches the page's generic handler).
   */
  datatype MailResult = Sent | NotSent | Threw

  /** The users row a successful registration inserts. */
  function NewAccount(id: nat, email: string, hash: string, plan: int, token: string, now: int): (u: User)
    ensures u.role == "student" && !u.verified
    ensures u.verificationToken == Some(token) && u.tokenExpiresAt == Some(now + TokenValidity)
  {
    User(id, email, hash, "student", plan, false, Some(token), Some(now + TokenValidity))
  }

  /**
   * A POST to the registration page. `validEmail` stands for
   * FILTER_VALIDATE_EMAIL, `hash` for `password_hash`, `randomBytes` for
   * `random_bytes(32)` and `mail` for the mail service's answer. Store
   * statements: 0 the duplicate lookup, 1 the INSERT; a failure of either
   * adds the generic message. A mail service that throws also adds the
   * generic message, but the inserted row stays.
   */
  method RegisterPost(db: Database, caller: CallerState, email: Option<string>, password: Option<string>,
                      confirm: Option<string>, plan: Option<int>, validEmail: string -> bool,
                      hash: string -> string, randomBytes: seq<Byte>, now: int, mail: MailResult,
                      failAt: Option<nat>)
    returns (outcome: Outcome, after: CallerState)
    requires db.Valid() && |randomBytes| == TokenLength / 2
    modifies db
    ensures db.Valid()
    ensures db.plans == old(db.plans) && db.sessions == old(db.sessions) && db.logs == old(db.logs)
    ensures db.nextSessionId == old(db.nextSessionId)
    ensures caller.userId.Some? ==> outcome == ToDashboard && after == caller && unchanged(db)
    ensures caller.userId.None? ==>
      var e := PostedEmail(email);
      var p := Posted(password);
      var c := Posted(confirm);
      var errs := RegistrationErrors(e, validEmail, p, c, plan);
      var row := NewAccount(old(db.nextUserId), e, hash(p), if plan.Some? then plan.value else 0,
                            Bin2Hex(randomBytes), now);
      if errs != [] then
        outcome == Form(errs, false) && after == caller && unchanged(db)
      else if Raises(failAt, 0) || (!HasEmail(old(db.users), e) && Raises(failAt, 1)) then
        outcome == Form([MsgFailed], false) && after == caller && unchanged(db)
      else if HasEmail(old(db.users), e) then
        outcome == Form([MsgDuplicate], false) && after == caller && unchanged(db)
      else
        db.users == old(db.users) + [row] && db.nextUserId == old(db.nextUserId) + 1 &&
        (mail == Sent ==> outcome == Form([], true) && after == caller.(registrationEmail := Some(e))) &&
        (mail == NotSent ==> outcome == Form([MsgMailFailed], false) && after == caller) &&
        (mail == Threw ==> outcome == Form([MsgFailed], false) && after == caller)
  {
    after := caller;
    if caller.userId.Some? {
      return ToDashboard, caller;
    }
    var e := PostedEmail(email);
    var p := Posted(password);
    var c := Posted(confirm);
    var errs := RegistrationErrors(e, validEmail, p, c, plan);
    if errs != [] {
      return Form(errs, false), caller;
    }
    if Raises(failAt, 0) {
      return Form([MsgFailed], false), caller;
    }
    if FindUserByEmail(db.users, e).Some? {
      return Form([MsgDuplicate], false), caller;
    }
    if Raises(failAt, 1) {
      return Form([MsgFailed], false), caller;
    }
    var token := Bin2Hex(randomBytes);
    db.InsertUser(NewAccount(db.nextUserId, e, hash(p), plan.value, token, now));
    match mail {
      case Sent =>
        outcome := Form([], true);
        after := caller.(registrationEmail := Some(e));
      case NotSent =>
        outcome := Form([MsgMailFailed], false);
      case Threw =>
        outcome := Form([MsgFailed], false);
    }
  }

  // ---------------------------------------------------------------------
  // The new account and the rest of the system
  // ---------------------------------------------------------------------

  /** The token is `bin2hex` of 32 random bytes: 64 hexadecimal characters. */
  lemma TokenShape(randomBytes: seq<Byte>)
    requires |randomBytes| == TokenLength / 2
    ensures |Bin2Hex(randomBytes)| == TokenLength && AllHex(Bin2Hex(randomBytes))
  {
  }

  /** A freshly registered account is turned away at login until it is verified. */
  lemma NewAccountCannotLogIn(users: seq<User>, plans: seq<Plan>, row: User, password: string,
                              verify: (string, string) -> bool)
    requires UniqueEmails(users) && !HasEmail(users, row.email) && !row.verified
    requires !PhpEmpty(row.email) && !PhpEmpty(password) && FindPlan(plans, row.planId).Some?
    ensures Login.CheckCredentials(users + [row], plans, row.email, password, verify) == Login.Denied(Login.MsgUnverified)
  {
    var u := users + [row];
    assert u[|users|] == row;
    assert UniqueEmails(u);
  }

  /**
   * The emailed link verifies the new account while it is valid (up to and
   * including the 24-hour mark) and is reported expired afterwards, provided
   * no other account holds the same token.
   */
  lemma {:induction false} LinkValidFor24Hours(users: seq<User>, row: User, token: string, created: int, later: int)
    requires row.verificationToken == Some(token) && row.tokenExpiresAt == Some(created + TokenValidity)
    requires !row.verified && !PhpEmpty(token)
    requires forall i :: 0 <= i < |users| ==> users[i].verificationToken != Some(token)
    ensures later <= created + TokenValidity ==>
      Verify.Classify(users + [row], Some(token), later) == Verify.Verifies(|users|)
    ensures later > created + TokenValidity ==>
      Verify.Classify(users + [row], Some(token), later) == Verify.TokenExpired(|users|)
  {
    var u := users + [row];
    var found := Verify.FindUserByToken(u, token);
    assert u[|users|] == row;
    assert found.Some?;
    assert found.value == |users|;
  }
}
