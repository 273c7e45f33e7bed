# Concurrent-session engine of the educational platform, in Dafny

The platform is a PHP web application. Students register, verify their email and log in. Each subscription plan caps how many devices may hold a session at once. The core is a per-user concurrent-session engine kept in two tables: `active_sessions` and the append-only `session_logs`. It has four operations:

- **Admission with rotation at login.** A user already at the plan's cap loses the least recently active session. The loss is logged as `session_rotated`. A fresh session and a `login` entry follow, all in one transaction.
- **Per-request validation.** The `auth_check` middleware classifies the caller as Absent, NotFound, Expired or Active. It logs out the first three and refreshes `last_activity` for the last. It also regenerates the PHP session id every 30 minutes.
- **Manual logout.** It deletes the caller's own row and logs `logout`.
- **An administrator's forced logout** of every session of a user.

Around the engine the project also models:

- the email-verification token page;
- the registration rules;
- the administrator's user handlers (delete, update, create) and the admin-role gate;
- the role-management page;
- the dashboard's display helpers.

Modules follow the source files:

| module | models |
|---|---|
| `Common` | PHP's `empty`, the `bin2hex`, `substr`, `trim` and FILTER_SANITIZE_EMAIL string functions, and decimal rendering |
| `Store` | The rows and the SQL statements over them. `Store.Database` is a class whose `seq` fields are the tables; the handlers change those fields in place. |
| `Login` | `login.php` |
| `AuthCheck` | `includes/auth_check.php` |
| `Logout` | `logout.php` |
| `AdminDashboard` | `admin_dashboard.php` |
| `Verify` | `verify.php` |
| `Register` | `register.php` |
| `AdminRoles` | `admin_roles.php`, with its own `RoleStore` class |
| `Dashboard` | `dashboard.php` |

Whatever the pages take from outside becomes a parameter:

- the clock, as `now` in seconds;
- the request headers;
- `password_hash` / `password_verify`;
- FILTER_VALIDATE_EMAIL;
- the bytes `random_bytes` returned;
- `date` formatting;
- whether the verification email went out, failed, or the mail service threw;
- the MySQL error text.

Storage faults are a parameter `failAt`. Each handler numbers its store statements from 0 in the order it issues them; `failAt == Some(k)` means statement k raises.

Behaviour that is easy to misread in the code:

- **Eviction has no tie-break.** The eviction query orders only by `last_activity` (login.php:82-88) and breaks no ties, so the model lets admission evict any of the user's rows with minimal `last_activity` (`Login.AllowedEviction`).
- **One `forced_logout` entry per forced logout.** The administrator's forced logout writes a single `forced_logout` entry however many rows it deleted. That entry has a NULL IP and the device text "Admin action".
- **The role page cannot be reached through the platform's own login.** `admin_roles.php` reads the session keys `usuario_id` and `rol` and compares against `'Admin'`. The login page sets only `user_id` and `role` (with `'admin'`). The role page also uses its own `roles` and `usuarios` tables, so it is modelled with its own session type and store.
- **The middleware's storage-error branch dies in this configuration.** `config/config.php` sets `APP_ENV` to `development`, so a storage error there ends the request with `die` rather than a forced logout. Both environments are modelled.

## Model

| member | source | states |
|---|---|---|
| Common.NatToString | admin_roles.php:124 | Integer interpolation renders at least one decimal digit, with no leading zero except for 0 itself |
| Common.ParseNatToString | admin_roles.php:124 | Reading back the rendered digits gives the number again: the round trip of decimal rendering |
| Common.NatToStringInjective | admin_roles.php:124 | Different counts print differently |
| Common.IntToString | login.php:101 | The rendering of a cap starts with '-' exactly when the cap is negative |
| Common.IntToStringReadsBack | login.php:101 | The digits after the optional sign read back as the cap's magnitude |
| Common.Bin2Hex | login.php:72 | `bin2hex` gives two lower-case hexadecimal digits per byte |
| Common.Hex2BinOfBin2Hex | login.php:72 | Decoding the hexadecimal token gives back the random bytes it came from |
| Common.Bin2HexInjective | login.php:72 | Distinct random byte strings give distinct session tokens |
| Common.Truncate | login.php:69 | `substr($ua, 0, 500)`: a prefix of the input of at most 500 characters; the input itself when it fits; exactly 500 characters when it does not fit |
| Common.Trim | admin_roles.php:39-40 | `trim` neither starts nor ends with one of the six characters PHP strips |
| Common.LeadingStripped | admin_roles.php:39-40 | The run `trim` drops from the front is all strippable, and it stops at a character that is not |
| Common.TrailingStripped | admin_roles.php:39-40 | The run `trim` drops from the back is all strippable, and it stops at a character that is not |
| Common.TrimIsSlice | admin_roles.php:39-40 | `trim` keeps one contiguous slice of its input and cuts away only strippable characters |
| Common.SanitizeEmail | login.php:26 | FILTER_SANITIZE_EMAIL keeps only allowed characters and never lengthens the field |
| Common.SanitizeDistributes | login.php:26 | FILTER_SANITIZE_EMAIL works character by character: sanitizing a concatenation concatenates the sanitized parts, so the kept characters stay in order |
| Common.SanitizeKeepsAllowed | login.php:26 | Every allowed character survives as often as it occurs, and no other character survives |
| Common.SanitizeKeepsCleanEmail | login.php:26 | An address made only of allowed characters passes through unchanged |
| Common.SanitizeIdempotent | login.php:26 | Sanitizing twice equals sanitizing once |
| Store.ActionNameInjective | dashboard.php:76-83 | The five `action` column values are pairwise distinct |
| Store.CountForPositive | login.php:62-64 | A user's session count is positive exactly when the user has some row |
| Store.CountForAppend | login.php:120-133 | Inserting a row raises only its owner's count, by one |
| Store.OldestFor | login.php:82-88 | `ORDER BY last_activity ASC LIMIT 1` finds a row exactly when the user has one, and the row it finds has minimal `last_activity` among the user's rows |
| Store.FindSession | includes/auth_check.php:77-87 | The lookup returns a row carrying both the user id and the token, and returns nothing only when no row carries both |
| Store.DeleteWhereRows | logout.php:22-28 | A row survives a DELETE exactly when it was present and does not match the WHERE clause |
| Store.Touch | includes/auth_check.php:154-158 | The UPDATE sets `last_activity` of the rows with that id to now and leaves every other row as it was |
| Store.DeleteKeepsUnique | login.php:107-108 | A DELETE keeps ids and tokens unique |
| Store.CountDeleteNoneOf | admin_dashboard.php:112 | A DELETE that matches none of a user's rows keeps that user's count |
| Store.CountDeleteAllOf | admin_dashboard.php:112 | A DELETE that matches all of a user's rows leaves that user with none |
| Store.CountDeleteId | login.php:107-108 | Deleting one row by its unique id lowers its owner's count by one and no other user's count |
| Store.CountDeleteOnly | login.php:107-108 | A DELETE matching exactly one row lowers that row owner's count by one |
| Store.CountTouch | includes/auth_check.php:154-158 | Refreshing `last_activity` changes no user's count |
| Store.FindSessionTouch | includes/auth_check.php:154-158 | Refreshing `last_activity` does not change which row a lookup finds |
| Store.DeletedTokenNotFound | includes/auth_check.php:126-127 | After the row holding a unique token is deleted, no row answers a lookup with that token |
| Store.DeleteLeavesNoMatch | logout.php:22-28 | After `DELETE ... WHERE user_id AND session_token`, that pair matches no row |
| Store.DeleteNothing | logout.php:22-28 | A DELETE that matches no row leaves the table as it was |
| Store.DeleteIdempotent | logout.php:22-28 | Running the same DELETE twice deletes nothing the second time, so a repeated logout is idempotent on sessions |
| Store.FindUserByEmail | login.php:35-42 | The lookup by email returns a row with that email, and returns nothing exactly when no user has it |
| Store.FindPlan | login.php:35-40 | The plan join finds a plan with the user's plan id, and finds nothing only when no plan has it |
| Store.UpdateUser | admin_dashboard.php:51-60 | An UPDATE keyed by id rewrites exactly the rows with that id and leaves the others as they were |
| Store.DeleteUser | admin_dashboard.php:36 | `DELETE FROM users WHERE id` keeps exactly the rows with another id |
| Store.DeleteUserKeepsUnique | admin_dashboard.php:36 | Deleting users keeps ids and emails unique |
| Store.Database.DeleteSessions | includes/auth_check.php:126-127 | The sessions table becomes DeleteWhere of the old table; the schema's constraints hold and nothing else changes |
| Store.Database.TouchSession | includes/auth_check.php:154-158 | The sessions table becomes Touch of the old table, the unique keys hold, and nothing else changes |
| Store.Database.InsertUser | register.php:75-88 | A user with the next id and an unregistered email is appended and the AUTO_INCREMENT advances; nothing else changes |
| Store.Database.UpdateUserRow | verify.php:45-51 | A users UPDATE that keeps id and email becomes UpdateUser of the old rows and keeps the unique keys |
| Store.Database.DeleteUserRow | admin_dashboard.php:36 | The users table becomes DeleteUser of the old rows and keeps the unique keys |
| Login.CheckCredentials | login.php:29-52 | Empty fields, with "0" counted as empty, are refused first; an unknown email is refused with "Credenciales incorrectas"; an unverified account is refused with the verify message; access is granted only to a verified user holding that email whose hash accepts the password and whose plan exists |
| Login.AdmissionCount | login.php:79-133 | Below the cap admission adds exactly one row for the user. A rotation keeps the user's count. No other user's count changes. |
| Login.AdmissionKeepsCap | login.php:79-133 | A count at or below the cap before admission stays at or below it afterwards, for a cap of at least one |
| Login.AdmissionDoesNotRepairOvershoot | login.php:79-108 | A user already over the cap, for instance after a plan downgrade, stays over it: one login evicts at most one row |
| Login.EvictedIsLeastRecent | login.php:82-88 | The rotated row belongs to the user, no row of the user is less recently active, and the user was at or above the cap |
| Login.RotationDetails | login.php:101 | The rotation details end with the incoming IP address |
| Login.AdmissionLogShape | login.php:92-148 | A `session_rotated` entry comes first exactly when a row was evicted, and it carries the evicted row's device and IP. Exactly one `login` entry with the new device comes last. |
| Login.InsertKeepsKeys | login.php:120-133 | Inserting a row with the next id and an unused token keeps ids and tokens unique |
| Login.RotateIfFull | login.php:79-108 | At or above the cap, one least recently active row of the user is logged as rotated and deleted; below the cap, nothing changes |
| Login.InsertSession | login.php:120-133 | The new row is appended and the lookup by user and token then finds it |
| Login.Admit | login.php:75-175 | A committed transaction is the allowed eviction, then the insert, then the log in order. Any failure, including a duplicate token, rolls back sessions and logs. |
| Login.AdmittedRowFound | login.php:120-133 | After admission the middleware's lookup by user and token finds the fresh row |
| Login.RotatedThenNotFound | login.php:107-133 | A device whose row was rotated out, when the new row carries another token, takes the middleware's NotFound branch (includes/auth_check.php:89-110) at any later time |
| Login.HolderDecides | login.php:34-51 | For the user holding the email: a missing plan row gives "Credenciales incorrectas"; a verified holder with a plan is granted, with that user and plan, exactly when `password_verify` accepts, and otherwise gets "Credenciales incorrectas" |
| Login.LoginPost | login.php:16-181 | An already signed-in caller is redirected. Failed gate checks report their message and change nothing. A success stores `bin2hex` of the 64 random bytes (128 characters) both in the new row and in the caller's session, with device info truncated to 500 characters. A failing statement reports the generic error and sets no credential. On success the sessions table is the allowed eviction followed by the insert, and the log gains the admission entries, exactly as the transaction states. |
| AuthCheck.Classify | includes/auth_check.php:65-123 | Absent exactly without both session keys. NotFound exactly when no row carries the pair. Expired when inactive for strictly more than 86400 s, Active otherwise. |
| AuthCheck.NextRegeneration | includes/auth_check.php:179-184 | `last_regeneration` is set when absent, reset to now when more than 1800 s have passed, and otherwise kept |
| AuthCheck.RegenerationIsPeriodic | includes/auth_check.php:179-184 | After a reset the timestamp stays put for the next 1800 s |
| AuthCheck.ExpiredThenNotFound | includes/auth_check.php:119-127 | After the Expired branch deleted the row, the same caller takes the NotFound branch at any later time |
| AuthCheck.TouchKeepsActive | includes/auth_check.php:154-161 | After the refresh the caller is still Active and no user's count has changed |
| AuthCheck.Validate | includes/auth_check.php:65-173 | Only Active lets the request through. Absent touches nothing. NotFound appends one `forced_logout` entry and deletes nothing. Expired deletes that row and appends one `session_expired` entry. Active refreshes only that row and logs nothing. Failed log writes are swallowed; any other storage error forces a logout in production and dies in development. |
| Logout.LogoutPost | logout.php:15-52 | The caller's session is always emptied. Without both keys nothing is touched. Otherwise only rows matching user and token are deleted and one `logout` entry is appended, even when no row matched. A failed DELETE writes no entry. |
| Logout.LogoutEndsSession | logout.php:22-28 | A logged-out cookie is rejected by the middleware as NotFound |
| Logout.LogoutSparesOthers | logout.php:22-28 | Logging out leaves every other user's sessions alone |
| Logout.LogoutFreesOneSlot | logout.php:22-28 | With unique tokens, logout lowers the caller's count by one when the row was present and by zero otherwise |
| AdminDashboard.DeleteHandler | admin_dashboard.php:27-42 | Self-deletion is refused with the prefixed message and changes nothing; otherwise exactly the target user is removed, unless the statement fails |
| AdminDashboard.UpdateHandler | admin_dashboard.php:45-67 | Only the target's plan and verified flag change; sessions are not trimmed |
| AdminDashboard.CreateHandler | admin_dashboard.php:70-104 | An empty email or password is refused, and so is a registered email. Otherwise one verified user is inserted with the given role (default "student"). Each failure adds one error and changes nothing. |
| AdminDashboard.LogoutUserHandler | admin_dashboard.php:107-126 | Every session of the target is deleted and exactly one `forced_logout` entry is appended. When the entry fails, the deletions stay. |
| AdminDashboard.AdminPost | admin_dashboard.php:13-126 | A role other than exactly "admin" is turned away before any change; otherwise an action adds exactly one message |
| AdminDashboard.ForcedLogoutClearsTarget | admin_dashboard.php:112 | After the forced logout the target has no session, other users keep theirs, and the target's cookie is rejected as NotFound |
| Verify.FindUserByToken | verify.php:23-28 | The lookup returns a user holding the token, and returns nothing exactly when no user holds it |
| Verify.Classify | verify.php:17-43 | No token, or an empty one, is reported first, then an unknown token. The already-verified check precedes the strict expiry check (a NULL expiry counts as expired). Otherwise the link verifies. |
| Verify.MarkVerified | verify.php:45-49 | The success update sets verified and clears token and expiry, and keeps the rest of the row |
| Verify.VerifyGet | verify.php:17-67 | Each branch shows its alert class and message. Only the success branch changes the table, through MarkVerified on that user. A storage error shows the generic error with `verified` false. |
| Verify.LinkWorksOnce | verify.php:30-51 | Reusing a token after a successful verification hits the unknown-token branch |
| Verify.VerifyTouchesOnlyHolder | verify.php:45-51 | Verification changes no user other than the token's holder |
| Register.RegistrationErrors | register.php:33-55 | There is one message per failed rule, and none exactly when all rules pass |
| Register.ErrorsNameFailedRules | register.php:33-55 | Each rule's message is present exactly when that rule fails (email, length of 8, confirmation, complexity, plan 1-3) |
| Register.ShortPasswordRefused | register.php:37-39 | A password under eight characters is always refused |
| Register.NewAccount | register.php:75-78 | The new row is an unverified student that carries the token and an expiry 24 hours later |
| Register.RegisterPost | register.php:16-106 | A signed-in caller is redirected. Rule failures never reach the store. A registered email is refused without an insert. Otherwise exactly one new account row is appended, and the email outcome decides the message; a mail service that throws shows the generic error but keeps the row. Storage errors change nothing. |
| Register.TokenShape | register.php:68 | The verification token has 64 hexadecimal characters |
| Register.NewAccountCannotLogIn | register.php:75-78 | A freshly registered account is refused at login with the unverified message |
| Register.LinkValidFor24Hours | register.php:68-69 | The emailed link verifies the account up to the 24-hour mark and is reported expired afterwards |
| AdminRoles.CheckAccess | admin_roles.php:19-29 | Missing keys go to the login page; only `rol` exactly "Admin" is let through |
| AdminRoles.RenameRole | admin_roles.php:95-96 | Only the role with that id gets the new name and description |
| AdminRoles.RemoveRole | admin_roles.php:128-129 | Exactly the roles with another id remain |
| AdminRoles.CountAssigned | admin_roles.php:115-120 | The count of users holding the role is zero exactly when no user row carries its id |
| AdminRoles.RenameKeepsNamesUnique | admin_roles.php:85-96 | Renaming to a name no other role holds keeps names unique |
| AdminRoles.RemoveKeepsUnique | admin_roles.php:128-129 | Deleting a role keeps ids and names unique |
| AdminRoles.CreatedNameIsUnique | admin_roles.php:48-63 | After a create the new name is present exactly once, and role ids stay unique |
| AdminRoles.RoleStore.Create | admin_roles.php:38-71 | An empty trimmed name, including "0", is refused, and an existing name draws a warning; neither changes anything. Otherwise one role with the next id is added. |
| AdminRoles.RoleStore.Edit | admin_roles.php:74-108 | A name held by another id is refused; otherwise only that id's name and description change |
| AdminRoles.RoleStore.Delete | admin_roles.php:111-140 | While any user holds the role it is refused, with the number of holders; otherwise only that role is removed |
| AdminRoles.RolesPost | admin_roles.php:19-140 | A caller the gate turns away changes nothing; an action sets exactly one alert. For each action, the alert is a success exactly when that handler's write goes through, and the roles table becomes the handler's new table, or stays as it was |
| Dashboard.TimeAgo | dashboard.php:57-72 | Under a minute, including negative differences, gives "Hace unos segundos". From a day on, the formatted date. In between, a "Hace ..." label. |
| Dashboard.TimeAgoMinutes | dashboard.php:63-65 | Between a minute and an hour the label counts whole minutes, 1 to 59 |
| Dashboard.TimeAgoHours | dashboard.php:66-68 | Between an hour and a day the label counts whole hours, 1 to 23 |
| Dashboard.AgoPlural | dashboard.php:65 | The label ends in 's' exactly when the count is above one |
| Dashboard.AgoReadsBack | dashboard.php:64-65 | The number printed in the label reads back as the count |
| Dashboard.ActionBadge | dashboard.php:75-84 | Each of the five actions gets its fixed badge; any other text gets the neutral badge embedding it |
| Dashboard.EngineActionsHaveBadges | dashboard.php:75-84 | No entry the engine writes is shown with the fallback badge |
| Dashboard.PlanIcon | dashboard.php:87-94 | Pro and Premium get their icons; Basic and anything else get `bi-star` |
| Dashboard.PlanIconsDistinct | dashboard.php:87-94 | The three plans are told apart by icon, and an unknown name looks like Basic |

## Left out

- One clock: the middleware compares `strtotime(last_activity)` with PHP's `time()` (includes/auth_check.php:119-120). `last_activity` comes from MySQL's CURRENT_TIMESTAMP (includes/auth_check.php:155) or the column default (login.php:120-123), while PHP runs in America/Mexico_City (config/config.php:58). The model uses one `now`, so a time-zone skew between MySQL and PHP, which would shift the 86400-second expiry, is not modelled.
- A failed connection: `config/db.php` (line 34) ends the request with `die` and a connection error message before any page logic runs. The model starts every request with a working connection.
- Concurrency: the session count is read before the transaction begins (login.php:62-75), with no row lock. Two simultaneous logins can therefore both pass the cap check. The model runs requests one at a time.
- HTML, CSS and JavaScript rendering, cookies, header redirects, `session_regenerate_id` and `session_destroy` are left out. The model keeps only the redirect target and the `$_SESSION` entries.
- Sending email is left out, and with it `classes/EmailService.php`. The registration page receives the mail step's answer as a value: sent, not sent, or thrown.
- The rest of the repository is left out: `install.php`, `check_system.php`, `test.php`, `test_email_smtp.php` and `index.php`. `config/db.php` is replaced by the `Store.Database` class. A failing statement there raises "Error en la consulta a la base de datos.", which the model reproduces.
- Password hashing and checking, FILTER_VALIDATE_EMAIL, `random_bytes` and `date` formatting are function or value parameters; their internals are not modelled.
- The queries that only display data are left out: the dashboard's statistics and listings, the administrator's user list, and the role page's list with user counts. So are the dashboard's floating-point usage percentage and progress colour.
- Common.Truncate: `strlen`/`substr` count bytes, while the model counts characters. For non-ASCII agents, the 500 limit is therefore stated in characters.
- Register.RegistrationErrors: the length rule counts characters, not bytes.
- Name and email equality is exact string equality. MySQL's default collation compares case-insensitively, so the model may miss a duplicate that differs only in case.
- Verify.FindUserByToken: the lookup `verification_token = :token` (verify.php:19-25) compares the token taken from the link. Under MySQL's default collation that comparison ignores case and trailing spaces, so an upper-cased or space-padded link verifies in the source. The model compares exactly, as a binary collation on that column would, and reports such a link as an unknown token.
- Verify.LinkWorksOnce: assumes that no two users hold the same verification token (UniqueVerificationTokens). The schema does not enforce this and `Store.Database.Valid` does not keep it; it rests on the tokens being 32 random bytes (register.php:68).
- A non-numeric `user_id` or `plan_id`, which `filter_input(..., FILTER_VALIDATE_INT)` turns into false or null, is not modelled. The administrator's handlers take integers.
- Under PHP 8.1 and later, mysqli throws on a failing statement instead of returning false. The role page is modelled as written, with `execute()` returning false and the error text shown. Its SELECT statements are assumed to succeed.
- Foreign keys and cascades are not modelled: the schema is not part of this model. Deleting a user leaves that user's sessions and log entries in place.
- A failed INSERT does not consume an AUTO_INCREMENT value in the model.
- AuthCheck.Validate: the per-request regeneration of the PHP session id is stated only through the `last_regeneration` timestamp (NextRegeneration), not as a new session id.
- AdminDashboard.AdminPost: states the gate and the one-message rule. Each action's effect on the tables is stated by its handler's contract.
