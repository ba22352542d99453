# GestCondo authorization layer in Dafny

GestCondo is a condominium management system. Every request of a logged-in
user works on one condominium, the *tenant*: the client names it in the
`X-Condominium-Id` header and the `EnsureCondominiumAccess` middleware admits
the caller or refuses it. Inside a tenant, `CheckPermission` guards each route
with a module/action pair (`moradores,editar`, `entregas,criar`, ...). The
pair is looked up in the caller's permission record. That record is a sparse
array filled in from a fixed default matrix by `mergePermissions`. Sindico and
suporte users pass the guard whatever it holds.

This project models that layer and the small pure helpers around it:

- the default permission matrix and the merge (both controllers' copies are
  one function and one loop method here);
- the permission guard, the tenant resolver and the two role gates;
- the session side of `AuthController`: login and token gates, token expiry
  and cleanup, and the default condominium;
- the write paths of the user, employee and condominium controllers that
  change roles, pivot rows, permission records and condominium status;
- the two validation-rule builders and the `NoMaliciousContent` rule;
- the audit-log description formatting;
- `capitalizeFirstLetter` and `formatPhone` of the front end.

The database is a `Database.Store` object. Its fields are the tables as maps
keyed by primary key, plus the `condominium_user` pivot as a set of pairs and
the token table as a sequence. Its `Valid()` invariant is that the foreign
keys of the users table and of the pivot name existing rows. Every write path
keeps `Valid()`.

PHP semantics the code depends on are written out in module `Php`:

- truthiness, including the falsy string `"0"`;
- the `(int)` cast of a header string: leading whitespace, a sign, then the
  leading digits;
- `ucfirst`;
- `where(col, null)` matching only null columns;
- `first()` taken as the row with the least id, and a fresh auto-increment id.

A PHP `TypeError` or a failed foreign key is a 500 response. Work already
saved before it stays saved.

Some observations, each tied to a member of the model:

- `EnsureUserIsSupport` admits only sindico users, so suporte users never get
  past the condominium routes (`EnsureUserIsSupport.SupportIsRefused`,
  `CondominiumController.ListingBehindItsGate`).
- The delivery update route asks for `entregas,atualizar`. No record built
  from an array within the default schema grants that action
  (`CheckPermission.DeliveryUpdateIsDenied`).
- `UpdateEmployeeStatusRequest` demands a boolean for every module's
  `label`, while the default matrix holds a display string there
  (`UpdateEmployeeStatusRequest.LabelDemandsABoolean`).
- `EmployeeController::store` reads `$data['permissions']`, but the user form
  has no `permissions` rule, so the defaults are always stored
  (`UserRequest.NoPermissionsRule`, `EmployeeController.Store`).
- The user routes for `update`, `getById`, `changeAvatar`, `destroy` and
  `changeSettings` do not run the tenant middleware (routes/api/user.php:30-48).
  Their selected condominium is therefore null, and their scoped lookups find
  only users without a condominium. The audit call that follows the write
  takes the condominium as an `int`, so these routes answer 500 after they
  have written (`UserController.Update`, `UserController.ChangeSettings`,
  `UserController.Destroy`, `UserController.NullSelectionReachesUnboundRows`).

## Model

| member | source | states |
|---|---|---|
| Php.IntCastOfDecimal | app/Http/Middleware/EnsureCondominiumAccess.php:55-58 | the integer cast of a decimal id string gives the id back |
| Php.Ucfirst | app/Models/AuditLog.php:65 | the first character is upper-cased (ASCII), the length and the rest are unchanged |
| Php.UcfirstIdempotent | app/Models/AuditLog.php:65 | applying ucfirst twice is applying it once |
| Php.Least | app/Http/Controllers/AuthController.php:284-299 | the chosen "first" row is in the set and below every other |
| Php.FreshId | app/Http/Controllers/UserController.php:92-94 | a new row's id is positive and not yet used |
| UserPermission.DefaultSection | app/Models/UserPermission.php:20-26 | a default module holds exactly its label and the four actions, each false |
| UserPermission.DefaultShape | app/Models/UserPermission.php:17-48 | exactly the four modules; each has exactly label plus the four actions; every action is false; the labels are "Moradores", "Funcionarios", "Entregas" and "Espaços Comuns" |
| UserPermission.AsStored | app/Models/UserPermission.php:17-48 | a matrix stored as a record keeps its keys, and every section becomes an array |
| PermissionMerge.Merge | app/Http/Controllers/UserController.php:486-502 | the merge fails (TypeError) exactly when a default section of `current` is a non-null scalar; otherwise its keys are the union of both key sets |
| PermissionMerge.MergeKeepsExtraSections | app/Http/Controllers/UserController.php:501 | sections the defaults do not name come through unchanged |
| PermissionMerge.MergeReplacesMissingSections | app/Http/Controllers/UserController.php:489-492 | an absent or null section becomes the default section |
| PermissionMerge.MergeFillsArraySections | app/Http/Controllers/UserController.php:494-498 | in an array section, present actions are never overwritten, missing default actions take their default, nothing else is added |
| PermissionMerge.MergeHasEveryDefault | app/Http/Controllers/UserController.php:486-502 | every default section comes out as an array holding every default action |
| PermissionMerge.FillMissingActions | app/Http/Controllers/UserController.php:494-498 | the inner loop yields the section's actions over the defaults (present keys win) |
| PermissionMerge.MergeSection | app/Http/Controllers/UserController.php:489-498 | one pass of the outer loop fails exactly on a non-null scalar section, else sets that section to its merged value |
| PermissionMerge.MergeIsTheLoopResult | app/Http/Controllers/UserController.php:486-502 | a record holding every merged default section and the rest of `current` unchanged is the merge |
| PermissionMerge.MergePermissions | app/Http/Controllers/EmployeeController.php:208-224 | the nested loops compute exactly `Merge`, None when the TypeError is raised |
| PermissionMerge.MergeOfEmptyIsDefaults | app/Http/Controllers/UserController.php:486-502 | merging an empty array yields the defaults |
| PermissionMerge.MergeOfCoveringIsIdentity | app/Http/Controllers/UserController.php:486-502 | a record whose every default section is an array carrying every default key is left unchanged |
| PermissionMerge.MergeIdempotent | app/Http/Controllers/UserController.php:486-502 | merging twice gives the same record as merging once |
| Database.SaveUserKeepsConsistent | database/migrations/2025_08_02_225301_add_condominium_id_to_users_table.php:14-20 | saving a row whose foreign keys name existing condominiums keeps the tables consistent |
| Database.AttachKeepsConsistent | database/migrations/2025_07_25_215100_create_condominium_user_table.php:14-20 | a pivot row between existing rows keeps the tables consistent |
| Database.Store.constructor | database/migrations/0001_01_01_000000_create_users_table.php:14-35 | the empty tables are consistent |
| CheckPermission.CheckUserPermission | app/Http/Middleware/CheckPermission.php:33-46 | sindico and suporte are always allowed; every other role needs a record holding a truthy value at module/action |
| CheckPermission.Handle | app/Http/Middleware/CheckPermission.php:15-28 | no user gives 401; the next handler runs exactly when the check allows; any refusal is 401 or 403 |
| CheckPermission.DefaultsDenyEverything | app/Http/Middleware/CheckPermission.php:39-45 | a record holding exactly the defaults denies every action to the other roles |
| CheckPermission.MergedRecordDeniesWhatWasNotGiven | app/Http/Middleware/CheckPermission.php:43-45 | after a merge, an action the given array did not carry is denied |
| CheckPermission.MergedRecordKeepsWhatWasGiven | app/Http/Middleware/CheckPermission.php:35-45 | after a merge, an action the given array carries is answered by its own value |
| CheckPermission.OutsideSchemaIsDenied | app/Http/Middleware/CheckPermission.php:45 | an action outside the default schema is denied when the record was merged from an array within the schema |
| CheckPermission.DeliveryUpdateIsDenied | routes/api/delivery.php:22-24 | the `entregas,atualizar` guard refuses every such sub-scoped user |
| EnsureCondominiumAccess.ActiveCondominium | app/Http/Middleware/EnsureCondominiumAccess.php:31-33 | a condominium is found exactly when it exists and is active |
| EnsureCondominiumAccess.Decide | app/Http/Middleware/EnsureCondominiumAccess.php:19-68 | falsy header gives 422 for every role; suporte always passes with the raw header; others get 422 for a missing or inactive condominium; others pass exactly when they belong; a passing non-suporte caller gets the stored id attached |
| EnsureCondominiumAccess.Status | app/Http/Middleware/EnsureCondominiumAccess.php:21-27 | 0 exactly when the request passes; 422 for the header and lookup refusals, 403 for a refused membership |
| EnsureCondominiumAccess.RequestScope.Handle | app/Http/Middleware/EnsureCondominiumAccess.php:19-68 | the outcome is `Decide`; the attribute is written for suporte, passing and refused members; the binding only when passing |
| EnsureCondominiumAccess.RequestScope.constructor | app/Http/Middleware/EnsureCondominiumAccess.php:19 | a request starts with no attribute and no binding |
| EnsureCondominiumAccess.MemberSendingItsIdIsGranted | app/Http/Middleware/EnsureCondominiumAccess.php:55-67 | a resident of an active condominium sending its id in decimal is granted it |
| EnsureCondominiumAccess.UnlinkedSindicoIsRefused | app/Http/Middleware/EnsureCondominiumAccess.php:51-54 | a sindico with no pivot row never passes |
| EnsureUserCanManageUsers.Handle | app/Http/Middleware/EnsureUserCanManageUsers.php:20-29 | 0 exactly for a present suporte or sindico user, else 403 |
| EnsureUserIsSupport.Handle | app/Http/Middleware/EnsureUserIsSupport.php:17-24 | 0 exactly for a present sindico user, else 403 |
| EnsureUserIsSupport.SupportIsRefused | app/Http/Middleware/EnsureUserIsSupport.php:19 | a suporte user is refused |
| AuthController.ActiveLinked | app/Http/Controllers/AuthController.php:55-57 | exactly the active condominiums linked to the user through the pivot |
| AuthController.LoginGate | app/Http/Controllers/AuthController.php:34-67 | 401 exactly for bad credentials; 403 for an inactive account; 0 exactly when the account is active and its tenant is reachable |
| AuthController.SessionGate | app/Http/Controllers/AuthController.php:122-147 | 0 exactly when the user exists, is active and its tenant is reachable, else 403 |
| AuthController.SessionGateAgreesWithLogin | app/Http/Controllers/AuthController.php:50-67 | a token stays valid exactly when the same user could log in again |
| AuthController.TokenExpiry | app/Http/Controllers/AuthController.php:71 | 30 days ahead with rememberMe, one day otherwise |
| AuthController.KeptExactly | app/Http/Controllers/AuthController.php:257-261 | the cleanup removes exactly this user's never-used or expired tokens |
| AuthController.KeptIdempotent | app/Http/Controllers/AuthController.php:252-262 | cleaning twice removes nothing more |
| AuthController.CleanTokens | app/Http/Controllers/AuthController.php:252-262 | the token table becomes the kept tokens, in order |
| AuthController.LastViewedChoice | app/Http/Controllers/AuthController.php:89-91 | sindico and suporte get their last viewed condominium, others their own condominium |
| AuthController.LoginDefault | app/Http/Controllers/AuthController.php:81-87 | a set value is kept; a sindico lands on the least active linked id; suporte on the least id; a suporte login with an empty table fails |
| AuthController.NewToken | app/Http/Controllers/AuthController.php:72 | the new token is this user's, unused, with the computed expiry and a fresh id |
| AuthController.Login | app/Http/Controllers/AuthController.php:27-106 | refusals write nothing; a passing login cleans the tokens, adds one, stamps the last login and stores the default condominium |
| AuthController.DefaultLastViewed | app/Http/Controllers/AuthController.php:277-305 | a set id is kept; a new one names a condominium; suporte takes the header id when it exists, else the least id; a sindico takes the least active linked id |
| AuthController.DefaultLastViewedIdempotent | app/Http/Controllers/AuthController.php:280 | assigning a default twice assigns nothing new |
| AuthController.ValidateToken | app/Http/Controllers/AuthController.php:118-166 | 200 exactly when the session gate passes, else 403; sindico and suporte get the default assigned and returned, others null |
| AuthController.UpdateLastViewedCondominium | app/Http/Controllers/AuthController.php:222-240 | an empty id gives 422 and an unknown one 500, both unchanged; otherwise the id is stored |
| CondominiumController.Index | app/Http/Controllers/CondominiumController.php:12-26 | 403 for other roles; suporte lists everything; a sindico lists its active linked condominiums; `total` counts the list |
| CondominiumController.SindicoListingMatchesTenantCheck | app/Http/Controllers/CondominiumController.php:20 | a sindico's list is empty exactly when the login tenant check refuses it |
| CondominiumController.ListingBehindItsGate | routes/api/condominium.php:8-14 | behind its role gate the listing always lists, and only the caller's active linked condominiums |
| CondominiumController.UpdateStatus | app/Http/Controllers/CondominiumController.php:71-90 | 404 exactly for an unknown id, unchanged; else `is_active` takes the input and `expires_at` changes only when given |
| CondominiumController.Detached | app/Http/Controllers/CondominiumController.php:64 | a deleted condominium's two foreign keys in a user row become null, nothing else changes |
| CondominiumController.Destroy | app/Http/Controllers/CondominiumController.php:54-69 | 404 exactly for an unknown id; else the row and its pivot rows go and the users' references are nulled |
| UserController.Lookup | app/Http/Controllers/UserController.php:185-187 | a user is found exactly when the id names it and its condominium equals the selection |
| UserController.LookupStaysInTenant | app/Http/Controllers/UserController.php:251-253 | behind the tenant middleware, a non-suporte caller only reaches users of a condominium it belongs to |
| UserController.GetById | app/Http/Controllers/UserController.php:151-171 | 404 exactly outside the scope; otherwise the row and its permission array, empty without a record |
| UserController.NewUser | app/Http/Controllers/UserController.php:91-94 | the new row carries the id, the role and the condominium, with no last viewed condominium or login |
| UserController.Store | app/Http/Controllers/UserController.php:85-112 | 500 exactly for a selection that names no condominium; a suporte user gets no condominium; sindico and sub_sindico get the pivot row once; a sub_sindico without a record gets the defaults |
| UserController.SubSindicoPermissions | app/Http/Controllers/UserController.php:319-347 | submitted permissions are merged over the defaults; otherwise the stored record is, an empty or missing one becoming the defaults; a non-array submission fails |
| UserController.SubSindicoRecordIsComplete | app/Http/Controllers/UserController.php:319-347 | every record written holds each of the four modules as an array with label and the four actions |
| UserController.AttachOnce | app/Http/Controllers/UserController.php:101-104 | the pivot gains the (user, condominium) row if it was missing, and keeps the tables consistent |
| UserController.GrantDefaultsIfMissing | app/Http/Controllers/UserController.php:106-111 | a user without a record gets the defaults; an existing record is left alone |
| UserController.ApplyRole | app/Http/Controllers/UserController.php:314-347 | sindico and sub_sindico get the pivot row once; only a sub_sindico's record changes, to `SubSindicoPermissions`, and 500 exactly when that fails |
| UserController.SaveSubSindicoPermissions | app/Http/Controllers/UserController.php:319-347 | the record written is `SubSindicoPermissions`; a merge failure writes nothing |
| UserController.UpdateStatus | app/Http/Controllers/UserController.php:289-350 | 404 exactly outside the scope, unchanged; a suporte role nulls the condominium; sindico and sub_sindico get the pivot row once; a sub_sindico's record per `SubSindicoPermissions` |
| UserController.ChangeSettings | app/Http/Controllers/UserController.php:435-466 | 404 exactly outside the scope, unchanged; otherwise only `accepts_emails` changes; 500 after the write on a null selection |
| UserController.Destroy | app/Http/Controllers/UserController.php:247-279 | 404 exactly outside the scope, unchanged; otherwise the row, its pivot rows, employee row and record go; 500 after that when someone else was deleted on a null selection |
| UserController.OwnOrScoped | app/Http/Controllers/UserController.php:372-386 | the scoped lookup when it finds one; otherwise the caller's own row exactly for a suporte caller naming its own id |
| UserController.SuporteReachesItself | app/Http/Controllers/UserController.php:374-386 | a suporte caller naming its own id in decimal always reaches its own row |
| UserController.UpdateFallbackIsDead | app/Http/Controllers/UserController.php:189-191 | as written, the self fallback of `update` never fires |
| UserController.UpdateFallbackCounterexample | app/Http/Controllers/UserController.php:189-191 | a suporte user bound to a condominium gets 404 as written, while the cast test finds it |
| UserController.Updated | app/Http/Controllers/UserController.php:202 | the form update writes name and role, and `account_status` and `accepts_emails` only when given; it keeps id, both condominium references and the last login |
| UserController.Update | app/Http/Controllers/UserController.php:180-239 | the self fallback being dead, 404 exactly when the scoped lookup misses, unchanged; otherwise the user, whose condominium equals the selection, gets the form fields; 500 after the write on a null selection |
| UserController.NullSelectionReachesUnboundRows | routes/api/user.php:30-48 | on a null selection the scoped lookup finds only rows without a condominium, and the fallback of `changeAvatar` reaches only the suporte caller itself |
| EmployeeController.Store | app/Http/Controllers/EmployeeController.php:60-89 | 500 for a selection naming no condominium; the user row is saved; the employee row and the default record follow exactly when the form is a funcionario's and carries the description key, else 500 |
| EmployeeController.TargetAsWritten | app/Http/Controllers/EmployeeController.php:175 | as written, any existing user is a target, in any condominium |
| EmployeeController.CrossTenantTargetCounterexample | app/Http/Controllers/EmployeeController.php:175-181 | an employee of condominium 2 is reached from condominium 1 as written, and refused by the scoped lookup |
| EmployeeController.SaveMergedRecord | app/Http/Controllers/EmployeeController.php:190-200 | the merged record replaces an existing record and the status lands on an existing employee row; a merge failure writes nothing |
| EmployeeController.UpdateStatus | app/Http/Controllers/EmployeeController.php:173-206 | 404 exactly when no user has the id, in any condominium, unchanged; otherwise `account_status` is saved, then the merge of the submission replaces an existing record and the status an existing employee row; 500 exactly on a merge failure |
| EmployeeController.MergeOfCompleteIsIdentity | app/Http/Controllers/EmployeeController.php:190-197 | a submission that passed the request's rules is stored unchanged by the merge |
| UpdateEmployeeStatusRequest.Rules | app/Http/Requests/UpdateEmployeeStatusRequest.php:25-42 | the keys are the three base keys, one per module and one per module key; the base keep their rules, modules are required arrays, keys required booleans; 27 entries |
| UpdateEmployeeStatusRequest.AddModuleRules | app/Http/Requests/UpdateEmployeeStatusRequest.php:33-39 | one pass adds the module's entry and its five key entries and keeps every earlier one |
| UpdateEmployeeStatusRequest.AddActionRules | app/Http/Requests/UpdateEmployeeStatusRequest.php:36-38 | the inner loop adds one required boolean per key of the module |
| UpdateEmployeeStatusRequest.RuleCount | app/Http/Requests/UpdateEmployeeStatusRequest.php:27-41 | the key set has 3 + 4 + 4 × 5 = 27 members |
| UpdateEmployeeStatusRequest.LabelDemandsABoolean | app/Http/Requests/UpdateEmployeeStatusRequest.php:36-38 | every module's `label` must be a boolean, while the default label is a string |
| UserRequest.InsertRules | app/Http/Requests/UserRequest.php:29-71 | the conditional insertions build `Unmarked` |
| UserRequest.AppendFilter | app/Http/Requests/UserRequest.php:73-77 | the pass appends the filter to every entry and keeps the keys |
| UserRequest.Rules | app/Http/Requests/UserRequest.php:27-80 | the rule map is `Marked` |
| UserRequest.RoleIsRestricted | app/Http/Requests/UserRequest.php:35 | the role is required and admits exactly the five roles |
| UserRequest.PasswordRequiredOnCreate | app/Http/Requests/UserRequest.php:55-58 | without a route id the password is required, a string of at least 8 |
| UserRequest.PasswordOnUpdate | app/Http/Requests/UserRequest.php:50-54 | with a route id a password rule exists exactly when a password is filled |
| UserRequest.AvatarVariant | app/Http/Requests/UserRequest.php:60-64 | the image variant exactly when a file is uploaded, else the string variant |
| UserRequest.EmployeeRulesIffFuncionario | app/Http/Requests/UserRequest.php:66-71 | the `employee.*` entries exist exactly when the role is the string "funcionario" |
| UserRequest.EmployeeStatusIsRestricted | app/Http/Requests/UserRequest.php:70 | the employee status admits exactly the six statuses |
| UserRequest.FilterAppendedOnce | app/Http/Requests/UserRequest.php:73-77 | every entry ends with the filter and holds it exactly once |
| UserRequest.NoPermissionsRule | app/Http/Requests/UserRequest.php:27-80 | the user form never validates a `permissions` field |
| NoMaliciousContent.ScriptIsATag | app/Rules/NoMaliciousContent.php:21 | the script alternative of the pattern is subsumed by the tag alternative |
| NoMaliciousContent.ScanDecidesPattern | app/Rules/NoMaliciousContent.php:21-23 | a left-to-right scan decides exactly whether the pattern matches |
| NoMaliciousContent.Validate | app/Rules/NoMaliciousContent.php:15-30 | fail is called at most once, and exactly for a string the pattern matches |
| NoMaliciousContent.NonStringsPass | app/Rules/NoMaliciousContent.php:17-19 | non-string values pass |
| NoMaliciousContent.TagFails | app/Rules/NoMaliciousContent.php:21-28 | a '<' followed later by a '>' fails |
| NoMaliciousContent.WordFails | app/Rules/NoMaliciousContent.php:21-28 | "javascript:", "data:" and "url(" fail in any letter case |
| AuditLog.Row | app/Models/AuditLog.php:61-68 | user id, user name, condominium and changes are copied, the action is stored through ucfirst |
| AuditLog.ResidentLog | app/Models/AuditLog.php:53-69 | no row exactly for suporte; "name action (target)" with a truthy target, else "name action" |
| AuditLog.DeliveryLog | app/Models/AuditLog.php:78-96 | no row exactly for suporte; the fixed text for a confirmation, else "name action (item)" |
| AuditLog.CommonSpaceLog | app/Models/AuditLog.php:105-119 | no row exactly for suporte; always "name action (item)" |
| AuditLog.DescriptionsNameTheActor | app/Models/AuditLog.php:57-59 | every description opens with the actor's name |
| AuditLog.StoredActionCapitalizes | app/Models/AuditLog.php:27-44 | for every action constant, the stored action differs exactly in its first letter, upper-cased |
| AuditLog.AuditTrail.Record | app/Models/AuditLog.php:61-68 | a produced row is appended to the table, nothing otherwise |
| AuditLog.AuditTrail.constructor | app/Models/AuditLog.php:27 | the table starts empty |
| FunctionsJs.CapitalizeFirstLetter | resources/js/helpers/functions.js:1-4 | a falsy input gives ""; otherwise only the first character changes, upper-cased |
| FunctionsJs.CapitalizeIdempotent | resources/js/helpers/functions.js:1-4 | capitalizing twice is capitalizing once |
| FunctionsJs.Digits | resources/js/helpers/functions.js:9 | the result holds only digits and is no longer than the input |
| FunctionsJs.GroupedIsShaped | resources/js/helpers/functions.js:11-17 | grouping a run of digits gives "(DD) " then the middle digits, a dash and four digits |
| FunctionsJs.DigitsOfGrouped | resources/js/helpers/functions.js:11-17 | the separators the grouping adds carry no digit, so the digits come back unchanged |
| FunctionsJs.FormatPhone | resources/js/helpers/functions.js:7 | a falsy input gives "" |
| FunctionsJs.FormatPhoneShape | resources/js/helpers/functions.js:11-19 | 11 digits give "(DD) DDDDD-DDDD", 10 give "(DD) DDDD-DDDD", any other count the bare digits |
| FunctionsJs.FormatPhoneKeepsDigits | resources/js/helpers/functions.js:9-19 | the digits of the output are the digits of the input, in order |
| FunctionsJs.FormatPhoneIdempotent | resources/js/helpers/functions.js:6-20 | formatting a formatted number changes nothing |

## Left out

- The order of keys in PHP arrays: maps and sets stand for arrays here, so JSON key order is not modelled.
- Laravel's validator: the rule builders are modelled as the maps they return. What each rule accepts is not modelled, except the `in:` lists and `NoMaliciousContent`.
- Image processing and file storage (`ImageManager`, `Storage::disk`) in the user and employee controllers.
- Password hashing, `Auth::attempt` and Sanctum token creation. The credential check is a boolean parameter. A token's secret, user agent and address are not modelled.
- Time: `now()` is a parameter counted in seconds.
- `UserController::index`, `getUsersExceptSupportAndEmployee`, and `EmployeeController::index`, `getById`, `update` and `destroy`. These are listing and CRUD handlers outside the authorization core. The last three also look a user up with `User::find`, without the tenant scope.
- The audit rows the controllers write are not added to an `AuditTrail` by the controller methods. Only their 500 on a null selection is modelled.
- UserController.Store, UserController.UpdateStatus, UserController.ApplyRole: for a suporte caller the attached selection is the raw header string. It reaches `attach($condominiumId)` and the audit call's `int` parameter. PHP's coercion of that string is not modelled; the selection is taken as an integer.
- AuthController.DefaultLastViewed, AuthController.ValidateToken: a suporte caller's header id is stored and returned as `IntCast` of the header. `updateLastViewedCondominium` assigns the raw header string, so the response carries that string ("07" rather than 7), and a header such as "5abc" that `Condominium::find` accepts through SQL's comparison fails when written to the integer column. Neither difference is modelled.
- UserController.UpdateStatus, UserController.ChangeSettings, CondominiumController.UpdateStatus: these handlers read a plain request with no validation, and the model takes `account_status`, `accepts_emails`, `role` and `is_active` as present values of their types. An absent or null input gives null for a NOT NULL column, so `save()` fails with a 500 and nothing is written; an `expires_at` that `Carbon::parse` rejects fails the same way. Absent, null and unparsable inputs are not modelled.
- EmployeeController.Store: the `employee` fields are taken to be present exactly for a funcionario form, which is what the form's rules let through; the validator itself is not modelled.
- UserController.OwnOrScoped: `changeAvatar` is modelled only as its target resolution. The image write and its audit call are left out.
- AuthController.ValidateToken: the response body (user data, permissions, selected condominium) is not modelled; only the status, the writes and `lastViewedCondominiumId` are.
- Php.IntCast: hexadecimal, exponent and overflow forms of PHP's numeric strings are not modelled. Only whitespace, a sign and decimal digits are.
- Php.Ucfirst: case mapping is ASCII only, like PHP's `ucfirst` and PCRE's `/i` without `/u`.
- FunctionsJs.CapitalizeFirstLetter: it reuses the ASCII mapping, while JavaScript's `toUpperCase` also maps non-ASCII letters and can lengthen the string ("ß" becomes "SS"), which the length clause of the contract does not allow. The contract is exact only for ASCII first characters.
- EnsureCondominiumAccess.Decide, UserController.Lookup, EmployeeController.TargetAsWritten, CondominiumController.UpdateStatus, CondominiumController.Destroy: the SQL comparison of an integer key with a string id is taken to be `Php.IntCast` of the string. The two agree on integer strings only. A fractional id such as "5.5" is compared as a double and matches no row, while the model reaches row 5; trailing text ("5abc") matches row 5 on MySQL but nothing on SQLite. Fractional ids and engine-dependent coercion are not modelled.
- Php.Least: `first()` without an order and `oldest()` are taken to return the row with the least id.
- Foreign keys are taken to be enforced, with cascade on the pivot, employee and permission rows of a deleted user, and set-null on the users' condominium references of a deleted condominium.
- `auth:sanctum` runs before every handler, so the controllers take the caller as present.
- Schema differences are not checked:
  - the users migration's role enumeration lacks `sub_sindico` and `funcionario`;
  - the employees migration names `position` the column the controller writes as `occupation`;
  - the employees migration's `status` enumeration holds 'active', 'on_leave', 'fired', 'suspended' and 'vacation', while the form admits, and the controller writes, 'ativo', 'ferias', 'licenca', 'afastado', 'desligado' and 'suspenso'.
  The model follows the controllers.
- UserRequest.Rules: the `is_array` test of the filter pass is always true, since every entry is a list, so it is not modelled as a branch.
- NoMaliciousContent.Validate: the script alternative of the pattern is dropped from the scan. `ScriptIsATag` proves the tag alternative covers it.
- Both `mergePermissions` copies take `array` parameters. A non-array submission to `UserController::updateStatus` is the `Submitted.NotAnArray` case, a TypeError; the employee route validates `permissions` as an array first.

## Findings

| source | as written | input that shows it | evidently intended | confidence | as-written member | corrected member |
|---|---|---|---|---|---|---|
| app/Http/Controllers/UserController.php:189 | `$id === $authUser->id` compares the route's string id with an integer, so the suporte self fallback of `update` never fires | a suporte user still bound to condominium 5 sends `PUT /user/1` for its own id 1: the scoped lookup misses and the answer is 404 | the integer cast that `changeAvatar` applies before the same test (line 374), so a suporte caller reaches its own row | not executed | UserController.UpdateFallbackCounterexample | UserController.SuporteReachesItself |
| app/Http/Controllers/EmployeeController.php:175 | `updateStatus` finds its target with `User::find($id)`, without the selected condominium | a sindico of condominium 1 sends `PATCH /employee/7/change-settings` for employee 7 of condominium 2: the account status, permission record and employee status of that user are rewritten | the scoped lookup every user write path uses, so a caller only reaches users of its own condominium | not executed | EmployeeController.CrossTenantTargetCounterexample | UserController.LookupStaysInTenant |
