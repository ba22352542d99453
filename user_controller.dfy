/** `UserController`: the condominium-scoped lookups and the write paths that
    change a user's role, pivot rows and permission record. */
module UserController {
  import opened Php
  import opened Roles
  import opened UserPermission
  import opened PermissionMerge
  import opened Database
  import opened EnsureCondominiumAccess

  /** The validated fields of a user form that the core reads; an absent
      optional boolean leaves the column as it is (or at its default). */
  datatype UserInput = UserInput(name: string, role: string, accountStatus: Option<bool>, acceptsEmails: Option<bool>)

  /** What `$request->input('permissions')` holds: nothing, something that is
      not an array (null included), or an array. */
  datatype Submitted = Absent | NotAnArray | Given(p: PermissionSet)

  /** The value `where('condominium_id', …)` compares with: the request
      attribute, which is null on routes without the tenant middleware and
      the raw header string for suporte callers. */
  function SelectedKey(attached: Option<Attached>): Option<int>
  {
    match attached
    case None => None
    case Some(RawHeader(h)) => Some(IntCast(h))
    case Some(CondominiumKey(k)) => Some(k)
  }

  /** `User::where('id', $id)->where('condominium_id', $selected)->first()`: a
      null selection matches only users without a condominium. */
  function Lookup(users: map<int, User>, selected: Option<int>, id: string): (found: Option<int>)
    ensures found.Some? <==> IntCast(id) in users && users[IntCast(id)].condominiumId == selected
    ensures found.Some? ==> found.value == IntCast(id)
  {
    var k := IntCast(id);
    if k in users && users[k].condominiumId == selected then Some(k) else None
  }

  /** Tenant isolation of the scoped lookups: behind the tenant middleware, a
      caller other than suporte only ever reaches users of a condominium it
      belongs to. */
  lemma LookupStaysInTenant(header: Option<string>, actor: User, condominiums: map<int, Condominium>,
                            links: set<(int, int)>, users: map<int, User>, id: string)
    requires !IsSuporte(actor.role)
    requires Decide(header, actor, condominiums, links).Granted?
    ensures var a := Decide(header, actor, condominiums, links);
      var found := Lookup(users, SelectedKey(Some(a.key)), id);
      found.Some? ==> exists c :: users[found.value].condominiumId == Some(c) && c in condominiums && Belongs(actor, links, c)
  {
    var a := Decide(header, actor, condominiums, links);
    var c := IntCast(header.value);
    assert a.key == CondominiumKey(c);
    var found := Lookup(users, SelectedKey(Some(a.key)), id);
    if found.Some? {
      assert users[found.value].condominiumId == Some(c);
    }
  }

  datatype UserView = NotFound | Found(user: User, permissions: PermissionSet)

  /** `getById`: 404 outside the scope, else the row with its permission
      array, or an empty one when the user has no record. */
  function GetById(users: map<int, User>, permissions: map<int, PermissionSet>, selected: Option<int>, id: string): (v: UserView)
    ensures v.NotFound? <==> Lookup(users, selected, id).None?
    ensures v.Found? ==> var k := IntCast(id);
      v.user == users[k] && v.permissions == if k in permissions then permissions[k] else map[]
  {
    var found := Lookup(users, selected, id);
    if found.None? then NotFound
    else Found(users[found.value], if found.value in permissions then permissions[found.value] else map[])
  }

  /** The row `new User($data)` saves; the column defaults fill absent booleans. */
  function NewUser(id: int, input: UserInput, condominiumId: Option<int>): (u: User)
    ensures u.id == id && u.role == input.role && u.condominiumId == condominiumId
    ensures u.lastViewedCondominiumId.None? && u.lastLoginAt.None?
  {
    User(id, input.name, input.role, condominiumId, None,
         if input.accountStatus.Some? then input.accountStatus.value else true,
         if input.acceptsEmails.Some? then input.acceptsEmails.value else true,
         None)
  }

  /** The roles that take a pivot row to the selected condominium. */
  predicate Linked(role: string)
  {
    role == SINDICO || role == SUB_SINDICO
  }

  /** `store`, behind the tenant middleware (`selected` is its resolved id).
      The first save carries the selected id, so the foreign key refuses one
      that names no condominium before anything is written. */
  method Store(db: Store, selected: int, input: UserInput) returns (status: int, id: int)
    requires db.Valid()
    modifies db`users, db`links, db`permissions
    ensures db.Valid()
    ensures status == 200 || status == 500
    ensures status == 500 <==> selected !in db.condominiums
    ensures db.condominiums == old(db.condominiums)
    ensures status == 500 ==> db.users == old(db.users) && db.links == old(db.links) && db.permissions == old(db.permissions)
    ensures status == 200 ==>
      id >= 1 && id !in old(db.users) &&
      // a suporte user ends up without a condominium, everyone else in the selected one
      db.users == old(db.users)[id := NewUser(id, input, if IsSuporte(input.role) then None else Some(selected))] &&
      // sindico and sub_sindico get the pivot row (a set: never a duplicate)
      db.links == (if Linked(input.role) then old(db.links) + {(id, selected)} else old(db.links)) &&
      // a sub_sindico without a record gets the defaults
      db.permissions == (if IsSubSindico(input.role) && id !in old(db.permissions)
                         then old(db.permissions)[id := Defaults()] else old(db.permissions))
  {
    id := FreshId(db.users.Keys);
    if selected !in db.condominiums {
      return 500, id;
    }
    var user := NewUser(id, input, Some(selected));
    if IsSuporte(user.role) {
      user := user.(condominiumId := None);
    }
    SaveUserKeepsConsistent(db.condominiums, db.users, db.links, user);
    db.users := db.users[id := user];
    if Linked(user.role) {
      AttachOnce(db, id, selected);
      if IsSubSindico(user.role) {
        GrantDefaultsIfMissing(db, id);
      }
    }
    return 200, id;
  }

  /** The pivot row of `store` and `updateStatus`, attached only when it is
      absent. */
  method AttachOnce(db: Store, k: int, selected: int)
    requires db.Valid() && k in db.users && selected in db.condominiums
    modifies db`links
    ensures db.Valid()
    ensures db.links == old(db.links) + {(k, selected)}
  {
    if (k, selected) !in db.links {
      AttachKeepsConsistent(db.condominiums, db.users, db.links, (k, selected));
      db.links := db.links + {(k, selected)};
    }
  }

  /** The default record `store` creates for a sub_sindico without one. */
  method GrantDefaultsIfMissing(db: Store, k: int)
    modifies db`permissions
    ensures db.permissions == if k in old(db.permissions) then old(db.permissions) else old(db.permissions)[k := Defaults()]
  {
    if k !in db.permissions {
      db.permissions := db.permissions[k := Defaults()];
    }
  }

  /** The record a sub_sindico ends up with in `updateStatus`; None is the
      TypeError of a merge (a 500 after the user row is saved). */
  function SubSindicoPermissions(submitted: Submitted, stored: Option<PermissionSet>): (r: Option<PermissionSet>)
    // submitted permissions win, filled in from the defaults
    ensures submitted.Given? ==> r == Merge(DefaultPermissions(), submitted.p)
    ensures submitted.NotAnArray? ==> r.None?
    // otherwise the stored record is filled in, an empty or missing one becoming the defaults
    ensures submitted.Absent? ==> r == Merge(DefaultPermissions(), if stored.Some? then stored.value else map[])
  {
    match submitted
    case Given(p) => Merge(DefaultPermissions(), p)
    case NotAnArray => None
    case Absent =>
      if stored.None? || stored.value == map[] then
        MergeOfEmptyIsDefaults(DefaultPermissions());
        Some(Defaults())
      else Merge(DefaultPermissions(), stored.value)
  }

  /** Whatever its source, a record `updateStatus` writes holds every default
      action of every default module. */
  lemma SubSindicoRecordIsComplete(submitted: Submitted, stored: Option<PermissionSet>)
    ensures var r := SubSindicoPermissions(submitted, stored);
      r.Some? ==> forall s :: s in MODULES ==> s in r.value && r.value[s].Group? && SECTION_KEYS <= r.value[s].actions.Keys
  {
    var d := DefaultPermissions();
    DefaultShape();
    var given := match submitted
      case Given(p) => p
      case _ => if stored.Some? then stored.value else map[];
    if SubSindicoPermissions(submitted, stored).Some? {
      assert SubSindicoPermissions(submitted, stored) == Merge(d, given);
      MergeHasEveryDefault(d, given);
    }
  }

  /** The permission write of `updateStatus` for a sub_sindico: the record is
      found or made (`firstOrNew`), filled in and saved; false is the TypeError. */
  method SaveSubSindicoPermissions(db: Store, k: int, submitted: Submitted) returns (saved: bool)
    modifies db`permissions
    ensures var p := SubSindicoPermissions(submitted, if k in old(db.permissions) then Some(old(db.permissions[k])) else None);
      saved == p.Some? &&
      db.permissions == if p.Some? then old(db.permissions)[k := p.value] else old(db.permissions)
  {
    var stored := if k in db.permissions then Some(db.permissions[k]) else None;
    var r: Option<PermissionSet>;
    match submitted {
      case Given(p) =>
        r := MergePermissions(DefaultPermissions(), p);
      case NotAnArray =>
        r := None;
      case Absent =>
        if stored.None? || stored.value == map[] {
          r := Some(Defaults());
        } else {
          r := MergePermissions(DefaultPermissions(), stored.value);
        }
    }
    assert r == SubSindicoPermissions(submitted, stored);
    if r.None? {
      return false;
    }
    db.permissions := db.permissions[k := r.value];
    return true;
  }

  /** `updateStatus`, behind the tenant middleware. */
  method UpdateStatus(db: Store, selected: int, id: string, accountStatus: bool, acceptsEmails: bool, role: string,
                      submitted: Submitted) returns (status: int)
    requires db.Valid()
    modifies db`users, db`links, db`permissions
    ensures db.Valid()
    ensures status == 200 || status == 404 || status == 500
    ensures status == 404 <==> Lookup(old(db.users), Some(selected), id).None?
    ensures status == 404 ==> db.users == old(db.users) && db.links == old(db.links) && db.permissions == old(db.permissions)
    ensures status != 404 ==>
      var k := IntCast(id);
      var u := old(db.users[k]);
      db.users == old(db.users)[k := u.(accountStatus := accountStatus, acceptsEmails := acceptsEmails, role := role,
                                        condominiumId := if IsSuporte(role) then None else u.condominiumId)] &&
      db.links == (if Linked(role) then old(db.links) + {(k, selected)} else old(db.links))
    ensures status != 404 && !IsSubSindico(role) ==> status == 200 && db.permissions == old(db.permissions)
    ensures status != 404 && IsSubSindico(role) ==>
      var k := IntCast(id);
      var p := SubSindicoPermissions(submitted, if k in old(db.permissions) then Some(old(db.permissions[k])) else None);
      (status == 500 <==> p.None?) &&
      db.permissions == if p.Some? then old(db.permissions)[k := p.value] else old(db.permissions)
  {
    var found := Lookup(db.users, Some(selected), id);
    if found.None? {
      return 404;
    }
    var k := found.value;
    assert selected in db.condominiums;
    var user := db.users[k];
    user := user.(accountStatus := accountStatus, acceptsEmails := acceptsEmails, role := role);
    if IsSuporte(user.role) {
      user := user.(condominiumId := None);
    }
    SaveUserKeepsConsistent(db.condominiums, db.users, db.links, user);
    db.users := db.users[k := user];
    status := ApplyRole(db, k, selected, role, submitted);
  }

  /** The role-dependent writes of `updateStatus`, after the user row is
      saved: the pivot row for sindico and sub_sindico, then a sub_sindico's
      permission record. */
  method ApplyRole(db: Store, k: int, selected: int, role: string, submitted: Submitted) returns (status: int)
    requires db.Valid() && k in db.users && selected in db.condominiums
    modifies db`links, db`permissions
    ensures db.Valid()
    ensures db.links == (if Linked(role) then old(db.links) + {(k, selected)} else old(db.links))
    ensures !IsSubSindico(role) ==> status == 200 && db.permissions == old(db.permissions)
    ensures IsSubSindico(role) ==>
      var p := SubSindicoPermissions(submitted, if k in old(db.permissions) then Some(old(db.permissions[k])) else None);
      (status == 200 || status == 500) && (status == 500 <==> p.None?)
      && db.permissions == if p.Some? then old(db.permissions)[k := p.value] else old(db.permissions)
  {
    if Linked(role) {
      AttachOnce(db, k, selected);
      if IsSubSindico(role) {
        var saved := SaveSubSindicoPermissions(db, k, submitted);
        if !saved {
          return 500;
        }
      }
    }
    return 200;
  }

  /** `changeSettings`: only `accepts_emails` changes, and only in scope. The
      audit call after the save takes the selected id as an `int`, so a null
      selection (the route has no tenant middleware) fails the request with a
      500 once the row is written. */
  method ChangeSettings(db: Store, selected: Option<int>, id: string, acceptsEmails: bool) returns (status: int)
    requires db.Valid()
    modifies db`users
    ensures db.Valid()
    ensures status == 200 || status == 404 || status == 500
    ensures status == 404 <==> Lookup(old(db.users), selected, id).None?
    ensures status == 500 <==> Lookup(old(db.users), selected, id).Some? && selected.None?
    ensures status == 404 ==> db.users == old(db.users)
    ensures status != 404 ==>
      db.users == old(db.users)[IntCast(id) := old(db.users[IntCast(id)]).(acceptsEmails := acceptsEmails)]
  {
    var found := Lookup(db.users, selected, id);
    if found.None? {
      return 404;
    }
    db.users := db.users[found.value := db.users[found.value].(acceptsEmails := acceptsEmails)];
    if selected.None? {
      return 500;
    }
    return 200;
  }

  /** `destroy`: the row is deleted, and its pivot rows and employee row go with
      it (cascades), and so does its permission record. Deleting someone else
      is then logged, which fails with a 500 on a null selection. */
  method Destroy(db: Store, actor: User, selected: Option<int>, id: string) returns (status: int)
    requires db.Valid()
    modifies db`users, db`links, db`permissions, db`employees
    ensures db.Valid()
    ensures status == 200 || status == 404 || status == 500
    ensures status == 404 <==> Lookup(old(db.users), selected, id).None?
    ensures status == 500 <==> Lookup(old(db.users), selected, id).Some? && selected.None? && actor.id != IntCast(id)
    ensures status == 404 ==>
      db.users == old(db.users) && db.links == old(db.links) &&
      db.permissions == old(db.permissions) && db.employees == old(db.employees)
    ensures status != 404 ==>
      var k := IntCast(id);
      db.users == old(db.users) - {k} &&
      db.links == (set l | l in old(db.links) && l.0 != k) &&
      db.permissions == old(db.permissions) - {k} && db.employees == old(db.employees) - {k}
  {
    var found := Lookup(db.users, selected, id);
    if found.None? {
      return 404;
    }
    var k := found.value;
    db.users := db.users - {k};
    db.links := set l | l in db.links && l.0 != k;
    db.permissions := db.permissions - {k};
    db.employees := db.employees - {k};
    if selected.None? && actor.id != k {
      return 500;
    }
    return 200;
  }

  /** The target of `changeAvatar`: the scoped lookup, falling back to the
      caller's own row when a suporte caller names its own id (the id is cast
      to an integer before the identity test). */
  function OwnOrScoped(users: map<int, User>, selected: Option<int>, actor: User, id: string): (target: Option<int>)
    ensures Lookup(users, selected, id).Some? ==> target == Lookup(users, selected, id)
    ensures Lookup(users, selected, id).None? ==>
      (target.Some? <==> IsSuporte(actor.role) && IntCast(id) == actor.id) &&
      (target.Some? ==> target.value == actor.id)
  {
    var found := Lookup(users, selected, id);
    if found.None? && IsSuporte(actor.role) && IntCast(id) == actor.id then Some(actor.id) else found
  }

  /** A suporte caller naming its own id in decimal always reaches its own row. */
  lemma SuporteReachesItself(users: map<int, User>, selected: Option<int>, actor: User)
    requires IsSuporte(actor.role) && actor.id >= 0
    ensures OwnOrScoped(users, selected, actor, DecimalString(actor.id)) == Some(actor.id)
  {
    IntCastOfDecimal(actor.id);
  }

  /** The target of `update` as written: the identity test compares the
      route's string id with the caller's integer id, so it never holds. */
  function UpdateTargetAsWritten(users: map<int, User>, selected: Option<int>, actor: User, id: string): Option<int>
  {
    var found := Lookup(users, selected, id);
    if found.None? && IsSuporte(actor.role) && Str(id) == Int(actor.id) then Some(actor.id) else found
  }

  /** The fallback of `update` is dead: it is the bare scoped lookup. */
  lemma UpdateFallbackIsDead(users: map<int, User>, selected: Option<int>, actor: User, id: string)
    ensures UpdateTargetAsWritten(users, selected, actor, id) == Lookup(users, selected, id)
  {
  }

  /** A suporte user still bound to a condominium (its role was changed by
      `update`) edits itself on a route without the tenant middleware: as
      written it gets a 404, while the cast test finds it. */
  lemma UpdateFallbackCounterexample()
    ensures var actor := User(1, "Ana", SUPORTE, Some(5), None, true, true, None);
      var users := map[1 := actor];
      UpdateTargetAsWritten(users, None, actor, "1") == None &&
      OwnOrScoped(users, None, actor, "1") == Some(1)
  {
    var actor := User(1, "Ana", SUPORTE, Some(5), None, true, true, None);
    IntCastOfDecimal(1);
    assert DecimalString(1) == "1";
  }

  /** The fields `$user->update($data)` writes from a user form. */
  function Updated(u: User, input: UserInput): (v: User)
    ensures v.id == u.id && v.condominiumId == u.condominiumId && v.lastViewedCondominiumId == u.lastViewedCondominiumId
    ensures v.name == input.name && v.role == input.role && v.lastLoginAt == u.lastLoginAt
    ensures v.accountStatus == if input.accountStatus.Some? then input.accountStatus.value else u.accountStatus
    ensures v.acceptsEmails == if input.acceptsEmails.Some? then input.acceptsEmails.value else u.acceptsEmails
  {
    u.(name := input.name, role := input.role,
       accountStatus := if input.accountStatus.Some? then input.accountStatus.value else u.accountStatus,
       acceptsEmails := if input.acceptsEmails.Some? then input.acceptsEmails.value else u.acceptsEmails)
  }

  /** `update`: its self fallback is dead (`UpdateFallbackIsDead`), so the
      target is the scoped lookup alone; the pivot and the permission record
      are not touched. The audit call after the save fails with a 500 on a null
      selection. */
  method Update(db: Store, actor: User, selected: Option<int>, id: string, input: UserInput) returns (status: int)
    requires db.Valid()
    modifies db`users
    ensures db.Valid()
    ensures status == 200 || status == 404 || status == 500
    ensures status == 404 <==> Lookup(old(db.users), selected, id).None?
    ensures status == 500 <==> Lookup(old(db.users), selected, id).Some? && selected.None?
    ensures status == 404 ==> db.users == old(db.users)
    ensures status != 404 ==>
      var k := IntCast(id);
      k in old(db.users) && old(db.users[k]).condominiumId == selected &&
      db.users == old(db.users)[k := Updated(old(db.users[k]), input)]
  {
    var target := UpdateTargetAsWritten(db.users, selected, actor, id);
    UpdateFallbackIsDead(db.users, selected, actor, id);
    if target.None? {
      return 404;
    }
    var k := target.value;
    db.users := db.users[k := Updated(db.users[k], input)];
    if selected.None? {
      return 500;
    }
    return 200;
  }

  /** On the routes without the tenant middleware the selection is null, so
      the scoped lookup reaches only rows without a condominium, and the
      fallback only the suporte caller itself. */
  lemma NullSelectionReachesUnboundRows(users: map<int, User>, actor: User, id: string)
    requires OwnOrScoped(users, None, actor, id).Some?
    ensures Lookup(users, None, id).Some? ==> users[IntCast(id)].condominiumId.None?
    ensures Lookup(users, None, id).None? ==> IsSuporte(actor.role) && OwnOrScoped(users, None, actor, id) == Some(actor.id)
  {
  }
}
