/** `EmployeeController`: the permission and employee writes of `store` and
    `updateStatus`. */
module EmployeeController {
  import opened Php
  import opened Roles
  import opened UserPermission
  import opened PermissionMerge
  import opened Database
  import opened UserController

  /** The validated `employee.*` fields. The form has `employee.*` rules, all
      but the description required, exactly when its role is funcionario, so
      the validated data holds them exactly then; `description` is None when
      the optional field was not sent. */
  datatype EmployeeInput = EmployeeInput(occupation: string, admissionDate: string, description: Option<Option<string>>, status: string)

  /** `store`, behind the tenant middleware. The user row is saved first; an
      `employee` array missing from the validated data, or lacking its
      description key, fails the request after that save. The permission record
      takes `$data['permissions'] ?? defaults`, and the validated data never has
      a `permissions` key (see `UserRequest.NoPermissionsRule`), so it is
      always the defaults, with no merge. */
  method Store(db: Store, selected: int, input: UserInput, employee: Option<EmployeeInput>) returns (status: int, id: int)
    requires db.Valid()
    requires employee.Some? <==> input.role == FUNCIONARIO
    modifies db`users, db`employees, db`permissions
    ensures db.Valid()
    ensures status == 200 || status == 500
    ensures selected !in db.condominiums ==>
      status == 500 && db.users == old(db.users) && db.employees == old(db.employees) && db.permissions == old(db.permissions)
    ensures selected in db.condominiums ==>
      id >= 1 && id !in old(db.users) &&
      db.users == old(db.users)[id := NewUser(id, input, Some(selected))] &&
      var complete := employee.Some? && employee.value.description.Some?;
      (status == 200 <==> complete) &&
      (!complete ==> db.employees == old(db.employees) && db.permissions == old(db.permissions)) &&
      (complete ==>
        var e := employee.value;
        db.employees == old(db.employees)[id := Employee(e.occupation, e.admissionDate, e.description.value, e.status)] &&
        db.permissions == old(db.permissions)[id := Defaults()])
  {
    id := FreshId(db.users.Keys);
    if selected !in db.condominiums {
      return 500, id;
    }
    var user := NewUser(id, input, Some(selected));
    SaveUserKeepsConsistent(db.condominiums, db.users, db.links, user);
    db.users := db.users[id := user];
    if employee.None? || employee.value.description.None? {
      return 500, id;
    }
    var e := employee.value;
    db.employees := db.employees[id := Employee(e.occupation, e.admissionDate, e.description.value, e.status)];
    db.permissions := db.permissions[id := Defaults()];
    return 200, id;
  }

  /** The target of `updateStatus` as written: `User::find($id)`, in any
      condominium. */
  function TargetAsWritten(users: map<int, User>, id: string): (found: Option<int>)
    ensures found.Some? <==> IntCast(id) in users
  {
    if IntCast(id) in users then Some(IntCast(id)) else None
  }

  /** Behind the tenant middleware, a sindico of condominium 1 reaches and
      rewrites an employee of condominium 2; the scoped lookup refuses it. */
  lemma CrossTenantTargetCounterexample()
    ensures var employee := User(7, "Caio", FUNCIONARIO, Some(2), None, true, true, None);
      var users := map[7 := employee];
      TargetAsWritten(users, "7") == Some(7) && Lookup(users, Some(1), "7") == None
  {
    IntCastOfDecimal(7);
    assert DecimalString(7) == "7";
  }

  /** The record `updateStatus` writes: the submission filled in from the
      defaults, or None for the TypeError. */
  function MergedRecord(submitted: PermissionSet): Option<PermissionSet>
  {
    Merge(DefaultPermissions(), submitted)
  }

  /** The two relation updates of `updateStatus`: each rewrites an existing
      row only. False is the TypeError of the merge, before either write. */
  method SaveMergedRecord(db: Store, k: int, submitted: PermissionSet, employeeStatus: string) returns (saved: bool)
    modifies db`permissions, db`employees
    ensures var merged := MergedRecord(submitted);
      saved == merged.Some? &&
      (!saved ==> db.permissions == old(db.permissions) && db.employees == old(db.employees)) &&
      (saved ==>
        db.permissions == (if k in old(db.permissions) then old(db.permissions)[k := merged.value] else old(db.permissions)) &&
        db.employees == (if k in old(db.employees) then old(db.employees)[k := old(db.employees[k]).(status := employeeStatus)]
                         else old(db.employees)))
  {
    var merged := MergePermissions(DefaultPermissions(), submitted);
    if merged.None? {
      return false;
    }
    if k in db.permissions {
      db.permissions := db.permissions[k := merged.value];
    }
    if k in db.employees {
      db.employees := db.employees[k := db.employees[k].(status := employeeStatus)];
    }
    return true;
  }

  /** `updateStatus`: the target is `User::find($id)`, in any condominium (see
      `CrossTenantTargetCounterexample`). `account_status` is saved first; the
      merge of the submitted array then replaces an existing permission record
      (none is created), and the status lands on an existing employee row. */
  method UpdateStatus(db: Store, id: string, accountStatus: bool, submitted: PermissionSet, employeeStatus: string)
    returns (status: int)
    requires db.Valid()
    modifies db`users, db`permissions, db`employees
    ensures db.Valid()
    ensures status == 200 || status == 404 || status == 500
    ensures status == 404 <==> IntCast(id) !in old(db.users)
    ensures status == 404 ==>
      db.users == old(db.users) && db.permissions == old(db.permissions) && db.employees == old(db.employees)
    ensures status != 404 ==>
      var k := IntCast(id);
      var merged := MergedRecord(submitted);
      db.users == old(db.users)[k := old(db.users[k]).(accountStatus := accountStatus)] &&
      (status == 500 <==> merged.None?) &&
      (status == 500 ==> db.permissions == old(db.permissions) && db.employees == old(db.employees)) &&
      (status == 200 ==>
        db.permissions == (if k in old(db.permissions) then old(db.permissions)[k := merged.value] else old(db.permissions)) &&
        db.employees == (if k in old(db.employees) then old(db.employees)[k := old(db.employees[k]).(status := employeeStatus)]
                         else old(db.employees)))
  {
    var found := TargetAsWritten(db.users, id);
    if found.None? {
      return 404;
    }
    var k := found.value;
    var user := db.users[k].(accountStatus := accountStatus);
    SaveUserKeepsConsistent(db.condominiums, db.users, db.links, user);
    db.users := db.users[k := user];
    ghost var tables := (db.condominiums, db.users, db.links);
    assert Consistent(tables.0, tables.1, tables.2);
    var saved := SaveMergedRecord(db, k, submitted, employeeStatus);
    assert (db.condominiums, db.users, db.links) == tables;
    return if saved then 200 else 500;
  }

  /** A permission array of the shape `UpdateEmployeeStatusRequest` demands:
      every default module an array holding every default key. */
  predicate Complete(p: PermissionSet)
  {
    forall s :: s in MODULES ==> s in p && p[s].Group? && SECTION_KEYS <= p[s].actions.Keys
  }

  /** For a submission that passed the request's rules the merge changes
      nothing: what `updateStatus` stores is the submission itself. */
  lemma MergeOfCompleteIsIdentity(p: PermissionSet)
    requires Complete(p)
    ensures Merge(DefaultPermissions(), p) == Some(p)
  {
    DefaultShape();
    MergeOfCoveringIsIdentity(DefaultPermissions(), p);
  }
}
