/** The `CheckPermission` middleware: the per-module, per-action guard a route
    names as `CheckPermission:<module>,<action>`. */
module CheckPermission {
  import opened Php
  import opened Roles
  import opened UserPermission
  import opened PermissionMerge
  import opened Database

  datatype Verdict = Next | Respond(status: int)

  /** `$permissions[$module][$action] ?? false` returned through a `bool`
      result: a missing module, a section that is not an array, a missing
      action and a null value all read as false; other values by truthiness. */
  predicate Granted(p: PermissionSet, section: string, action: string)
  {
    section in p && p[section].Group? && action in p[section].actions && Truthy(p[section].actions[action])
  }

  /** `checkUserPermission`. `record` is the user's `permissions` relation. */
  function CheckUserPermission(user: User, record: Option<PermissionSet>, section: string, action: string): (allowed: bool)
    // sindico and suporte pass whatever their record holds, or without one
    ensures user.role == SINDICO || user.role == SUPORTE ==> allowed
    // everyone else needs a record, and in it a truthy value at module/action
    ensures user.role != SINDICO && user.role != SUPORTE ==>
      (allowed <==> record.Some? && Granted(record.value, section, action))
  {
    if user.role == SINDICO || user.role == SUPORTE then true
    else if record.None? then false
    else Granted(record.value, section, action)
  }

  /** The user's permission record, looked up through `user_id`. */
  function RecordOf(user: User, permissions: map<int, PermissionSet>): Option<PermissionSet>
  {
    if user.id in permissions then Some(permissions[user.id]) else None
  }

  /** `handle`: 401 without a user, 403 on a denial (the next handler does not
      run), the next handler otherwise. */
  function Handle(user: Option<User>, permissions: map<int, PermissionSet>, section: string, action: string): (v: Verdict)
    ensures user.None? ==> v == Respond(401)
    ensures user.Some? ==> (v == Next <==> CheckUserPermission(user.value, RecordOf(user.value, permissions), section, action))
    ensures v.Respond? ==> v.status == 401 || v.status == 403
  {
    if user.None? then Respond(401)
    else if !CheckUserPermission(user.value, RecordOf(user.value, permissions), section, action) then Respond(403)
    else Next
  }

  /** A record holding exactly the defaults denies every module and action to
      the roles the guard does not wave through. */
  lemma DefaultsDenyEverything(user: User, section: string, action: string)
    requires user.role != SINDICO && user.role != SUPORTE
    requires action != "label"
    ensures !CheckUserPermission(user, Some(Defaults()), section, action)
  {
  }

  /** Default-deny after a merge: if the submitted (or stored) array did not
      carry a schema action, the merged record denies it. */
  lemma MergedRecordDeniesWhatWasNotGiven(user: User, given: PermissionSet, section: string, action: string)
    requires user.role != SINDICO && user.role != SUPORTE
    requires Merge(DefaultPermissions(), given).Some?
    requires section in MODULES && action in ACTIONS
    requires section !in given || !given[section].Group? || action !in given[section].actions
    ensures !CheckUserPermission(user, Merge(DefaultPermissions(), given), section, action)
  {
    var merged := Merge(DefaultPermissions(), given).value;
    assert merged[section].Group?;
    if section in given && given[section].Group? {
      assert merged[section].actions[action] == Bool(false);
    } else {
      assert merged[section] == Group(DefaultPermissions()[section]);
    }
  }

  /** The merge never changes an answer the given array already settles. */
  lemma MergedRecordKeepsWhatWasGiven(user: User, given: PermissionSet, section: string, action: string)
    requires Merge(DefaultPermissions(), given).Some?
    requires section in MODULES
    requires section in given && given[section].Group? && action in given[section].actions
    ensures CheckUserPermission(user, Merge(DefaultPermissions(), given), section, action)
      == (user.role == SINDICO || user.role == SUPORTE || Truthy(given[section].actions[action]))
  {
  }

  /** An array whose sections use only the keys of the default matrix. */
  predicate WithinSchema(p: PermissionSet)
  {
    forall s :: s in p && p[s].Group? ==> p[s].actions.Keys <= SECTION_KEYS
  }

  /** An action outside the schema is denied to a sub-scoped user whose record
      merges an array within the schema, even one granting every action. */
  lemma OutsideSchemaIsDenied(user: User, given: PermissionSet, section: string, action: string)
    requires user.role != SINDICO && user.role != SUPORTE
    requires WithinSchema(given)
    requires Merge(DefaultPermissions(), given).Some?
    requires section in MODULES && action !in SECTION_KEYS
    ensures !CheckUserPermission(user, Merge(DefaultPermissions(), given), section, action)
  {
    var d := DefaultPermissions();
    var merged := Merge(d, given).value;
    assert d[section].Keys == SECTION_KEYS;
    if section in given && given[section].Group? {
      assert given[section].actions.Keys <= SECTION_KEYS;
      assert merged[section].actions.Keys == d[section].Keys + given[section].actions.Keys;
    } else {
      assert merged[section] == Group(d[section]);
    }
    assert action !in merged[section].actions;
  }

  /** The delivery update route asks for `entregas,atualizar`, an action the
      default matrix does not have, so that route is closed to every sub-scoped
      user whose record was built from an array within the schema. */
  lemma DeliveryUpdateIsDenied(user: User, given: PermissionSet)
    requires user.role != SINDICO && user.role != SUPORTE
    requires WithinSchema(given)
    requires Merge(DefaultPermissions(), given).Some?
    ensures !CheckUserPermission(user, Merge(DefaultPermissions(), given), "entregas", "atualizar")
  {
    assert "atualizar" !in SECTION_KEYS;
    OutsideSchemaIsDenied(user, given, "entregas", "atualizar");
  }
}
