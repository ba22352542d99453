/** The rows the authorization layer reads and writes, and the tables that hold
    them, as maps keyed by primary key. */
module Database {
  import opened Php
  import opened UserPermission

  /** A `users` row (the columns the core reads or writes). */
  datatype User = User(
    id: int,
    name: string,
    role: string,
    condominiumId: Option<int>,
    lastViewedCondominiumId: Option<int>,
    accountStatus: bool,
    acceptsEmails: bool,
    lastLoginAt: Option<int>)

  /** A `condominiums` row; its id is its key in the table. */
  datatype Condominium = Condominium(name: string, isActive: bool, expiresAt: Option<int>)

  /** An `employees` row, owned by one user. */
  datatype Employee = Employee(occupation: string, admissionDate: string, description: Option<string>, status: string)

  /** A personal access token; times are seconds on one clock. */
  datatype Token = Token(id: int, ownerId: int, lastUsedAt: Option<int>, expiresAt: Option<int>)

  /** Every user row is stored under its own id, and the foreign keys of the
      users table and of the pivot point at existing rows. */
  predicate Consistent(condominiums: map<int, Condominium>, users: map<int, User>, links: set<(int, int)>)
  {
    (forall k :: k in users ==> users[k].id == k) &&
    (forall k :: k in users && users[k].condominiumId.Some? ==> users[k].condominiumId.value in condominiums) &&
    (forall k :: k in users && users[k].lastViewedCondominiumId.Some? ==>
       users[k].lastViewedCondominiumId.value in condominiums) &&
    (forall l :: l in links ==> l.0 in users && l.1 in condominiums)
  }

  /** Whether a user row's foreign keys name existing condominiums. */
  predicate References(condominiums: map<int, Condominium>, u: User)
  {
    (u.condominiumId.Some? ==> u.condominiumId.value in condominiums) &&
    (u.lastViewedCondominiumId.Some? ==> u.lastViewedCondominiumId.value in condominiums)
  }

  /** Saving a row whose foreign keys hold keeps the tables consistent. */
  lemma SaveUserKeepsConsistent(condominiums: map<int, Condominium>, users: map<int, User>, links: set<(int, int)>, u: User)
    requires Consistent(condominiums, users, links)
    requires References(condominiums, u)
    ensures Consistent(condominiums, users[u.id := u], links)
  {
  }

  /** Attaching a pivot row between existing rows keeps the tables consistent. */
  lemma AttachKeepsConsistent(condominiums: map<int, Condominium>, users: map<int, User>, links: set<(int, int)>, l: (int, int))
    requires Consistent(condominiums, users, links)
    requires l.0 in users && l.1 in condominiums
    ensures Consistent(condominiums, users, links + {l})
  {
  }

  class Store {
    var condominiums: map<int, Condominium>
    var users: map<int, User>
    /** The `condominium_user` pivot: (user_id, condominium_id), its primary key. */
    var links: set<(int, int)>
    /** `user_permissions` by user_id. */
    var permissions: map<int, PermissionSet>
    /** `employees` by user_id. */
    var employees: map<int, Employee>
    /** `personal_access_tokens`, oldest first. */
    var tokens: seq<Token>

    predicate Valid()
      reads this
    {
      Consistent(condominiums, users, links)
    }

    constructor ()
      ensures Valid()
      ensures condominiums == map[] && users == map[] && links == {}
      ensures permissions == map[] && employees == map[] && tokens == []
    {
      condominiums, users, links := map[], map[], {};
      permissions, employees, tokens := map[], map[], [];
    }
  }
}
