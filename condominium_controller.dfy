/** `CondominiumController`: the role-based listing and the two write paths
    that change a condominium's availability. */
module CondominiumController {
  import opened Php
  import opened Roles
  import opened Database
  import opened AuthController
  import EnsureUserIsSupport

  datatype Listing = Forbidden | Listed(total: int, data: map<int, Condominium>)

  /** `index`: 403 for roles other than suporte and sindico; suporte sees
      every condominium, a sindico its active linked ones; `total` counts what
      is returned. */
  function Index(user: User, condominiums: map<int, Condominium>, links: set<(int, int)>): (l: Listing)
    ensures l.Forbidden? <==> user.role != SUPORTE && user.role != SINDICO
    ensures l.Listed? ==> l.total == |l.data|
    ensures l.Listed? && user.role == SUPORTE ==> l.data == condominiums
    ensures l.Listed? && user.role == SINDICO ==>
      l.data.Keys == ActiveLinked(user.id, condominiums, links) &&
      forall c :: c in l.data ==> l.data[c] == condominiums[c] && l.data[c].isActive
  {
    if user.role != SUPORTE && user.role != SINDICO then Forbidden
    else
      var data := if user.role == SUPORTE then condominiums
                  else map c | c in ActiveLinked(user.id, condominiums, links) :: condominiums[c];
      Listed(|data|, data)
  }

  /** A sindico's listing is exactly what login and token validation accept it
      by: the list is empty precisely when the tenant check refuses it. */
  lemma SindicoListingMatchesTenantCheck(user: User, condominiums: map<int, Condominium>, links: set<(int, int)>)
    requires user.role == SINDICO
    ensures Index(user, condominiums, links).total == 0 <==> !TenantReachable(user, condominiums, links)
  {
    var l := Index(user, condominiums, links);
    if exists c :: c in l.data {
      var c :| c in l.data;
      assert c in ActiveLinked(user.id, condominiums, links);
      assert |l.data.Keys - {c}| + 1 == |l.data.Keys|;
    } else {
      assert l.data == map[];
      assert forall c :: c !in ActiveLinked(user.id, condominiums, links);
    }
  }

  /** The condominium routes sit behind `EnsureUserIsSupport`, which admits only
      sindico callers: past it, `index` always lists, and only the caller's
      active linked condominiums; the suporte branch never runs. */
  lemma ListingBehindItsGate(user: User, condominiums: map<int, Condominium>, links: set<(int, int)>)
    requires EnsureUserIsSupport.Handle(Some(user)) == 0
    ensures Index(user, condominiums, links).Listed?
    ensures Index(user, condominiums, links).data.Keys == ActiveLinked(user.id, condominiums, links)
    ensures user.role != SUPORTE
  {
  }

  /** `updateStatus`: 404 for an unknown id; otherwise `expires_at` changes
      only when one is given and `is_active` always takes the input. */
  method UpdateStatus(db: Store, id: string, expiresAt: Option<int>, isActive: bool) returns (status: int)
    requires db.Valid()
    modifies db`condominiums
    ensures db.Valid()
    ensures status == 404 || status == 200
    ensures status == 404 <==> IntCast(id) !in old(db.condominiums)
    ensures status == 404 ==> db.condominiums == old(db.condominiums)
    ensures status == 200 ==>
      var key := IntCast(id);
      var c := old(db.condominiums[key]);
      db.condominiums == old(db.condominiums)[key := c.(
        isActive := isActive,
        expiresAt := if expiresAt.Some? then expiresAt else c.expiresAt)]
  {
    var key := IntCast(id);
    if key !in db.condominiums {
      return 404;
    }
    var c := db.condominiums[key];
    if expiresAt.Some? {
      c := c.(expiresAt := expiresAt);
    }
    c := c.(isActive := isActive);
    db.condominiums := db.condominiums[key := c];
    return 200;
  }

  /** A user row after the condominium `key` is gone: the two foreign keys to
      it are set to null. */
  function Detached(u: User, key: int): (d: User)
    ensures d.id == u.id && d.name == u.name && d.role == u.role
    ensures d.accountStatus == u.accountStatus && d.acceptsEmails == u.acceptsEmails && d.lastLoginAt == u.lastLoginAt
    ensures d.condominiumId == if u.condominiumId == Some(key) then None else u.condominiumId
    ensures d.lastViewedCondominiumId == if u.lastViewedCondominiumId == Some(key) then None else u.lastViewedCondominiumId
  {
    u.(condominiumId := if u.condominiumId == Some(key) then None else u.condominiumId,
       lastViewedCondominiumId := if u.lastViewedCondominiumId == Some(key) then None else u.lastViewedCondominiumId)
  }

  /** `destroy`: 404 for an unknown id; otherwise the row goes, its pivot rows
      go with it and the users that pointed at it point at nothing. */
  method Destroy(db: Store, id: string) returns (status: int)
    requires db.Valid()
    modifies db`condominiums, db`links, db`users
    ensures db.Valid()
    ensures status == 404 || status == 200
    ensures status == 404 <==> IntCast(id) !in old(db.condominiums)
    ensures status == 404 ==> db.condominiums == old(db.condominiums) && db.links == old(db.links) && db.users == old(db.users)
    ensures status == 200 ==>
      var key := IntCast(id);
      db.condominiums == old(db.condominiums) - {key} &&
      db.links == (set l | l in old(db.links) && l.1 != key) &&
      db.users == map u | u in old(db.users) :: Detached(old(db.users[u]), key)
  {
    var key := IntCast(id);
    if key !in db.condominiums {
      return 404;
    }
    db.condominiums := db.condominiums - {key};
    db.links := set l | l in db.links && l.1 != key;
    db.users := map u | u in db.users :: Detached(db.users[u], key);
    return 200;
  }
}
