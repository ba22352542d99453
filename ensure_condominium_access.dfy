/** The `EnsureCondominiumAccess` middleware: resolves the tenant a request
    works on from the `X-Condominium-Id` header and refuses callers that do
    not belong to it. */
module EnsureCondominiumAccess {
  import opened Php
  import opened Roles
  import opened Database

  /** What the request attribute `id_selected_condominium` holds: suporte
      callers get the header string as sent, everyone else the condominium's
      integer id. */
  datatype Attached = RawHeader(header: string) | CondominiumKey(id: int)

  /** The container binding `selectedCondominium`: not bound yet, or bound to
      a condominium row or to null. */
  datatype Binding = Unbound | Bound(condominium: Option<Condominium>)

  datatype Access =
    | MissingHeader                                          // 422
    | UnknownCondominium                                     // 422
    | Denied(attached: int)                                  // 403, the attribute already set
    | Granted(key: Attached, selected: Option<Condominium>)  // the next handler runs

  /** `if (!$condominiumId)`: absent, empty and "0" headers are refused. */
  predicate HeaderPresent(header: Option<string>)
  {
    header.Some? && TruthyString(header.value)
  }

  /** `Condominium::where('id', $header)->where('is_active', true)->first()`. */
  function ActiveCondominium(condominiums: map<int, Condominium>, id: int): (c: Option<Condominium>)
    ensures c.Some? <==> id in condominiums && condominiums[id].isActive
    ensures c.Some? ==> c.value == condominiums[id]
  {
    if id in condominiums && condominiums[id].isActive then Some(condominiums[id]) else None
  }

  /** Membership as the non-suporte branches test it: sindico through the
      pivot, every other role through its own `condominium_id`. */
  predicate Belongs(user: User, links: set<(int, int)>, id: int)
  {
    if user.role == SINDICO then (user.id, id) in links else user.condominiumId == Some(id)
  }

  function Decide(header: Option<string>, user: User, condominiums: map<int, Condominium>, links: set<(int, int)>): (a: Access)
    // a missing or falsy header is refused for every role
    ensures !HeaderPresent(header) ==> a == MissingHeader
    // suporte always passes, carrying the raw header even when no active condominium matches
    ensures HeaderPresent(header) && IsSuporte(user.role) ==>
      a == Granted(RawHeader(header.value), ActiveCondominium(condominiums, IntCast(header.value)))
    // the other roles: 422 for an unknown or inactive condominium ...
    ensures HeaderPresent(header) && !IsSuporte(user.role) ==>
      (a == UnknownCondominium <==> ActiveCondominium(condominiums, IntCast(header.value)).None?)
    // ... and past that, access exactly when the caller belongs to it
    ensures !IsSuporte(user.role) ==>
      (a.Granted? <==> HeaderPresent(header) && var k := IntCast(header.value);
                       k in condominiums && condominiums[k].isActive && Belongs(user, links, k))
    // tenant isolation: what a non-suporte caller gets attached is the stored id of a condominium it belongs to
    ensures !IsSuporte(user.role) && a.Granted? ==>
      var k := IntCast(header.value);
      a.key == CondominiumKey(k) && a.selected == Some(condominiums[k]) && Belongs(user, links, k)
    ensures a.Denied? ==> !IsSuporte(user.role) && a.attached == IntCast(header.value) && !Belongs(user, links, a.attached)
  {
    if !HeaderPresent(header) then MissingHeader
    else
      var k := IntCast(header.value);
      var condominium := ActiveCondominium(condominiums, k);
      if IsSuporte(user.role) then Granted(RawHeader(header.value), condominium)
      else if condominium.None? then UnknownCondominium
      else if !Belongs(user, links, k) then Denied(k)
      else Granted(CondominiumKey(k), condominium)
  }

  /** The HTTP status of a refusal; 0 when the request passes on. */
  function Status(a: Access): (code: int)
    ensures code == 0 <==> a.Granted?
    ensures a.MissingHeader? || a.UnknownCondominium? ==> code == 422
    ensures a.Denied? ==> code == 403
  {
    match a
    case MissingHeader => 422
    case UnknownCondominium => 422
    case Denied(_) => 403
    case Granted(_, _) => 0
  }

  /** The request attribute bag and the container binding the middleware writes. */
  class RequestScope {
    var selectedId: Option<Attached>
    var selectedCondominium: Binding

    constructor ()
      ensures selectedId == None && selectedCondominium == Unbound
    {
      selectedId, selectedCondominium := None, Unbound;
    }

    /** `handle`: the attribute is written before the 403 check, the binding
        only when the request passes. */
    method Handle(header: Option<string>, user: User, condominiums: map<int, Condominium>, links: set<(int, int)>)
      returns (a: Access)
      modifies this
      ensures a == Decide(header, user, condominiums, links)
      ensures selectedId == match a
        case Granted(key, _) => Some(key)
        case Denied(id) => Some(CondominiumKey(id))
        case _ => old(selectedId)
      ensures selectedCondominium == if a.Granted? then Bound(a.selected) else old(selectedCondominium)
    {
      if !HeaderPresent(header) {
        return MissingHeader;
      }
      var condominium := ActiveCondominium(condominiums, IntCast(header.value));
      if IsSuporte(user.role) {
        selectedId := Some(RawHeader(header.value));
        selectedCondominium := Bound(condominium);
        return Granted(RawHeader(header.value), condominium);
      }
      if condominium.None? {
        return UnknownCondominium;
      }
      var k := IntCast(header.value);
      selectedId := Some(CondominiumKey(k));
      var hasAccess := Belongs(user, links, k);
      if !hasAccess {
        return Denied(k);
      }
      selectedCondominium := Bound(condominium);
      return Granted(CondominiumKey(k), condominium);
    }
  }

  /** A resident bound to an active condominium reaches it by sending its id
      in decimal, the way the client does. */
  lemma MemberSendingItsIdIsGranted(user: User, condominiums: map<int, Condominium>, links: set<(int, int)>, id: nat)
    requires user.role != SUPORTE && user.role != SINDICO
    requires user.condominiumId == Some(id)
    requires id in condominiums && condominiums[id].isActive
    requires id != 0
    ensures Decide(Some(DecimalString(id)), user, condominiums, links)
      == Granted(CondominiumKey(id), Some(condominiums[id]))
  {
    var h := DecimalString(id);
    IntCastOfDecimal(id);
    DecimalOfPositiveIsTruthy(id);
    assert HeaderPresent(Some(h));
    assert ActiveCondominium(condominiums, IntCast(h)) == Some(condominiums[id]);
    assert Belongs(user, links, id);
  }

  /** A sindico with no pivot row is refused every condominium. */
  lemma UnlinkedSindicoIsRefused(user: User, header: Option<string>, condominiums: map<int, Condominium>, links: set<(int, int)>)
    requires user.role == SINDICO
    requires forall l :: l in links ==> l.0 != user.id
    ensures !Decide(header, user, condominiums, links).Granted?
  {
    if HeaderPresent(header) {
      var k := IntCast(header.value);
      assert (user.id, k) !in links;
    }
  }
}
