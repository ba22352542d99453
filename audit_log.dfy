/** `AuditLog`: the three loggers that turn an action of a user into one row of
    the `audit_logs` table. Support staff leave no trail. */
module AuditLog {
  import opened Php
  import opened Roles
  import opened Database

  const ADD_RESIDENT: string := "adicionou o morador"
  const UPDATED_RESIDENT: string := "editou o morador"
  const DELETED_RESIDENT: string := "excluiu o morador"
  const ADD_DELIVERY: string := "registrou a entrega"
  const UPDATED_DELIVERY: string := "editou registro de entrega"
  const DELETED_DELIVERY: string := "excluiu registro de entrega"
  const CONFIRMED_DELIVERY: string := "confirmou recebimento da entrega"
  const ADD_COMMON_SPACE: string := "adicionou o espaço comum"
  const UPDATED_COMMON_SPACE: string := "editou o espaço comum"
  const DELETED_COMMON_SPACE: string := "excluiu a área comum"

  /** The fixed tail of a confirmed delivery. */
  const CONFIRMATION_TAIL: string := " confirmou o recebimento da entrega."

  /** The `changes` column, an array cast. */
  type Changes = map<string, Scalar>

  /** One row of `audit_logs`. */
  datatype Entry = Entry(
    userId: int,
    userName: string,
    condominiumId: int,
    action: string,
    description: string,
    changes: Option<Changes>)

  /** A nullable string inside double quotes: null renders as "". */
  function Interpolated(s: Option<string>): string
  {
    if s.Some? then s.value else ""
  }

  /** The row every logger creates, given its description. */
  function Row(user: User, condominiumId: int, action: string, description: string, changes: Option<Changes>): (e: Entry)
    ensures e.userId == user.id && e.userName == user.name && e.condominiumId == condominiumId
    ensures e.action == Ucfirst(action) && e.description == description && e.changes == changes
  {
    Entry(user.id, user.name, condominiumId, Ucfirst(action), description, changes)
  }

  /** `residentLog`: "name action (target)" when the target is truthy, else
      "name action". */
  function ResidentLog(user: User, condominiumId: int, action: string, targetName: Option<string>,
                       changes: Option<Changes>): (r: Option<Entry>)
    ensures r.None? <==> IsSuporte(user.role)
    ensures r.Some? ==> r.value == Row(user, condominiumId, action, r.value.description, changes)
    ensures r.Some? ==>
      var head := user.name + " " + action;
      if targetName.Some? && TruthyString(targetName.value)
      then r.value.description == head + " (" + targetName.value + ")"
      else r.value.description == head
  {
    if IsSuporte(user.role) then None
    else
      var description :=
        if targetName.Some? && TruthyString(targetName.value)
        then user.name + " " + action + " (" + targetName.value + ")"
        else user.name + " " + action;
      Some(Row(user, condominiumId, action, description, changes))
  }

  /** `deliveryLog`: "name action (item)", except that a confirmation gets the
      fixed text. */
  function DeliveryLog(user: User, condominiumId: int, action: string, itemName: Option<string>,
                       changes: Option<Changes>): (r: Option<Entry>)
    ensures r.None? <==> IsSuporte(user.role)
    ensures r.Some? ==> r.value == Row(user, condominiumId, action, r.value.description, changes)
    ensures r.Some? && action == CONFIRMED_DELIVERY ==> r.value.description == user.name + CONFIRMATION_TAIL
    ensures r.Some? && action != CONFIRMED_DELIVERY ==>
      r.value.description == user.name + " " + action + " (" + Interpolated(itemName) + ")"
  {
    if IsSuporte(user.role) then None
    else
      var description :=
        if action == CONFIRMED_DELIVERY then user.name + CONFIRMATION_TAIL
        else user.name + " " + action + " (" + Interpolated(itemName) + ")";
      Some(Row(user, condominiumId, action, description, changes))
  }

  /** `commonSpaceLog`: always "name action (item)". */
  function CommonSpaceLog(user: User, condominiumId: int, action: string, itemName: Option<string>,
                          changes: Option<Changes>): (r: Option<Entry>)
    ensures r.None? <==> IsSuporte(user.role)
    ensures r.Some? ==> r.value == Row(user, condominiumId, action, user.name + " " + action + " (" + Interpolated(itemName) + ")", changes)
  {
    if IsSuporte(user.role) then None
    else Some(Row(user, condominiumId, action, user.name + " " + action + " (" + Interpolated(itemName) + ")", changes))
  }

  /** The description always opens with the actor's name. */
  lemma DescriptionsNameTheActor(user: User, condominiumId: int, action: string, item: Option<string>, changes: Option<Changes>)
    ensures var r := ResidentLog(user, condominiumId, action, item, changes);
      r.Some? ==> user.name <= r.value.description
    ensures var r := DeliveryLog(user, condominiumId, action, item, changes);
      r.Some? ==> user.name <= r.value.description
    ensures var r := CommonSpaceLog(user, condominiumId, action, item, changes);
      r.Some? ==> user.name <= r.value.description
  {
    var n := user.name;
    assert forall t: string :: n <= n + t;
    var head := n + " " + action;
    assert head + " (" + Interpolated(item) + ")" == n + (" " + action + " (" + Interpolated(item) + ")");
    if item.Some? {
      assert head + " (" + item.value + ")" == n + (" " + action + " (" + item.value + ")");
    }
    assert head == n + (" " + action);
  }

  /** Every action constant starts with a lower-case letter, so the stored
      action differs from it in exactly the first character, which becomes
      upper case. */
  lemma StoredActionCapitalizes(action: string)
    requires action in {ADD_RESIDENT, UPDATED_RESIDENT, DELETED_RESIDENT, ADD_DELIVERY, UPDATED_DELIVERY,
                        DELETED_DELIVERY, CONFIRMED_DELIVERY, ADD_COMMON_SPACE, UPDATED_COMMON_SPACE,
                        DELETED_COMMON_SPACE}
    ensures var stored := Ucfirst(action);
      |stored| == |action| && 'A' <= stored[0] <= 'Z' && stored[0] != action[0] && stored[1..] == action[1..]
  {
    assert 'a' <= action[0] <= 'z';
  }

  /** The `audit_logs` table, which only grows. */
  class AuditTrail {
    var entries: seq<Entry>

    constructor ()
      ensures entries == []
    {
      entries := [];
    }

    /** `self::create([...])` when a logger produced a row; nothing otherwise. */
    method Record(r: Option<Entry>)
      modifies this
      ensures r.Some? ==> entries == old(entries) + [r.value]
      ensures r.None? ==> entries == old(entries)
    {
      if r.Some? {
        entries := entries + [r.value];
      }
    }
  }
}
