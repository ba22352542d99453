/** Filling a sparse permission array in from the defaults: the `mergePermissions`
    routine that UserController and EmployeeController each carry (the two
    copies are identical, so it is modelled once and both controllers call it). */
module PermissionMerge {
  import opened Php
  import opened UserPermission

  /** PHP's `isset($current[$section])` for a section that exists: false only
      for null. */
  predicate IsSet(e: Entry)
  {
    e != Leaf(Null)
  }

  /** A set section that is not an array: `array_key_exists` refuses it with a
      TypeError. */
  predicate Unmergeable(e: Entry)
  {
    e.Leaf? && e.v != Null
  }

  /** Some default section of `current` is a non-array scalar. */
  predicate Clash(defaults: Matrix, current: PermissionSet)
  {
    exists s :: s in defaults && s in current && Unmergeable(current[s])
  }

  /** The section `s` of the merge: missing or null sections are replaced by the
      default section, array sections keep every action they have and gain the
      default actions they lack. */
  function MergedSection(defaults: Matrix, current: PermissionSet, s: string): Entry
    requires s in defaults
    requires s in current ==> !Unmergeable(current[s])
  {
    if s !in current || !IsSet(current[s]) then Group(defaults[s])
    else Group(defaults[s] + current[s].actions)
  }

  /** `mergePermissions($defaults, $current)`: None is the TypeError. */
  function Merge(defaults: Matrix, current: PermissionSet): (r: Option<PermissionSet>)
    ensures r.None? <==> Clash(defaults, current)
    // the merge is not closed: nothing is dropped, nothing outside the two key sets appears
    ensures r.Some? ==> r.value.Keys == defaults.Keys + current.Keys
  {
    if Clash(defaults, current) then None
    else
      Some(map s | s in defaults.Keys + current.Keys ::
        if s in defaults then MergedSection(defaults, current, s) else current[s])
  }

  /** Sections the defaults do not name come through unchanged. */
  lemma MergeKeepsExtraSections(defaults: Matrix, current: PermissionSet)
    requires Merge(defaults, current).Some?
    ensures forall s :: s in current && s !in defaults ==> Merge(defaults, current).value[s] == current[s]
  {
  }

  /** A section that is absent or null is replaced wholesale by the default one. */
  lemma MergeReplacesMissingSections(defaults: Matrix, current: PermissionSet)
    requires Merge(defaults, current).Some?
    ensures forall s :: s in defaults && (s !in current || current[s] == Leaf(Null)) ==>
      Merge(defaults, current).value[s] == Group(defaults[s])
  {
  }

  /** In an array section, an action already present is never overwritten, a
      missing default action takes its default value, and nothing else is
      added. */
  lemma MergeFillsArraySections(defaults: Matrix, current: PermissionSet, s: string)
    requires Merge(defaults, current).Some?
    requires s in defaults && s in current && current[s].Group?
    ensures Merge(defaults, current).value[s].Group?
    ensures var merged := Merge(defaults, current).value[s].actions;
      merged.Keys == defaults[s].Keys + current[s].actions.Keys &&
      (forall a :: a in current[s].actions ==> merged[a] == current[s].actions[a]) &&
      (forall a :: a in defaults[s] && a !in current[s].actions ==> merged[a] == defaults[s][a])
  {
  }

  /** Every default section comes out as an array holding every default action. */
  lemma MergeHasEveryDefault(defaults: Matrix, current: PermissionSet)
    requires Merge(defaults, current).Some?
    ensures forall s :: s in defaults ==>
      Merge(defaults, current).value[s].Group? && defaults[s].Keys <= Merge(defaults, current).value[s].actions.Keys
  {
  }

  /** The inner loop: add each default action the section lacks. */
  method FillMissingActions(defaultActions: map<string, Scalar>, actions: map<string, Scalar>)
    returns (filled: map<string, Scalar>)
    ensures filled == defaultActions + actions
  {
    filled := actions;
    var pending := defaultActions.Keys;
    while exists a :: a in pending
      invariant pending <= defaultActions.Keys
      invariant filled.Keys == actions.Keys + (defaultActions.Keys - pending)
      invariant forall a :: a in filled ==> filled[a] == if a in actions then actions[a] else defaultActions[a]
      decreases pending
    {
      var action :| action in pending;
      pending := pending - {action};
      if action !in filled {
        filled := filled[action := defaultActions[action]];
      }
    }
    assert forall a :: a !in pending;
    assert filled.Keys == (defaultActions + actions).Keys;
    assert forall a :: a in filled ==> filled[a] == (defaultActions + actions)[a];
  }

  /** The outer loop over the default sections, mutating a copy of `current`. */
  method MergePermissions(defaults: Matrix, current: PermissionSet) returns (r: Option<PermissionSet>)
    ensures r == Merge(defaults, current)
  {
    var merged := current;
    var pending := defaults.Keys;
    while exists s :: s in pending
      invariant pending <= defaults.Keys
      invariant forall s :: s in defaults && s !in pending && s in current ==> !Unmergeable(current[s])
      invariant merged.Keys == current.Keys + (defaults.Keys - pending)
      invariant forall s :: s in merged ==>
        merged[s] == if s in defaults && s !in pending then MergedSection(defaults, current, s) else current[s]
      decreases pending
    {
      var section :| section in pending;
      pending := pending - {section};
      var next := MergeSection(defaults, current, merged, section);
      if next.None? {
        assert Clash(defaults, current);
        return None;
      }
      merged := next.value;
    }
    assert forall s :: s !in pending;
    MergeIsTheLoopResult(defaults, current, merged);
    r := Some(merged);
  }

  /** One pass of the outer loop: `section` of `merged`, which still holds
      what `current` has there, is replaced by the default section or filled
      in; None is the TypeError. */
  method MergeSection(defaults: Matrix, current: PermissionSet, merged: PermissionSet, section: string)
    returns (next: Option<PermissionSet>)
    requires section in defaults
    requires section in merged <==> section in current
    requires section in current ==> merged[section] == current[section]
    ensures next.None? <==> section in current && Unmergeable(current[section])
    ensures next.Some? ==> next.value == merged[section := MergedSection(defaults, current, section)]
  {
    if section !in merged || !IsSet(merged[section]) {
      return Some(merged[section := Group(defaults[section])]);
    } else if merged[section].Leaf? {
      return None;
    } else {
      var filled := FillMissingActions(defaults[section], merged[section].actions);
      return Some(merged[section := Group(filled)]);
    }
  }

  /** What the loop leaves once every default section is processed is the merge. */
  lemma MergeIsTheLoopResult(defaults: Matrix, current: PermissionSet, merged: PermissionSet)
    requires forall s :: s in defaults && s in current ==> !Unmergeable(current[s])
    requires merged.Keys == current.Keys + defaults.Keys
    requires forall s :: s in merged ==>
      merged[s] == if s in defaults then MergedSection(defaults, current, s) else current[s]
    ensures Merge(defaults, current) == Some(merged)
  {
    assert !Clash(defaults, current);
    var expected := Merge(defaults, current).value;
    assert merged.Keys == expected.Keys;
    assert forall s :: s in merged ==> merged[s] == expected[s];
    assert merged == expected;
  }

  /** Merging an empty (or absent) array yields exactly the defaults. */
  lemma MergeOfEmptyIsDefaults(defaults: Matrix)
    ensures Merge(defaults, map[]) == Some(AsStored(defaults))
  {
    var r := Merge(defaults, map[]).value;
    assert r.Keys == AsStored(defaults).Keys;
    assert forall s :: s in r ==> r[s] == AsStored(defaults)[s];
    assert r == AsStored(defaults);
  }

  /** An array that already holds every default section as an array with
      every default action is left as it is. */
  lemma MergeOfCoveringIsIdentity(defaults: Matrix, current: PermissionSet)
    requires forall s :: s in defaults ==>
      s in current && current[s].Group? && defaults[s].Keys <= current[s].actions.Keys
    ensures Merge(defaults, current) == Some(current)
  {
    assert !Clash(defaults, current);
    var r := Merge(defaults, current).value;
    forall s | s in r
      ensures r[s] == current[s]
    {
      if s in defaults {
        var g := current[s].actions;
        assert (defaults[s] + g).Keys == g.Keys;
        assert forall a :: a in g ==> (defaults[s] + g)[a] == g[a];
        assert defaults[s] + g == g;
      }
    }
    assert r.Keys == current.Keys;
    assert r == current;
  }

  /** Merging twice changes nothing more than merging once. */
  lemma MergeIdempotent(defaults: Matrix, current: PermissionSet)
    requires Merge(defaults, current).Some?
    ensures Merge(defaults, Merge(defaults, current).value) == Merge(defaults, current)
  {
    var once := Merge(defaults, current).value;
    assert !Clash(defaults, once);
    var twice := Merge(defaults, once).value;
    forall s | s in twice
      ensures twice[s] == once[s]
    {
      if s in defaults {
        var g := once[s].actions;
        assert twice[s] == Group(defaults[s] + g);
        assert (defaults[s] + g).Keys == g.Keys;
        assert forall a :: a in g ==> (defaults[s] + g)[a] == g[a];
        assert defaults[s] + g == g;
      }
    }
    assert twice.Keys == once.Keys;
    assert twice == once;
  }
}
