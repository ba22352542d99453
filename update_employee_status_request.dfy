/** `UpdateEmployeeStatusRequest::rules`: the validation map derived from the
    default permission matrix. */
module UpdateEmployeeStatusRequest {
  import opened UserPermission

  /** A rule list, each rule by its Laravel name. */
  type RuleList = seq<string>
  type RuleMap = map<string, RuleList>

  const REQUIRED_BOOLEAN: RuleList := ["required", "boolean"]
  const REQUIRED_STRING: RuleList := ["required", "string"]
  const REQUIRED_ARRAY: RuleList := ["required", "array"]

  /** The three entries the map starts with. */
  function BaseRules(): RuleMap
  {
    map["account_status" := REQUIRED_BOOLEAN, "employee.status" := REQUIRED_STRING, "permissions" := REQUIRED_ARRAY]
  }

  function ModuleKey(m: string): string
  {
    "permissions." + m
  }

  function ActionKey(m: string, a: string): string
  {
    "permissions." + m + "." + a
  }

  /** The module entries of the modules `ms`. */
  function ModuleKeys(ms: set<string>): set<string>
  {
    set m | m in ms :: ModuleKey(m)
  }

  /** The action entries of the modules `ms`, one per key of a module (the
      display label included). */
  function ActionKeys(ms: set<string>): set<string>
  {
    set m, a | m in ms && a in SECTION_KEYS :: ActionKey(m, a)
  }

  predicate NoDot(s: string)
  {
    forall i :: 0 <= i < |s| ==> s[i] != '.'
  }

  lemma ModulesHaveNoDot()
    ensures forall m :: m in MODULES ==> NoDot(m)
  {
    assert NoDot("moradores") && NoDot("funcionarios") && NoDot("entregas") && NoDot("espacosComuns");
  }

  /** Module entries and action entries never share a key, since module names
      have no dot. */
  lemma ModuleKeyIsNoActionKey(m: string, m2: string, a: string)
    requires NoDot(m)
    ensures ModuleKey(m) != ActionKey(m2, a)
  {
    var p := "permissions.";
    var k := ActionKey(m2, a);
    assert k == p + m2 + "." + a;
    assert k[|p| + |m2|] == '.';
    if |ModuleKey(m)| == |k| {
      assert ModuleKey(m)[|p| + |m2|] == m[|m2|];
    }
  }

  /** The base keys collide with no derived key. */
  lemma BaseKeysAreNotDerived(m: string, a: string)
    ensures ModuleKey(m) !in BaseRules() && ActionKey(m, a) !in BaseRules()
  {
    var p := "permissions.";
    assert ModuleKey(m)[..|p|] == p;
    assert ActionKey(m, a) == p + (m + "." + a);
    assert ActionKey(m, a)[..|p|] == p;
    assert "account_status"[0] != p[0] && "employee.status"[0] != p[0];
    assert |"permissions"| < |p|;
  }

  /** The action entries of module `m` for the keys `ks`. */
  function Row(m: string, ks: set<string>): set<string>
  {
    set a | a in ks :: ActionKey(m, a)
  }

  /** The action entries of one module. */
  function ActionRow(m: string): set<string>
  {
    Row(m, SECTION_KEYS)
  }

  lemma ActionKeysStep(done: set<string>, m: string)
    ensures ActionKeys(done + {m}) == ActionKeys(done) + ActionRow(m)
  {
    forall k | k in ActionKeys(done + {m})
      ensures k in ActionKeys(done) + ActionRow(m)
    {
      var m2, a :| m2 in done + {m} && a in SECTION_KEYS && k == ActionKey(m2, a);
      if m2 == m {
        assert k in ActionRow(m);
      } else {
        assert k in ActionKeys(done);
      }
    }
  }

  lemma ModuleKeysStep(done: set<string>, m: string)
    ensures ModuleKeys(done + {m}) == ModuleKeys(done) + {ModuleKey(m)}
  {
  }

  /** The entries `rules` holds once the modules `done` are processed. */
  predicate Holds(rules: RuleMap, done: set<string>)
  {
    (forall k :: k in BaseRules() ==> k in rules && rules[k] == BaseRules()[k]) &&
    (forall m :: m in done ==> ModuleKey(m) in rules && rules[ModuleKey(m)] == REQUIRED_ARRAY) &&
    (forall m, a :: m in done && a in SECTION_KEYS ==> ActionKey(m, a) in rules && rules[ActionKey(m, a)] == REQUIRED_BOOLEAN)
  }

  /** The inner loop for module `m`: one required boolean per key. */
  method AddActionRules(rules: RuleMap, m: string, ghost done: set<string>) returns (out: RuleMap)
    requires m in MODULES && done <= MODULES
    requires Holds(rules, done)
    requires ModuleKey(m) in rules && rules[ModuleKey(m)] == REQUIRED_ARRAY
    ensures out.Keys == rules.Keys + ActionRow(m)
    ensures Holds(out, done + {m})
  {
    ModulesHaveNoDot();
    out := rules;
    var keys := SECTION_KEYS;
    while exists a :: a in keys
      invariant keys <= SECTION_KEYS
      invariant out.Keys == rules.Keys + (set a | a in SECTION_KEYS - keys :: ActionKey(m, a))
      invariant Holds(out, done)
      invariant ModuleKey(m) in out && out[ModuleKey(m)] == REQUIRED_ARRAY
      invariant forall a :: a in SECTION_KEYS - keys ==> out[ActionKey(m, a)] == REQUIRED_BOOLEAN
      decreases keys
    {
      var a :| a in keys;
      keys := keys - {a};
      BaseKeysAreNotDerived(m, a);
      forall m2 | m2 in MODULES
        ensures ModuleKey(m2) != ActionKey(m, a)
      {
        ModuleKeyIsNoActionKey(m2, m, a);
      }
      out := out[ActionKey(m, a) := REQUIRED_BOOLEAN];
    }
    assert forall a :: a !in keys;
  }

  /** One pass of the outer loop: the module's entry, then its action entries. */
  method AddModuleRules(rules: RuleMap, m: string, ghost done: set<string>) returns (out: RuleMap)
    requires m in MODULES && done <= MODULES
    requires Holds(rules, done)
    ensures out.Keys == rules.Keys + {ModuleKey(m)} + ActionRow(m)
    ensures Holds(out, done + {m})
  {
    ModulesHaveNoDot();
    BaseKeysAreNotDerived(m, "");
    forall m2, a | a in SECTION_KEYS
      ensures ModuleKey(m) != ActionKey(m2, a)
    {
      ModuleKeyIsNoActionKey(m, m2, a);
    }
    out := rules[ModuleKey(m) := REQUIRED_ARRAY];
    out := AddActionRules(out, m, done);
  }

  /** `rules()`: the base entries, then for each default module its entry and
      one entry per key of the module. */
  method Rules() returns (rules: RuleMap)
    ensures rules.Keys == BaseRules().Keys + ModuleKeys(MODULES) + ActionKeys(MODULES)
    ensures Holds(rules, MODULES)
    ensures |rules| == 27
  {
    rules := BaseRules();
    // the keys of the default matrix
    var pending := MODULES;
    ghost var done: set<string> := {};
    while exists m :: m in pending
      invariant done + pending == MODULES && done !! pending
      invariant rules.Keys == BaseRules().Keys + ModuleKeys(done) + ActionKeys(done)
      invariant Holds(rules, done)
      decreases pending
    {
      var m :| m in pending;
      rules := AddModuleRules(rules, m, done);
      ActionKeysStep(done, m);
      ModuleKeysStep(done, m);
      pending := pending - {m};
      done := done + {m};
    }
    assert forall m :: m !in pending;
    assert done == MODULES;
    RuleCount();
  }

  /** The rule for a module's `label` asks for a boolean, while the default
      matrix holds a display string there. */
  lemma LabelDemandsABoolean(rules: RuleMap, m: string)
    requires Holds(rules, MODULES) && m in MODULES
    ensures rules[ActionKey(m, "label")] == REQUIRED_BOOLEAN
    ensures DefaultPermissions()[m]["label"].Str?
  {
    assert "label" in SECTION_KEYS;
  }

  // ---------------------------------------------------------------------------
  // The number of entries
  // ---------------------------------------------------------------------------

  lemma ModuleKeyInjective(m: string, m2: string)
    ensures ModuleKey(m) == ModuleKey(m2) ==> m == m2
  {
    var p := "permissions.";
    if ModuleKey(m) == ModuleKey(m2) {
      assert m == ModuleKey(m)[|p|..];
      assert m2 == ModuleKey(m2)[|p|..];
    }
  }

  /** An action entry names its module and its key: the module is what lies
      between the prefix and the first dot after it. */
  lemma ActionKeyInjective(m: string, a: string, m2: string, b: string)
    requires NoDot(m) && NoDot(m2)
    ensures ActionKey(m, a) == ActionKey(m2, b) ==> m == m2 && a == b
  {
    var p := "permissions.";
    var k := ActionKey(m, a);
    var k2 := ActionKey(m2, b);
    assert k == p + m + "." + a;
    assert k2 == p + m2 + "." + b;
    assert k[|p| + |m|] == '.';
    assert k2[|p| + |m2|] == '.';
    if k == k2 {
      assert |m| == |m2|;
      assert m == k[|p|..|p| + |m|];
      assert m2 == k2[|p|..|p| + |m2|];
      assert a == k[|p| + |m| + 1..];
      assert b == k2[|p| + |m2| + 1..];
    }
  }

  lemma {:induction false} ModuleKeysCount(ms: set<string>)
    ensures |ModuleKeys(ms)| == |ms|
    decreases ms
  {
    if exists m :: m in ms {
      var m :| m in ms;
      var rest := ms - {m};
      ModuleKeysCount(rest);
      ModuleKeysStep(rest, m);
      assert rest + {m} == ms;
      forall m2 | m2 in rest
        ensures ModuleKey(m2) != ModuleKey(m)
      {
        ModuleKeyInjective(m2, m);
      }
      assert ModuleKey(m) !in ModuleKeys(rest);
    } else {
      assert ms == {};
    }
  }

  lemma {:induction false} RowCount(m: string, ks: set<string>)
    requires NoDot(m)
    ensures |Row(m, ks)| == |ks|
    decreases ks
  {
    if exists a :: a in ks {
      var a :| a in ks;
      var rest := ks - {a};
      RowCount(m, rest);
      assert Row(m, ks) == Row(m, rest) + {ActionKey(m, a)};
      forall b | b in rest
        ensures ActionKey(m, b) != ActionKey(m, a)
      {
        ActionKeyInjective(m, b, m, a);
      }
      assert ActionKey(m, a) !in Row(m, rest);
    } else {
      assert ks == {};
      assert Row(m, ks) == {};
    }
  }

  lemma SectionKeysCount()
    ensures |SECTION_KEYS| == 5
  {
  }

  /** The rows of distinct modules share no entry. */
  lemma RowsDisjoint(rest: set<string>, m: string)
    requires forall m2 :: m2 in rest ==> NoDot(m2)
    requires NoDot(m) && m !in rest
    ensures ActionKeys(rest) * ActionRow(m) == {}
  {
    forall k | k in ActionKeys(rest)
      ensures k !in ActionRow(m)
    {
      var m2, a :| m2 in rest && a in SECTION_KEYS && k == ActionKey(m2, a);
      forall b | b in SECTION_KEYS
        ensures k != ActionKey(m, b)
      {
        ActionKeyInjective(m2, a, m, b);
      }
    }
  }

  lemma {:induction false} ActionKeysCount(ms: set<string>)
    requires forall m :: m in ms ==> NoDot(m)
    ensures |ActionKeys(ms)| == 5 * |ms|
    decreases ms
  {
    if exists m :: m in ms {
      var m :| m in ms;
      var rest := ms - {m};
      ActionKeysCount(rest);
      ActionKeysStep(rest, m);
      assert rest + {m} == ms;
      SectionKeysCount();
      RowCount(m, SECTION_KEYS);
      RowsDisjoint(rest, m);
    } else {
      assert ms == {};
      assert ActionKeys(ms) == {};
    }
  }

  /** Module entries and action entries are disjoint. */
  lemma ModuleAndActionKeysDisjoint()
    ensures ModuleKeys(MODULES) * ActionKeys(MODULES) == {}
  {
    ModulesHaveNoDot();
    forall k | k in ModuleKeys(MODULES)
      ensures k !in ActionKeys(MODULES)
    {
      var m :| m in MODULES && k == ModuleKey(m);
      forall m2, a | m2 in MODULES && a in SECTION_KEYS
        ensures k != ActionKey(m2, a)
      {
        ModuleKeyIsNoActionKey(m, m2, a);
      }
    }
  }

  /** No derived entry overwrites a base entry. */
  lemma BaseAndDerivedDisjoint()
    ensures BaseRules().Keys * (ModuleKeys(MODULES) + ActionKeys(MODULES)) == {}
  {
    forall k | k in ModuleKeys(MODULES) + ActionKeys(MODULES)
      ensures k !in BaseRules()
    {
      if k in ModuleKeys(MODULES) {
        var m :| m in MODULES && k == ModuleKey(m);
        BaseKeysAreNotDerived(m, "");
      } else {
        var m, a :| m in MODULES && a in SECTION_KEYS && k == ActionKey(m, a);
        BaseKeysAreNotDerived(m, a);
      }
    }
  }

  /** Three base entries, and for each of the four modules its own entry and
      one entry for each of its five keys: 27 in all. */
  lemma RuleCount()
    ensures |BaseRules().Keys + ModuleKeys(MODULES) + ActionKeys(MODULES)| == 27
  {
    var base, modules, actions := BaseRules().Keys, ModuleKeys(MODULES), ActionKeys(MODULES);
    ModulesHaveNoDot();
    ModuleKeysCount(MODULES);
    ActionKeysCount(MODULES);
    assert |MODULES| == 4;
    ModuleAndActionKeysDisjoint();
    BaseAndDerivedDisjoint();
    DisjointUnionCount(modules, actions);
    DisjointUnionCount(base, modules + actions);
    BaseRulesCount();
    assert base + modules + actions == base + (modules + actions);
  }

  lemma BaseRulesCount()
    ensures |BaseRules().Keys| == 3
  {
  }

  lemma DisjointUnionCount(a: set<string>, b: set<string>)
    requires a * b == {}
    ensures |a + b| == |a| + |b|
  {
  }
}
