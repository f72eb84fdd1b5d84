/** Reloading the collection config while the collector runs, and what a reload changes for extraction. */
module ConfigReload {
  import opened Types
  import opened ConfigKeys
  import opened ConfigMerge

  datatype ReloadResult = ReloadResult(affectedResources: seq<string>, excludeRulesChanged: bool)

  ghost predicate Changed(before: Config, after: Config, key: string) {
    Lookup(before, key) != Lookup(after, key)
  }

  /** The list holds, once each, exactly the keys whose entries differ. */
  ghost predicate ListsChanges(keys: seq<string>, before: Config, after: Config) {
    && (forall key :: key in keys <==> Changed(before, after, key))
    && NoDuplicates(keys)
  }

  method DiffConfigs(before: Config, after: Config) returns (result: seq<string>)
    ensures ListsChanges(result, before, after)
  {
    var affected: set<string> := {};
    var todo := after.Keys;
    while todo != {}
      invariant todo <= after.Keys
      invariant forall k :: k in affected <==> k in after && k !in todo && k !in before
    {
      var k :| k in todo;
      todo := todo - {k};
      if k !in before {
        affected := affected + {k};
      }
    }
    todo := before.Keys;
    while todo != {}
      invariant todo <= before.Keys
      invariant forall k :: k in affected <==>
        (k in after && k !in before) || (k in before && k !in todo && k !in after)
    {
      var k :| k in todo;
      todo := todo - {k};
      if k !in after {
        affected := affected + {k};
      }
    }
    todo := after.Keys;
    while todo != {}
      invariant todo <= after.Keys
      invariant forall k :: k in affected <==>
        (k in after) != (k in before) || (k in after && k !in todo && before[k] != after[k])
    {
      var k :| k in todo;
      todo := todo - {k};
      if k in before && before[k] != after[k] {
        affected := affected + {k};
      }
    }
    result := [];
    ghost var changed := affected;
    while affected != {}
      invariant affected <= changed
      invariant forall k :: k in result <==> k in changed && k !in affected
      invariant NoDuplicates(result)
    {
      var k :| k in affected;
      affected := affected - {k};
      result := result + [k];
    }
  }

  /** The collection config in force, from its first load on. */
  class TransformConfig {
    const defaults: Config
    var merged: Config
    var excludeRules: seq<ExcludeRule>

    /** Starts from the defaults, as when configurable collection is switched off. */
    constructor (defaults: Config)
      ensures this.defaults == defaults && merged == defaults && excludeRules == []
    {
      this.defaults, merged, excludeRules := defaults, defaults, [];
    }

    /** The config in force is what merging the rules into the defaults gives; nothing of an earlier load is left. */
    ghost predicate InForce(rules: seq<Rule>)
      reads this
    {
      RulesApplied(defaults, merged, rules) && excludeRules == ExcludeRules(rules)
    }

    method Load(source: ConfigMerge.Source) returns (warnings: seq<Warning>)
      modifies this
      ensures InForce(RulesOf(source)) && warnings == AllWarnings(defaults, RulesOf(source))
    {
      var newConfig, newRules;
      newConfig, newRules, warnings := LoadAndMerge(defaults, source);
      merged, excludeRules := newConfig, newRules;
    }

    /** Reloads, and reports nothing exactly when nothing changed. */
    method ReloadAndDiff(source: ConfigMerge.Source) returns (result: Option<ReloadResult>)
      modifies this
      ensures InForce(RulesOf(source))
      ensures old(InForce(RulesOf(source))) ==> result == None
      ensures result == None <==> merged == old(merged) && excludeRules == old(excludeRules)
      ensures result.Some? ==> ListsChanges(result.value.affectedResources, old(merged), merged)
      ensures result.Some? ==> result.value.excludeRulesChanged == (excludeRules != old(excludeRules))
    {
      var oldConfig, oldRules := merged, excludeRules;
      var warnings := Load(source);
      SameRulesSameConfig(defaults, oldConfig, merged, RulesOf(source));
      var affected := DiffConfigs(oldConfig, merged);
      SameWhenNoneListed(affected, oldConfig, merged);
      if |affected| == 0 && excludeRules == oldRules {
        return None;
      }
      return Some(ReloadResult(affected, excludeRules != oldRules));
    }
  }

  /** Merging the same rules always gives the same config. */
  lemma SameRulesSameConfig(defaults: Config, a: Config, b: Config, rules: seq<Rule>)
    ensures RulesApplied(defaults, a, rules) && RulesApplied(defaults, b, rules) ==> a == b
  {
    hide AfterRules;
    if RulesApplied(defaults, a, rules) && RulesApplied(defaults, b, rules) {
      forall k | k in a || k in b ensures k in a && k in b && a[k] == b[k] {
        assert Lookup(a, k) == Lookup(b, k);
      }
    }
  }

  lemma SameWhenNoneListed(keys: seq<string>, before: Config, after: Config)
    requires ListsChanges(keys, before, after)
    ensures keys == [] <==> before == after
  {
    if keys == [] {
      forall k | k in before || k in after ensures k in before && k in after && before[k] == after[k] {
        assert !Changed(before, after, k);
      }
    } else {
      assert keys[0] in keys && Changed(before, after, keys[0]);
    }
  }

  // ---- What extraction reads ----

  datatype Settings = Settings(collectAnnotations: bool, collectStatusConditions: bool, collectPrinterColumns: bool)

  const GATEKEEPER_CONSTRAINTS := "constraints.gatekeeper.sh"
  const ANNOTATED_GROUPS := {"policy.open-cluster-management.io", GATEKEEPER_CONSTRAINTS, "mutations.gatekeeper.sh"}

  /** What is extracted from the resources of one kind and group, edges by configured names included. */
  datatype Plan = Plan(
    annotations: bool,
    conditions: bool,
    properties: seq<ExtractProperty>,
    threshold: Option<int>,
    skipsIgnored: bool,
    edges: seq<ExtractEdge>)

  function GetTransformConfig(cfg: Config, group: string, kind: string): Option<ResourceConfig> {
    Lookup(cfg, if group == "" then kind else kind + "." + group)
  }

  function PlanFor(cfg: Config, group: string, kind: string, columns: seq<ExtractProperty>, settings: Settings): Plan {
    var specific := GetTransformConfig(cfg, group, kind);
    var wildcard := Lookup(cfg, if group != "" then "*." + group else "*");
    var annotations := settings.collectAnnotations || group in ANNOTATED_GROUPS || OrEmpty(specific).extractAnnotations;
    var conditions :=
      settings.collectStatusConditions || OrEmpty(specific).extractConditions || OrEmpty(wildcard).extractConditions;
    if specific.Some? then
      var more := if specific.value.columnsPriority.Some? then columns else [];
      Plan(annotations, conditions, specific.value.properties + more, specific.value.columnsPriority, false,
           specific.value.edges)
    else
      var threshold := OrEmpty(wildcard).columnsPriority;
      if settings.collectPrinterColumns || group == GATEKEEPER_CONSTRAINTS || threshold.Some? then
        Plan(annotations, conditions, columns,
             if group == GATEKEEPER_CONSTRAINTS && threshold.None? then Some(0) else threshold, true, [])
      else Plan(annotations, conditions, [], None, true, [])
  }

  /** Extraction depends on the config only through the entry of the kind and the entry of its group's wildcard. */
  lemma PlanChangesOnlyWithItsKeys(before: Config, after: Config, group: string, kind: string,
                                   columns: seq<ExtractProperty>, settings: Settings)
    requires PlanFor(before, group, kind, columns, settings) != PlanFor(after, group, kind, columns, settings)
    ensures Changed(before, after, ConfigKey(kind, group)) || Changed(before, after, WildcardKey(group))
  {
    assert "*" + "." + group == "*." + group;
  }

  /**
   * Collecting annotations for a whole group has no effect: the flag is stored under the group's wildcard, but
   * only the entry of the kind itself is asked for it.
   */
  lemma WildcardAnnotationsAreNotRead(cfg: Config, group: string, kind: string, columns: seq<ExtractProperty>,
                                      settings: Settings)
    requires kind != "*" && WildcardKey(group) in cfg
    ensures
      var key := WildcardKey(group);
      PlanFor(cfg[key := WithAnnotations(cfg[key])], group, kind, columns, settings) ==
        PlanFor(cfg, group, kind, columns, settings)
  {
    OnlyWildcardHasItsKey(kind, group);
    assert "*" + "." + group == "*." + group;
  }

  lemma OnlyWildcardHasItsKey(kind: string, group: string)
    requires kind != "*"
    ensures ConfigKey(kind, group) != WildcardKey(group)
  {
    if group != "" {
      assert |kind| != 1 ==> |kind + "." + group| != |"*" + "." + group|;
      assert |kind| == 1 ==> (kind + "." + group)[0] == kind[0];
    }
  }
}
