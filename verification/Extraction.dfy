/** What is extracted from a resource, told from the defaults, the rules and the settings. */
module Extraction {
  import opened Types
  import opened ConfigKeys
  import opened ConfigMerge
  import opened ConfigFields
  import opened ConfigReload

  /** The keys of a resource's own entry and of the entry for its whole group. */
  predicate AreKeys(own: string, wild: string, group: string, kind: string) {
    if group == "" then own == kind && wild == "*" else own == kind + "." + group && wild == "*." + group
  }

  ghost predicate SomeThreshold(defaults: Config, rules: seq<Rule>, key: string) {
    exists t :: ThresholdAsked(defaults, rules, t, key)
  }

  /** t is the largest threshold asked for, if any was. */
  ghost predicate LargestAsked(t: Option<int>, defaults: Config, rules: seq<Rule>, key: string) {
    match t
    case None => forall x :: !ThresholdAsked(defaults, rules, x, key)
    case Some(max) =>
      ThresholdAsked(defaults, rules, max, key) && forall x :: ThresholdAsked(defaults, rules, x, key) ==> x <= max
  }

  lemma ThresholdIsLargest(defaults: Config, cfg: Config, rules: seq<Rule>, key: string)
    requires RulesApplied(defaults, cfg, rules)
    ensures LargestAsked(if key in cfg then cfg[key].columnsPriority else None, defaults, rules, key)
  {
    hide RulesApplied, ThresholdAsked;
    var t := if key in cfg then cfg[key].columnsPriority else None;
    if t.Some? {
      ThresholdMerged(defaults, cfg, rules, key, t.value);
    } else {
      NoneAsked(defaults, cfg, rules, key);
    }
  }

  lemma NoneAsked(defaults: Config, cfg: Config, rules: seq<Rule>, key: string)
    requires RulesApplied(defaults, cfg, rules) && (key in cfg ==> cfg[key].columnsPriority.None?)
    ensures forall x :: !ThresholdAsked(defaults, rules, x, key)
  {
    hide AfterRules, AppliesTo, Includes, Conditions, Annotations;
    FlagsAndThreshold(Lookup(defaults, key), rules, key);
    forall r ensures AppliesTo(r, key) <==> Includes(r, key) {
      AppliesIff(r, key);
    }
    assert OrEmpty(Lookup(cfg, key)) == OrEmpty(AfterRules(Lookup(defaults, key), rules, key));
  }

  /**
   * Annotations are collected if all are, for three groups, or if the resource's own entry asks for them;
   * conditions also if the entry for the whole group does.
   */
  lemma FlagsOfPlan(defaults: Config, cfg: Config, rules: seq<Rule>, group: string, kind: string, own: string,
                    wild: string, columns: seq<ExtractProperty>, settings: Settings)
    requires RulesApplied(defaults, cfg, rules) && AreKeys(own, wild, group, kind)
    ensures
      var plan := PlanFor(cfg, group, kind, columns, settings);
      && (plan.annotations <==>
            || settings.collectAnnotations
            || group == "policy.open-cluster-management.io" || group == "constraints.gatekeeper.sh"
            || group == "mutations.gatekeeper.sh"
            || AnnotationsAsked(defaults, rules, own))
      && (plan.conditions <==>
            || settings.collectStatusConditions
            || ConditionsAsked(defaults, rules, own) || ConditionsAsked(defaults, rules, wild))
  {
    hide RulesApplied, AnnotationsAsked, ConditionsAsked;
    FlagsMerged(defaults, cfg, rules, own);
    FlagsMerged(defaults, cfg, rules, wild);
  }

  /** A resource with an entry of its own gets its properties and, with a threshold, the printer columns after them. */
  lemma PlanOfOwnEntry(defaults: Config, cfg: Config, rules: seq<Rule>, group: string, kind: string, own: string,
                       wild: string, columns: seq<ExtractProperty>, settings: Settings)
    requires RulesApplied(defaults, cfg, rules) && AreKeys(own, wild, group, kind) && own in cfg
    ensures
      var plan := PlanFor(cfg, group, kind, columns, settings);
      && !plan.skipsIgnored
      && LargestAsked(plan.threshold, defaults, rules, own)
      && plan.properties == PropertiesAt(cfg, own) + (if SomeThreshold(defaults, rules, own) then columns else [])
      && plan.edges == if own in defaults then defaults[own].edges else []
  {
    hide ThresholdAsked, AfterRules;
    ThresholdIsLargest(defaults, cfg, rules, own);
    PropertiesOnlyGrow(Lookup(defaults, own), rules, own);
    assert Lookup(cfg, own) == AfterRules(Lookup(defaults, own), rules, own);
  }

  /**
   * One without gets the printer columns if they are wanted for all, for gatekeeper constraints, and if its whole
   * group has a threshold; constraints without one get the columns of the highest priority only.
   */
  lemma PlanWithoutEntry(defaults: Config, cfg: Config, rules: seq<Rule>, group: string, kind: string, own: string,
                         wild: string, columns: seq<ExtractProperty>, settings: Settings)
    requires RulesApplied(defaults, cfg, rules) && AreKeys(own, wild, group, kind) && own !in cfg
    ensures
      var plan := PlanFor(cfg, group, kind, columns, settings);
      var constraint, whole := group == "constraints.gatekeeper.sh", SomeThreshold(defaults, rules, wild);
      && plan.skipsIgnored && plan.edges == []
      && plan.properties == (if settings.collectPrinterColumns || constraint || whole then columns else [])
      && if constraint && !whole then plan.threshold == Some(0)
         else LargestAsked(plan.threshold, defaults, rules, wild)
  {
    hide RulesApplied, ThresholdAsked;
    ThresholdIsLargest(defaults, cfg, rules, wild);
  }

  /** And it has one of its own exactly if there is a default one or some rule asks for something there. */
  lemma OwnEntryIff(defaults: Config, cfg: Config, rules: seq<Rule>, own: string)
    requires RulesApplied(defaults, cfg, rules)
    ensures own in cfg <==>
      || own in defaults
      || exists r :: r in rules && GivesEntry(r, own)
  {
    hide AfterRules, AppliesTo, Includes, AddsTo, FieldsKey;
    EntriesAppearIff(Lookup(defaults, own), rules, own);
    forall r ensures GivesEntry(r, own) <==> Touches(r, own) {
      AppliesIff(r, own);
      FieldsKeyIff(r, own);
    }
    assert Lookup(cfg, own) == AfterRules(Lookup(defaults, own), rules, own);
  }

  ghost predicate GivesEntry(r: Rule, key: string) {
    || AddsTo(r, key)
    || (AppliesTo(r, key)
        && (r.collectConditions == Some(true) || r.collectAnnotations == Some(true) || r.columnsPriority.Some?))
  }

  /** So the first field to ask for a free name of a resource is extracted from it. */
  lemma FieldIsExtracted(defaults: Config, cfg: Config, rules: seq<Rule>, i: nat, j: nat, name: string, group: string,
                         kind: string, own: string, wild: string, columns: seq<ExtractProperty>, settings: Settings)
    requires RulesApplied(defaults, cfg, rules) && AreKeys(own, wild, group, kind)
    requires i < |rules| && j < |rules[i].fields|
    requires Asks(rules[i], rules[i].fields[j], own) && IsName(name, rules[i].fields[j], rules[i].fieldSuffix)
    requires !Taken(PropertiesAt(defaults, own), name) && FirstToAsk(rules, i, j, name, own)
    ensures exists p ::
      p in PlanFor(cfg, group, kind, columns, settings).properties && p.name == name
      && Describes(p, rules[i].fields[j], rules[i].fieldSuffix, own)
  {
    hide RulesApplied, Asks, FirstToAsk, Describes, IsName, Taken;
    var p := FirstToAskIsServed(defaults, cfg, rules, i, j, name, own);
    PlanOfOwnEntry(defaults, cfg, rules, group, kind, own, wild, columns, settings);
  }
}
