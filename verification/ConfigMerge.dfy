/** How the rules of the CollectorConfig resource extend the default collection config. */
module ConfigMerge {
  import opened Types
  import opened ConfigKeys

  // ---- The config ----

  datatype DataType =
    Bytes | Slice | Text | Number | MapString | Boolean | ArrayString | ArrayLen

  datatype ExtractProperty = ExtractProperty(
    name: string,
    jsonPath: string,
    dataType: DataType,
    priority: Option<int>,
    matchLabel: string,
    metadataOnly: bool,
    hubOnly: bool,
    defaultValue: Option<Value>)

  datatype ExtractEdge = ExtractEdge(name: string, toKind: string, edgeType: string)

  datatype ResourceConfig = ResourceConfig(
    properties: seq<ExtractProperty>,
    edges: seq<ExtractEdge>,
    extractAnnotations: bool,
    extractConditions: bool,
    columnsPriority: Option<int>)

  const EMPTY := ResourceConfig([], [], false, false, None)

  type Config = map<string, ResourceConfig>

  // ---- The rules ----

  datatype Action = Include | Exclude

  datatype CrdType = CrdBytes | CrdString | CrdInteger | CrdFloat | CrdBoolean | CrdArray | CrdUnknown

  datatype Field = Field(name: string, jsonPath: string, crdType: CrdType)

  datatype Rule = Rule(
    action: Action,
    apiGroups: seq<string>,
    kinds: seq<string>,
    fields: seq<Field>,
    fieldSuffix: string,
    collectConditions: Option<bool>,
    collectAnnotations: Option<bool>,
    columnsPriority: Option<int>)

  datatype ExcludeRule = ExcludeRule(apiGroups: seq<string>, kinds: seq<string>, action: Action)

  datatype Warning =
    | MissingKinds
    | KindCount(n: nat)
    | GroupCount(n: nat)
    | EmptyKind
    | FieldIncomplete(key: string)
    | FieldCollides(name: string, key: string)

  // ---- Fields ----

  function DataTypeFromCRD(t: CrdType): DataType {
    match t
    case CrdBytes => Bytes
    case CrdInteger => Number
    case CrdFloat => Number
    case CrdBoolean => Boolean
    case CrdArray => ArrayString
    case _ => Text
  }

  function TrimFirst(s: string, c: char): string {
    if s != "" && s[0] == c then s[1..] else s
  }

  function TrimLast(s: string, c: char): string {
    if s != "" && s[|s| - 1] == c then s[..|s| - 1] else s
  }

  function Unbraced(path: string): string {
    TrimLast(TrimFirst(path, '{'), '}')
  }

  function Braced(path: string): string {
    "{" + Unbraced(path) + "}"
  }

  function HubOnlyFields(key: string): seq<string> {
    if key == "Group.user.openshift.io" then [".users"] else []
  }

  predicate ReadsRoot(path: string, root: string) {
    root <= path && (|path| == |root| || path[|root|] in {'[', '.'})
  }

  method IsHubOnlyField(key: string, jsonPath: string) returns (r: bool)
    ensures r == HubOnly(key, jsonPath)
  {
    var path := Unbraced(jsonPath);
    var roots := HubOnlyFields(key);
    for i := 0 to |roots|
      invariant forall j :: 0 <= j < i ==> !ReadsRoot(path, roots[j])
    {
      assert roots[i] in HubOnlyFields(key);
      if path == roots[i] {
        return true;
      }
      if roots[i] <= path && |path[|roots[i]|..]| > 0 && path[|roots[i]|] in {'[', '.'} {
        return true;
      }
    }
    return false;
  }

  predicate HubOnly(key: string, jsonPath: string) {
    exists root :: root in HubOnlyFields(key) && ReadsRoot(Unbraced(jsonPath), root)
  }

  /** Braces given, missing or half given make no difference, and neither does bracing twice. */
  lemma BracesDoNotMatter(path: string)
    requires path != "" ==> path[0] != '{' && path[|path| - 1] != '}'
    ensures Unbraced(path) == Unbraced("{" + path) == Unbraced(path + "}") == Unbraced("{" + path + "}") == path
  {
    var open, close, both := "{" + path, path + "}", "{" + path + "}";
    assert open[1..] == path && close[..|path|] == path && both[1..] == close;
    assert close[0] != '{' by {
      if path != "" { assert close[0] == path[0]; }
    }
    assert TrimLast(path, '}') == path;
  }

  lemma BracingTwice(key: string, path: string)
    ensures Braced(Braced(path)) == Braced(path) && HubOnly(key, Braced(path)) == HubOnly(key, path)
  {
    var inner := Unbraced(path);
    assert Braced(path)[1..] == inner + "}" && (inner + "}")[..|inner|] == inner;
  }

  function PropertyOf(field: Field, suffix: string, key: string): ExtractProperty {
    var name := if suffix != "" then field.name + "." + suffix else field.name;
    ExtractProperty(name, Braced(field.jsonPath), DataTypeFromCRD(field.crdType), None, "", false,
                    HubOnly(key, Braced(field.jsonPath)), None)
  }

  predicate Incomplete(field: Field) {
    field.name == "" || field.jsonPath == ""
  }

  predicate HasName(properties: seq<ExtractProperty>, name: string) {
    exists p :: p in properties && p.name == name
  }

  /** What one field adds: nothing when it is incomplete or its name is taken. */
  function Added(properties: seq<ExtractProperty>, field: Field, suffix: string, key: string): seq<ExtractProperty> {
    var p := PropertyOf(field, suffix, key);
    if Incomplete(field) || HasName(properties, p.name) then [] else [p]
  }

  function WithFields(properties: seq<ExtractProperty>, fields: seq<Field>, suffix: string,
                      key: string): seq<ExtractProperty>
  {
    if fields == [] then properties
    else
      var before := WithFields(properties, fields[..|fields| - 1], suffix, key);
      before + Added(before, fields[|fields| - 1], suffix, key)
  }

  /** The message for a field that adds nothing. */
  function FieldWarning(properties: seq<ExtractProperty>, field: Field, suffix: string, key: string): seq<Warning> {
    var p := PropertyOf(field, suffix, key);
    if Incomplete(field) then [FieldIncomplete(key)]
    else if HasName(properties, p.name) then [FieldCollides(p.name, key)]
    else []
  }

  function FieldWarnings(properties: seq<ExtractProperty>, fields: seq<Field>, suffix: string,
                         key: string): seq<Warning>
  {
    if fields == [] then []
    else
      var most := fields[..|fields| - 1];
      FieldWarnings(properties, most, suffix, key)
      + FieldWarning(WithFields(properties, most, suffix, key), fields[|fields| - 1], suffix, key)
  }

  method AddFields(properties: seq<ExtractProperty>, fields: seq<Field>, suffix: string, key: string)
    returns (r: seq<ExtractProperty>, warnings: seq<Warning>)
    ensures r == WithFields(properties, fields, suffix, key)
    ensures warnings == FieldWarnings(properties, fields, suffix, key)
  {
    hide DataTypeFromCRD, Braced, HubOnly, HasName;
    r, warnings := properties, [];
    for i := 0 to |fields|
      invariant r == WithFields(properties, fields[..i], suffix, key)
      invariant warnings == FieldWarnings(properties, fields[..i], suffix, key)
    {
      assert fields[..i + 1][..i] == fields[..i];
      var field := fields[i];
      if field.name == "" || field.jsonPath == "" {
        warnings := warnings + [FieldIncomplete(key)];
        continue;
      }
      var name := field.name;
      if suffix != "" {
        name := name + "." + suffix;
      }
      var collision := Collides(r, name);
      if collision {
        warnings := warnings + [FieldCollides(name, key)];
        continue;
      }
      var jsonPath := Braced(field.jsonPath);
      var hubOnly := IsHubOnlyField(key, jsonPath);
      r := r + [ExtractProperty(name, jsonPath, DataTypeFromCRD(field.crdType), None, "", false, hubOnly, None)];
    }
    assert fields[..|fields|] == fields;
  }

  method Collides(properties: seq<ExtractProperty>, name: string) returns (collision: bool)
    ensures collision == HasName(properties, name)
  {
    collision := false;
    for i := 0 to |properties|
      invariant !HasName(properties[..i], name)
    {
      if properties[i].name == name {
        return true;
      }
      assert properties[..i + 1] == properties[..i] + [properties[i]];
    }
    assert properties[..|properties|] == properties;
  }

  // ---- Flags and thresholds ----

  function OrEmpty(c: Option<ResourceConfig>): ResourceConfig {
    if c.Some? then c.value else EMPTY
  }

  /** One of the listed kinds in one of the listed groups has this key. */
  ghost predicate Covered(apiGroups: seq<string>, kinds: seq<string>, key: string) {
    exists g, k :: g in apiGroups && k in kinds && k != "" && ConfigKey(k, g) == key
  }

  function WithConditions(c: ResourceConfig): ResourceConfig {
    c.(extractConditions := true)
  }

  function WithAnnotations(c: ResourceConfig): ResourceConfig {
    c.(extractAnnotations := true)
  }

  /** A higher threshold collects more columns, so the higher one stays. */
  function WithPriority(c: ResourceConfig, priority: int): ResourceConfig {
    if c.columnsPriority.None? || priority > c.columnsPriority.value then c.(columnsPriority := Some(priority)) else c
  }

  function PriorityUpdate(priority: int): ResourceConfig -> ResourceConfig {
    c => WithPriority(c, priority)
  }

  /** Exactly the covered entries are changed, or made, by the update. */
  ghost predicate Updated(before: Config, after: Config, apiGroups: seq<string>, kinds: seq<string>,
                          update: ResourceConfig -> ResourceConfig)
  {
    forall key :: Lookup(after, key) ==
      if Covered(apiGroups, kinds, key) then Some(update(OrEmpty(Lookup(before, key)))) else Lookup(before, key)
  }

  ghost predicate Settles(update: ResourceConfig -> ResourceConfig) {
    forall c :: update(update(c)) == update(c)
  }

  method MergeCollectConditions(cfg: Config, apiGroups: seq<string>, kinds: seq<string>) returns (r: Config)
    ensures Updated(cfg, r, apiGroups, kinds, WithConditions)
  {
    r := MergeCollect(cfg, apiGroups, kinds, WithConditions);
  }

  method MergeCollectAnnotations(cfg: Config, apiGroups: seq<string>, kinds: seq<string>) returns (r: Config)
    ensures Updated(cfg, r, apiGroups, kinds, WithAnnotations)
  {
    r := MergeCollect(cfg, apiGroups, kinds, WithAnnotations);
  }

  method MergeCollectPrinterColumns(cfg: Config, apiGroups: seq<string>, kinds: seq<string>, priority: int)
    returns (r: Config)
    ensures Updated(cfg, r, apiGroups, kinds, PriorityUpdate(priority))
  {
    r := MergeCollect(cfg, apiGroups, kinds, PriorityUpdate(priority));
  }

  /** The loop that the three merges share. */
  method MergeCollect(cfg: Config, apiGroups: seq<string>, kinds: seq<string>, update: ResourceConfig -> ResourceConfig)
    returns (r: Config)
    requires Settles(update)
    ensures Updated(cfg, r, apiGroups, kinds, update)
  {
    r := cfg;
    for i := 0 to |apiGroups|
      invariant Updated(cfg, r, apiGroups[..i], kinds, update)
    {
      ghost var before := r;
      for j := 0 to |kinds|
        invariant Updated(before, r, [apiGroups[i]], kinds[..j], update)
      {
        OneMoreKind(apiGroups[i], kinds, j);
        var kind := kinds[j];
        if kind == "" {
          continue;
        }
        var key := ConfigKey(kind, apiGroups[i]);
        r := r[key := update(if key in r then r[key] else EMPTY)];
      }
      assert kinds[..|kinds|] == kinds;
      OneMoreGroup(apiGroups, i, kinds);
    }
    assert apiGroups[..|apiGroups|] == apiGroups;
  }

  lemma OneMoreKind(group: string, kinds: seq<string>, j: nat)
    requires j < |kinds|
    ensures forall key :: Covered([group], kinds[..j + 1], key) <==>
              (Covered([group], kinds[..j], key) || (kinds[j] != "" && ConfigKey(kinds[j], group) == key))
  {
    var more := kinds[..j + 1];
    assert more == kinds[..j] + [kinds[j]];
    assert group in [group] && kinds[j] in more;
    forall key | Covered([group], more, key) && !Covered([group], kinds[..j], key)
      ensures kinds[j] != "" && ConfigKey(kinds[j], group) == key
    {
      var g, k :| g in [group] && k in more && k != "" && ConfigKey(k, g) == key;
      assert k !in kinds[..j];
    }
  }

  lemma OneMoreGroup(apiGroups: seq<string>, i: nat, kinds: seq<string>)
    requires i < |apiGroups|
    ensures forall key :: Covered(apiGroups[..i + 1], kinds, key) <==>
              (Covered(apiGroups[..i], kinds, key) || Covered([apiGroups[i]], kinds, key))
  {
    assert apiGroups[..i + 1] == apiGroups[..i] + [apiGroups[i]];
    assert apiGroups[i] in [apiGroups[i]];
  }

  // ---- One rule ----

  function SpecificKinds(kinds: seq<string>): seq<string> {
    if kinds == [] then []
    else
      var n := |kinds| - 1;
      SpecificKinds(kinds[..n]) + if kinds[n] != "*" then [kinds[n]] else []
  }

  /** The entry a rule adds its fields to: it must name one kind and one group. */
  function FieldsKey(rule: Rule): Option<string> {
    var kinds := SpecificKinds(rule.kinds);
    if rule.action.Exclude? || rule.fields == [] || |kinds| != 1 || |rule.apiGroups| != 1 || kinds[0] == "" then None
    else Some(ConfigKey(kinds[0], rule.apiGroups[0]))
  }

  /** The messages for what a rule does not get to add to the entry that has these properties. */
  function RuleWarnings(rule: Rule, properties: seq<ExtractProperty>): seq<Warning> {
    var kinds := SpecificKinds(rule.kinds);
    if rule.action.Exclude? || rule.fields == [] then []
    else if |kinds| == 0 then [MissingKinds]
    else if |kinds| != 1 then [KindCount(|kinds|)]
    else if |rule.apiGroups| != 1 then [GroupCount(|rule.apiGroups|)]
    else if kinds[0] == "" then [EmptyKind]
    else
      var key := ConfigKey(kinds[0], rule.apiGroups[0]);
      FieldWarnings(properties, rule.fields, rule.fieldSuffix, key)
  }

  predicate On(flag: Option<bool>) {
    flag == Some(true)
  }

  ghost function When(on: bool, c: Option<ResourceConfig>,
                      update: ResourceConfig -> ResourceConfig): Option<ResourceConfig>
  {
    if on then Some(update(OrEmpty(c))) else c
  }

  /** What the flags of a rule do to the entry of one key. */
  ghost function Flagged(c: Option<ResourceConfig>, rule: Rule, key: string): Option<ResourceConfig> {
    var covered := rule.action.Include? && Covered(rule.apiGroups, rule.kinds, key);
    var c1 := When(covered && On(rule.collectConditions), c, WithConditions);
    var c2 := When(covered && On(rule.collectAnnotations), c1, WithAnnotations);
    if rule.columnsPriority.Some? then When(covered, c2, PriorityUpdate(rule.columnsPriority.value)) else c2
  }

  /** What a rule does to the entry of one key. */
  ghost function AfterRule(c: Option<ResourceConfig>, rule: Rule, key: string): Option<ResourceConfig> {
    var flagged := Flagged(c, rule, key);
    if FieldsKey(rule) == Some(key) then
      var entry := OrEmpty(flagged);
      Some(entry.(properties := WithFields(entry.properties, rule.fields, rule.fieldSuffix, key)))
    else flagged
  }

  ghost predicate RuleApplied(before: Config, after: Config, rule: Rule) {
    forall key :: Lookup(after, key) == AfterRule(Lookup(before, key), rule, key)
  }

  method ApplyFlags(cfg: Config, rule: Rule) returns (r: Config)
    requires rule.action.Include?
    ensures forall key :: Lookup(r, key) == Flagged(Lookup(cfg, key), rule, key)
  {
    r := cfg;
    if rule.collectConditions.Some? && rule.collectConditions.value {
      r := MergeCollectConditions(r, rule.apiGroups, rule.kinds);
    }
    if rule.collectAnnotations.Some? && rule.collectAnnotations.value {
      r := MergeCollectAnnotations(r, rule.apiGroups, rule.kinds);
    }
    if rule.columnsPriority.Some? {
      r := MergeCollectPrinterColumns(r, rule.apiGroups, rule.kinds, rule.columnsPriority.value);
    }
  }

  method FilterKinds(kinds: seq<string>) returns (specificKinds: seq<string>)
    ensures specificKinds == SpecificKinds(kinds)
  {
    specificKinds := [];
    for i := 0 to |kinds|
      invariant specificKinds == SpecificKinds(kinds[..i])
    {
      assert kinds[..i + 1][..i] == kinds[..i];
      if kinds[i] != "*" {
        specificKinds := specificKinds + [kinds[i]];
      }
    }
    assert kinds[..|kinds|] == kinds;
  }

  /** The properties that a rule's fields are added to. */
  function PropertiesFor(rule: Rule, cfg: Config): seq<ExtractProperty> {
    if FieldsKey(rule).Some? then OrEmpty(Lookup(cfg, FieldsKey(rule).value)).properties else []
  }

  method ApplyRule(cfg: Config, rule: Rule) returns (r: Config, warnings: seq<Warning>)
    ensures RuleApplied(cfg, r, rule)
    ensures warnings == RuleWarnings(rule, PropertiesFor(rule, cfg))
  {
    hide Flagged, SpecificKinds;
    r, warnings := cfg, [];
    if rule.action.Exclude? {
      ExcludeFlagsNothing(rule);
      return;
    }
    r := ApplyFlags(cfg, rule);
    FlagsKeepProperties(cfg, r, rule);
    if rule.fields == [] {
      return;
    }
    var kinds := FilterKinds(rule.kinds);
    if |kinds| == 0 {
      warnings := [MissingKinds];
    } else if |kinds| != 1 {
      warnings := [KindCount(|kinds|)];
    } else if |rule.apiGroups| != 1 {
      warnings := [GroupCount(|rule.apiGroups|)];
    } else if kinds[0] == "" {
      warnings := [EmptyKind];
    } else {
      var key := ConfigKey(kinds[0], rule.apiGroups[0]);
      r, warnings := ApplyFields(r, rule, key);
    }
  }

  method ApplyFields(cfg: Config, rule: Rule, key: string) returns (r: Config, warnings: seq<Warning>)
    ensures
      var entry := OrEmpty(Lookup(cfg, key));
      && r == cfg[key := entry.(properties := WithFields(entry.properties, rule.fields, rule.fieldSuffix, key))]
      && warnings == FieldWarnings(entry.properties, rule.fields, rule.fieldSuffix, key)
  {
    var entry := if key in cfg then cfg[key] else EMPTY;
    var properties;
    properties, warnings := AddFields(entry.properties, rule.fields, rule.fieldSuffix, key);
    r := cfg[key := entry.(properties := properties)];
  }

  lemma ExcludeFlagsNothing(rule: Rule)
    requires rule.action.Exclude?
    ensures forall c, key :: Flagged(c, rule, key) == c
  {
  }

  lemma FlagsKeepProperties(cfg: Config, r: Config, rule: Rule)
    requires forall key :: Lookup(r, key) == Flagged(Lookup(cfg, key), rule, key)
    ensures PropertiesFor(rule, r) == PropertiesFor(rule, cfg)
  {
    hide Flagged, FieldsKey;
    if FieldsKey(rule).Some? {
      FlaggedKeepsProperties(Lookup(cfg, FieldsKey(rule).value), rule, FieldsKey(rule).value);
    }
  }

  lemma FlaggedKeepsProperties(c: Option<ResourceConfig>, rule: Rule, key: string)
    ensures OrEmpty(Flagged(c, rule, key)).properties == OrEmpty(c).properties
    ensures OrEmpty(Flagged(c, rule, key)).edges == OrEmpty(c).edges
  {
  }

  // ---- All rules ----

  ghost function AfterRules(c: Option<ResourceConfig>, rules: seq<Rule>, key: string): Option<ResourceConfig> {
    if rules == [] then c
    else AfterRule(AfterRules(c, rules[..|rules| - 1], key), rules[|rules| - 1], key)
  }

  /** The exclude and include entries, in order; a rule without groups or kinds leaves none. */
  function ExcludeRules(rules: seq<Rule>): seq<ExcludeRule> {
    if rules == [] then []
    else
      var n := |rules| - 1;
      ExcludeRules(rules[..n]) +
      if rules[n].apiGroups == [] || rules[n].kinds == [] then []
      else [Entry(rules[n])]
  }

  /** The messages for a list of rules, each judged against the entry as the rules before it left it. */
  ghost function AllWarnings(defaults: Config, rules: seq<Rule>): seq<Warning> {
    if rules == [] then []
    else
      var most, rule := rules[..|rules| - 1], rules[|rules| - 1];
      var key := FieldsKey(rule);
      var before := AllWarnings(defaults, most);
      var entry := if key.Some? then OrEmpty(AfterRules(Lookup(defaults, key.value), most, key.value)) else EMPTY;
      before + RuleWarnings(rule, entry.properties)
  }

  ghost predicate RulesApplied(before: Config, after: Config, rules: seq<Rule>) {
    forall key :: Lookup(after, key) == AfterRules(Lookup(before, key), rules, key)
  }

  lemma OneMoreRule(start: Config, before: Config, after: Config, rules: seq<Rule>, i: nat)
    requires i < |rules| && RulesApplied(start, before, rules[..i]) && RuleApplied(before, after, rules[i])
    ensures RulesApplied(start, after, rules[..i + 1])
  {
    hide AfterRule;
    assert rules[..i + 1][..i] == rules[..i];
  }

  lemma NoRulesApplied(cfg: Config)
    ensures RulesApplied(cfg, cfg, [])
  {
  }

  lemma PropertiesSoFar(defaults: Config, cfg: Config, rules: seq<Rule>, rule: Rule)
    requires RulesApplied(defaults, cfg, rules)
    ensures FieldsKey(rule).Some? ==>
      var key := FieldsKey(rule).value;
      PropertiesFor(rule, cfg) == OrEmpty(AfterRules(Lookup(defaults, key), rules, key)).properties
  {
    hide AfterRules;
  }

  /** How reading the CollectorConfig resource came out. */
  datatype Source = NotFound | Unreadable | Found(rules: seq<Rule>)

  function RulesOf(source: Source): seq<Rule> {
    if source.Found? then source.rules else []
  }

  method LoadAndMerge(defaults: Config, source: Source)
    returns (newConfig: Config, newExcludeRules: seq<ExcludeRule>, warnings: seq<Warning>)
    ensures RulesApplied(defaults, newConfig, RulesOf(source))
    ensures newExcludeRules == ExcludeRules(RulesOf(source))
    ensures warnings == AllWarnings(defaults, RulesOf(source))
    ensures RulesOf(source) == [] ==> newConfig == defaults
  {
    hide RulesApplied, RuleApplied, RuleWarnings, FieldsKey, AfterRules;
    newConfig, newExcludeRules, warnings := defaults, [], [];
    NoRulesApplied(defaults);
    if !source.Found? || source.rules == [] {
      return;
    }
    var rules := source.rules;
    for i := 0 to |rules|
      invariant RulesApplied(defaults, newConfig, rules[..i])
      invariant newExcludeRules == ExcludeRules(rules[..i])
      invariant warnings == AllWarnings(defaults, rules[..i])
    {
      assert rules[..i + 1][..i] == rules[..i];
      var rule := rules[i];
      if |rule.apiGroups| > 0 && |rule.kinds| > 0 {
        newExcludeRules := newExcludeRules + [ExcludeRule(rule.apiGroups, rule.kinds, rule.action)];
      }
      var next, more := ApplyRule(newConfig, rule);
      OneMoreRule(defaults, newConfig, next, rules, i);
      PropertiesSoFar(defaults, newConfig, rules[..i], rule);
      newConfig := next;
      warnings := warnings + more;
    }
    assert rules[..|rules|] == rules;
  }

  // ---- What merging promises, for every list of rules ----

  /** The rule turns something on for the key. */
  ghost predicate Includes(rule: Rule, key: string) {
    rule.action.Include? && Covered(rule.apiGroups, rule.kinds, key)
  }

  ghost predicate Thresholds(rule: Rule, key: string) {
    Includes(rule, key) && rule.columnsPriority.Some?
  }

  /** The rule has a higher threshold for the key. */
  ghost predicate Raises(rule: Rule, t: Option<int>, key: string) {
    Thresholds(rule, key) && (t.None? || rule.columnsPriority.value > t.value)
  }

  /** The largest of the default threshold and those of the rules covering the key. */
  ghost predicate IsMaxThreshold(t: Option<int>, base: Option<int>, rules: seq<Rule>, key: string) {
    && (t.None? <==> base.None? && forall r :: r in rules ==> !Thresholds(r, key))
    && (t.Some? && base.Some? ==> base.value <= t.value)
    && (t.Some? ==> forall r :: r in rules && Thresholds(r, key) ==> r.columnsPriority.value <= t.value)
    && (t == base || exists r :: r in rules && Thresholds(r, key) && r.columnsPriority == t)
  }

  ghost predicate Conditions(rule: Rule, key: string) {
    Includes(rule, key) && On(rule.collectConditions)
  }

  ghost predicate Annotations(rule: Rule, key: string) {
    Includes(rule, key) && On(rule.collectAnnotations)
  }

  /** Flags are only turned on, and exactly by the including rules that cover the key; the threshold is a maximum. */
  lemma {:induction false} FlagsAndThreshold(c: Option<ResourceConfig>, rules: seq<Rule>, key: string)
    ensures
      var before, after := OrEmpty(c), OrEmpty(AfterRules(c, rules, key));
      && (after.extractConditions <==> before.extractConditions || exists r :: r in rules && Conditions(r, key))
      && (after.extractAnnotations <==> before.extractAnnotations || exists r :: r in rules && Annotations(r, key))
      && IsMaxThreshold(after.columnsPriority, before.columnsPriority, rules, key)
  {
    if rules != [] {
      var n := |rules| - 1;
      FlagsAndThreshold(c, rules[..n], key);
      assert rules == rules[..n] + [rules[n]];
      FlagsOfOneRule(AfterRules(c, rules[..n], key), rules[n], key);
      ThresholdOfOneMore(OrEmpty(c).columnsPriority, OrEmpty(AfterRules(c, rules[..n], key)).columnsPriority,
                         OrEmpty(AfterRules(c, rules, key)).columnsPriority, rules[..n], rules[n], key);
    }
  }

  lemma FlagsOfOneRule(c: Option<ResourceConfig>, rule: Rule, key: string)
    ensures
      var before, after := OrEmpty(c), OrEmpty(AfterRule(c, rule, key));
      && (after.extractConditions <==> before.extractConditions || Conditions(rule, key))
      && (after.extractAnnotations <==> before.extractAnnotations || Annotations(rule, key))
      && after.columnsPriority ==
         if Raises(rule, before.columnsPriority, key) then rule.columnsPriority else before.columnsPriority
  {
    hide Covered, WithFields, FieldsKey, Flagged;
    FlagsSet(c, rule, key);
  }

  lemma FlagsSet(c: Option<ResourceConfig>, rule: Rule, key: string)
    ensures
      var before, after := OrEmpty(c), OrEmpty(Flagged(c, rule, key));
      && (after.extractConditions <==> before.extractConditions || Conditions(rule, key))
      && (after.extractAnnotations <==> before.extractAnnotations || Annotations(rule, key))
      && after.columnsPriority ==
         if Raises(rule, before.columnsPriority, key) then rule.columnsPriority else before.columnsPriority
  {
    hide Covered;
  }

  lemma ThresholdOfOneMore(base: Option<int>, t: Option<int>, t': Option<int>, rules: seq<Rule>, rule: Rule,
                           key: string)
    requires IsMaxThreshold(t, base, rules, key)
    requires t' == if Raises(rule, t, key) then rule.columnsPriority else t
    ensures IsMaxThreshold(t', base, rules + [rule], key)
  {
    var all := rules + [rule];
    assert forall r :: r in all <==> r in rules || r == rule;
    if t' != t {
      assert rule in all && Thresholds(rule, key) && rule.columnsPriority == t';
    } else if t != base {
      var r :| r in rules && Thresholds(r, key) && r.columnsPriority == t;
      assert r in all;
    }
  }

  /** So the order in which the rules are listed does not matter for flags and thresholds. */
  lemma OrderOfRulesDoesNotMatter(c: Option<ResourceConfig>, rules: seq<Rule>, others: seq<Rule>, key: string)
    requires forall r :: r in rules <==> r in others
    ensures
      var a, b := OrEmpty(AfterRules(c, rules, key)), OrEmpty(AfterRules(c, others, key));
      && a.extractConditions == b.extractConditions && a.extractAnnotations == b.extractAnnotations
      && a.columnsPriority == b.columnsPriority
  {
    hide AfterRules, Conditions, Annotations, Includes;
    FlagsAndThreshold(c, rules, key);
    FlagsAndThreshold(c, others, key);
  }

  /** No property from index start on has the name of an earlier one. */
  ghost predicate NoClashFrom(properties: seq<ExtractProperty>, start: nat) {
    forall i :: start <= i < |properties| ==> !HasName(properties[..i], properties[i].name)
  }

  /** What adding fields promises: the old properties stay in front, and each complete field's name is there. */
  ghost predicate Extends(properties: seq<ExtractProperty>, r: seq<ExtractProperty>, fields: seq<Field>,
                          suffix: string, key: string)
  {
    && properties <= r && NoClashFrom(r, |properties|)
    && (forall i :: |properties| <= i < |r| ==> FromField(r[i], fields, suffix, key))
    && (forall f :: f in fields && !Incomplete(f) ==> HasName(r, PropertyOf(f, suffix, key).name))
  }

  ghost predicate FromField(p: ExtractProperty, fields: seq<Field>, suffix: string, key: string) {
    exists f :: f in fields && !Incomplete(f) && p == PropertyOf(f, suffix, key)
  }

  lemma {:induction false} FieldsExtend(properties: seq<ExtractProperty>, fields: seq<Field>, suffix: string,
                                        key: string)
    ensures Extends(properties, WithFields(properties, fields, suffix, key), fields, suffix, key)
  {
    if fields != [] {
      var n := |fields| - 1;
      FieldsExtend(properties, fields[..n], suffix, key);
      OneMoreField(properties, WithFields(properties, fields[..n], suffix, key), fields[..n], fields[n], suffix, key);
      assert fields == fields[..n] + [fields[n]];
    }
  }

  lemma OneMoreField(properties: seq<ExtractProperty>, r: seq<ExtractProperty>, fields: seq<Field>, f: Field,
                     suffix: string, key: string)
    requires Extends(properties, r, fields, suffix, key)
    ensures Extends(properties, r + Added(r, f, suffix, key), fields + [f], suffix, key)
  {
    hide PropertyOf;
    var r' := r + Added(r, f, suffix, key);
    NamesStay(r, Added(r, f, suffix, key));
    forall i | |properties| <= i < |r'|
      ensures !HasName(r'[..i], r'[i].name) && FromField(r'[i], fields + [f], suffix, key)
    {
      if i < |r| {
        assert r'[..i] == r[..i];
        var g :| g in fields && !Incomplete(g) && r[i] == PropertyOf(g, suffix, key);
        assert g in fields + [f];
      } else {
        assert r'[..i] == r && f in fields + [f];
      }
    }
  }

  lemma NamesStay(r: seq<ExtractProperty>, added: seq<ExtractProperty>)
    ensures forall name :: HasName(r, name) ==> HasName(r + added, name)
    ensures forall p :: p in added ==> HasName(r + added, p.name)
  {
    forall name | HasName(r, name) ensures HasName(r + added, name) {
      var p :| p in r && p.name == name;
      assert p in r + added;
    }
    forall p | p in added ensures HasName(r + added, p.name) {
      assert p in r + added;
    }
  }

  /** The rule names exactly this entry and lists the complete field f for it. */
  predicate Offers(rule: Rule, f: Field, key: string) {
    FieldsKey(rule) == Some(key) && f in rule.fields && !Incomplete(f)
  }

  ghost predicate FromRule(p: ExtractProperty, rules: seq<Rule>, key: string) {
    exists r, f :: r in rules && Offers(r, f, key) && p == PropertyOf(f, r.fieldSuffix, key)
  }

  /**
   * The default properties stay as they are, in front; what follows comes from the rules, never takes a name
   * that is already there, and leaves out no complete field whose name is free.
   */
  ghost predicate Grown(before: seq<ExtractProperty>, after: seq<ExtractProperty>, rules: seq<Rule>, key: string) {
    && before <= after && NoClashFrom(after, |before|)
    && (forall i :: |before| <= i < |after| ==> FromRule(after[i], rules, key))
    && (forall r, f :: r in rules && Offers(r, f, key) ==> HasName(after, PropertyOf(f, r.fieldSuffix, key).name))
  }

  lemma {:induction false} PropertiesOnlyGrow(c: Option<ResourceConfig>, rules: seq<Rule>, key: string)
    ensures Grown(OrEmpty(c).properties, OrEmpty(AfterRules(c, rules, key)).properties, rules, key)
    ensures OrEmpty(AfterRules(c, rules, key)).edges == OrEmpty(c).edges
  {
    hide AfterRule, FieldsKey, WithFields, Grown;
    if rules == [] {
      NothingGrown(OrEmpty(c).properties, key);
    } else {
      var n := |rules| - 1;
      PropertiesOnlyGrow(c, rules[..n], key);
      var mid := AfterRules(c, rules[..n], key);
      PropertiesOfOneRule(mid, rules[n], key);
      GrownByOneRule(OrEmpty(c).properties, OrEmpty(mid).properties, OrEmpty(AfterRule(mid, rules[n], key)).properties,
                     rules[..n], rules[n], key);
      assert rules == rules[..n] + [rules[n]];
    }
  }

  lemma NothingGrown(properties: seq<ExtractProperty>, key: string)
    ensures Grown(properties, properties, [], key)
  {
  }

  lemma PropertiesOfOneRule(c: Option<ResourceConfig>, rule: Rule, key: string)
    ensures
      var before, after := OrEmpty(c), OrEmpty(AfterRule(c, rule, key));
      && after.edges == before.edges
      && after.properties ==
         if FieldsKey(rule) == Some(key) then WithFields(before.properties, rule.fields, rule.fieldSuffix, key)
         else before.properties
  {
    hide Flagged, FieldsKey, WithFields;
    FlaggedKeepsProperties(c, rule, key);
  }

  lemma GrownByOneRule(start: seq<ExtractProperty>, before: seq<ExtractProperty>, after: seq<ExtractProperty>,
                       rules: seq<Rule>, rule: Rule, key: string)
    requires Grown(start, before, rules, key)
    requires after ==
      if FieldsKey(rule) == Some(key) then WithFields(before, rule.fields, rule.fieldSuffix, key) else before
    ensures Grown(start, after, rules + [rule], key)
  {
    hide FieldsKey, WithFields, PropertyOf;
    var all := rules + [rule];
    assert forall r :: r in all <==> r in rules || r == rule;
    forall p | FromRule(p, rules, key) ensures FromRule(p, all, key) {
      var r, f :| r in rules && Offers(r, f, key) && p == PropertyOf(f, r.fieldSuffix, key);
      assert r in all;
    }
    if FieldsKey(rule) == Some(key) {
      FieldsExtend(before, rule.fields, rule.fieldSuffix, key);
      GrownByFields(start, before, after, rules, rule, key);
    }
  }

  lemma GrownByFields(start: seq<ExtractProperty>, before: seq<ExtractProperty>, after: seq<ExtractProperty>,
                      rules: seq<Rule>, rule: Rule, key: string)
    requires FieldsKey(rule) == Some(key) && Grown(start, before, rules, key)
    requires Extends(before, after, rule.fields, rule.fieldSuffix, key)
    requires forall p :: FromRule(p, rules, key) ==> FromRule(p, rules + [rule], key)
    ensures Grown(start, after, rules + [rule], key)
  {
    hide FieldsKey, WithFields, PropertyOf, HasName;
    var all := rules + [rule];
    forall i | |start| <= i < |after| ensures FromRule(after[i], all, key) && !HasName(after[..i], after[i].name) {
      if i < |before| {
        assert after[..i] == before[..i] && after[i] == before[i];
      } else {
        RuleGives(after[i], rules, rule, key);
      }
    }
    assert after == before + after[|before|..];
    NamesStay(before, after[|before|..]);
  }

  lemma RuleGives(p: ExtractProperty, rules: seq<Rule>, rule: Rule, key: string)
    requires FieldsKey(rule) == Some(key) && FromField(p, rule.fields, rule.fieldSuffix, key)
    ensures FromRule(p, rules + [rule], key)
  {
    var f :| f in rule.fields && !Incomplete(f) && p == PropertyOf(f, rule.fieldSuffix, key);
    assert Offers(rule, f, key) && rule in rules + [rule];
  }

  /** Every field of the rule is either added or reported, never both and never neither. */
  lemma {:induction false} FieldsAddedOrReported(properties: seq<ExtractProperty>, fields: seq<Field>, suffix: string,
                                                 key: string)
    ensures
      var added := |WithFields(properties, fields, suffix, key)| - |properties|;
      added + |FieldWarnings(properties, fields, suffix, key)| == |fields|
  {
    if fields != [] {
      FieldsAddedOrReported(properties, fields[..|fields| - 1], suffix, key);
    }
  }

  ghost predicate Touches(rule: Rule, key: string) {
    || Conditions(rule, key) || Annotations(rule, key) || Thresholds(rule, key)
    || FieldsKey(rule) == Some(key)
  }

  /** Entries never disappear, and one appears exactly when some rule asks for something under its key. */
  lemma {:induction false} EntriesAppearIff(c: Option<ResourceConfig>, rules: seq<Rule>, key: string)
    ensures AfterRules(c, rules, key).Some? <==> c.Some? || exists r :: r in rules && Touches(r, key)
  {
    hide Covered, FieldsKey, WithFields;
    if rules != [] {
      var n := |rules| - 1;
      EntriesAppearIff(c, rules[..n], key);
      assert rules == rules[..n] + [rules[n]];
      assert AfterRules(c, rules, key).Some? <==> AfterRules(c, rules[..n], key).Some? || Touches(rules[n], key);
    }
  }

  // ---- Exclude rules ----

  ghost predicate Matches(apiGroups: seq<string>, kinds: seq<string>, group: string, kind: string) {
    (exists g :: g in apiGroups && Selects(g, group)) && (exists k :: k in kinds && Selects(k, kind))
  }

  predicate Selects(pattern: string, s: string) {
    pattern == "*" || pattern == s
  }

  method MatchesExcludeRule(group: string, kind: string, apiGroups: seq<string>, kinds: seq<string>) returns (r: bool)
    ensures r == Matches(apiGroups, kinds, group, kind)
  {
    for i := 0 to |apiGroups|
      invariant (exists g :: g in apiGroups[..i] && Selects(g, group)) ==> forall k :: k in kinds ==> !Selects(k, kind)
    {
      for j := 0 to |kinds|
        invariant Selects(apiGroups[i], group) ==> forall k :: k in kinds[..j] ==> !Selects(k, kind)
      {
        if (apiGroups[i] == "*" || apiGroups[i] == group) && (kinds[j] == "*" || kinds[j] == kind) {
          assert apiGroups[i] in apiGroups && Selects(apiGroups[i], group);
          assert kinds[j] in kinds && Selects(kinds[j], kind);
          return true;
        }
      }
      assert kinds[..|kinds|] == kinds;
    }
    assert apiGroups[..|apiGroups|] == apiGroups;
    return false;
  }

  /** The last rule that matches says exclude. */
  ghost predicate LastMatchExcludes(rules: seq<ExcludeRule>, group: string, kind: string) {
    exists i :: 0 <= i < |rules| && DecidesAt(rules, i, group, kind) && rules[i].action.Exclude?
  }

  ghost predicate DecidesAt(rules: seq<ExcludeRule>, i: nat, group: string, kind: string)
    requires i < |rules|
  {
    && Matches(rules[i].apiGroups, rules[i].kinds, group, kind)
    && forall j :: i < j < |rules| ==> !Matches(rules[j].apiGroups, rules[j].kinds, group, kind)
  }

  method IsResourceExcluded(excludeRules: seq<ExcludeRule>, group: string, kind: string) returns (excluded: bool)
    ensures excluded <==> LastMatchExcludes(excludeRules, group, kind)
  {
    excluded := false;
    for i := 0 to |excludeRules|
      invariant excluded <==> LastMatchExcludes(excludeRules[..i], group, kind)
    {
      OneMoreExclude(excludeRules[..i], excludeRules[i], group, kind);
      assert excludeRules[..i + 1] == excludeRules[..i] + [excludeRules[i]];
      var matched := MatchesExcludeRule(group, kind, excludeRules[i].apiGroups, excludeRules[i].kinds);
      if matched {
        excluded := excludeRules[i].action == Exclude;
      }
    }
    assert excludeRules[..|excludeRules|] == excludeRules;
  }

  lemma OneMoreExclude(rules: seq<ExcludeRule>, rule: ExcludeRule, group: string, kind: string)
    ensures LastMatchExcludes(rules + [rule], group, kind) <==>
      if Matches(rule.apiGroups, rule.kinds, group, kind) then rule.action.Exclude?
      else LastMatchExcludes(rules, group, kind)
  {
    hide Matches;
    var all := rules + [rule];
    if Matches(rule.apiGroups, rule.kinds, group, kind) {
      assert DecidesAt(all, |rules|, group, kind);
      assert forall i :: 0 <= i < |rules| ==> !DecidesAt(all, i, group, kind);
    } else {
      assert forall i :: 0 <= i < |rules| ==> all[i] == rules[i];
      assert forall i :: 0 <= i < |rules| ==> (DecidesAt(all, i, group, kind) <==> DecidesAt(rules, i, group, kind));
      assert !DecidesAt(all, |rules|, group, kind);
    }
  }

  function Entry(rule: Rule): ExcludeRule {
    ExcludeRule(rule.apiGroups, rule.kinds, rule.action)
  }

  function Entries(rules: seq<Rule>): seq<ExcludeRule> {
    seq(|rules|, i requires 0 <= i < |rules| => Entry(rules[i]))
  }

  /** The last collection rule that matches decides: dropping the rules without groups or kinds changes nothing. */
  lemma {:induction false} LastRuleDecides(rules: seq<Rule>, group: string, kind: string)
    ensures LastMatchExcludes(ExcludeRules(rules), group, kind) <==> LastMatchExcludes(Entries(rules), group, kind)
  {
    hide Matches, LastMatchExcludes;
    if rules == [] {
      assert Entries(rules) == [];
    } else {
      var n := |rules| - 1;
      var rule := rules[n];
      LastRuleDecides(rules[..n], group, kind);
      assert Entries(rules) == Entries(rules[..n]) + [Entry(rule)];
      OneMoreExclude(Entries(rules[..n]), Entry(rule), group, kind);
      OneMoreExclude(ExcludeRules(rules[..n]), Entry(rule), group, kind);
      if rule.apiGroups == [] || rule.kinds == [] {
        EmptyNeverMatches(rule.apiGroups, rule.kinds, group, kind);
        assert ExcludeRules(rules) == ExcludeRules(rules[..n]);
      }
    }
  }

  lemma EmptyNeverMatches(apiGroups: seq<string>, kinds: seq<string>, group: string, kind: string)
    requires apiGroups == [] || kinds == []
    ensures !Matches(apiGroups, kinds, group, kind)
  {
  }
}
