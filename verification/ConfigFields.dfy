/** What the rules of a config resource come to, entry by entry, written out in terms of the rules. */
module ConfigFields {
  import opened Types
  import opened ConfigKeys
  import opened ConfigMerge

  /** The key is that of this kind and group. */
  predicate IsKey(key: string, kind: string, group: string) {
    if group == "" then key == kind else key == kind + "." + group
  }

  // ---- Which entry a rule adds fields to ----

  /** Apart from "*", the rule lists just this kind, once. */
  ghost predicate ListsOnly(rule: Rule, kind: string) {
    exists i :: 0 <= i < |rule.kinds| && OnlyAt(rule.kinds, i, kind)
  }

  ghost predicate OnlyAt(kinds: seq<string>, i: nat, kind: string)
    requires i < |kinds|
  {
    kinds[i] == kind && kind != "*" && forall j :: 0 <= j < |kinds| && j != i ==> kinds[j] == "*"
  }

  lemma {:induction false} NoneSpecific(kinds: seq<string>)
    ensures SpecificKinds(kinds) == [] <==> forall j :: 0 <= j < |kinds| ==> kinds[j] == "*"
  {
    if kinds != [] {
      NoneSpecific(kinds[..|kinds| - 1]);
      assert forall j :: 0 <= j < |kinds| - 1 ==> kinds[j] == kinds[..|kinds| - 1][j];
    }
  }

  lemma {:induction false} OneSpecific(kinds: seq<string>, kind: string)
    ensures SpecificKinds(kinds) == [kind] <==> exists i :: 0 <= i < |kinds| && OnlyAt(kinds, i, kind)
  {
    hide OnlyAt;
    if kinds != [] {
      var n := |kinds| - 1;
      if kinds[n] == "*" {
        OneSpecific(kinds[..n], kind);
        forall i | 0 <= i < n ensures OnlyAt(kinds[..n], i, kind) <==> OnlyAt(kinds, i, kind) {
          OnlyBefore(kinds, i, kind);
        }
        NotLast(kinds, kind);
      } else {
        LastSpecific(kinds, kind);
      }
    }
  }

  lemma OnlyBefore(kinds: seq<string>, i: nat, kind: string)
    requires i < |kinds| - 1 && kinds[|kinds| - 1] == "*"
    ensures OnlyAt(kinds[..|kinds| - 1], i, kind) <==> OnlyAt(kinds, i, kind)
  {
    var most := kinds[..|kinds| - 1];
    assert forall j :: 0 <= j < |most| ==> most[j] == kinds[j];
  }

  lemma NotLast(kinds: seq<string>, kind: string)
    requires kinds != [] && kinds[|kinds| - 1] == "*"
    ensures !OnlyAt(kinds, |kinds| - 1, kind)
  {
  }

  lemma LastSpecific(kinds: seq<string>, kind: string)
    requires kinds != [] && kinds[|kinds| - 1] != "*"
    ensures SpecificKinds(kinds) == [kind] <==> exists i :: 0 <= i < |kinds| && OnlyAt(kinds, i, kind)
  {
    var n := |kinds| - 1;
    var most := kinds[..n];
    NoneSpecific(most);
    assert forall j :: 0 <= j < n ==> most[j] == kinds[j];
    assert SpecificKinds(kinds) == SpecificKinds(most) + [kinds[n]];
    assert SpecificKinds(kinds)[|SpecificKinds(most)|] == kinds[n];
    assert SpecificKinds(kinds) == [kind] <==> SpecificKinds(most) == [] && kinds[n] == kind;
    assert forall i :: 0 <= i < n ==> !OnlyAt(kinds, i, kind);
    assert OnlyAt(kinds, n, kind) <==> kinds[n] == kind && SpecificKinds(most) == [];
  }

  /** The rule is to add fields to this entry: it includes one kind of one group, and the key is theirs. */
  ghost predicate AddsTo(rule: Rule, key: string) {
    && rule.action == Include && rule.fields != [] && |rule.apiGroups| == 1
    && exists kind :: kind != "" && ListsOnly(rule, kind) && IsKey(key, kind, rule.apiGroups[0])
  }

  lemma FieldsKeyIff(rule: Rule, key: string)
    ensures FieldsKey(rule) == Some(key) <==> AddsTo(rule, key)
  {
    hide SpecificKinds, OnlyAt;
    if FieldsKey(rule) == Some(key) {
      var kind := SpecificKinds(rule.kinds)[0];
      assert SpecificKinds(rule.kinds) == [kind];
      OneSpecific(rule.kinds, kind);
      assert ListsOnly(rule, kind);
    }
    if AddsTo(rule, key) {
      var kind :| kind != "" && ListsOnly(rule, kind) && IsKey(key, kind, rule.apiGroups[0]);
      OneSpecific(rule.kinds, kind);
    }
  }

  // ---- What a field becomes ----

  predicate IsName(name: string, f: Field, suffix: string) {
    if suffix == "" then name == f.name else name == f.name + "." + suffix
  }

  /** The text is the path with its braces: both, one of the two, or none. */
  predicate IsPath(path: string, text: string) {
    || (text == path && !Opens(path) && !Closes(path))
    || (text == "{" + path && !Closes(path))
    || (text == path + "}" && !Opens(text))
    || text == "{" + path + "}"
  }

  predicate Opens(s: string) {
    s != "" && s[0] == '{'
  }

  predicate Closes(s: string) {
    s != "" && s[|s| - 1] == '}'
  }

  predicate IsType(t: DataType, crdType: CrdType) {
    && (crdType == CrdBytes <==> t == Bytes)
    && (crdType in {CrdInteger, CrdFloat} <==> t == Number)
    && (crdType == CrdBoolean <==> t == Boolean)
    && (crdType == CrdArray <==> t == ArrayString)
    && (crdType in {CrdString, CrdUnknown} <==> t == DataType.Text)
  }

  /** The users of a group are read on the hub only. */
  predicate ReadsUsers(path: string) {
    path == ".users" || ".users." <= path || ".users[" <= path
  }

  /** The property that the field asks for: named with the suffix, its path in braces, nothing else set. */
  ghost predicate Describes(p: ExtractProperty, f: Field, suffix: string, key: string) {
    && IsName(p.name, f, suffix)
    && (exists path :: IsPath(path, f.jsonPath) && p.jsonPath == "{" + path + "}"
          && (p.hubOnly <==> key == "Group.user.openshift.io" && ReadsUsers(path)))
    && IsType(p.dataType, f.crdType)
    && p.priority == None && p.matchLabel == "" && !p.metadataOnly && p.defaultValue == None
  }

  lemma PathIff(path: string, text: string)
    ensures Unbraced(text) == path <==> IsPath(path, text)
  {
    var first := TrimFirst(text, '{');
    assert text == first || text == "{" + first;
    var inner := TrimLast(first, '}');
    assert first == inner || first == inner + "}";
    if text == "{" + path || text == "{" + path + "}" { assert text[1..] == path || text[1..] == path + "}"; }
    if text == path + "}" { assert text[..|path|] == path; }
    assert (path + "}")[..|path|] == path;
  }

  lemma UsersIff(key: string, path: string)
    ensures HubOnly(key, "{" + path + "}") <==> key == "Group.user.openshift.io" && ReadsUsers(path)
  {
    assert Unbraced("{" + path + "}") == path by {
      PathIff(path, "{" + path + "}");
    }
    var roots := HubOnlyFields(key);
    if key == "Group.user.openshift.io" {
      assert roots == [".users"] && roots[0] in roots;
      assert HubOnly(key, "{" + path + "}") <==> ReadsRoot(path, ".users");
      RootIff(path);
    }
  }

  lemma RootIff(path: string)
    ensures ReadsRoot(path, ".users") <==> ReadsUsers(path)
  {
    var root := ".users";
    if root <= path && |path| > |root| {
      assert path[..|root| + 1] == root + [path[|root|]];
      assert root + ['['] == ".users[" && root + ['.'] == ".users.";
    }
    if ".users." <= path { assert path[..|root|] == ".users."[..|root|] == root; }
    if ".users[" <= path { assert path[..|root|] == ".users["[..|root|] == root; }
  }

  lemma PropertyIff(p: ExtractProperty, f: Field, suffix: string, key: string)
    ensures p == PropertyOf(f, suffix, key) <==> Describes(p, f, suffix, key)
  {
    hide Unbraced, HubOnly, IsPath, ReadsUsers;
    var path := Unbraced(f.jsonPath);
    PathIff(path, f.jsonPath);
    UsersIff(key, path);
    if Describes(p, f, suffix, key) {
      var other :| IsPath(other, f.jsonPath) && p.jsonPath == "{" + other + "}"
        && (p.hubOnly <==> key == "Group.user.openshift.io" && ReadsUsers(other));
      PathIff(other, f.jsonPath);
    }
  }

  // ---- The fields of all rules ----

  /** The rule asks for this field in this entry. */
  ghost predicate Asks(rule: Rule, f: Field, key: string) {
    AddsTo(rule, key) && f in rule.fields && f.name != "" && f.jsonPath != ""
  }

  ghost predicate AnyAsks(rules: seq<Rule>, p: ExtractProperty, key: string) {
    exists r, f :: r in rules && Asks(r, f, key) && Describes(p, f, r.fieldSuffix, key)
  }

  predicate Taken(properties: seq<ExtractProperty>, name: string) {
    exists i :: 0 <= i < |properties| && properties[i].name == name
  }

  function PropertiesAt(cfg: Config, key: string): seq<ExtractProperty> {
    if key in cfg then cfg[key].properties else []
  }

  lemma TakenIff(properties: seq<ExtractProperty>, name: string)
    ensures Taken(properties, name) <==> HasName(properties, name)
  {
    if p :| p in properties && p.name == name {
      var i :| 0 <= i < |properties| && properties[i] == p;
    }
  }

  /**
   * For every list of rules: an entry keeps its default properties in front, what follows is what the rules ask
   * for in that entry, no name is taken twice, and every field asked for has its name taken in the end.
   */
  lemma FieldsMerged(defaults: Config, cfg: Config, rules: seq<Rule>, key: string)
    requires RulesApplied(defaults, cfg, rules)
    ensures
      var before, after := PropertiesAt(defaults, key), PropertiesAt(cfg, key);
      && before <= after
      && (forall i :: |before| <= i < |after| ==>
            AnyAsks(rules, after[i], key) && !Taken(after[..i], after[i].name))
      && (forall r, f, name :: r in rules && Asks(r, f, key) && IsName(name, f, r.fieldSuffix) ==> Taken(after, name))
  {
    hide AfterRules, AddsTo, FieldsKey, Describes, PropertyOf, HasName, Taken, IsName;
    var before, after := PropertiesAt(defaults, key), PropertiesAt(cfg, key);
    PropertiesOnlyGrow(Lookup(defaults, key), rules, key);
    forall i | |before| <= i < |after| ensures AnyAsks(rules, after[i], key) && !Taken(after[..i], after[i].name) {
      GivenIsAsked(after[i], rules, key);
      TakenIff(after[..i], after[i].name);
    }
    forall r, f, name | r in rules && Asks(r, f, key) && IsName(name, f, r.fieldSuffix) ensures Taken(after, name) {
      FieldsKeyIff(r, key);
      assert Offers(r, f, key);
      NameIsOne(f, r.fieldSuffix, key, name);
      TakenIff(after, name);
    }
  }

  lemma NameIsOne(f: Field, suffix: string, key: string, name: string)
    requires IsName(name, f, suffix)
    ensures PropertyOf(f, suffix, key).name == name
  {
  }

  lemma GivenIsAsked(p: ExtractProperty, rules: seq<Rule>, key: string)
    requires FromRule(p, rules, key)
    ensures AnyAsks(rules, p, key)
  {
    hide AddsTo, FieldsKey, Describes, PropertyOf;
    var r, f :| r in rules && Offers(r, f, key) && p == PropertyOf(f, r.fieldSuffix, key);
    FieldsKeyIff(r, key);
    PropertyIff(p, f, r.fieldSuffix, key);
    assert Asks(r, f, key);
  }

  /** No field asked for earlier has this name: in the rules before the i-th, or before the j-th of its own. */
  ghost predicate FirstToAsk(rules: seq<Rule>, i: nat, j: nat, name: string, key: string)
    requires i < |rules| && j < |rules[i].fields|
  {
    && (forall r, f :: r in rules[..i] && Asks(r, f, key) ==> !IsName(name, f, r.fieldSuffix))
    && (forall f :: f in rules[i].fields[..j] && f.name != "" && f.jsonPath != "" ==>
          !IsName(name, f, rules[i].fieldSuffix))
  }

  /** The first field to ask for a name that the defaults leave free becomes the property of that name. */
  lemma FirstToAskIsServed(defaults: Config, cfg: Config, rules: seq<Rule>, i: nat, j: nat, name: string, key: string)
    returns (p: ExtractProperty)
    requires RulesApplied(defaults, cfg, rules) && i < |rules| && j < |rules[i].fields|
    requires Asks(rules[i], rules[i].fields[j], key) && IsName(name, rules[i].fields[j], rules[i].fieldSuffix)
    requires !Taken(PropertiesAt(defaults, key), name) && FirstToAsk(rules, i, j, name, key)
    ensures p in PropertiesAt(cfg, key) && p.name == name
    ensures Describes(p, rules[i].fields[j], rules[i].fieldSuffix, key)
    ensures forall q :: q in PropertiesAt(cfg, key) && q.name == name ==> q == p
  {
    hide AfterRules, AddsTo, FieldsKey, Describes, PropertyOf, HasName, Taken, IsName, WithFields, Grown;
    var rule, c := rules[i], Lookup(defaults, key);
    var f := rule.fields[j];
    p := PropertyOf(f, rule.fieldSuffix, key);
    PropertyIff(p, f, rule.fieldSuffix, key);
    NameIsOne(f, rule.fieldSuffix, key, name);
    FieldsKeyIff(rule, key);
    var mid := OrEmpty(AfterRules(c, rules[..i], key)).properties;
    StillFree(c, rules[..i], name, key);
    FreeUpTo(mid, rule.fields[..j], rule.fieldSuffix, name, key);
    FieldPlaced(mid, rule.fields, j, rule.fieldSuffix, key);
    PlacedStays(c, rules, i, p, key);
    OneOfAName(c, rules, p, key);
  }

  /** A name stays free through rules of which none asks for it. */
  lemma StillFree(c: Option<ResourceConfig>, rules: seq<Rule>, name: string, key: string)
    requires !Taken(OrEmpty(c).properties, name)
    requires forall r, f :: r in rules && Asks(r, f, key) ==> !IsName(name, f, r.fieldSuffix)
    ensures !HasName(OrEmpty(AfterRules(c, rules, key)).properties, name)
  {
    hide AfterRules, AddsTo, Describes, PropertyOf, IsName, Taken, FromRule;
    var before, after := OrEmpty(c).properties, OrEmpty(AfterRules(c, rules, key)).properties;
    PropertiesOnlyGrow(c, rules, key);
    TakenIff(before, name);
    forall k | 0 <= k < |after| ensures after[k].name != name {
      if k < |before| {
        assert before[k] in before && after[k] == before[k];
      } else {
        GivenIsAsked(after[k], rules, key);
        var r, f :| r in rules && Asks(r, f, key) && Describes(after[k], f, r.fieldSuffix, key);
        DescribedName(after[k], f, r.fieldSuffix, key);
      }
    }
  }

  lemma DescribedName(p: ExtractProperty, f: Field, suffix: string, key: string)
    requires Describes(p, f, suffix, key)
    ensures IsName(p.name, f, suffix)
  {
  }

  lemma FreeUpTo(properties: seq<ExtractProperty>, fields: seq<Field>, suffix: string, name: string, key: string)
    requires !HasName(properties, name)
    requires forall f :: f in fields && f.name != "" && f.jsonPath != "" ==> !IsName(name, f, suffix)
    ensures !HasName(WithFields(properties, fields, suffix, key), name)
  {
    hide WithFields, PropertyOf, Describes, IsName;
    var r := WithFields(properties, fields, suffix, key);
    FieldsExtend(properties, fields, suffix, key);
    forall k | 0 <= k < |r| ensures r[k].name != name {
      if k < |properties| {
        assert properties[k] in properties && r[k] == properties[k];
      } else {
        var f :| f in fields && !Incomplete(f) && r[k] == PropertyOf(f, suffix, key);
        PropertyIff(r[k], f, suffix, key);
        DescribedName(r[k], f, suffix, key);
      }
    }
  }

  lemma {:induction false} FieldPlaced(properties: seq<ExtractProperty>, fields: seq<Field>, j: nat, suffix: string,
                                       key: string)
    requires j < |fields| && !Incomplete(fields[j])
    requires !HasName(WithFields(properties, fields[..j], suffix, key), PropertyOf(fields[j], suffix, key).name)
    ensures PropertyOf(fields[j], suffix, key) in WithFields(properties, fields, suffix, key)
    decreases |fields|
  {
    hide PropertyOf, HasName;
    var n := |fields| - 1;
    if j < n {
      assert fields[..n][..j] == fields[..j];
      FieldPlaced(properties, fields[..n], j, suffix, key);
    }
  }

  lemma {:induction false} PlacedStays(c: Option<ResourceConfig>, rules: seq<Rule>, i: nat, p: ExtractProperty,
                                       key: string)
    requires i < |rules| && FieldsKey(rules[i]) == Some(key)
    requires
      var mid := OrEmpty(AfterRules(c, rules[..i], key)).properties;
      p in WithFields(mid, rules[i].fields, rules[i].fieldSuffix, key)
    ensures p in OrEmpty(AfterRules(c, rules, key)).properties
    decreases |rules|
  {
    hide AfterRule, FieldsKey, WithFields;
    var n := |rules| - 1;
    var mid := AfterRules(c, rules[..n], key);
    assert AfterRules(c, rules, key) == AfterRule(mid, rules[n], key);
    if i < n {
      assert rules[..n][..i] == rules[..i];
      PlacedStays(c, rules[..n], i, p, key);
      OneRuleKeeps(mid, rules[n], p, key);
    } else {
      PropertiesOfOneRule(mid, rules[n], key);
    }
  }

  lemma OneRuleKeeps(c: Option<ResourceConfig>, rule: Rule, p: ExtractProperty, key: string)
    requires p in OrEmpty(c).properties
    ensures p in OrEmpty(AfterRule(c, rule, key)).properties
  {
    hide AfterRule, FieldsKey, WithFields, FromField, HasName, NoClashFrom, PropertyOf;
    var before, after := OrEmpty(c).properties, OrEmpty(AfterRule(c, rule, key)).properties;
    PropertiesOfOneRule(c, rule, key);
    FieldsExtend(before, rule.fields, rule.fieldSuffix, key);
    var k :| 0 <= k < |before| && before[k] == p;
    assert before <= after && after[k] == p;
  }

  lemma OneOfAName(c: Option<ResourceConfig>, rules: seq<Rule>, p: ExtractProperty, key: string)
    requires !Taken(OrEmpty(c).properties, p.name) && p in OrEmpty(AfterRules(c, rules, key)).properties
    ensures forall q :: q in OrEmpty(AfterRules(c, rules, key)).properties && q.name == p.name ==> q == p
  {
    hide AfterRules, FromRule;
    var before, after := OrEmpty(c).properties, OrEmpty(AfterRules(c, rules, key)).properties;
    PropertiesOnlyGrow(c, rules, key);
    forall k | 0 <= k < |before| ensures after[k].name != p.name {
      assert before[k] == after[k];
    }
    var i :| 0 <= i < |after| && after[i] == p;
    forall k | 0 <= k < |after| && k != i ensures after[k].name != p.name {
      if |before| <= k {
        NamesApart(after, |before|, if k < i then k else i, if k < i then i else k);
      }
    }
  }

  lemma NamesApart(properties: seq<ExtractProperty>, start: nat, i: nat, k: nat)
    requires NoClashFrom(properties, start) && i < k < |properties| && start <= k
    ensures properties[i].name != properties[k].name
  {
    assert properties[..k][i] in properties[..k];
  }

  // ---- What is reported ----

  /** The name belongs to a property, or to one of these fields. */
  ghost predicate TakenOrAsked(properties: seq<ExtractProperty>, fields: seq<Field>, suffix: string, name: string) {
    || Taken(properties, name)
    || exists f :: f in fields && f.name != "" && f.jsonPath != "" && IsName(name, f, suffix)
  }

  lemma TakenAfterFields(properties: seq<ExtractProperty>, fields: seq<Field>, suffix: string, name: string,
                         key: string)
    ensures HasName(WithFields(properties, fields, suffix, key), name) <==>
              TakenOrAsked(properties, fields, suffix, name)
  {
    hide WithFields, IsName, PropertyOf;
    TakenIff(properties, name);
    FieldsExtend(properties, fields, suffix, key);
    if TakenOrAsked(properties, fields, suffix, name) {
      if p :| p in properties && p.name == name {
        assert p in WithFields(properties, fields, suffix, key);
      } else {
        var f :| f in fields && f.name != "" && f.jsonPath != "" && IsName(name, f, suffix);
        NameIsOne(f, suffix, key, name);
      }
    } else {
      FreeUpTo(properties, fields, suffix, name, key);
    }
  }

  /** The j-th field of a rule is reported like this: it lacks its name or its path, or its name is taken by then. */
  ghost predicate ReportedAt(w: Warning, properties: seq<ExtractProperty>, fields: seq<Field>, j: nat, suffix: string,
                             key: string)
    requires j < |fields|
  {
    var f := fields[j];
    if f.name == "" || f.jsonPath == "" then w == FieldIncomplete(key)
    else exists name ::
      IsName(name, f, suffix) && TakenOrAsked(properties, fields[..j], suffix, name) && w == FieldCollides(name, key)
  }

  lemma {:induction false} FieldWarningsIff(properties: seq<ExtractProperty>, fields: seq<Field>, suffix: string,
                                            key: string, w: Warning)
    ensures w in FieldWarnings(properties, fields, suffix, key) <==>
              exists j :: 0 <= j < |fields| && ReportedAt(w, properties, fields, j, suffix, key)
  {
    hide WithFields, PropertyOf, TakenOrAsked, HasName, ReportedAt, FieldWarning;
    if fields != [] {
      var n := |fields| - 1;
      var most := fields[..n];
      FieldWarningsIff(properties, most, suffix, key, w);
      LastReported(properties, fields, suffix, key, w);
      forall j | 0 <= j < n
        ensures ReportedAt(w, properties, most, j, suffix, key) <==> ReportedAt(w, properties, fields, j, suffix, key)
      {
        SameReport(properties, fields, n, j, suffix, key, w);
      }
      var last := FieldWarning(WithFields(properties, most, suffix, key), fields[n], suffix, key);
      assert FieldWarnings(properties, fields, suffix, key) == FieldWarnings(properties, most, suffix, key) + last;
    }
  }

  lemma SameReport(properties: seq<ExtractProperty>, fields: seq<Field>, n: nat, j: nat, suffix: string, key: string,
                   w: Warning)
    requires j < n <= |fields|
    ensures ReportedAt(w, properties, fields[..n], j, suffix, key) <==>
              ReportedAt(w, properties, fields, j, suffix, key)
  {
    hide TakenOrAsked, IsName;
    assert fields[..n][..j] == fields[..j];
  }

  lemma LastReported(properties: seq<ExtractProperty>, fields: seq<Field>, suffix: string, key: string, w: Warning)
    requires fields != []
    ensures
      var n := |fields| - 1;
      w in FieldWarning(WithFields(properties, fields[..n], suffix, key), fields[n], suffix, key) <==>
        ReportedAt(w, properties, fields, n, suffix, key)
  {
    hide WithFields, TakenOrAsked, HasName, DataTypeFromCRD, Braced, HubOnly;
    var n := |fields| - 1;
    var name := PropertyOf(fields[n], suffix, key).name;
    TakenAfterFields(properties, fields[..n], suffix, name, key);
    assert forall other :: IsName(other, fields[n], suffix) <==> other == name;
  }

  /** A rule with fields that adds them nowhere is reported once, and otherwise its fields are. */
  lemma RuleWarningsIff(rule: Rule, properties: seq<ExtractProperty>)
    requires rule.action == Include && rule.fields != []
    ensures RuleWarnings(rule, properties) == [MissingKinds] <==> forall k :: k in rule.kinds ==> k == "*"
    ensures (forall key :: !AddsTo(rule, key)) ==>
      || RuleWarnings(rule, properties) in {[MissingKinds], [EmptyKind], [GroupCount(|rule.apiGroups|)]}
      || exists n :: n > 1 && RuleWarnings(rule, properties) == [KindCount(n)]
    ensures forall key :: AddsTo(rule, key) ==>
      RuleWarnings(rule, properties) == FieldWarnings(properties, rule.fields, rule.fieldSuffix, key)
  {
    hide SpecificKinds, FieldWarnings, AddsTo;
    forall key ensures FieldsKey(rule) == Some(key) <==> AddsTo(rule, key) {
      FieldsKeyIff(rule, key);
    }
    NoneSpecific(rule.kinds);
    forall j | 0 <= j < |rule.kinds| ensures rule.kinds[j] in rule.kinds {}
    if FieldsKey(rule).Some? {
      NeverMissing(properties, rule.fields, rule.fieldSuffix, FieldsKey(rule).value);
      assert MissingKinds in [MissingKinds];
    }
  }

  lemma NeverMissing(properties: seq<ExtractProperty>, fields: seq<Field>, suffix: string, key: string)
    ensures MissingKinds !in FieldWarnings(properties, fields, suffix, key)
  {
    FieldWarningsIff(properties, fields, suffix, key, MissingKinds);
  }

  // ---- Flags and thresholds ----

  /** The rule includes a kind and group with this key. */
  ghost predicate AppliesTo(rule: Rule, key: string) {
    && rule.action == Include
    && exists g, k :: g in rule.apiGroups && k in rule.kinds && k != "" && IsKey(key, k, g)
  }

  lemma AppliesIff(rule: Rule, key: string)
    ensures AppliesTo(rule, key) <==> Includes(rule, key)
  {
    forall g, k ensures IsKey(key, k, g) <==> ConfigKey(k, g) == key {}
  }

  /** The default of the entry, or some including rule with the key, says so. */
  ghost predicate ConditionsAsked(defaults: Config, rules: seq<Rule>, key: string) {
    || (key in defaults && defaults[key].extractConditions)
    || exists r :: r in rules && AppliesTo(r, key) && r.collectConditions == Some(true)
  }

  ghost predicate AnnotationsAsked(defaults: Config, rules: seq<Rule>, key: string) {
    || (key in defaults && defaults[key].extractAnnotations)
    || exists r :: r in rules && AppliesTo(r, key) && r.collectAnnotations == Some(true)
  }

  ghost predicate ThresholdAsked(defaults: Config, rules: seq<Rule>, t: int, key: string) {
    || (key in defaults && defaults[key].columnsPriority == Some(t))
    || exists r :: r in rules && AppliesTo(r, key) && r.columnsPriority == Some(t)
  }

  lemma FlagsMerged(defaults: Config, cfg: Config, rules: seq<Rule>, key: string)
    requires RulesApplied(defaults, cfg, rules)
    ensures key in cfg && cfg[key].extractConditions <==> ConditionsAsked(defaults, rules, key)
    ensures key in cfg && cfg[key].extractAnnotations <==> AnnotationsAsked(defaults, rules, key)
  {
    hide AfterRules, AppliesTo, Includes, IsMaxThreshold;
    FlagsAndThreshold(Lookup(defaults, key), rules, key);
    forall r ensures AppliesTo(r, key) <==> Includes(r, key) {
      AppliesIff(r, key);
    }
    forall r ensures Conditions(r, key) <==> AppliesTo(r, key) && r.collectConditions == Some(true) {}
    forall r ensures Annotations(r, key) <==> AppliesTo(r, key) && r.collectAnnotations == Some(true) {}
  }

  /** The threshold is the largest that was asked for. */
  lemma ThresholdMerged(defaults: Config, cfg: Config, rules: seq<Rule>, key: string, t: int)
    requires RulesApplied(defaults, cfg, rules)
    ensures (key in cfg && cfg[key].columnsPriority == Some(t)) <==>
              && ThresholdAsked(defaults, rules, t, key)
              && forall other :: ThresholdAsked(defaults, rules, other, key) ==> other <= t
  {
    hide AfterRules, AppliesTo, Includes, Conditions, Annotations;
    FlagsAndThreshold(Lookup(defaults, key), rules, key);
    forall r ensures AppliesTo(r, key) <==> Includes(r, key) {
      AppliesIff(r, key);
    }
    var threshold := OrEmpty(Lookup(cfg, key)).columnsPriority;
    assert threshold.Some? ==> ThresholdAsked(defaults, rules, threshold.value, key);
    assert forall other :: ThresholdAsked(defaults, rules, other, key) ==> threshold.Some? && other <= threshold.value;
  }

  // ---- Exclusion ----

  /** The rule lists the group and the kind, or "*" for either. */
  predicate Picks(rule: Rule, group: string, kind: string) {
    ("*" in rule.apiGroups || group in rule.apiGroups) && ("*" in rule.kinds || kind in rule.kinds)
  }

  ghost predicate LastPick(rules: seq<Rule>, i: nat, group: string, kind: string)
    requires i < |rules|
  {
    Picks(rules[i], group, kind) && forall j :: i < j < |rules| ==> !Picks(rules[j], group, kind)
  }

  /** A resource is excluded exactly when the last rule that picks it says so. */
  lemma ExcludedIff(rules: seq<Rule>, group: string, kind: string)
    ensures LastMatchExcludes(ExcludeRules(rules), group, kind) <==>
              exists i :: 0 <= i < |rules| && LastPick(rules, i, group, kind) && rules[i].action == Exclude
  {
    hide ExcludeRules, Picks, Matches;
    LastRuleDecides(rules, group, kind);
    var entries := Entries(rules);
    forall i | 0 <= i < |rules|
      ensures entries[i].action == rules[i].action
      ensures Matches(entries[i].apiGroups, entries[i].kinds, group, kind) <==> Picks(rules[i], group, kind)
    {
      PicksIff(rules[i], group, kind);
    }
    assert forall i :: 0 <= i < |rules| ==> (DecidesAt(entries, i, group, kind) <==> LastPick(rules, i, group, kind));
  }

  lemma PicksIff(rule: Rule, group: string, kind: string)
    ensures Matches(rule.apiGroups, rule.kinds, group, kind) <==> Picks(rule, group, kind)
  {
    assert forall g :: Selects(g, group) <==> g == "*" || g == group;
    assert forall k :: Selects(k, kind) <==> k == "*" || k == kind;
    if Picks(rule, group, kind) {
      assert Selects("*", group) && Selects(group, group) && Selects("*", kind) && Selects(kind, kind);
    }
  }
}
