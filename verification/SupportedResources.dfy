/** Which of the discovered resources get an informer, and the names under which they are found again. */
module SupportedResources {
  import opened Types
  import opened ConfigKeys
  import opened ConfigMerge
  import opened ConfigFields
  import Strings = Text

  datatype GVR = GVR(group: string, version: string, resource: string)

  /** A resource type as discovery lists it; the group is empty for the core API. */
  datatype ApiResource = ApiResource(group: string, version: string, name: string, kind: string, watchable: bool) {
    function Gvr(): GVR {
      GVR(group, version, name)
    }

    function Key(): string {
      ConfigKey(kind, group)
    }
  }

  /** An entry of the older allow and deny lists. */
  datatype Listed = Listed(apiGroups: seq<string>, resources: seq<string>)

  const NEVER_COLLECTED := ["events", "projects", "clusters", "clusterstatuses", "oauthaccesstokens"]

  ghost predicate InList(list: seq<Listed>, group: string, name: string) {
    exists l :: l in list && Matches(l.apiGroups, l.resources, group, name)
  }

  /** The older lists call the core group by its version. */
  function LegacyGroup(r: ApiResource): string {
    if r.group == "" then r.version else r.group
  }

  ghost predicate Allowed(group: string, name: string, allowed: seq<Listed>, denied: seq<Listed>) {
    && name !in NEVER_COLLECTED
    && !InList(denied, group, name)
    && (allowed == [] || InList(allowed, group, name))
  }

  ghost predicate Kept(r: ApiResource, allowed: seq<Listed>, denied: seq<Listed>, rules: seq<ExcludeRule>) {
    && Allowed(if r.group == "" then r.version else r.group, r.name, allowed, denied)
    && !LastMatchExcludes(rules, r.group, r.kind)
    && r.watchable && '/' !in r.name
  }

  /** The entry lists the group and the name, or "*" for either. */
  predicate Mentions(l: Listed, group: string, name: string) {
    ("*" in l.apiGroups || group in l.apiGroups) && ("*" in l.resources || name in l.resources)
  }

  /** Discovery lists the resource under "group/version", or under the version alone in the core group. */
  predicate ListedUnder(r: ApiResource, groupVersion: string) {
    && r.version != "" && '/' !in r.version && '/' !in r.group
    && groupVersion == if r.group == "" then r.version else r.group + "/" + r.version
  }

  /**
   * Which resources are collected, in terms of the lists and the rules: the older lists are asked with the first
   * part of what discovery lists the resource under, and the last rule that picks the resource must not exclude it.
   */
  lemma CollectedIff(r: ApiResource, groupVersion: string, allowed: seq<Listed>, denied: seq<Listed>, rules: seq<Rule>)
    requires ListedUnder(r, groupVersion)
    ensures
      var listGroup := Strings.Split(groupVersion, '/')[0];
      Kept(r, allowed, denied, ExcludeRules(rules)) <==>
      && r.watchable && '/' !in r.name
      && r.name !in {"events", "projects", "clusters", "clusterstatuses", "oauthaccesstokens"}
      && (forall l :: l in denied ==> !Mentions(l, listGroup, r.name))
      && (allowed == [] || exists l :: l in allowed && Mentions(l, listGroup, r.name))
      && !exists i :: 0 <= i < |rules| && LastPick(rules, i, r.group, r.kind) && rules[i].action == Exclude
  {
    hide ExcludeRules, LastMatchExcludes, Matches, LastPick, Mentions, ListedUnder, Strings.Split;
    ExcludedIff(rules, r.group, r.kind);
    FirstPart(r, groupVersion);
    var listGroup := if r.group == "" then r.version else r.group;
    forall l: Listed ensures Matches(l.apiGroups, l.resources, listGroup, r.name) <==> Mentions(l, listGroup, r.name) {
      MentionsIff(l, listGroup, r.name);
    }
  }

  lemma FirstPart(r: ApiResource, groupVersion: string)
    requires ListedUnder(r, groupVersion)
    ensures Strings.Split(groupVersion, '/')[0] == if r.group == "" then r.version else r.group
  {
    Strings.SplitFirst(if r.group == "" then r.version else r.group, r.version, '/');
  }

  lemma MentionsIff(l: Listed, group: string, name: string)
    ensures Matches(l.apiGroups, l.resources, group, name) <==> Mentions(l, group, name)
  {
    PicksIff(Rule(Include, l.apiGroups, l.resources, [], "", None, None, None), group, name);
  }

  method IsResourceMatchingList(list: seq<Listed>, group: string, name: string) returns (r: bool)
    ensures r == InList(list, group, name)
  {
    for i := 0 to |list|
      invariant !InList(list[..i], group, name)
    {
      var hit := MatchesExcludeRule(group, name, list[i].apiGroups, list[i].resources);
      if hit {
        assert list[i] in list;
        return true;
      }
      assert list[..i + 1] == list[..i] + [list[i]];
    }
    assert list[..|list|] == list;
    return false;
  }

  method IsResourceAllowed(group: string, name: string, allowed: seq<Listed>, denied: seq<Listed>) returns (r: bool)
    ensures r == Allowed(group, name, allowed, denied)
  {
    if name in NEVER_COLLECTED {
      return false;
    }
    var isDenied := IsResourceMatchingList(denied, group, name);
    if isDenied {
      return false;
    }
    if |allowed| == 0 {
      return true;
    }
    r := IsResourceMatchingList(allowed, group, name);
  }

  method IsKept(r: ApiResource, allowed: seq<Listed>, denied: seq<Listed>, rules: seq<ExcludeRule>) returns (keep: bool)
    ensures keep == Kept(r, allowed, denied, rules)
  {
    hide Allowed, LastMatchExcludes;
    var isAllowed := IsResourceAllowed(LegacyGroup(r), r.name, allowed, denied);
    if !isAllowed {
      return false;
    }
    var excluded := IsResourceExcluded(rules, r.group, r.kind);
    return !excluded && r.watchable && '/' !in r.name;
  }

  /** The informers to run, and for each name the last kept resource that has it. */
  ghost predicate Covers(kept: seq<ApiResource>, gvrs: set<GVR>, names: map<string, GVR>) {
    && (forall g :: g in gvrs <==> HasGvr(kept, g))
    && (forall k :: k in names <==> HasKey(kept, k))
    && (forall k :: k in names ==> NamesLast(kept, k, names[k]))
  }

  ghost predicate HasGvr(kept: seq<ApiResource>, g: GVR) {
    exists r :: r in kept && g == GVR(r.group, r.version, r.name)
  }

  /** A resource goes by its kind and, outside the core group, its group. */
  predicate HasName(r: ApiResource, name: string) {
    name == if r.group == "" then r.kind else r.kind + "." + r.group
  }

  ghost predicate HasKey(kept: seq<ApiResource>, key: string) {
    exists r :: r in kept && HasName(r, key)
  }

  ghost predicate NamesLast(kept: seq<ApiResource>, key: string, g: GVR) {
    exists i :: 0 <= i < |kept| && LastWithKey(kept, i, key) && g == GVR(kept[i].group, kept[i].version, kept[i].name)
  }

  ghost predicate LastWithKey(kept: seq<ApiResource>, i: nat, key: string)
    requires i < |kept|
  {
    HasName(kept[i], key) && forall j :: i < j < |kept| ==> !HasName(kept[j], key)
  }

  ghost function KeptOf(listing: seq<ApiResource>, allowed: seq<Listed>, denied: seq<Listed>,
                        rules: seq<ExcludeRule>): seq<ApiResource>
  {
    if listing == [] then []
    else
      var n := |listing| - 1;
      KeptOf(listing[..n], allowed, denied, rules) + if Kept(listing[n], allowed, denied, rules)
        then [listing[n]] else []
  }

  method FindSupportedResources(listing: seq<ApiResource>, allowed: seq<Listed>, denied: seq<Listed>,
                                rules: seq<ExcludeRule>)
    returns (gvrs: set<GVR>, names: map<string, GVR>)
    ensures Covers(KeptOf(listing, allowed, denied, rules), gvrs, names)
  {
    gvrs, names := {}, map[];
    for i := 0 to |listing|
      invariant Covers(KeptOf(listing[..i], allowed, denied, rules), gvrs, names)
    {
      hide Covers, Kept;
      assert listing[..i + 1][..i] == listing[..i];
      var r := listing[i];
      var keep := IsKept(r, allowed, denied, rules);
      ghost var before := KeptOf(listing[..i], allowed, denied, rules);
      assert KeptOf(listing[..i + 1], allowed, denied, rules) == if keep then before + [r] else before;
      if keep {
        OneMoreKept(before, gvrs, names, r);
        gvrs := gvrs + {r.Gvr()};
        names := names[r.Key() := r.Gvr()];
      }
    }
    assert listing[..|listing|] == listing;
  }

  lemma OneMoreKept(kept: seq<ApiResource>, gvrs: set<GVR>, names: map<string, GVR>, r: ApiResource)
    requires Covers(kept, gvrs, names)
    ensures Covers(kept + [r], gvrs + {r.Gvr()}, names[r.Key() := r.Gvr()])
  {
    var more := kept + [r];
    assert more[|kept|] == r && LastWithKey(more, |kept|, r.Key());
    assert NamesLast(more, r.Key(), r.Gvr());
    OneMoreMember(kept, r);
    hide NamesLast, HasGvr, HasKey;
    forall k | k in names && k != r.Key() ensures NamesLast(more, k, names[k]) {
      StillLast(kept, r, k, names[k]);
    }
  }

  lemma OneMoreMember(kept: seq<ApiResource>, r: ApiResource)
    ensures forall g :: HasGvr(kept + [r], g) <==> HasGvr(kept, g) || g == r.Gvr()
    ensures forall k :: HasKey(kept + [r], k) <==> HasKey(kept, k) || k == r.Key()
  {
    assert forall x :: x in kept + [r] <==> x in kept || x == r;
    forall k ensures HasKey(kept + [r], k) <==> HasKey(kept, k) || k == r.Key() {
      assert r in kept + [r] && (HasName(r, k) <==> k == r.Key());
      if x :| x in kept && HasName(x, k) {
        assert x in kept + [r];
      }
    }
  }

  lemma StillLast(kept: seq<ApiResource>, r: ApiResource, k: string, g: GVR)
    requires NamesLast(kept, k, g) && k != r.Key()
    ensures NamesLast(kept + [r], k, g)
  {
    var i :| 0 <= i < |kept| && LastWithKey(kept, i, k) && kept[i].Gvr() == g;
    assert LastWithKey(kept + [r], i, k);
  }

  ghost predicate DotFreeKinds(kept: seq<ApiResource>) {
    forall r :: r in kept ==> '.' !in r.kind
  }

  /** No two resources share kind and group. */
  ghost predicate OnePerKind(kept: seq<ApiResource>) {
    forall r, s :: r in kept && s in kept && r.kind == s.kind && r.group == s.group ==> r.Gvr() == s.Gvr()
  }

  /** Then every resource is found under its own name. */
  lemma NamesFindResources(kept: seq<ApiResource>, gvrs: set<GVR>, names: map<string, GVR>, r: ApiResource)
    requires Covers(kept, gvrs, names) && DotFreeKinds(kept) && OnePerKind(kept) && r in kept
    ensures Lookup(names, r.Key()) == Some(r.Gvr())
  {
    assert NamesLast(kept, r.Key(), names[r.Key()]);
    var i :| 0 <= i < |kept| && LastWithKey(kept, i, r.Key()) && kept[i].Gvr() == names[r.Key()];
    KeysTellApart(kept[i].kind, kept[i].group, r.kind, r.group);
  }
}
