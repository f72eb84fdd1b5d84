/** Edges from a node, and from its owners in turn, to nodes given by kind and name. */
module DestinationEdges {
  import opened Types
  import opened Text
  import opened NodeIndex
  import opened ReconcilerState
  import opened OwnerEdges

  datatype LookupBy = AnyGroup | InGroup(group: string)

  ghost function Found(how: LookupBy, ns: NodeStore, kind: string, namespace: string, name: string): Option<Node> {
    match how
    case AnyGroup => InLeastGroup(ns.index, kind, NormalizeNamespace(namespace), name)
    case InGroup(group) => LookupByGroupKindNamespaceName(ns, group, kind, namespace, name)
  }

  method LookupNode(how: LookupBy, ns: NodeStore, kind: string, namespace: string, name: string)
    returns (r: Option<Node>)
    requires SoundStore(ns)
    ensures r == Found(how, ns, kind, namespace, name)
    ensures r.Some? ==> r.value.uid in ns.byUID && ns.byUID[r.value.uid] == r.value && r.value.Text("kind") == kind
  {
    FoundIsStored(how, ns, kind, namespace, name);
    match how {
      case AnyGroup =>
        r := LookupByKindNamespaceName(ns, kind, namespace, name);
      case InGroup(group) =>
        r := LookupByGroupKindNamespaceName(ns, group, kind, namespace, name);
    }
  }

  /** The node may be of this group, and of any when the lookup is not told one. */
  predicate Fits(how: LookupBy, group: string) {
    how.InGroup? ==> group == how.group
  }

  /**
   * What is found is a stored node with the kind, namespace and name, of the group looked in or else of the
   * lexically least group that has one; and something is found whenever there is one.
   */
  lemma FoundIsStored(how: LookupBy, ns: NodeStore, kind: string, namespace: string, name: string)
    requires SoundStore(ns)
    ensures
      var r := Found(how, ns, kind, namespace, name);
      && (r.Some? <==> exists u, g :: Fits(how, g) && StoredAs(ns.byUID, u, g, kind, namespace, name))
      && (r.Some? ==>
            && StoredAs(ns.byUID, r.value.uid, r.value.Text("apigroup"), kind, namespace, name)
            && ns.byUID[r.value.uid] == r.value && Fits(how, r.value.Text("apigroup"))
            && forall v, h :: Fits(how, h) && StoredAs(ns.byUID, v, h, kind, namespace, name) ==>
                 LexLe(r.value.Text("apigroup"), h))
  {
    hide IsIndex;
    match how {
      case AnyGroup =>
        GrouplessLookupIsScan(ns, kind, namespace, name);
      case InGroup(group) =>
        GroupLookupIsScan(ns, group, kind, namespace, name);
        LexTotal(group, group);
    }
  }

  // ---- Names ----

  predicate Qualifies(destKind: string) {
    destKind in {"Channel", "Deployable", "Subscription", "Application"}
  }

  datatype Place = Place(namespace: string, name: string)

  /** Where a listed name points: some kinds are listed as "namespace/name", and anything longer is skipped. */
  function Target(name: string, destKind: string, namespace: string): Option<Place> {
    if !Qualifies(destKind) then Some(Place(namespace, name))
    else
      var parts := Split(name, '/');
      if |parts| == 2 then Some(Place(parts[0], parts[1]))
      else if |parts| == 1 then Some(Place(namespace, parts[0]))
      else None
  }

  /**
   * The name points at the place: channels, deployables, subscriptions and applications are listed with a
   * namespace, as "namespace/name", or without, and anything else stands for itself.
   */
  predicate PointsAt(name: string, destKind: string, namespace: string, at: Place) {
    if destKind in {"Channel", "Deployable", "Subscription", "Application"} then
      || ('/' !in name && at == Place(namespace, name))
      || (name == at.namespace + "/" + at.name && '/' !in at.namespace && '/' !in at.name)
    else at == Place(namespace, name)
  }

  /** A listed name points at the target and nowhere else; with two slashes or more, it points nowhere. */
  lemma TargetIff(name: string, destKind: string, namespace: string, at: Place)
    ensures Target(name, destKind, namespace) == Some(at) <==> PointsAt(name, destKind, namespace, at)
  {
    hide Split, Join;
    TwoParts(name, at.namespace, at.name);
    SplitIsTheOne(name, Split(name, '/'), '/');
    OnePart(name);
  }

  lemma TwoParts(name: string, a: string, b: string)
    ensures Split(name, '/') == [a, b] <==> name == a + "/" + b && '/' !in a && '/' !in b
  {
    hide Split;
    SplitIsTheOne(name, [a, b], '/');
    assert AllClean([a, b], '/') <==> Clean(a, '/') && Clean(b, '/') by {
      assert [a, b][0] == a && [a, b][1] == b;
    }
    assert [a, b][1..] == [b];
    assert Join([a, b], '/') == a + "/" + b;
  }

  lemma OnePart(name: string)
    ensures '/' !in name ==> Split(name, '/') == [name]
  {
    hide Split;
    if '/' !in name {
      SplitIsTheOne(name, [name], '/');
    }
  }

  /** No bare name shares the list with a qualified one, so the order of the visits cannot matter. */
  ghost predicate OrderFree(names: set<string>, destKind: string) {
    || !Qualifies(destKind)
    || (forall name :: name in names ==> |Split(name, '/')| != 1)
    || (forall name :: name in names ==> |Split(name, '/')| != 2)
  }

  // ---- What the edges are ----

  datatype Source = Source(edgeType: string, uid: UID, kind: string)

  function SourceOf(info: NodeInfo): Source {
    Source(info.edgeType, info.uid, info.kind)
  }

  /** The stored owner whose edges come next. */
  function NextSource(s: Source, ns: NodeStore): Option<Source> {
    if s.kind == "Deployable" || s.uid !in ns.byUID then None
    else
      var owner := OwnerOf(ns, s.uid);
      if owner == "" || owner !in ns.byUID then None
      else Some(Source("uses", owner, ns.byUID[owner].Text("kind")))
  }

  /** The node itself and then its owners, until one is missing or comes up again. */
  function Sources(s: Source, ns: NodeStore, seen: seq<UID>): seq<Source>
    decreases ns.byUID.Keys - (set u | u in seen)
  {
    if s.uid in seen then []
    else if NextSource(s, ns).None? then [s]
    else
      assert s.uid in ns.byUID.Keys - (set u | u in seen);
      [s] + Sources(NextSource(s, ns).value, ns, seen + [s.uid])
  }

  function Uids(sources: seq<Source>): seq<UID> {
    if sources == [] then [] else [sources[0].uid] + Uids(sources[1..])
  }

  /** The part of a chain up to its first deployable. */
  function UpToDeployable(chain: seq<UID>, ns: NodeStore): seq<UID> {
    if chain == [] then []
    else if chain[0] in ns.byUID && ns.byUID[chain[0]].Text("kind") == "Deployable" then [chain[0]]
    else [chain[0]] + UpToDeployable(chain[1..], ns)
  }

  /** From the point where walked ends, the sources still to come are the rest of the owner chain. */
  lemma {:induction false} SourcesGoOn(walked: seq<UID>, first: UID, s: Source, ns: NodeStore) returns (rest: seq<UID>)
    requires OwnerPath(walked, first, ns, "") && s.uid == NextOwner(walked, first, ns)
    requires s.uid != "" && s.uid in ns.byUID && s.kind == ns.byUID[s.uid].Text("kind")
    ensures LongestOwnerChain(walked + rest, first, ns, "")
    ensures Uids(Sources(s, ns, walked)) == UpToDeployable(rest, ns)
    decreases ns.byUID.Keys - (set u | u in walked)
  {
    hide OwnerPath, EdgesByOwner, ChainEdges;
    if s.uid in walked {
      rest := [];
      assert walked + rest == walked;
    } else {
      OwnerPathGrows(walked, first, ns, "");
      var tail := SourcesGoOnAfter(walked, first, s, ns);
      rest := [s.uid] + tail;
      assert walked + rest == walked + [s.uid] + tail;
    }
  }

  lemma {:induction false} SourcesGoOnAfter(walked: seq<UID>, first: UID, s: Source, ns: NodeStore)
    returns (tail: seq<UID>)
    requires OwnerPath(walked + [s.uid], first, ns, "") && NextOwner(walked + [s.uid], first, ns) == OwnerOf(ns, s.uid)
    requires s.uid !in walked && s.uid in ns.byUID && s.kind == ns.byUID[s.uid].Text("kind")
    ensures LongestOwnerChain(walked + [s.uid] + tail, first, ns, "")
    ensures Uids(Sources(s, ns, walked)) == UpToDeployable([s.uid] + tail, ns)
    decreases ns.byUID.Keys - (set u | u in walked), 0
  {
    hide OwnerPath, EdgesByOwner, ChainEdges;
    var longer := walked + [s.uid];
    tail := [];
    if s.kind == "Deployable" {
      tail := WalkOwners(longer, first, ns, NodeInfo("", "", "", "", ""));
    } else if NextSource(s, ns).None? {
      assert longer + tail == longer;
    } else {
      assert s.uid in ns.byUID.Keys - (set u | u in walked);
      tail := SourcesGoOn(longer, first, NextSource(s, ns).value, ns);
      UidsStep(s, Sources(NextSource(s, ns).value, ns, longer), tail, ns);
    }
  }

  lemma UidsStep(s: Source, others: seq<Source>, tail: seq<UID>, ns: NodeStore)
    requires s.uid in ns.byUID && ns.byUID[s.uid].Text("kind") != "Deployable"
    requires Uids(others) == UpToDeployable(tail, ns)
    ensures Uids([s] + others) == UpToDeployable([s.uid] + tail, ns)
  {
    assert ([s] + others)[1..] == others && ([s.uid] + tail)[1..] == tail;
  }

  /** The sources are the node's longest repeat-free chain of stored owners, ended early by a deployable. */
  lemma SourcesAreOwnerChain(s: Source, ns: NodeStore, chain: seq<UID>)
    requires s.uid != "" && s.uid in ns.byUID && s.kind == ns.byUID[s.uid].Text("kind")
    requires LongestOwnerChain(chain, s.uid, ns, "")
    ensures Uids(Sources(s, ns, [])) == UpToDeployable(chain, ns)
  {
    var rest := SourcesGoOn([], s.uid, s, ns);
    assert [] + rest == rest;
    LongestChainUnique(chain, rest, s.uid, ns, "");
  }

  /** The edge from s to whatever is found at the place. */
  ghost predicate IsEdgeTo(e: Edge, s: Source, at: Option<Place>, destKind: string, ns: NodeStore, how: LookupBy) {
    && at.Some?
    && Found(how, ns, destKind, at.value.namespace, at.value.name).Some?
    && var dest := Found(how, ns, destKind, at.value.namespace, at.value.name).value;
       dest.uid != s.uid && e == Edge(s.edgeType, s.uid, dest.uid, s.kind, destKind)
  }

  /** Subscriptions lead to their channels and applications, and those of rank one lead to applications. */
  function Rank(destKind: string): nat {
    if destKind == "Subscription" then 2
    else if destKind in {"Channel", "Deployable", "PlacementRule"} then 1
    else 0
  }

  /** A way for a source to get an edge from a place. */
  type Via = (Edge, Source, Option<Place>) -> bool

  ghost function Direct(destKind: string, ns: NodeStore, how: LookupBy): Via {
    (e, s, at) => IsEdgeTo(e, s, at, destKind, ns, how)
  }

  ghost predicate Reaches(e: Edge, s: Source, names: set<string>, destKind: string, space: string, via: Via) {
    exists name :: name in names && via(e, s, Target(name, destKind, space))
  }

  ghost predicate SomeReaches(e: Edge, sources: seq<Source>, names: set<string>, destKind: string, space: string,
                              via: Via)
  {
    exists s :: s in sources && Reaches(e, s, names, destKind, space, via)
  }

  /** The names that a subscription lists in one of its metadata entries. */
  function Names(ns: NodeStore, sub: UID, entry: string): set<string> {
    var text := if sub in ns.byUID then ns.byUID[sub].GetMetadata(entry) else "";
    if text == "" then {} else set name | name in Split(text, ',')
  }

  // What a source gets from a place: the edge to the node found there, and what that edge brings along. An edge
  // to a subscription brings those to the applications and channels that the subscription lists, and an edge
  // from a subscription brings those from its end to the subscription's applications; each of them brings
  // along what it does in turn. A list that mixes bare and qualified names gives no edge for certain.

  ghost predicate Gives(e: Edge, s: Source, at: Option<Place>, destKind: string, ns: NodeStore, how: LookupBy)
    decreases 5 * Rank(destKind) + 1
  {
    IsEdgeTo(e, s, at, destKind, ns, how) || Brings(e, s, at, destKind, ns, how)
  }

  /** The other end of the edge that s gets at the place. */
  ghost function DestAt(s: Source, at: Option<Place>, destKind: string, ns: NodeStore, how: LookupBy): Option<UID> {
    if at.None? then None
    else
      match Found(how, ns, destKind, at.value.namespace, at.value.name)
      case None => None
      case Some(dest) => if dest.uid == s.uid then None else Some(dest.uid)
  }

  /** Only edges to a subscription, except from an application, and edges from one bring anything along. */
  predicate Nests(kind: string, destKind: string) {
    (destKind == "Subscription" && kind != "Application") || (Rank(destKind) == 1 && kind == "Subscription")
  }

  ghost predicate Brings(e: Edge, s: Source, at: Option<Place>, destKind: string, ns: NodeStore, how: LookupBy)
    decreases 5 * Rank(destKind)
  {
    var dest := DestAt(s, at, destKind, ns, how);
    && dest.Some? && Nests(s.kind, destKind)
    && if destKind == "Subscription" then FollowsSubscription(e, s, dest.value, false, at.value.namespace, ns)
       else FollowsSubscription(e, Source("contains", dest.value, destKind), s.uid, true, at.value.namespace, ns)
  }

  /** An edge towards the applications of the subscription or, unless told otherwise, its channels. */
  ghost predicate FollowsSubscription(e: Edge, s: Source, sub: UID, onlyApplication: bool, space: string, ns: NodeStore)
    decreases if onlyApplication then 4 else 9
  {
    || ReachesListed(e, s, Names(ns, sub, "_hostingApplication"), "Application", space, ns)
    || (!onlyApplication && ReachesListed(e, s, Names(ns, sub, "_channels"), "Channel", space, ns))
  }

  ghost predicate ReachesListed(e: Edge, s: Source, names: set<string>, kind: string, space: string, ns: NodeStore)
    decreases 5 * Rank(kind) + 3
  {
    OrderFree(names, kind) && SomeReaches(e, Sources(s, ns, []), names, kind, space, Way(kind, ns, AnyGroup))
  }

  ghost function Way(destKind: string, ns: NodeStore, how: LookupBy): Via
    decreases 5 * Rank(destKind) + 2
  {
    (e, s, at) => Gives(e, s, at, destKind, ns, how)
  }

  // When no list that comes into it is mixed.

  ghost predicate Unmixed(names: set<string>, destKind: string, sources: seq<Source>, space: string, ns: NodeStore,
                          how: LookupBy)
    decreases 5 * Rank(destKind) + 3
  {
    && OrderFree(names, destKind)
    && forall s :: s in sources ==> UnmixedFrom(s, names, destKind, space, ns, how)
  }

  ghost predicate UnmixedFrom(s: Source, names: set<string>, destKind: string, space: string, ns: NodeStore,
                              how: LookupBy)
    decreases 5 * Rank(destKind) + 2
  {
    forall name :: name in names ==> UnmixedAt(s, Target(name, destKind, space), destKind, ns, how)
  }

  ghost predicate UnmixedAt(s: Source, at: Option<Place>, destKind: string, ns: NodeStore, how: LookupBy)
    decreases 5 * Rank(destKind)
  {
    var dest := DestAt(s, at, destKind, ns, how);
    dest.Some? && Nests(s.kind, destKind) ==>
      if destKind == "Subscription" then UnmixedBehind(s, dest.value, false, at.value.namespace, ns)
      else UnmixedBehind(Source("contains", dest.value, destKind), s.uid, true, at.value.namespace, ns)
  }

  ghost predicate UnmixedBehind(s: Source, sub: UID, onlyApplication: bool, space: string, ns: NodeStore)
    decreases if onlyApplication then 4 else 9
  {
    && Unmixed(Names(ns, sub, "_hostingApplication"), "Application", Sources(s, ns, []), space, ns, AnyGroup)
    && (onlyApplication || Unmixed(Names(ns, sub, "_channels"), "Channel", Sources(s, ns, []), space, ns, AnyGroup))
  }

  /** The kinds that edges brought along may go to. */
  function Beyond(destKind: string): set<string> {
    if Rank(destKind) == 2 then {"Application", "Channel"} else if Rank(destKind) == 1 then {"Application"} else {}
  }

  ghost predicate KindsAmong(edges: seq<Edge>, kinds: set<string>) {
    forall e :: e in edges ==> e.dstKind in kinds
  }

  /** Joins the given node or a stored one to a different stored node, each under its own kind. */
  ghost predicate Sound(e: Edge, info: NodeInfo, ns: NodeStore) {
    && e.dst in ns.byUID && e.dst != e.src && e.dstKind == ns.byUID[e.dst].Text("kind")
    && (|| (e.src == info.uid && e.srcKind == info.kind)
        || (e.src in ns.byUID && e.srcKind == ns.byUID[e.src].Text("kind")))
  }

  ghost predicate AllSound(edges: seq<Edge>, info: NodeInfo, ns: NodeStore) {
    forall e :: e in edges ==> Sound(e, info, ns)
  }

  // ---- The builders ----

  /**
   * Terminates on every store, cyclic owners included, although the nested calls start again with nothing
   * seen: a nested call has a lower rank, and each call to an owner has seen one more stored node.
   */
  method EdgesByDestinationName(propSet: set<string>, destKind: string, info: NodeInfo, ns: NodeStore,
                                seenDests: seq<UID>, how: LookupBy) returns (ret: seq<Edge>)
    requires SoundStore(ns)
    ensures AllSound(ret, info, ns) && KindsAmong(ret, {destKind} + Beyond(destKind))
    ensures OrderFree(propSet, destKind) ==>
              DirectExactly(ret, Sources(SourceOf(info), ns, seenDests), propSet, destKind, info.namespace, ns, how)
    ensures OrderFree(propSet, destKind) ==>
              GivenIncluded(ret, Sources(SourceOf(info), ns, seenDests), propSet, destKind, info.namespace, ns, how)
    ensures Unmixed(propSet, destKind, Sources(SourceOf(info), ns, seenDests), info.namespace, ns, how) ==>
              OnlyGiven(ret, Sources(SourceOf(info), ns, seenDests), propSet, destKind, info.namespace, ns, how)
    ensures OrderFree(propSet, destKind) && info.uid !in seenDests ==> OwnEdges(ret, info, propSet, destKind, ns, how)
    decreases 3 * Rank(destKind) + 2, ns.byUID.Keys - (set u | u in seenDests)
  {
    hide SoundStore, Sound, Found, Target, OrderFree, IsEdgeTo, Direct, Way, Beyond, UnmixedFrom, OwnEdges;
    if info.uid in seenDests || propSet == {} {
      ret := [];
      OwnEdgesSpelledOut(ret, info, propSet, destKind, ns, seenDests, how);
      return;
    }
    var space;
    ret, space := EdgesAtLevel(propSet, destKind, info, ns, how);
    if info.kind != "Deployable" && info.uid in ns.byUID && OwnerOf(ns, info.uid) != "" {
      var owner := OwnerOf(ns, info.uid);
      if owner in ns.byUID {
        assert info.uid in ns.byUID.Keys - (set u | u in seenDests);
        var next := NodeInfo("uses", info.name, space, owner, ns.byUID[owner].Text("kind"));
        var more := EdgesByDestinationName(propSet, destKind, next, ns, seenDests + [info.uid], how);
        SoundFromOwner(more, next, info, ns);
        ReachedThroughOwner(SourceOf(info), propSet, destKind, space, info.namespace, ns, seenDests,
                            Direct(destKind, ns, how));
        ReachedThroughOwner(SourceOf(info), propSet, destKind, space, info.namespace, ns, seenDests,
                            Way(destKind, ns, how));
        if Unmixed(propSet, destKind, Sources(SourceOf(info), ns, seenDests), info.namespace, ns, how) {
          UnmixedThroughOwner(SourceOf(info), propSet, destKind, space, info.namespace, ns, seenDests, how);
        }
        ret := ret + more;
        OwnEdgesSpelledOut(ret, info, propSet, destKind, ns, seenDests, how);
        return;
      }
    }
    ReachedAlone(SourceOf(info), propSet, destKind, info.namespace, ns, seenDests, Direct(destKind, ns, how));
    ReachedAlone(SourceOf(info), propSet, destKind, info.namespace, ns, seenDests, Way(destKind, ns, how));
    OwnEdgesSpelledOut(ret, info, propSet, destKind, ns, seenDests, how);
  }

  /** The edge from s to the node that is found where one of the names points. */
  ghost predicate IsNamedEdge(e: Edge, s: Source, names: set<string>, destKind: string, space: string, ns: NodeStore,
                              how: LookupBy)
  {
    exists name, at :: name in names && PointsAt(name, destKind, space, at) && GoesTo(e, s, at, destKind, ns, how)
  }

  ghost predicate GoesTo(e: Edge, s: Source, at: Place, destKind: string, ns: NodeStore, how: LookupBy) {
    match Found(how, ns, destKind, at.namespace, at.name)
    case None => false
    case Some(dest) => dest.uid != s.uid && e == Edge(s.edgeType, s.uid, dest.uid, s.kind, destKind)
  }

  /** Of the node's own edges, those of the wanted kind are exactly the ones to what the names point at. */
  ghost predicate OwnEdges(edges: seq<Edge>, info: NodeInfo, names: set<string>, destKind: string, ns: NodeStore,
                           how: LookupBy)
  {
    forall e :: e in edges && e.dstKind == destKind && e.src == info.uid <==>
      IsNamedEdge(e, Source(info.edgeType, info.uid, info.kind), names, destKind, info.namespace, ns, how)
  }

  lemma ReachesNamed(e: Edge, s: Source, names: set<string>, destKind: string, space: string, ns: NodeStore,
                     how: LookupBy)
    ensures Reaches(e, s, names, destKind, space, Direct(destKind, ns, how)) <==>
              IsNamedEdge(e, s, names, destKind, space, ns, how)
  {
    hide Found, Target, PointsAt;
    forall name, at ensures Target(name, destKind, space) == Some(at) <==> PointsAt(name, destKind, space, at) {
      TargetIff(name, destKind, space, at);
    }
  }

  /** The sources from s on that are not yet seen are all different, s comes first, and none was seen. */
  lemma {:induction false} SourcesDiffer(s: Source, ns: NodeStore, seen: seq<UID>)
    requires s.uid !in seen
    ensures Sources(s, ns, seen) != [] && Sources(s, ns, seen)[0] == s
    ensures forall t :: t in Sources(s, ns, seen) ==> t.uid !in seen && (t.uid == s.uid ==> t == s)
    decreases ns.byUID.Keys - (set u | u in seen)
  {
    if NextSource(s, ns).Some? {
      assert s.uid in ns.byUID.Keys - (set u | u in seen);
      var next := NextSource(s, ns).value;
      if next.uid !in seen + [s.uid] {
        SourcesDiffer(next, ns, seen + [s.uid]);
      }
    }
  }

  lemma OwnEdgesSpelledOut(edges: seq<Edge>, info: NodeInfo, names: set<string>, destKind: string, ns: NodeStore,
                           seen: seq<UID>, how: LookupBy)
    ensures
      && OrderFree(names, destKind) && info.uid !in seen
      && DirectExactly(edges, Sources(SourceOf(info), ns, seen), names, destKind, info.namespace, ns, how)
      ==> OwnEdges(edges, info, names, destKind, ns, how)
  {
    hide Found, Target, PointsAt, OrderFree, IsNamedEdge, Reaches, Direct;
    var s := Source(info.edgeType, info.uid, info.kind);
    if && info.uid !in seen
       && DirectExactly(edges, Sources(SourceOf(info), ns, seen), names, destKind, info.namespace, ns, how)
    {
      SourcesDiffer(s, ns, seen);
      assert s in Sources(s, ns, seen);
      forall e
        ensures e in edges && e.dstKind == destKind && e.src == info.uid <==>
                  IsNamedEdge(e, s, names, destKind, info.namespace, ns, how)
      {
        OwnEdgeNamed(e, s, names, destKind, info.namespace, ns, seen, how);
      }
    }
  }

  lemma OwnEdgeNamed(e: Edge, s: Source, names: set<string>, destKind: string, space: string, ns: NodeStore,
                     seen: seq<UID>, how: LookupBy)
    requires s.uid !in seen
    ensures
      (&& SomeReaches(e, Sources(s, ns, seen), names, destKind, space, Direct(destKind, ns, how))
       && e.src == s.uid) <==>
      IsNamedEdge(e, s, names, destKind, space, ns, how)
  {
    hide Found, Target, PointsAt, OrderFree, Sources;
    SourcesDiffer(s, ns, seen);
    ReachesNamed(e, s, names, destKind, space, ns, how);
    assert IsNamedEdge(e, s, names, destKind, space, ns, how) ==> e.src == s.uid;
    if SomeReaches(e, Sources(s, ns, seen), names, destKind, space, Direct(destKind, ns, how)) && e.src == s.uid {
      var t :| t in Sources(s, ns, seen) && Reaches(e, t, names, destKind, space, Direct(destKind, ns, how));
      ReachesNamed(e, t, names, destKind, space, ns, how);
    }
  }

  /** The edges of the wanted kind are exactly those from some source to what some name points at. */
  ghost predicate DirectExactly(edges: seq<Edge>, sources: seq<Source>, names: set<string>, destKind: string,
                                space: string, ns: NodeStore, how: LookupBy) {
    forall e :: e in edges && e.dstKind == destKind <==>
      SomeReaches(e, sources, names, destKind, space, Direct(destKind, ns, how))
  }

  /** Everything that some source gets from what some name points at is there. */
  ghost predicate GivenIncluded(edges: seq<Edge>, sources: seq<Source>, names: set<string>, destKind: string,
                                space: string, ns: NodeStore, how: LookupBy) {
    forall e :: SomeReaches(e, sources, names, destKind, space, Way(destKind, ns, how)) ==> e in edges
  }

  /** And nothing else. */
  ghost predicate OnlyGiven(edges: seq<Edge>, sources: seq<Source>, names: set<string>, destKind: string, space: string,
                            ns: NodeStore, how: LookupBy) {
    forall e :: e in edges ==> SomeReaches(e, sources, names, destKind, space, Way(destKind, ns, how))
  }

  lemma UnmixedThroughOwner(s: Source, names: set<string>, destKind: string, space: string, start: string,
                            ns: NodeStore, seen: seq<UID>, how: LookupBy)
    requires s.uid !in seen && NextSource(s, ns).Some?
    requires OrderFree(names, destKind) ==> SameTargets(names, destKind, space, start)
    requires Unmixed(names, destKind, Sources(s, ns, seen), start, ns, how)
    ensures UnmixedFrom(s, names, destKind, start, ns, how)
    ensures Unmixed(names, destKind, Sources(NextSource(s, ns).value, ns, seen + [s.uid]), space, ns, how)
  {
    hide Target, UnmixedAt;
    assert s.uid in ns.byUID.Keys - (set u | u in seen);
    var rest := Sources(NextSource(s, ns).value, ns, seen + [s.uid]);
    assert Sources(s, ns, seen) == [s] + rest;
    forall t | t in rest ensures UnmixedFrom(t, names, destKind, space, ns, how) {
      assert t in [s] + rest && UnmixedFrom(t, names, destKind, start, ns, how);
    }
  }

  lemma ReachedThroughOwner(s: Source, names: set<string>, destKind: string, space: string, start: string,
                            ns: NodeStore, seen: seq<UID>, via: Via)
    requires s.uid !in seen && NextSource(s, ns).Some?
    ensures SameTargets(names, destKind, space, start) ==> forall e ::
              SomeReaches(e, Sources(s, ns, seen), names, destKind, start, via) <==>
                (|| Reaches(e, s, names, destKind, start, via)
                 || SomeReaches(e, Sources(NextSource(s, ns).value, ns, seen + [s.uid]), names, destKind, space, via))
  {
    hide Target;
    assert s.uid in ns.byUID.Keys - (set u | u in seen);
    var rest := Sources(NextSource(s, ns).value, ns, seen + [s.uid]);
    assert Sources(s, ns, seen) == [s] + rest;
    if SameTargets(names, destKind, space, start) {
      forall e, t ensures Reaches(e, t, names, destKind, space, via) <==> Reaches(e, t, names, destKind, start, via) {
      }
    }
  }

  lemma ReachedAlone(s: Source, names: set<string>, destKind: string, start: string, ns: NodeStore, seen: seq<UID>,
                     via: Via)
    requires s.uid !in seen && NextSource(s, ns).None?
    ensures forall e :: SomeReaches(e, Sources(s, ns, seen), names, destKind, start, via) <==>
                          Reaches(e, s, names, destKind, start, via)
  {
  }

  lemma SoundFromOwner(edges: seq<Edge>, next: NodeInfo, info: NodeInfo, ns: NodeStore)
    requires AllSound(edges, next, ns)
    requires next.uid in ns.byUID && next.kind == ns.byUID[next.uid].Text("kind")
    ensures AllSound(edges, info, ns)
  {
  }

  /** The edges of one source. A qualified name leaves its namespace behind for the names visited after it. */
  method EdgesAtLevel(propSet: set<string>, destKind: string, info: NodeInfo, ns: NodeStore, how: LookupBy)
    returns (ret: seq<Edge>, space: string)
    requires SoundStore(ns)
    ensures AllSound(ret, info, ns) && KindsAmong(ret, {destKind} + Beyond(destKind))
    ensures OrderFree(propSet, destKind) ==> SameTargets(propSet, destKind, space, info.namespace)
    ensures OrderFree(propSet, destKind) ==> LevelDone(ret, SourceOf(info), propSet, destKind, info.namespace, ns, how)
    ensures OrderFree(propSet, destKind) && UnmixedFrom(SourceOf(info), propSet, destKind, info.namespace, ns, how) ==>
              LevelOnly(ret, SourceOf(info), propSet, destKind, info.namespace, ns, how)
    decreases 3 * Rank(destKind) + 1
  {
    hide SoundStore, Found, Target, OrderFree, LevelDone, LevelOnly, Beyond, Sound, UnmixedAt;
    ret, space := [], info.namespace;
    var todo := propSet;
    NothingDone(SourceOf(info), destKind, info.namespace, ns, how);
    assert propSet - todo == {};
    while todo != {}
      invariant todo <= propSet
      invariant AllSound(ret, info, ns) && KindsAmong(ret, {destKind} + Beyond(destKind))
      invariant OrderFree(propSet, destKind) ==> SameTargets(propSet, destKind, space, info.namespace)
      invariant OrderFree(propSet, destKind) ==>
        LevelDone(ret, SourceOf(info), propSet - todo, destKind, info.namespace, ns, how)
      invariant
        (&& OrderFree(propSet, destKind)
         && UnmixedFrom(SourceOf(info), propSet, destKind, info.namespace, ns, how)) ==>
        LevelOnly(ret, SourceOf(info), propSet - todo, destKind, info.namespace, ns, how)
    {
      var name :| name in todo;
      var target := Target(name, destKind, space);
      ghost var wasDone := propSet - todo;
      todo := todo - {name};
      assert propSet - todo == wasDone + {name};
      assert OrderFree(propSet, destKind) ==> target == Target(name, destKind, info.namespace);
      var added: seq<Edge> := [];
      if target.Some? {
        SpaceMoves(propSet, name, destKind, space, info.namespace);
        space := target.value.namespace;
        added := EdgesToPlace(target.value, destKind, info.(namespace := space), ns, how);
        SoundAnywhere(added, info.(namespace := space), info, ns);
      }
      NothingFound(SourceOf(info), None, destKind, ns, how);
      if OrderFree(propSet, destKind) {
        OneMoreName(ret, added, SourceOf(info), wasDone, name, destKind, info.namespace, ns, how);
        if UnmixedFrom(SourceOf(info), propSet, destKind, info.namespace, ns, how) {
          OnlyOneMoreName(ret, added, SourceOf(info), wasDone, name, destKind, info.namespace, ns, how);
        }
      }
      ret := ret + added;
    }
    assert propSet - {} == propSet;
  }

  lemma SoundAnywhere(edges: seq<Edge>, there: NodeInfo, info: NodeInfo, ns: NodeStore)
    requires AllSound(edges, there, ns) && there.uid == info.uid && there.kind == info.kind
    ensures AllSound(edges, info, ns)
  {
  }

  /** What one name adds: the edge to the node it points at, and what that edge brings along. */
  method EdgesToPlace(at: Place, destKind: string, info: NodeInfo, ns: NodeStore, how: LookupBy)
    returns (added: seq<Edge>)
    requires SoundStore(ns) && info.namespace == at.namespace
    ensures AllSound(added, info, ns) && KindsAmong(added, {destKind} + Beyond(destKind))
    ensures AddsFor(added, SourceOf(info), Some(at), destKind, ns, how)
    ensures UnmixedAt(SourceOf(info), Some(at), destKind, ns, how) ==>
      AddsOnly(added, SourceOf(info), Some(at), destKind, ns, how)
    decreases 3 * Rank(destKind) + 1, 0
  {
    hide SoundStore, Found, Brings, UnmixedAt;
    added := [];
    var dest := LookupNode(how, ns, destKind, at.namespace, at.name);
    NothingFound(SourceOf(info), Some(at), destKind, ns, how);
    if dest.Some? && info.uid != dest.value.uid {
      var nested := NestedEdges(info, destKind, dest.value, at.name, ns, how);
      assert Some(Place(info.namespace, at.name)) == Some(at);
      EdgeAndBrought(nested, SourceOf(info), at, dest.value, destKind, ns, how);
      added := [Edge(info.edgeType, info.uid, dest.value.uid, info.kind, destKind)] + nested;
    }
  }

  lemma EdgeAndBrought(nested: seq<Edge>, s: Source, at: Place, dest: Node, destKind: string, ns: NodeStore,
                       how: LookupBy)
    requires Found(how, ns, destKind, at.namespace, at.name) == Some(dest) && dest.uid != s.uid
    requires KindsAmong(nested, Beyond(destKind))
    requires forall e :: Brings(e, s, Some(at), destKind, ns, how) ==> e in nested
    ensures AddsFor([Edge(s.edgeType, s.uid, dest.uid, s.kind, destKind)] + nested, s, Some(at), destKind, ns, how)
  {
    hide Brings, Found;
  }

  /** The edge of the wanted kind is exactly the one to the place, and what it brings along is there. */
  ghost predicate AddsFor(added: seq<Edge>, s: Source, at: Option<Place>, destKind: string, ns: NodeStore,
                          how: LookupBy)
  {
    && (forall e :: e in added && e.dstKind == destKind <==> IsEdgeTo(e, s, at, destKind, ns, how))
    && (forall e :: Gives(e, s, at, destKind, ns, how) ==> e in added)
  }

  ghost predicate AddsOnly(added: seq<Edge>, s: Source, at: Option<Place>, destKind: string, ns: NodeStore,
                           how: LookupBy)
  {
    forall e :: e in added ==> Gives(e, s, at, destKind, ns, how)
  }

  lemma NothingFound(s: Source, at: Option<Place>, destKind: string, ns: NodeStore, how: LookupBy)
    ensures DestAt(s, at, destKind, ns, how).None? ==>
      AddsFor([], s, at, destKind, ns, how) && AddsOnly([], s, at, destKind, ns, how)
  {
    hide FollowsSubscription, Found;
    if DestAt(s, at, destKind, ns, how).None? {
      forall e ensures !Gives(e, s, at, destKind, ns, how) {
        assert !Brings(e, s, at, destKind, ns, how);
      }
    }
  }

  ghost predicate LevelDone(edges: seq<Edge>, s: Source, names: set<string>, destKind: string, space: string,
                            ns: NodeStore, how: LookupBy)
  {
    && (forall e :: e in edges && e.dstKind == destKind <==>
      Reaches(e, s, names, destKind, space, Direct(destKind, ns, how)))
    && (forall e :: Reaches(e, s, names, destKind, space, Way(destKind, ns, how)) ==> e in edges)
  }

  ghost predicate LevelOnly(edges: seq<Edge>, s: Source, names: set<string>, destKind: string, space: string,
                            ns: NodeStore, how: LookupBy)
  {
    forall e :: e in edges ==> Reaches(e, s, names, destKind, space, Way(destKind, ns, how))
  }

  lemma NothingDone(s: Source, destKind: string, space: string, ns: NodeStore, how: LookupBy)
    ensures LevelDone([], s, {}, destKind, space, ns, how) && LevelOnly([], s, {}, destKind, space, ns, how)
  {
  }

  lemma OneMoreName(edges: seq<Edge>, added: seq<Edge>, s: Source, names: set<string>, name: string,
                    destKind: string, space: string, ns: NodeStore, how: LookupBy)
    requires LevelDone(edges, s, names, destKind, space, ns, how)
    requires AddsFor(added, s, Target(name, destKind, space), destKind, ns, how)
    ensures LevelDone(edges + added, s, names + {name}, destKind, space, ns, how)
  {
    hide IsEdgeTo, Gives, Target, Reaches;
    forall e, via: Via
      ensures Reaches(e, s, names + {name}, destKind, space, via) <==>
                Reaches(e, s, names, destKind, space, via) || via(e, s, Target(name, destKind, space))
    {
      ReachesOneMore(e, s, names, name, destKind, space, via);
    }
  }

  lemma OnlyOneMoreName(edges: seq<Edge>, added: seq<Edge>, s: Source, names: set<string>, name: string,
                        destKind: string, space: string, ns: NodeStore, how: LookupBy)
    requires LevelOnly(edges, s, names, destKind, space, ns, how)
    requires AddsOnly(added, s, Target(name, destKind, space), destKind, ns, how)
    ensures LevelOnly(edges + added, s, names + {name}, destKind, space, ns, how)
  {
    hide Gives, Target, Reaches;
    forall e ensures Reaches(e, s, names + {name}, destKind, space, Way(destKind, ns, how)) <==>
      (|| Reaches(e, s, names, destKind, space, Way(destKind, ns, how))
       || Gives(e, s, Target(name, destKind, space), destKind, ns, how))
    {
      ReachesOneMore(e, s, names, name, destKind, space, Way(destKind, ns, how));
    }
  }

  lemma ReachesOneMore(e: Edge, s: Source, names: set<string>, name: string, destKind: string, space: string, via: Via)
    ensures Reaches(e, s, names + {name}, destKind, space, via) <==>
              Reaches(e, s, names, destKind, space, via) || via(e, s, Target(name, destKind, space))
  {
    hide Target;
  }

  ghost predicate SameTargets(names: set<string>, destKind: string, a: string, b: string) {
    forall name :: name in names ==> Target(name, destKind, a) == Target(name, destKind, b)
  }

  lemma SpaceMoves(names: set<string>, name: string, destKind: string, space: string, start: string)
    requires name in names && Target(name, destKind, space).Some?
    ensures OrderFree(names, destKind) && SameTargets(names, destKind, space, start) ==>
              SameTargets(names, destKind, Target(name, destKind, space).value.namespace, start)
  {
  }

  /** What an edge to a subscription, or from one, brings along. */
  method NestedEdges(info: NodeInfo, destKind: string, dest: Node, name: string, ns: NodeStore, ghost how: LookupBy)
    returns (ret: seq<Edge>)
    requires SoundStore(ns) && dest.uid in ns.byUID && ns.byUID[dest.uid].Text("kind") == destKind
    requires Found(how, ns, destKind, info.namespace, name) == Some(dest) && dest.uid != info.uid
    ensures AllSound(ret, info, ns) && KindsAmong(ret, Beyond(destKind))
    ensures !Nests(info.kind, destKind) ==> ret == []
    ensures
      var at := Some(Place(info.namespace, name));
      && (forall e :: Brings(e, SourceOf(info), at, destKind, ns, how) ==> e in ret)
      && (UnmixedAt(SourceOf(info), at, destKind, ns, how) ==>
            forall e :: e in ret ==> Brings(e, SourceOf(info), at, destKind, ns, how))
    decreases 3 * Rank(destKind)
  {
    hide SoundStore, Found, FollowsSubscription, UnmixedBehind;
    ret := [];
    if destKind == "Subscription" && info.kind == "Application" {
      // only the subscription's metadata would change
    } else if destKind == "Subscription" {
      ret := EdgesToApplication(info, ns, dest.uid, false);
    } else if info.kind == "Subscription" && destKind in {"Deployable", "PlacementRule", "Channel"} {
      var destInfo := NodeInfo("contains", name, info.namespace, dest.uid, destKind);
      ret := EdgesToApplication(destInfo, ns, info.uid, true);
    }
  }

  /** Edges to the applications that a subscription names and, unless told otherwise, to its channels. */
  method EdgesToApplication(info: NodeInfo, ns: NodeStore, sub: UID, onlyApplication: bool) returns (ret: seq<Edge>)
    requires SoundStore(ns)
    ensures AllSound(ret, info, ns)
    ensures KindsAmong(ret, if onlyApplication then {"Application"} else {"Application", "Channel"})
    ensures forall e :: FollowsSubscription(e, SourceOf(info), sub, onlyApplication, info.namespace, ns) ==> e in ret
    ensures UnmixedBehind(SourceOf(info), sub, onlyApplication, info.namespace, ns) ==>
              forall e :: e in ret ==> FollowsSubscription(e, SourceOf(info), sub, onlyApplication, info.namespace, ns)
    decreases 3 * if onlyApplication then 1 else 2, 0
  {
    hide SoundStore, Sound, Found, OrderFree, Direct, Way, SomeReaches, UnmixedFrom;
    ret := [];
    var apps := Names(ns, sub, "_hostingApplication");
    NobodyReaches(Sources(SourceOf(info), ns, []), "Application", info.namespace, Way("Application", ns, AnyGroup));
    if apps != {} {
      ret := EdgesByDestinationName(apps, "Application", info, ns, [], AnyGroup);
    }
    ghost var toApps := ret;
    ghost var unmixed := UnmixedBehind(SourceOf(info), sub, onlyApplication, info.namespace, ns);
    if unmixed {
      ListedOnly(toApps, SourceOf(info), apps, "Application", info.namespace, ns);
    }
    var channels := Names(ns, sub, "_channels");
    NobodyReaches(Sources(SourceOf(info), ns, []), "Channel", info.namespace, Way("Channel", ns, AnyGroup));
    if !onlyApplication && channels != {} {
      var more := EdgesByDestinationName(channels, "Channel", info, ns, [], AnyGroup);
      if unmixed {
        ListedOnly(more, SourceOf(info), channels, "Channel", info.namespace, ns);
      }
      ret := ret + more;
    }
  }

  lemma ListedOnly(edges: seq<Edge>, s: Source, names: set<string>, kind: string, space: string, ns: NodeStore)
    requires Unmixed(names, kind, Sources(s, ns, []), space, ns, AnyGroup)
    requires OnlyGiven(edges, Sources(s, ns, []), names, kind, space, ns, AnyGroup)
    ensures forall e :: e in edges ==> ReachesListed(e, s, names, kind, space, ns)
  {
    hide OrderFree, SomeReaches, Way, UnmixedFrom;
  }

  lemma NobodyReaches(sources: seq<Source>, destKind: string, space: string, via: Via)
    ensures forall e :: !SomeReaches(e, sources, {}, destKind, space, via)
  {
  }
}
