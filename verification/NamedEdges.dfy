/** The edges to listed names, written out: where they start, where they go, and what subscriptions add. */
module NamedEdges {
  import opened Types
  import opened Text
  import opened NodeIndex
  import opened ReconcilerState
  import opened OwnerEdges
  import opened DestinationEdges

  // ---- Where the edges start ----

  /** t is the stored owner of s, which is not a deployable; edges from it are of type "uses". */
  predicate Owns(t: Source, s: Source, ns: NodeStore) {
    && s.kind != "Deployable" && s.uid in ns.byUID
    && t.uid == ns.byUID[s.uid].GetMetadata("OwnerUID") && t.uid != "" && t.uid in ns.byUID
    && t.edgeType == "uses" && t.kind == ns.byUID[t.uid].Text("kind")
  }

  /** The node first, then owner after owner, each once, as long as there is one that was not seen. */
  ghost predicate WalksOwners(walk: seq<Source>, s: Source, ns: NodeStore, seen: seq<UID>) {
    && walk != [] && walk[0] == s
    && (forall i :: 0 < i < |walk| ==> Owns(walk[i], walk[i - 1], ns))
    && (forall i, j :: 0 <= i < j < |walk| ==> walk[i].uid != walk[j].uid)
    && (forall i :: 0 <= i < |walk| ==> walk[i].uid !in seen)
    && (forall t :: Owns(t, walk[|walk| - 1], ns) ==> t.uid in seen || Visits(walk, t.uid))
  }

  ghost predicate Visits(walk: seq<Source>, u: UID) {
    exists s :: s in walk && s.uid == u
  }

  lemma NextOwns(s: Source, ns: NodeStore)
    ensures forall t :: Owns(t, s, ns) <==> NextSource(s, ns) == Some(t)
  {
  }

  /** The sources of the edges are the node and its chain of owners, up to a deployable or a repetition. */
  lemma {:induction false} SourcesWalkOwners(s: Source, ns: NodeStore, seen: seq<UID>)
    requires s.uid !in seen
    ensures WalksOwners(Sources(s, ns, seen), s, ns, seen)
    decreases ns.byUID.Keys - (set u | u in seen)
  {
    hide Owns, NextSource;
    NextOwns(s, ns);
    if NextSource(s, ns).Some? {
      InStore(s, ns, seen);
      var next := NextSource(s, ns).value;
      if next.uid in seen + [s.uid] {
        assert Sources(s, ns, seen) == [s];
        assert next.uid == s.uid ==> Visits([s], next.uid) by { assert s in [s]; }
      } else {
        SourcesWalkOwners(next, ns, seen + [s.uid]);
        WalkGoesOn(Sources(next, ns, seen + [s.uid]), s, next, ns, seen);
      }
    }
  }

  lemma InStore(s: Source, ns: NodeStore, seen: seq<UID>)
    requires s.uid !in seen && NextSource(s, ns).Some?
    ensures s.uid in ns.byUID.Keys - (set u | u in seen)
  {
  }

  lemma WalkGoesOn(rest: seq<Source>, s: Source, next: Source, ns: NodeStore, seen: seq<UID>)
    requires s.uid !in seen && Owns(next, s, ns) && WalksOwners(rest, next, ns, seen + [s.uid])
    ensures WalksOwners([s] + rest, s, ns, seen)
  {
    hide Owns;
    var walk := [s] + rest;
    assert s.uid in seen + [s.uid];
    forall i | 0 < i < |walk| ensures Owns(walk[i], walk[i - 1], ns) {
      if i > 1 { assert walk[i - 1] == rest[i - 2] && walk[i] == rest[i - 1]; }
    }
    assert walk[|walk| - 1] == rest[|rest| - 1];
    forall t | Owns(t, walk[|walk| - 1], ns) ensures t.uid in seen || Visits(walk, t.uid) {
      if x :| x in rest && x.uid == t.uid { assert x in walk; }
      if t.uid == s.uid { assert s in walk; }
    }
  }

  /**
   * The edges of the wanted kind that lead from the node and its owners, each written out: from some source,
   * to the node found where some name points.
   */
  lemma NamedEdgesIff(edges: seq<Edge>, info: NodeInfo, names: set<string>, destKind: string, ns: NodeStore,
                      how: LookupBy) returns (walk: seq<Source>)
    requires DirectExactly(edges, Sources(SourceOf(info), ns, []), names, destKind, info.namespace, ns, how)
    ensures WalksOwners(walk, Source(info.edgeType, info.uid, info.kind), ns, [])
    ensures forall e :: e in edges && e.dstKind == destKind <==>
      exists s :: s in walk && IsNamedEdge(e, s, names, destKind, info.namespace, ns, how)
  {
    hide Sources, WalksOwners, IsNamedEdge, Reaches, Direct;
    walk := Sources(SourceOf(info), ns, []);
    SourcesWalkOwners(SourceOf(info), ns, []);
    forall e, s
      ensures Reaches(e, s, names, destKind, info.namespace, Direct(destKind, ns, how)) <==>
                IsNamedEdge(e, s, names, destKind, info.namespace, ns, how)
    {
      ReachesNamed(e, s, names, destKind, info.namespace, ns, how);
    }
  }

  // ---- One name ----

  /** The edge from s to the node found under this namespace and name. */
  ghost predicate LeadsTo(e: Edge, s: Source, destKind: string, namespace: string, name: string, ns: NodeStore,
                          how: LookupBy)
  {
    match Found(how, ns, destKind, namespace, name)
    case None => false
    case Some(dest) => dest.uid != s.uid && e == Edge(s.edgeType, s.uid, dest.uid, s.kind, destKind)
  }

  lemma OneName(edges: seq<Edge>, info: NodeInfo, name: string, destKind: string, ns: NodeStore, how: LookupBy)
    requires OwnEdges(edges, info, {name}, destKind, ns, how)
    ensures forall e :: e in edges && e.dstKind == destKind && e.src == info.uid <==>
      exists at :: PointsAt(name, destKind, info.namespace, at)
        && GoesTo(e, Source(info.edgeType, info.uid, info.kind), at, destKind, ns, how)
  {
    hide PointsAt, GoesTo;
    var s := Source(info.edgeType, info.uid, info.kind);
    forall e
      ensures IsNamedEdge(e, s, {name}, destKind, info.namespace, ns, how) <==>
        exists at :: PointsAt(name, destKind, info.namespace, at) && GoesTo(e, s, at, destKind, ns, how)
    {
      if at :| PointsAt(name, destKind, info.namespace, at) && GoesTo(e, s, at, destKind, ns, how) {
        assert name in {name};
      }
    }
  }

  /** Listed as "space/name", a channel, deployable, subscription or application is looked up by these two. */
  lemma QualifiedName(edges: seq<Edge>, info: NodeInfo, space: string, name: string, destKind: string, ns: NodeStore,
                      how: LookupBy)
    requires destKind in {"Channel", "Deployable", "Subscription", "Application"}
    requires '/' !in space && '/' !in name && OwnEdges(edges, info, {space + "/" + name}, destKind, ns, how)
    ensures forall e :: e in edges && e.dstKind == destKind && e.src == info.uid <==>
      LeadsTo(e, Source(info.edgeType, info.uid, info.kind), destKind, space, name, ns, how)
  {
    hide OwnEdges, Found;
    OneName(edges, info, space + "/" + name, destKind, ns, how);
    TwoParts(space + "/" + name, space, name);
    assert PointsAt(space + "/" + name, destKind, info.namespace, Place(space, name));
    forall at ensures PointsAt(space + "/" + name, destKind, info.namespace, at) <==> at == Place(space, name) {
      TwoParts(space + "/" + name, at.namespace, at.name);
      assert (space + "/" + name)[|space|] == '/';
    }
  }

  /** A bare name is looked up in the node's own namespace. */
  lemma BareName(edges: seq<Edge>, info: NodeInfo, name: string, destKind: string, ns: NodeStore, how: LookupBy)
    requires destKind !in {"Channel", "Deployable", "Subscription", "Application"} || '/' !in name
    requires OwnEdges(edges, info, {name}, destKind, ns, how)
    ensures forall e :: e in edges && e.dstKind == destKind && e.src == info.uid <==>
      LeadsTo(e, Source(info.edgeType, info.uid, info.kind), destKind, info.namespace, name, ns, how)
  {
    hide OwnEdges, Found;
    OneName(edges, info, name, destKind, ns, how);
    assert PointsAt(name, destKind, info.namespace, Place(info.namespace, name));
    forall at ensures PointsAt(name, destKind, info.namespace, at) <==> at == Place(info.namespace, name) {
      if name == at.namespace + "/" + at.name { assert name[|at.namespace|] == '/'; }
    }
  }

  /** A name of three or more parts leads nowhere. */
  lemma LongName(edges: seq<Edge>, info: NodeInfo, a: string, b: string, rest: string, destKind: string, ns: NodeStore,
                 how: LookupBy)
    requires destKind in {"Channel", "Deployable", "Subscription", "Application"}
    requires OwnEdges(edges, info, {a + "/" + b + "/" + rest}, destKind, ns, how)
    ensures forall e :: e in edges ==> !(e.dstKind == destKind && e.src == info.uid)
  {
    hide OwnEdges, Found;
    var name := a + "/" + b + "/" + rest;
    OneName(edges, info, name, destKind, ns, how);
    forall at ensures !PointsAt(name, destKind, info.namespace, at) {
      var i, j := |a|, |a| + 1 + |b|;
      assert name[i] == '/' && name[j] == '/';
      if name == at.namespace + "/" + at.name {
        var k := |at.namespace|;
        assert i != k ==> name[i] in at.namespace || name[i] in at.name by {
          if i < k { assert name[i] == at.namespace[i]; }
          if i > k { assert name[i] == at.name[i - k - 1]; }
        }
        assert j != k ==> name[j] in at.namespace || name[j] in at.name by {
          if j < k { assert name[j] == at.namespace[j]; }
          if j > k { assert name[j] == at.name[j - k - 1]; }
        }
      }
    }
  }

  // ---- What subscriptions add ----

  /** The metadata entry lists these names, separated by commas. */
  ghost predicate Entered(ns: NodeStore, sub: UID, entry: string, names: seq<string>) {
    && sub in ns.byUID && |names| >= 1 && names != [""]
    && (forall name :: name in names ==> ',' !in name)
    && ns.byUID[sub].GetMetadata(entry) == Join(names, ',')
  }

  lemma EnteredNames(ns: NodeStore, sub: UID, entry: string, names: seq<string>)
    requires Entered(ns, sub, entry, names)
    ensures Names(ns, sub, entry) == set name | name in names
  {
    SplitIsTheOne(Join(names, ','), names, ',');
    SplitFirst("", "", ',');
  }

  ghost predicate AllQualified(names: seq<string>) {
    forall name :: name in names ==> '/' in name
  }

  /** What a subscription lists as its applications and channels can be followed to each of them. */
  lemma ListedIsFollowed(e: Edge, s: Source, sub: UID, onlyApplication: bool, kind: string, names: seq<string>,
                         space: string, name: string, around: string, ns: NodeStore)
    requires kind == "Application" || (kind == "Channel" && !onlyApplication)
    requires Entered(ns, sub, if kind == "Application" then "_hostingApplication" else "_channels", names)
    requires AllQualified(names) && space + "/" + name in names && '/' !in space && '/' !in name
    requires LeadsTo(e, s, kind, space, name, ns, AnyGroup)
    ensures FollowsSubscription(e, s, sub, onlyApplication, around, ns)
  {
    hide Found, Names, Brings, Split;
    var entry := if kind == "Application" then "_hostingApplication" else "_channels";
    EnteredNames(ns, sub, entry, names);
    var listed, text := Names(ns, sub, entry), space + "/" + name;
    assert OrderFree(listed, kind) by {
      forall x | x in listed ensures |Split(x, '/')| != 1 {}
    }
    assert Target(text, kind, around) == Some(Place(space, name)) by {
      TwoParts(text, space, name);
    }
    SourcesDiffer(s, ns, []);
    assert s in Sources(s, ns, []);
    assert IsEdgeTo(e, s, Some(Place(space, name)), kind, ns, AnyGroup);
    assert Way(kind, ns, AnyGroup)(e, s, Some(Place(space, name)));
    assert Reaches(e, s, listed, kind, around, Way(kind, ns, AnyGroup));
    assert ReachesListed(e, s, listed, kind, around, ns);
  }

  /** The node of this kind that one of the names points at, other than the source itself. */
  ghost predicate Pointed(names: set<string>, kind: string, source: UID, around: string, at: Place, dest: Node,
                          ns: NodeStore, how: LookupBy)
  {
    && (exists name :: name in names && PointsAt(name, kind, around, at))
    && Found(how, ns, kind, at.namespace, at.name) == Some(dest) && dest.uid != source
  }

  /** Whoever gets an edge to a subscription, except an application, gets those to its applications and channels. */
  lemma SubscriptionBrings(edges: seq<Edge>, info: NodeInfo, names: set<string>, at: Place, sub: Node, how: LookupBy,
                           kind: string, listed: seq<string>, space: string, name: string, e: Edge, ns: NodeStore)
    requires GivenIncluded(edges, Sources(SourceOf(info), ns, []), names, "Subscription", info.namespace, ns, how)
    requires info.kind != "Application"
    requires Pointed(names, "Subscription", info.uid, info.namespace, at, sub, ns, how)
    requires kind == "Application" || kind == "Channel"
    requires Entered(ns, sub.uid, if kind == "Application" then "_hostingApplication" else "_channels", listed)
    requires AllQualified(listed) && space + "/" + name in listed && '/' !in space && '/' !in name
    requires LeadsTo(e, Source(info.edgeType, info.uid, info.kind), kind, space, name, ns, AnyGroup)
    ensures e in edges
  {
    hide Found, FollowsSubscription, LeadsTo, PointsAt, Way, Entered;
    var s := Source(info.edgeType, info.uid, info.kind);
    ListedIsFollowed(e, s, sub.uid, false, kind, listed, space, name, at.namespace, ns);
    assert DestAt(s, Some(at), "Subscription", ns, how) == Some(sub.uid);
    assert Brings(e, s, Some(at), "Subscription", ns, how);
    BroughtIsThere(edges, e, s, names, "Subscription", info.namespace, at, ns, how);
  }

  /**
   * When a subscription gets an edge to a channel, deployable or placement rule, that one gets edges of type
   * "contains" to the subscription's applications.
   */
  lemma SubscriptionContains(edges: seq<Edge>, info: NodeInfo, names: set<string>, at: Place, dest: Node, how: LookupBy,
                             destKind: string, listed: seq<string>, space: string, name: string, e: Edge,
                             ns: NodeStore)
    requires GivenIncluded(edges, Sources(SourceOf(info), ns, []), names, destKind, info.namespace, ns, how)
    requires info.kind == "Subscription" && destKind in {"Channel", "Deployable", "PlacementRule"}
    requires Pointed(names, destKind, info.uid, info.namespace, at, dest, ns, how)
    requires Entered(ns, info.uid, "_hostingApplication", listed)
    requires AllQualified(listed) && space + "/" + name in listed && '/' !in space && '/' !in name
    requires LeadsTo(e, Source("contains", dest.uid, destKind), "Application", space, name, ns, AnyGroup)
    ensures e in edges
  {
    hide Found, FollowsSubscription, LeadsTo, PointsAt, Way, Entered;
    var s := Source(info.edgeType, info.uid, info.kind);
    ListedIsFollowed(e, Source("contains", dest.uid, destKind), info.uid, true, "Application", listed, space, name,
                     at.namespace, ns);
    assert DestAt(s, Some(at), destKind, ns, how) == Some(dest.uid);
    assert Brings(e, s, Some(at), destKind, ns, how);
    BroughtIsThere(edges, e, s, names, destKind, info.namespace, at, ns, how);
  }

  lemma BroughtIsThere(edges: seq<Edge>, e: Edge, s: Source, names: set<string>, destKind: string, around: string,
                       at: Place, ns: NodeStore, how: LookupBy)
    requires GivenIncluded(edges, Sources(s, ns, []), names, destKind, around, ns, how)
    requires exists name :: name in names && PointsAt(name, destKind, around, at)
    requires Brings(e, s, Some(at), destKind, ns, how)
    ensures e in edges
  {
    hide Brings, PointsAt, IsEdgeTo, Target;
    var name :| name in names && PointsAt(name, destKind, around, at);
    TargetIff(name, destKind, around, at);
    SourcesDiffer(s, ns, []);
    assert s in Sources(s, ns, []);
    assert Way(destKind, ns, how)(e, s, Target(name, destKind, around));
    assert Reaches(e, s, names, destKind, around, Way(destKind, ns, how));
    assert SomeReaches(e, Sources(s, ns, []), names, destKind, around, Way(destKind, ns, how));
  }
}
