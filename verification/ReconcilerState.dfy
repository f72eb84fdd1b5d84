/**
 * The reconciler's state as a value, what one node event does to it, and what its two reports
 * (the delta and the complete state) say about it.
 */
module ReconcilerState {
  import opened Types
  import opened TombstoneCache
  import opened EdgeTables
  import opened NodeIndex

  datatype State = State(
    current: map<UID, Node>,
    previous: map<UID, Node>,
    diff: map<UID, NodeEvent>,
    fns: map<UID, EdgeFn>,
    edges: EdgeTable,
    totalEdges: int,
    purged: Cache)

  // ---- One event ----

  datatype Outcome = Stale | Purged | Deleted | Unchanged | OlderRelease | Panicked | Stored

  predicate KindIn(n: Node, kinds: set<string>) {
    "kind" in n.props && n.props["kind"].Str? && n.props["kind"].s in kinds
  }

  /** Whether an upsert says nothing new about a node that was in the last snapshot. */
  predicate Redundant(n: Node, last: Node) {
    var isPolicy := KindIn(n, {"CertificatePolicy", "ConfigurationPolicy", "OperatorPolicy"});
    var isConstraint := Lookup(n.props, "apigroup") == Some(Str("constraints.gatekeeper.sh"));
    && n.props == last.props
    && !KindIn(n, {"Application", "Subscription"})
    && (KindIn(n, {"ValidatingAdmissionPolicyBinding"}) ==> Lookup(n.meta, "paramRef") == Lookup(last.meta, "paramRef"))
    && (isPolicy || isConstraint ==> Lookup(n.meta, "relObjs") == Lookup(last.meta, "relObjs"))
  }

  predicate IsRelease(n: Node) {
    n.resource == "releases"
  }

  function Revision(n: Node): Option<int> {
    if "revision" in n.props && n.props["revision"].Int? then Some(n.props["revision"].i) else None
  }

  /** Compares a release with one already held; reading a revision that is not an integer panics. */
  function AgainstHeld(held: Option<Node>, n: Node): Outcome {
    if held.None? then Stored
    else if Revision(held.value).None? || Revision(n).None? then Panicked
    else if Revision(held.value).value > Revision(n).value then OlderRelease
    else Stored
  }

  function Judge(s: State, ev: NodeEvent): Outcome {
    var u := ev.node.uid;
    var tomb := Find(s.purged, u);
    if u in s.diff && s.diff[u].time > ev.time then Stale
    else if tomb.Some? && tomb.value.time >= ev.time then Purged
    else if ev.op.Delete? then Deleted
    else if u in s.previous && Redundant(ev.node, s.previous[u]) then Unchanged
    else if !IsRelease(ev.node) then Stored
    else if !AgainstHeld(Lookup(s.previous, u), ev.node).Stored? then AgainstHeld(Lookup(s.previous, u), ev.node)
    else AgainstHeld(Lookup(s.current, u), ev.node)
  }

  /** The tombstone is looked up before anything else, so even an ignored event refreshes it. */
  function Reconcile(s: State, ev: NodeEvent): State {
    Settle(s.(purged := Get(s.purged, ev.node.uid).1), ev, Judge(s, ev))
  }

  function Settle(s: State, ev: NodeEvent, outcome: Outcome): State {
    var u := ev.node.uid;
    match outcome
    case Deleted =>
      s.(
        current := s.current - {u},
        fns := s.fns - {u},
        purged := Add(s.purged, Tombstone(u, ev.time)),
        diff := if u in s.previous then s.diff[u := ev] else s.diff - {u})
    case Stored =>
      s.(
        current := s.current[u := ev.node],
        fns := s.fns[u := ev.computeEdges],
        diff := s.diff[u := ev.(op := if u in s.previous then Update else Create)])
    case _ => s
  }

  // ---- What every reachable state keeps ----

  ghost predicate DiffFits(s: State, u: UID) {
    if u !in s.diff then Lookup(s.current, u) == Lookup(s.previous, u)
    else
      && s.diff[u].node.uid == u
      && match s.diff[u].op
         case Create => u !in s.previous && Lookup(s.current, u) == Some(s.diff[u].node)
         case Update => u in s.previous && Lookup(s.current, u) == Some(s.diff[u].node)
         case Delete => u in s.previous && u !in s.current
  }

  ghost predicate OwnUids(nodes: map<UID, Node>) {
    forall u :: u in nodes ==> nodes[u].uid == u
  }

  ghost predicate Consistent(s: State) {
    && s.fns.Keys == s.current.Keys
    && OwnUids(s.current) && OwnUids(s.previous)
    && (forall u :: DiffFits(s, u))
    && WellFiled(s.edges) && s.totalEdges == |Flat(s.edges)|
    && Valid(s.purged)
  }

  const INITIAL := State(map[], map[], map[], map[], map[], 0, [])

  lemma InitialConsistent()
    ensures Consistent(INITIAL)
  {
    assert Flat(map[]) == map[];
  }

  lemma DeletedMeansDelete(s: State, ev: NodeEvent)
    ensures Judge(s, ev).Deleted? ==> ev.op.Delete?
  {
  }

  /** Every event keeps the state consistent. */
  lemma ReconcileKeepsConsistent(s: State, ev: NodeEvent)
    requires Consistent(s)
    ensures Consistent(Reconcile(s, ev))
  {
    GetKeeps(s.purged, ev.node.uid);
    var touched := s.(purged := Get(s.purged, ev.node.uid).1);
    forall u ensures DiffFits(touched, u) {
      assert DiffFits(s, u);
    }
    DeletedMeansDelete(s, ev);
    SettleKeepsConsistent(touched, ev, Judge(s, ev));
  }

  lemma SettleKeepsConsistent(s: State, ev: NodeEvent, outcome: Outcome)
    requires Consistent(s) && (outcome.Deleted? ==> ev.op.Delete?)
    ensures Consistent(Settle(s, ev, outcome))
  {
    AddFinds(s.purged, Tombstone(ev.node.uid, ev.time));
    forall u ensures DiffFits(Settle(s, ev, outcome), u) {
      assert DiffFits(s, u);
      SettleKeepsFit(s, ev, outcome, u);
    }
    SettleKeepsNodes(s, ev, outcome);
  }

  lemma SettleKeepsFit(s: State, ev: NodeEvent, outcome: Outcome, u: UID)
    requires DiffFits(s, u) && (outcome.Deleted? ==> ev.op.Delete?)
    ensures DiffFits(Settle(s, ev, outcome), u)
  {
  }

  lemma SettleKeepsNodes(s: State, ev: NodeEvent, outcome: Outcome)
    requires s.fns.Keys == s.current.Keys && OwnUids(s.current)
    ensures Settle(s, ev, outcome).fns.Keys == Settle(s, ev, outcome).current.Keys
    ensures OwnUids(Settle(s, ev, outcome).current)
  {
  }

  // ---- Building edges ----

  /** The edges every node gets besides those of its own builder. */
  type CommonFn = (UID, NodeStore) -> seq<Edge>

  function EdgesOf(fns: map<UID, EdgeFn>, common: CommonFn, ns: NodeStore, u: UID): seq<Edge>
    requires u in fns
  {
    fns[u](ns) + common(u, ns)
  }

  function EdgesInOrder(order: seq<UID>, fns: map<UID, EdgeFn>, common: CommonFn, ns: NodeStore): seq<Edge>
    requires forall u :: u in order ==> u in fns
  {
    if order == [] then [] else
      EdgesInOrder(order[..|order| - 1], fns, common, ns) + EdgesOf(fns, common, ns, order[|order| - 1])
  }

  /** The applications the index shows, one for each namespace and name. */
  ghost predicate ListedApplication(idx: Index, u: UID) {
    exists space, name ::
      && InLeastGroup(idx, "Application", space, name).Some?
      && InLeastGroup(idx, "Application", space, name).value.uid == u
  }

  ghost predicate ApplicationsFirst(order: seq<UID>, idx: Index) {
    forall i, j :: 0 <= i < j < |order| && ListedApplication(idx, order[j]) ==> ListedApplication(idx, order[i])
  }

  /** t holds the edges of every node's builder, each run once and the applications' before the others'. */
  ghost predicate BuiltInOrder(t: EdgeTable, nodes: map<UID, Node>, fns: map<UID, EdgeFn>, common: CommonFn,
                               idx: Index, order: seq<UID>)
  {
    && IsIndex(idx, nodes)
    && multiset(order) == multiset(fns.Keys)
    && ApplicationsFirst(order, idx)
    && (forall u :: u in order ==> u in fns)
    && t == PutAll(map[], EdgesInOrder(order, fns, common, NodeStore(nodes, idx)))
  }

  ghost predicate Built(t: EdgeTable, nodes: map<UID, Node>, fns: map<UID, EdgeFn>, common: CommonFn) {
    exists idx, order :: BuiltInOrder(t, nodes, fns, common, idx, order)
  }

  ghost predicate SomeBuilderJoins(fns: map<UID, EdgeFn>, common: CommonFn, ns: NodeStore, p: Pair) {
    exists u :: u in fns && Joins(EdgesOf(fns, common, ns, u), p)
  }

  /** The node's own builder, or the common one when run for it, gives this edge. */
  ghost predicate GivenFor(u: UID, e: Edge, fns: map<UID, EdgeFn>, common: CommonFn, ns: NodeStore) {
    u in fns && (e in fns[u](ns) || e in common(u, ns))
  }

  ghost predicate Given(e: Edge, fns: map<UID, EdgeFn>, common: CommonFn, ns: NodeStore) {
    exists u :: u in ns.byUID && GivenFor(u, e, fns, common, ns)
  }

  ghost predicate GivenPair(p: Pair, fns: map<UID, EdgeFn>, common: CommonFn, ns: NodeStore) {
    exists e :: Given(e, fns, common, ns) && e.src == p.0 && e.dst == p.1
  }

  /** The table has a pair exactly when some node gives an edge with those ends, and files one of these edges. */
  ghost predicate FilesGiven(t: EdgeTable, fns: map<UID, EdgeFn>, common: CommonFn, ns: NodeStore) {
    && (forall p :: HasPair(t, p) <==> GivenPair(p, fns, common, ns))
    && (forall p :: HasPair(t, p) ==> Given(t[p.0][p.1], fns, common, ns) && t[p.0][p.1].Ends() == p)
  }

  ghost predicate FilesGivenBy(t: EdgeTable, nodes: map<UID, Node>, fns: map<UID, EdgeFn>, common: CommonFn) {
    exists idx :: IsIndex(idx, nodes) && FilesGiven(t, fns, common, NodeStore(nodes, idx))
  }

  lemma {:induction false} GivenInOrder(order: seq<UID>, fns: map<UID, EdgeFn>, common: CommonFn, ns: NodeStore,
                                        e: Edge)
    requires forall u :: u in order ==> u in fns
    ensures e in EdgesInOrder(order, fns, common, ns) <==> exists u :: u in order && GivenFor(u, e, fns, common, ns)
  {
    if order != [] {
      var n := |order| - 1;
      GivenInOrder(order[..n], fns, common, ns, e);
      assert order[n] in order;
      assert e in EdgesOf(fns, common, ns, order[n]) <==> GivenFor(order[n], e, fns, common, ns);
      assert forall u :: u in order <==> u in order[..n] || u == order[n];
    }
  }

  lemma BuiltFilesGiven(t: EdgeTable, nodes: map<UID, Node>, fns: map<UID, EdgeFn>, common: CommonFn, idx: Index,
                        order: seq<UID>)
    requires BuiltInOrder(t, nodes, fns, common, idx, order) && fns.Keys == nodes.Keys
    ensures FilesGivenBy(t, nodes, fns, common)
  {
    hide IsIndex, ApplicationsFirst, GivenFor, EdgesOf;
    var ns := NodeStore(nodes, idx);
    var edges := EdgesInOrder(order, fns, common, ns);
    PutAllPairs(map[], edges);
    forall e ensures e in edges <==> Given(e, fns, common, ns) {
      GivenInOrder(order, fns, common, ns, e);
      OrderedIsStored(order, ns, fns);
    }
    forall p ensures HasPair(t, p) <==> GivenPair(p, fns, common, ns) {
      assert HasPair(t, p) <==> Joins(edges, p);
    }
    assert FilesGiven(t, fns, common, ns);
  }

  lemma OrderedIsStored(order: seq<UID>, ns: NodeStore, fns: map<UID, EdgeFn>)
    requires multiset(order) == multiset(fns.Keys) && fns.Keys == ns.byUID.Keys
    ensures forall u :: u in order <==> u in ns.byUID
  {
    assert forall u :: u in order <==> u in multiset(order);
    assert forall u :: u in multiset(fns.Keys) <==> u in fns.Keys;
  }

  /** Of the edges given with the same ends, the one given last stays, the common edges coming after a node's own. */
  lemma {:induction false} LastGivenStays(order: seq<UID>, i: nat, k: nat, fns: map<UID, EdgeFn>, common: CommonFn,
                                          ns: NodeStore)
    requires (forall u :: u in order ==> u in fns) && i < |order|
    requires k < |fns[order[i]](ns) + common(order[i], ns)|
    requires
      var own := fns[order[i]](ns) + common(order[i], ns);
      && (forall j :: k < j < |own| ==> own[j].Ends() != own[k].Ends())
      && (forall j, e :: i < j < |order| && GivenFor(order[j], e, fns, common, ns) ==> e.Ends() != own[k].Ends())
    ensures
      var e, t := (fns[order[i]](ns) + common(order[i], ns))[k], PutAll(map[], EdgesInOrder(order, fns, common, ns));
      HasPair(t, e.Ends()) && t[e.src][e.dst] == e
    decreases |order|
  {
    var n := |order| - 1;
    var before := EdgesInOrder(order[..n], fns, common, ns);
    PutAllAppend(map[], before, EdgesOf(fns, common, ns, order[n]));
    var t := PutAll(map[], before);
    if i == n {
      LastFiledStays(t, EdgesOf(fns, common, ns, order[n]), k);
    } else {
      LastGivenStays(order[..n], i, k, fns, common, ns);
      var e := (fns[order[i]](ns) + common(order[i], ns))[k];
      assert forall x :: x in EdgesOf(fns, common, ns, order[n]) ==> GivenFor(order[n], x, fns, common, ns);
      OthersFiledLater(t, EdgesOf(fns, common, ns, order[n]), e);
    }
  }

  /**
   * The builders of applications run before all others: an application that shares its namespace and name with
   * no other comes before every node of another kind.
   */
  lemma ApplicationsRunFirst(t: EdgeTable, nodes: map<UID, Node>, fns: map<UID, EdgeFn>, common: CommonFn, idx: Index,
                             order: seq<UID>, i: nat, j: nat)
    requires BuiltInOrder(t, nodes, fns, common, idx, order) && fns.Keys == nodes.Keys && OwnUids(nodes)
    requires i < |order| && j < |order| && order[i] in nodes && order[j] in nodes
    requires nodes[order[i]].Text("kind") != "Application"
    requires nodes[order[j]].Text("kind") == "Application" && nodes[order[j]].Text("name") != ""
    requires forall u, g ::
      StoredAs(nodes, u, g, "Application", nodes[order[j]].Text("namespace"), nodes[order[j]].Text("name")) ==>
        u == order[j]
    ensures j < i
  {
    hide IsIndex, BuiltInOrder, StoredAs, InLeastGroup, NormalizeNamespace;
    var app := nodes[order[j]];
    BuiltInThisOrder(t, nodes, fns, common, idx, order);
    OnlyApplicationListed(nodes, idx, order[j]);
    if i < j {
      assert ListedApplication(idx, order[i]);
      ListedIsApplication(nodes, idx, order[i]);
    }
  }

  lemma BuiltInThisOrder(t: EdgeTable, nodes: map<UID, Node>, fns: map<UID, EdgeFn>, common: CommonFn, idx: Index,
                         order: seq<UID>)
    requires BuiltInOrder(t, nodes, fns, common, idx, order)
    ensures IsIndex(idx, nodes) && ApplicationsFirst(order, idx)
  {
  }

  lemma OnlyApplicationListed(nodes: map<UID, Node>, idx: Index, app: UID)
    requires IsIndex(idx, nodes) && OwnUids(nodes) && app in nodes
    requires nodes[app].Text("kind") == "Application" && nodes[app].Text("name") != ""
    requires forall u, g ::
      StoredAs(nodes, u, g, "Application", nodes[app].Text("namespace"), nodes[app].Text("name")) ==> u == app
    ensures ListedApplication(idx, app)
  {
    hide IsIndex, InLeastGroup;
    var n := nodes[app];
    GrouplessLookupIsScan(NodeStore(nodes, idx), "Application", n.Text("namespace"), n.Text("name"));
    assert StoredAs(nodes, app, n.Text("apigroup"), "Application", n.Text("namespace"), n.Text("name"));
    var r := InLeastGroup(idx, "Application", NormalizeNamespace(n.Text("namespace")), n.Text("name"));
    assert r.Some? && r.value.uid == app;
  }

  lemma ListedIsApplication(nodes: map<UID, Node>, idx: Index, u: UID)
    requires IsIndex(idx, nodes) && OwnUids(nodes) && ListedApplication(idx, u)
    ensures u in nodes && nodes[u].Text("kind") == "Application"
  {
    hide IsIndex, InLeastGroup;
    var space, name :| InLeastGroup(idx, "Application", space, name).Some?
      && InLeastGroup(idx, "Application", space, name).value.uid == u;
    LeastGroupCarried(NodeStore(nodes, idx), "Application", space, name);
  }

  lemma {:induction false} JoinedInOrder(order: seq<UID>, fns: map<UID, EdgeFn>, common: CommonFn, ns: NodeStore,
                                         p: Pair)
    requires forall u :: u in order ==> u in fns
    ensures Joins(EdgesInOrder(order, fns, common, ns), p) <==>
      exists u :: u in order && Joins(EdgesOf(fns, common, ns, u), p)
  {
    if order != [] {
      var n := |order| - 1;
      var last := order[n];
      assert order == order[..n] + [last];
      JoinedInOrder(order[..n], fns, common, ns, p);
      JoinsSplits(EdgesInOrder(order[..n], fns, common, ns), EdgesOf(fns, common, ns, last), p);
      if u :| u in order && Joins(EdgesOf(fns, common, ns, u), p) && u != last {
        assert u in order[..n];
      }
    }
  }

  lemma JoinsSplits(a: seq<Edge>, b: seq<Edge>, p: Pair)
    ensures Joins(a + b, p) <==> Joins(a, p) || Joins(b, p)
  {
    if e :| e in a && e.Ends() == p { assert e in a + b; }
    if e :| e in b && e.Ends() == p { assert e in a + b; }
  }

  lemma BuiltPairs(t: EdgeTable, nodes: map<UID, Node>, fns: map<UID, EdgeFn>, common: CommonFn, idx: Index,
                   order: seq<UID>)
    requires BuiltInOrder(t, nodes, fns, common, idx, order)
    ensures WellFiled(t)
    ensures forall p :: HasPair(t, p) <==> SomeBuilderJoins(fns, common, NodeStore(nodes, idx), p)
  {
    var ns := NodeStore(nodes, idx);
    PutAllPairs(map[], EdgesInOrder(order, fns, common, ns));
    forall p ensures HasPair(t, p) <==> SomeBuilderJoins(fns, common, ns, p) {
      JoinedInOrder(order, fns, common, ns, p);
      assert forall u :: u in order <==> u in multiset(order);
    }
  }

  /** Without twins, every rebuild from the same nodes joins the same pairs, whatever the iteration orders. */
  lemma RebuildAgrees(t1: EdgeTable, t2: EdgeTable, nodes: map<UID, Node>, fns: map<UID, EdgeFn>, common: CommonFn)
    requires Built(t1, nodes, fns, common) && Built(t2, nodes, fns, common) && NoTwins(nodes)
    ensures Flat(t1).Keys == Flat(t2).Keys
  {
    var idx1, order1 :| BuiltInOrder(t1, nodes, fns, common, idx1, order1);
    var idx2, order2 :| BuiltInOrder(t2, nodes, fns, common, idx2, order2);
    IndexUnique(idx1, idx2, nodes);
    BuiltPairs(t1, nodes, fns, common, idx1, order1);
    BuiltPairs(t2, nodes, fns, common, idx2, order2);
  }

  // ---- Edge builders that only name stored nodes ----

  ghost predicate SoundStore(ns: NodeStore) {
    IsIndex(ns.index, ns.byUID) && OwnUids(ns.byUID)
  }

  ghost predicate StoredEnds(edges: seq<Edge>, nodes: map<UID, Node>) {
    forall e :: e in edges ==> e.src in nodes && e.dst in nodes
  }

  /** Wherever the node u is stored, its builder joins stored nodes. */
  ghost predicate NamesStored(u: UID, f: EdgeFn) {
    forall ns :: SoundStore(ns) && u in ns.byUID ==> StoredEnds(f(ns), ns.byUID)
  }

  ghost predicate CommonNamesStored(common: CommonFn) {
    forall u, ns :: SoundStore(ns) && u in ns.byUID ==> StoredEnds(common(u, ns), ns.byUID)
  }

  ghost predicate BuildersNameStored(fns: map<UID, EdgeFn>) {
    forall u :: u in fns ==> NamesStored(u, fns[u])
  }

  ghost predicate PairsStored(t: EdgeTable, nodes: map<UID, Node>) {
    forall p :: HasPair(t, p) ==> p.0 in nodes && p.1 in nodes
  }

  lemma BuiltPairsStored(t: EdgeTable, nodes: map<UID, Node>, fns: map<UID, EdgeFn>, common: CommonFn)
    requires Built(t, nodes, fns, common) && OwnUids(nodes) && fns.Keys == nodes.Keys
    requires BuildersNameStored(fns) && CommonNamesStored(common)
    ensures PairsStored(t, nodes)
  {
    var idx, order :| BuiltInOrder(t, nodes, fns, common, idx, order);
    var ns := NodeStore(nodes, idx);
    BuiltPairs(t, nodes, fns, common, idx, order);
    forall p | HasPair(t, p) ensures p.0 in nodes && p.1 in nodes {
      var u :| u in fns && Joins(EdgesOf(fns, common, ns, u), p);
      var e :| e in EdgesOf(fns, common, ns, u) && e.Ends() == p;
      assert NamesStored(u, fns[u]) && SoundStore(ns);
      assert e in fns[u](ns) || e in common(u, ns);
    }
  }

  lemma ReconcileKeepsBuilders(s: State, ev: NodeEvent)
    requires BuildersNameStored(s.fns) && NamesStored(ev.node.uid, ev.computeEdges)
    ensures BuildersNameStored(Reconcile(s, ev).fns)
  {
  }

  // ---- The two reports ----

  datatype Delta = Delta(
    addNodes: seq<Node>,
    updateNodes: seq<Node>,
    deleteNodes: seq<UID>,
    addEdges: seq<Edge>,
    deleteEdges: seq<Edge>,
    totalNodes: int,
    totalEdges: int)

  datatype CompleteState = CompleteState(nodes: seq<Node>, edges: seq<Edge>, totalNodes: int, totalEdges: int)

  /** The list holds the values of the map, each once, in some order. */
  ghost predicate Enumerates<K, V(!new)>(list: seq<V>, m: map<K, V>) {
    && |list| == |m|
    && (forall v :: v in list <==> exists k :: k in m && m[k] == v)
  }

  ghost function Pending(diff: map<UID, NodeEvent>, op: Operation): map<UID, Node> {
    map u | u in diff && diff[u].op == op :: diff[u].node
  }

  predicate Touches(p: Pair, uids: seq<UID>) {
    p.0 in uids || p.1 in uids
  }

  ghost function AddedEdges(before: EdgeTable, after: EdgeTable): map<Pair, Edge> {
    Flat(after) - Flat(before).Keys
  }

  /** Edges that are gone, apart from those that vanish together with a deleted node. */
  ghost function DroppedEdges(before: EdgeTable, after: EdgeTable, deleted: seq<UID>): map<Pair, Edge> {
    map p | p in Flat(before) && p !in Flat(after) && !Touches(p, deleted) :: Flat(before)[p]
  }

  function Snapshot(s: State, t: EdgeTable, total: int): State {
    s.(diff := map[], previous := s.current, edges := t, totalEdges := total)
  }

  const NO_CHANGES := Delta([], [], [], [], [], 0, 0)

  ghost predicate ListsNodes(d: Delta, diff: map<UID, NodeEvent>) {
    && Enumerates(d.addNodes, Pending(diff, Create))
    && Enumerates(d.updateNodes, Pending(diff, Update))
    && |d.deleteNodes| == |Pending(diff, Delete)|
    && (forall u :: u in d.deleteNodes <==> u in Pending(diff, Delete))
  }

  ghost predicate ListsEdges(d: Delta, before: EdgeTable, after: EdgeTable) {
    && Enumerates(d.addEdges, AddedEdges(before, after))
    && Enumerates(d.deleteEdges, DroppedEdges(before, after, d.deleteNodes))
  }

  ghost predicate IsDiff(s: State, s': State, d: Delta, common: CommonFn) {
    if s.diff == map[] then
      && s' == s
      && d == NO_CHANGES.(totalNodes := |s.current|, totalEdges := s.totalEdges)
    else
      var t := s'.edges;
      && Built(t, s.current, s.fns, common)
      && s' == Snapshot(s, t, |Flat(t)|)
      && ListsNodes(d, s.diff)
      && ListsEdges(d, s.edges, t)
      && d.totalNodes == |s.current|
      && d.totalEdges == |Flat(t)|
  }

  ghost predicate IsComplete(s: State, s': State, c: CompleteState, common: CommonFn) {
    && Built(s'.edges, s.current, s.fns, common)
    && s' == Snapshot(s, s'.edges, |Flat(s'.edges)|)
    && Enumerates(c.nodes, s.current)
    && Enumerates(c.edges, Flat(s'.edges))
    && c.totalNodes == |s.current|
    && c.totalEdges == |Flat(s'.edges)|
  }

  lemma SnapshotConsistent(s: State, t: EdgeTable, common: CommonFn)
    requires Consistent(s) && Built(t, s.current, s.fns, common)
    ensures Consistent(Snapshot(s, t, |Flat(t)|))
  {
    var idx, order :| BuiltInOrder(t, s.current, s.fns, common, idx, order);
    BuiltPairs(t, s.current, s.fns, common, idx, order);
  }

  lemma ReportsKeepConsistent(s: State, s': State, d: Delta, c: CompleteState, common: CommonFn)
    requires Consistent(s)
    requires IsDiff(s, s', d, common) || IsComplete(s, s', c, common)
    ensures Consistent(s') && s'.diff == map[] && s'.previous == s.current == s'.current
  {
    if IsComplete(s, s', c, common) || s.diff != map[] {
      SnapshotConsistent(s, s'.edges, common);
    } else {
      forall u ensures Lookup(s.previous, u) == Lookup(s.current, u) {
        assert DiffFits(s, u);
      }
      forall u | u in s.previous || u in s.current
        ensures u in s.previous && u in s.current && s.previous[u] == s.current[u]
      {
        assert Lookup(s.previous, u) == Lookup(s.current, u);
      }
    }
  }
}
