/** The reconciler itself: the maps it keeps, updated in place by events and by the two reports. */
module ReconcilerModule {
  import opened Types
  import opened TombstoneCache
  import opened EdgeTables
  import opened NodeIndex
  import opened ReconcilerState

  // ---- Lists built by the loops ----

  lemma {:induction false} NoDuplicatesCounts<T>(s: seq<T>, keys: set<T>)
    requires NoDuplicates(s) && forall x :: x in s <==> x in keys
    ensures multiset(s) == multiset(keys) && |s| == |keys|
  {
    if s != [] {
      var n := |s| - 1;
      assert s == s[..n] + [s[n]];
      assert s[n] in s;
      NoDuplicatesCounts(s[..n], keys - {s[n]});
      assert keys == keys - {s[n]} + {s[n]};
    }
  }

  /** A list without repeats of exactly the map's values, each filed under its own key, enumerates the map. */
  lemma ListEnumerates<K, V(!new)>(list: seq<V>, m: map<K, V>, key: V -> K)
    requires NoDuplicates(list)
    requires forall k :: k in m ==> key(m[k]) == k
    requires forall v :: v in list <==> key(v) in m && m[key(v)] == v
    ensures Enumerates(list, m)
  {
    var keys := seq(|list|, i requires 0 <= i < |list| => key(list[i]));
    forall i | 0 <= i < |list| ensures key(list[i]) in m && m[key(list[i])] == list[i] {
      assert list[i] in list;
    }
    assert NoDuplicates(keys);
    forall k ensures k in keys <==> k in m.Keys {
      if k in m {
        assert m[k] in list;
        var i :| 0 <= i < |list| && list[i] == m[k];
        assert keys[i] == k;
      }
    }
    NoDuplicatesCounts(keys, m.Keys);
  }

  method KeysInSomeOrder<V>(m: map<UID, V>) returns (r: seq<UID>)
    ensures NoDuplicates(r)
    ensures forall u :: u in r <==> u in m
  {
    r := [];
    var todo := m.Keys;
    while todo != {}
      invariant todo <= m.Keys
      invariant forall u :: u in r <==> u in m && u !in todo
      invariant NoDuplicates(r)
    {
      var u :| u in todo;
      r := r + [u];
      todo := todo - {u};
    }
  }

  /** The elements kept, in their order and as often as they come. */
  function Keeping(s: seq<UID>, dropped: seq<UID>): seq<UID> {
    if s == [] then []
    else
      var n := |s| - 1;
      Keeping(s[..n], dropped) + if s[n] in dropped then [] else [s[n]]
  }

  method SliceDiff(bigSlice: seq<UID>, smallSlice: seq<UID>) returns (diff: seq<UID>)
    ensures diff == Keeping(bigSlice, smallSlice)
    ensures forall u :: u in diff <==> u in bigSlice && u !in smallSlice
    ensures NoDuplicates(bigSlice) ==> NoDuplicates(diff)
  {
    var smallMap: set<UID> := {};
    for i := 0 to |smallSlice|
      invariant forall u :: u in smallMap <==> u in smallSlice[..i]
    {
      smallMap := smallMap + {smallSlice[i]};
    }
    diff := [];
    for i := 0 to |bigSlice|
      invariant diff == Keeping(bigSlice[..i], smallSlice)
      invariant forall u :: u in diff <==> u in bigSlice[..i] && u !in smallSlice
      invariant NoDuplicates(bigSlice) ==> NoDuplicates(diff)
    {
      assert bigSlice[..i + 1][..i] == bigSlice[..i];
      if bigSlice[i] !in smallMap {
        assert NoDuplicates(bigSlice) ==> bigSlice[i] !in bigSlice[..i];
        diff := diff + [bigSlice[i]];
      }
    }
    assert bigSlice[..|bigSlice|] == bigSlice;
  }

  // ---- The applications of the index ----

  /** A slot of the application table holds a stored node that is filed in that very slot. */
  ghost predicate FiledIn(apps: map<string, map<string, Node>>, nodes: map<UID, Node>) {
    forall space, name :: At2(apps, space, name).Some? ==>
      var n := At2(apps, space, name).value;
      n.uid in nodes && nodes[n.uid] == n && FiledAt(n, space, name)
  }

  ghost predicate FiledAt(n: Node, space: string, name: string) {
    KeyOf(n).Some? && KeyOf(n).value.namespace == space && KeyOf(n).value.name == name
  }

  ghost predicate FoundAt(apps: map<string, map<string, Node>>, u: UID, space: string, name: string) {
    At2(apps, space, name).Some? && At2(apps, space, name).value.uid == u
  }

  lemma OneSlotEach(apps: map<string, map<string, Node>>, nodes: map<UID, Node>, u: UID)
    requires FiledIn(apps, nodes)
    ensures forall sp, nm, sp', nm' :: FoundAt(apps, u, sp, nm) && FoundAt(apps, u, sp', nm') ==> sp == sp' && nm == nm'
  {
  }

  method ApplicationUIDs(apps: map<string, map<string, Node>>, ghost nodes: map<UID, Node>) returns (r: seq<UID>)
    requires FiledIn(apps, nodes)
    ensures NoDuplicates(r)
    ensures forall u :: u in r <==> exists space, name :: FoundAt(apps, u, space, name)
  {
    r := [];
    var spaces := apps.Keys;
    while spaces != {}
      invariant spaces <= apps.Keys
      invariant NoDuplicates(r)
      invariant forall u :: u in r ==>
        exists space, name :: space !in spaces && FoundAt(apps, u, space, name)
      invariant forall space, name :: space !in spaces && At2(apps, space, name).Some? ==>
        At2(apps, space, name).value.uid in r
    {
      var space :| space in spaces;
      var names := apps[space].Keys;
      while names != {}
        invariant names <= apps[space].Keys
        invariant NoDuplicates(r)
        invariant forall u :: u in r ==>
          exists sp, name :: (sp !in spaces || (sp == space && name !in names)) && FoundAt(apps, u, sp, name)
        invariant forall sp, name :: (sp !in spaces || (sp == space && name !in names)) && At2(apps, sp, name).Some? ==>
          At2(apps, sp, name).value.uid in r
      {
        var name :| name in names;
        var n := apps[space][name];
        assert At2(apps, space, name) == Some(n);
        assert FiledAt(n, space, name);
        assert FoundAt(apps, n.uid, space, name);
        OneSlotEach(apps, nodes, n.uid);
        assert n.uid !in r;
        r := r + [n.uid];
        names := names - {name};
      }
      spaces := spaces - {space};
    }
  }

  // ---- Comparing the new edges with the old ----

  predicate RowFiled(row: map<UID, Edge>, src: UID) {
    forall d :: d in row ==> row[d].Ends() == (src, d)
  }

  predicate InRow(row: map<UID, Edge>, src: UID, e: Edge) {
    e.src == src && e.dst in row && row[e.dst] == e
  }

  predicate Holds(t: EdgeTable, e: Edge) {
    InRow(Row(t, e.src), e.src, e)
  }

  lemma FiledRow(t: EdgeTable, src: UID)
    requires WellFiled(t) && src in t
    ensures RowFiled(t[src], src)
  {
    forall d | d in t[src] ensures t[src][d].Ends() == (src, d) {
      assert HasPair(t, (src, d));
    }
  }

  method MatchRow(src: UID, row: map<UID, Edge>, previous: map<UID, Edge>)
    returns (left: map<UID, Edge>, added: seq<Edge>)
    requires RowFiled(row, src)
    ensures left == previous - row.Keys
    ensures NoDuplicates(added)
    ensures forall e :: e in added <==> InRow(row, src, e) && e.dst !in previous
  {
    left := previous;
    added := [];
    var dsts := row.Keys;
    while dsts != {}
      invariant dsts <= row.Keys
      invariant left == previous - (row.Keys - dsts)
      invariant NoDuplicates(added)
      invariant forall e :: e in added <==> InRow(row, src, e) && e.dst !in dsts && e.dst !in previous
    {
      var dst :| dst in dsts;
      if dst in left {
        left := left - {dst};
      } else {
        added := added + [row[dst]];
      }
      dsts := dsts - {dst};
    }
  }

  /** Strikes from the old edges those that are still there, and lists the edges that are new. */
  method MatchEdges(newEdges: EdgeTable, previous: EdgeTable) returns (left: EdgeTable, addEdges: seq<Edge>)
    requires WellFiled(newEdges)
    ensures forall s :: Row(left, s) == Row(previous, s) - Row(newEdges, s).Keys
    ensures NoDuplicates(addEdges)
    ensures forall e :: e in addEdges <==> Holds(newEdges, e) && !HasPair(previous, e.Ends())
  {
    left := previous;
    addEdges := [];
    var srcs := newEdges.Keys;
    while srcs != {}
      invariant srcs <= newEdges.Keys
      invariant forall s :: s in srcs ==> Row(left, s) == Row(previous, s)
      invariant forall s :: s !in srcs ==> Row(left, s) == Row(previous, s) - Row(newEdges, s).Keys
      invariant NoDuplicates(addEdges)
      invariant forall e :: e in addEdges <==> Holds(newEdges, e) && e.src !in srcs && !HasPair(previous, e.Ends())
    {
      var src :| src in srcs;
      FiledRow(newEdges, src);
      var row, added := MatchRow(src, newEdges[src], Row(left, src));
      left := left[src := row];
      addEdges := addEdges + added;
      srcs := srcs - {src};
    }
  }

  /** Lists a row's edges unless one of their ends was deleted; a deleted source drops the whole row. */
  method LeftoverRow(src: UID, row: map<UID, Edge>, deleted: seq<UID>) returns (gone: seq<Edge>)
    requires RowFiled(row, src)
    ensures NoDuplicates(gone)
    ensures forall e :: e in gone <==> InRow(row, src, e) && !Touches(e.Ends(), deleted)
  {
    gone := [];
    var dsts := row.Keys;
    while dsts != {}
      invariant dsts <= row.Keys
      invariant NoDuplicates(gone)
      invariant forall e :: e in gone <==> InRow(row, src, e) && e.dst !in dsts && !Touches(e.Ends(), deleted)
    {
      var dst :| dst in dsts;
      var srcDeleted, destDeleted := false, false;
      for i := 0 to |deleted|
        invariant src !in deleted[..i] && !srcDeleted
        invariant destDeleted <==> dst in deleted[..i]
      {
        if src == deleted[i] {
          srcDeleted := true;
          break;
        } else if dst == deleted[i] {
          destDeleted := true;
        }
      }
      if srcDeleted {
        assert forall e :: InRow(row, src, e) ==> Touches(e.Ends(), deleted);
        break;
      }
      if !destDeleted {
        gone := gone + [row[dst]];
      }
      dsts := dsts - {dst};
    }
  }

  /** Lists what is left of the old edges, except those that a deleted node takes with it. */
  method LeftoverEdges(left: EdgeTable, deleted: seq<UID>) returns (deleteEdges: seq<Edge>)
    requires WellFiled(left)
    ensures NoDuplicates(deleteEdges)
    ensures forall e :: e in deleteEdges <==> Holds(left, e) && !Touches(e.Ends(), deleted)
  {
    deleteEdges := [];
    var srcs := left.Keys;
    while srcs != {}
      invariant srcs <= left.Keys
      invariant NoDuplicates(deleteEdges)
      invariant forall e :: e in deleteEdges <==> Holds(left, e) && e.src !in srcs && !Touches(e.Ends(), deleted)
    {
      var src :| src in srcs;
      FiledRow(left, src);
      var gone := LeftoverRow(src, left[src], deleted);
      deleteEdges := deleteEdges + gone;
      srcs := srcs - {src};
    }
  }

  // ---- The changed nodes ----

  predicate Awaits(diff: map<UID, NodeEvent>, op: Operation, n: Node) {
    n.uid in diff && diff[n.uid].op == op && diff[n.uid].node == n
  }

  lemma PendingEnumerated(list: seq<Node>, diff: map<UID, NodeEvent>, op: Operation)
    requires forall u :: u in diff ==> diff[u].node.uid == u
    requires NoDuplicates(list) && forall n :: n in list <==> Awaits(diff, op, n)
    ensures Enumerates(list, Pending(diff, op))
  {
    ListEnumerates(list, Pending(diff, op), (n: Node) => n.uid);
  }

  method FillNodes(diff: map<UID, NodeEvent>) returns (adds: seq<Node>, updates: seq<Node>, deletes: seq<UID>)
    requires forall u :: u in diff ==> diff[u].node.uid == u
    ensures Enumerates(adds, Pending(diff, Create))
    ensures Enumerates(updates, Pending(diff, Update))
    ensures |deletes| == |Pending(diff, Delete)|
    ensures forall u :: u in deletes <==> u in Pending(diff, Delete)
    ensures diff != map[] ==> adds != [] || updates != [] || deletes != []
  {
    adds, updates, deletes := [], [], [];
    var todo := diff.Keys;
    while todo != {}
      invariant todo <= diff.Keys
      invariant NoDuplicates(adds) && NoDuplicates(updates) && NoDuplicates(deletes)
      invariant forall n :: n in adds <==> Awaits(diff, Create, n) && n.uid !in todo
      invariant forall n :: n in updates <==> Awaits(diff, Update, n) && n.uid !in todo
      invariant forall u :: u in deletes <==> u in diff && diff[u].op == Delete && u !in todo
      invariant todo != diff.Keys ==> adds != [] || updates != [] || deletes != []
    {
      var u :| u in todo;
      match diff[u].op {
        case Create => adds := adds + [diff[u].node];
        case Update => updates := updates + [diff[u].node];
        case Delete => deletes := deletes + [u];
      }
      todo := todo - {u};
    }
    PendingEnumerated(adds, diff, Create);
    PendingEnumerated(updates, diff, Update);
    NoDuplicatesCounts(deletes, Pending(diff, Delete).Keys);
  }

  lemma HeldEdges(t: EdgeTable, e: Edge)
    requires WellFiled(t)
    ensures Holds(t, e) <==> e.Ends() in Flat(t) && Flat(t)[e.Ends()] == e
  {
  }

  lemma DropsEnumerated(before: EdgeTable, left: EdgeTable, after: EdgeTable, deleted: seq<UID>, list: seq<Edge>)
    requires WellFiled(before)
    requires forall s :: Row(left, s) == Row(before, s) - Row(after, s).Keys
    requires NoDuplicates(list)
    requires forall e :: e in list <==> Holds(left, e) && !Touches(e.Ends(), deleted)
    ensures Enumerates(list, DroppedEdges(before, after, deleted))
  {
    var m := DroppedEdges(before, after, deleted);
    forall e ensures e in list <==> e.Ends() in m && m[e.Ends()] == e {
      HeldEdges(before, e);
      assert Holds(left, e) <==> Holds(before, e) && !HasPair(after, e.Ends()) by {
        assert Row(left, e.src) == Row(before, e.src) - Row(after, e.src).Keys;
      }
    }
    ListEnumerates(list, m, (e: Edge) => e.Ends());
  }

  lemma LeftWellFiled(before: EdgeTable, left: EdgeTable, after: EdgeTable)
    requires WellFiled(before)
    requires forall s :: Row(left, s) == Row(before, s) - Row(after, s).Keys
    ensures WellFiled(left)
  {
    forall p | HasPair(left, p) ensures left[p.0][p.1].Ends() == p {
      assert Row(left, p.0) == Row(before, p.0) - Row(after, p.0).Keys;
      assert HasPair(before, p);
    }
  }

  lemma AddsEnumerated(before: EdgeTable, after: EdgeTable, list: seq<Edge>)
    requires WellFiled(after) && NoDuplicates(list)
    requires forall e :: e in list <==> Holds(after, e) && !HasPair(before, e.Ends())
    ensures Enumerates(list, AddedEdges(before, after))
  {
    forall e ensures e in list <==> e.Ends() in AddedEdges(before, after) && AddedEdges(before, after)[e.Ends()] == e {
      HeldEdges(after, e);
    }
    ListEnumerates(list, AddedEdges(before, after), (e: Edge) => e.Ends());
  }

  /** The part of consistency that the reports rely on. */
  ghost predicate Reportable(s: State) {
    && OwnUids(s.current) && s.fns.Keys == s.current.Keys
    && WellFiled(s.edges)
    && forall u :: u in s.diff ==> s.diff[u].node.uid == u
  }

  lemma ConsistentIsReportable(s: State)
    requires Consistent(s)
    ensures Reportable(s)
  {
    forall u | u in s.diff ensures s.diff[u].node.uid == u {
      assert DiffFits(s, u);
    }
  }

  // ---- The object ----

  class Reconciler {
    var currentNodes: map<UID, Node>
    var previousNodes: map<UID, Node>
    var diffNodes: map<UID, NodeEvent>
    var edgeFuncs: map<UID, EdgeFn>
    var previousEdges: EdgeTable
    var totalEdges: int
    var purgedNodes: Cache
    const common: CommonFn

    ghost function Contents(): State
      reads this
    {
      State(currentNodes, previousNodes, diffNodes, edgeFuncs, previousEdges, totalEdges, purgedNodes)
    }

    constructor (common: CommonFn)
      ensures Contents() == INITIAL && this.common == common
    {
      currentNodes := map[];
      previousNodes := map[];
      diffNodes := map[];
      edgeFuncs := map[];
      previousEdges := map[];
      totalEdges := 0;
      purgedNodes := [];
      this.common := common;
    }

    /** Takes one event in, or ignores it. A panic ends the process with the state as it was. */
    method ReconcileNode(ne: NodeEvent) returns (outcome: Outcome)
      modifies this
      ensures outcome == Judge(old(Contents()), ne)
      ensures Contents() == Reconcile(old(Contents()), ne)
    {
      hide Redundant, Find;
      var u := ne.node.uid;
      var (purged, touched) := Get(purgedNodes, u);
      purgedNodes := touched;

      if u in diffNodes && diffNodes[u].time > ne.time {
        return Stale;
      }
      if purged.Some? && purged.value.time >= ne.time {
        return Purged;
      }
      if ne.op == Delete {
        Remove(ne);
        return Deleted;
      }
      var inPrevious := u in previousNodes;
      if inPrevious && Redundant(ne.node, previousNodes[u]) {
        return Unchanged;
      }
      if ne.node.resource == "releases" {
        if inPrevious {
          outcome := AgainstHeld(Some(previousNodes[u]), ne.node);
          if outcome != Stored { return; }
        }
        if u in currentNodes {
          outcome := AgainstHeld(Some(currentNodes[u]), ne.node);
          if outcome != Stored { return; }
        }
      }
      Store(ne);
      return Stored;
    }

    method Remove(ne: NodeEvent)
      modifies this
      ensures Contents() == Settle(old(Contents()), ne, Deleted)
    {
      var u := ne.node.uid;
      currentNodes := currentNodes - {u};
      edgeFuncs := edgeFuncs - {u};
      purgedNodes := Add(purgedNodes, Tombstone(u, ne.time));
      if u in previousNodes {
        diffNodes := diffNodes[u := ne];
      } else {
        diffNodes := diffNodes - {u};
      }
    }

    method Store(event: NodeEvent)
      modifies this
      ensures Contents() == Settle(old(Contents()), event, Stored)
    {
      var ne := event.(op := Create);
      var u := ne.node.uid;
      if u in previousNodes {
        ne := ne.(op := Update);
      }
      currentNodes := currentNodes[u := ne.node];
      edgeFuncs := edgeFuncs[u := ne.computeEdges];
      diffNodes := diffNodes[u := ne];
    }

    /** Rebuilds the edges of every node and counts them. */
    method AllEdges() returns (ret: EdgeTable)
      requires OwnUids(currentNodes) && edgeFuncs.Keys == currentNodes.Keys
      modifies this`totalEdges
      ensures Built(ret, currentNodes, edgeFuncs, common) && WellFiled(ret)
      ensures FilesGivenBy(ret, currentNodes, edgeFuncs, common)
      ensures Contents() == old(Contents()).(totalEdges := |Flat(ret)|)
    {
      ret := BuildEdges(currentNodes, edgeFuncs, common);
      totalEdges := CountEdges(ret);
    }

    /** The changes since the last report; the snapshot then moves up to the present. */
    method Diff() returns (ret: Delta)
      requires Reportable(Contents())
      modifies this
      ensures IsDiff(old(Contents()), Contents(), ret, common)
      ensures ret.addNodes == [] && ret.updateNodes == [] && ret.deleteNodes == [] <==> old(diffNodes) == map[]
    {
      if diffNodes == map[] {
        return NO_CHANGES.(totalNodes := |currentNodes|, totalEdges := totalEdges);
      }
      ghost var s := Contents();
      var adds, updates, deletes := FillNodes(diffNodes);
      var newEdges := AllEdges();
      var addEdges, deleteEdges := CompareEdges(newEdges, previousEdges, deletes);
      MoveSnapshot(newEdges);
      ret := Delta(adds, updates, deletes, addEdges, deleteEdges, |currentNodes|, totalEdges);
      assert Contents() == Snapshot(s, newEdges, |Flat(newEdges)|);
    }

    /** Everything there is; the snapshot then moves up to the present. */
    method Complete() returns (ret: CompleteState)
      requires Reportable(Contents())
      modifies this
      ensures IsComplete(old(Contents()), Contents(), ret, common)
    {
      ghost var s := Contents();
      var allNodes := NodesInSomeOrder(currentNodes);
      var newEdges := AllEdges();
      var list := EdgesInSomeOrder(newEdges);
      MoveSnapshot(newEdges);
      ret := CompleteState(allNodes, list, |currentNodes|, totalEdges);
      assert Contents() == Snapshot(s, newEdges, |Flat(newEdges)|);
    }

    method MoveSnapshot(newEdges: EdgeTable)
      modifies this
      ensures Contents() == Snapshot(old(Contents()), newEdges, old(totalEdges))
    {
      previousEdges := newEdges;
      ResetDiffs();
    }

    /** Copies the current nodes into the snapshot, one by one. */
    method ResetDiffs()
      modifies this`diffNodes, this`previousNodes
      ensures diffNodes == map[] && previousNodes == currentNodes
    {
      diffNodes := map[];
      previousNodes := map[];
      var todo := currentNodes.Keys;
      while todo != {}
        invariant todo <= currentNodes.Keys && diffNodes == map[]
        invariant previousNodes == currentNodes - todo
      {
        var u :| u in todo;
        previousNodes := previousNodes[u := currentNodes[u]];
        todo := todo - {u};
      }
    }
  }

  /** Builds the index, orders the builders so that applications come first, and runs them. */
  method BuildEdges(nodes: map<UID, Node>, fns: map<UID, EdgeFn>, common: CommonFn) returns (ret: EdgeTable)
    requires OwnUids(nodes) && fns.Keys == nodes.Keys
    ensures Built(ret, nodes, fns, common) && WellFiled(ret)
    ensures FilesGivenBy(ret, nodes, fns, common)
  {
    var idx := NodesIndexMap(nodes);
    var ns := NodeStore(nodes, idx);
    var order := BuilderOrder(ns, fns);
    ret := RunBuilders(order, fns, common, ns);
    assert BuiltInOrder(ret, nodes, fns, common, idx, order);
    BuiltPairs(ret, nodes, fns, common, idx, order);
    BuiltFilesGiven(ret, nodes, fns, common, idx, order);
  }

  method BuilderOrder(ns: NodeStore, fns: map<UID, EdgeFn>) returns (order: seq<UID>)
    requires SoundStore(ns) && fns.Keys == ns.byUID.Keys
    ensures multiset(order) == multiset(fns.Keys) && ApplicationsFirst(order, ns.index)
    ensures forall u :: u in order ==> u in fns
  {
    var allUIDs := KeysInSomeOrder(fns);
    var apps := NodesByKind(ns, "Application");
    ApplicationsFiled(apps, ns);
    var appUIDs := ApplicationUIDs(apps, ns.byUID);
    var otherUIDs := SliceDiff(allUIDs, appUIDs);
    order := appUIDs + otherUIDs;
    OrderIsFair(order, appUIDs, otherUIDs, fns.Keys, apps, ns.index);
  }

  /** Splits the difference between old and new edges into those to add and those to delete. */
  method CompareEdges(newEdges: EdgeTable, previous: EdgeTable, deletes: seq<UID>)
    returns (addEdges: seq<Edge>, deleteEdges: seq<Edge>)
    requires WellFiled(newEdges) && WellFiled(previous)
    ensures Enumerates(addEdges, AddedEdges(previous, newEdges))
    ensures Enumerates(deleteEdges, DroppedEdges(previous, newEdges, deletes))
  {
    var left;
    left, addEdges := MatchEdges(newEdges, previous);
    LeftWellFiled(previous, left, newEdges);
    deleteEdges := LeftoverEdges(left, deletes);
    AddsEnumerated(previous, newEdges, addEdges);
    DropsEnumerated(previous, left, newEdges, deletes, deleteEdges);
  }

  /** Runs the builders in the given order; a later edge replaces an earlier one with the same ends. */
  method RunBuilders(order: seq<UID>, fns: map<UID, EdgeFn>, common: CommonFn, ns: NodeStore) returns (ret: EdgeTable)
    requires forall u :: u in order ==> u in fns
    ensures ret == PutAll(map[], EdgesInOrder(order, fns, common, ns))
  {
    ret := map[];
    assert order[..0] == [];
    for i := 0 to |order|
      invariant ret == PutAll(map[], EdgesInOrder(order[..i], fns, common, ns))
    {
      var uid := order[i];
      var edges := fns[uid](ns) + common(uid, ns);
      PutAllAppend(map[], EdgesInOrder(order[..i], fns, common, ns), edges);
      ret := FileEdges(ret, edges);
      assert order[..i + 1][..i] == order[..i];
    }
    assert order[..|order|] == order;
  }

  method FileEdges(t: EdgeTable, edges: seq<Edge>) returns (ret: EdgeTable)
    ensures ret == PutAll(t, edges)
  {
    ret := t;
    assert edges[..0] == [];
    for j := 0 to |edges|
      invariant ret == PutAll(t, edges[..j])
    {
      var edge := edges[j];
      if edge.src !in ret {
        ret := ret[edge.src := map[]];
      }
      ret := ret[edge.src := ret[edge.src][edge.dst := edge]];
      PutAllAppend(t, edges[..j], [edge]);
      assert edges[..j + 1] == edges[..j] + [edge];
    }
    assert edges[..|edges|] == edges;
  }

  method NodesInSomeOrder(nodes: map<UID, Node>) returns (r: seq<Node>)
    requires OwnUids(nodes)
    ensures Enumerates(r, nodes)
  {
    r := [];
    var todo := nodes.Keys;
    while todo != {}
      invariant todo <= nodes.Keys
      invariant NoDuplicates(r)
      invariant forall n :: n in r <==> n.uid in nodes && n.uid !in todo && nodes[n.uid] == n
    {
      var u :| u in todo;
      r := r + [nodes[u]];
      todo := todo - {u};
    }
    ListEnumerates(r, nodes, (n: Node) => n.uid);
  }

  method RowInSomeOrder(src: UID, row: map<UID, Edge>) returns (r: seq<Edge>)
    requires RowFiled(row, src)
    ensures NoDuplicates(r)
    ensures forall e :: e in r <==> InRow(row, src, e)
  {
    r := [];
    var dsts := row.Keys;
    while dsts != {}
      invariant dsts <= row.Keys
      invariant NoDuplicates(r)
      invariant forall e :: e in r <==> InRow(row, src, e) && e.dst !in dsts
    {
      var dst :| dst in dsts;
      r := r + [row[dst]];
      dsts := dsts - {dst};
    }
  }

  method EdgesInSomeOrder(t: EdgeTable) returns (r: seq<Edge>)
    requires WellFiled(t)
    ensures Enumerates(r, Flat(t))
  {
    r := [];
    var srcs := t.Keys;
    while srcs != {}
      invariant srcs <= t.Keys
      invariant NoDuplicates(r)
      invariant forall e :: e in r <==> Holds(t, e) && e.src !in srcs
    {
      var src :| src in srcs;
      FiledRow(t, src);
      var row := RowInSomeOrder(src, t[src]);
      assert forall e :: e in row ==> e !in r;
      r := r + row;
      srcs := srcs - {src};
    }
    forall e ensures e in r <==> e.Ends() in Flat(t) && Flat(t)[e.Ends()] == e {
      HeldEdges(t, e);
    }
    ListEnumerates(r, Flat(t), (e: Edge) => e.Ends());
  }

  lemma ApplicationsFiled(apps: map<string, map<string, Node>>, ns: NodeStore)
    requires SoundStore(ns)
    requires forall space, name :: At2(apps, space, name) == InLeastGroup(ns.index, "Application", space, name)
    ensures FiledIn(apps, ns.byUID)
  {
    hide At2, InLeastGroup, SoundStore, FiledAt;
    forall space, name | At2(apps, space, name).Some?
      ensures
        var n := At2(apps, space, name).value;
        n.uid in ns.byUID && ns.byUID[n.uid] == n && FiledAt(n, space, name)
    {
      ApplicationFiled(ns, space, name);
    }
  }

  lemma ApplicationFiled(ns: NodeStore, space: string, name: string)
    requires SoundStore(ns) && InLeastGroup(ns.index, "Application", space, name).Some?
    ensures
      var n := InLeastGroup(ns.index, "Application", space, name).value;
      n.uid in ns.byUID && ns.byUID[n.uid] == n && FiledAt(n, space, name)
  {
    hide At, Dense;
    var g :| LeastHit(ns.index, g, "Application", space, name)
      && InLeastGroup(ns.index, "Application", space, name) == At(ns.index, Key(g, "Application", space, name));
    var key := Key(g, "Application", space, name);
    var u :| Carries(ns.byUID, u, key) && ns.byUID[u] == At(ns.index, key).value;
  }

  lemma OrderIsFair(order: seq<UID>, appUIDs: seq<UID>, otherUIDs: seq<UID>, keys: set<UID>,
                    apps: map<string, map<string, Node>>, idx: Index)
    requires order == appUIDs + otherUIDs && NoDuplicates(appUIDs) && NoDuplicates(otherUIDs)
    requires forall u :: u in otherUIDs <==> u in keys && u !in appUIDs
    requires forall u :: u in appUIDs ==> u in keys
    requires forall u :: u in appUIDs <==> exists space, name :: FoundAt(apps, u, space, name)
    requires forall space, name :: At2(apps, space, name) == InLeastGroup(idx, "Application", space, name)
    ensures multiset(order) == multiset(keys) && ApplicationsFirst(order, idx)
    ensures forall u :: u in order ==> u in keys
  {
    assert NoDuplicates(order) by {
      forall i, j | 0 <= i < |appUIDs| <= j < |order| ensures order[i] != order[j] {
        assert order[j] in otherUIDs && order[i] in appUIDs;
      }
    }
    NoDuplicatesCounts(order, keys);
    forall u ensures ListedApplication(idx, u) <==> u in appUIDs {
      if space, name :| FoundAt(apps, u, space, name) {
        assert InLeastGroup(idx, "Application", space, name).value.uid == u;
      }
      if ListedApplication(idx, u) {
        var space, name :| InLeastGroup(idx, "Application", space, name).Some?
          && InLeastGroup(idx, "Application", space, name).value.uid == u;
        assert FoundAt(apps, u, space, name);
      }
    }
  }
}
