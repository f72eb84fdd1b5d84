/** What the reports do to a copy that matched the last one. */
module Replication {
  import opened Types
  import opened EdgeTables
  import opened ReconcilerState
  import opened Aggregator

  ghost function Wires(nodes: map<UID, Node>): map<UID, Resource> {
    map u | u in nodes :: Wire(nodes[u])
  }

  /** The copy holds exactly the nodes of the last report, and joins exactly its pairs. */
  ghost predicate Mirrors(a: Copy, s: State) {
    a.nodes == Wires(s.previous) && a.edges.Keys == Flat(s.edges).Keys
  }

  lemma MirrorCounts(a: Copy, s: State)
    requires Mirrors(a, s)
    ensures |a.nodes| == |s.previous| && |a.edges| == |Flat(s.edges)|
  {
    assert a.nodes.Keys == s.previous.Keys;
    assert |a.nodes.Keys| == |a.nodes| && |s.previous.Keys| == |s.previous|;
    assert |a.edges.Keys| == |a.edges| && |Flat(s.edges).Keys| == |Flat(s.edges)|;
  }

  // ---- Reading enumerations back ----

  lemma {:induction false} FindNodeIn(list: seq<Node>, u: UID)
    ensures FindNode(list, u).Some? ==> FindNode(list, u).value in list && FindNode(list, u).value.uid == u
    ensures FindNode(list, u).None? ==> forall n :: n in list ==> n.uid != u
  {
    if list != [] {
      var k := |list| - 1;
      FindNodeIn(list[..k], u);
      assert list[k] in list;
      assert forall n :: n in list <==> n in list[..k] || n == list[k];
    }
  }

  lemma FindNodeListed(list: seq<Node>, m: map<UID, Node>, u: UID)
    requires Enumerates(list, m) && OwnUids(m)
    ensures FindNode(list, u) == Lookup(m, u)
  {
    FindNodeIn(list, u);
    if u in m {
      assert m[u] in list;
    }
  }

  lemma FindEdgeListed(list: seq<Edge>, m: map<Pair, Edge>, q: Pair)
    requires Enumerates(list, m) && forall p :: p in m ==> m[p].Ends() == p
    ensures FindEdge(list, q) == Lookup(m, q)
  {
    FindEdgeJoins(list, q);
    if q in m {
      assert m[q] in list;
    }
  }

  // ---- What a delta's lists say, node by node and pair by pair ----

  /** At most one list names u, and taken with the last report they give u's current node. */
  ghost predicate NodeChange(p: Payload, previous: map<UID, Node>, current: map<UID, Node>, u: UID) {
    var added, updated := FindNode(p.addResources, u), FindNode(p.updatedResources, u);
    && (u in p.deletedResources ==> added.None? && updated.None? && u !in current)
    && (added.Some? ==> updated.None? && Lookup(current, u) == added)
    && (updated.Some? ==> Lookup(current, u) == updated)
    && (u !in p.deletedResources && added.None? && updated.None? ==> Lookup(current, u) == Lookup(previous, u))
  }

  ghost predicate EdgeChange(p: Payload, before: map<Pair, Edge>, after: map<Pair, Edge>, q: Pair) {
    && FindEdge(p.addEdges, q) == (if q in before then None else Lookup(after, q))
    && (Joins(p.deleteEdges, q) <==> q in before && q !in after && !Touches(q, p.deletedResources))
  }

  ghost predicate Changes(p: Payload, s: State, s': State) {
    && (forall u :: NodeChange(p, s.previous, s'.previous, u))
    && (forall q :: EdgeChange(p, Flat(s.edges), Flat(s'.edges), q))
  }

  lemma NodeListsChange(s: State, d: Delta, u: UID)
    requires ListsNodes(d, s.diff) && DiffFits(s, u)
    requires forall v :: v in s.diff ==> s.diff[v].node.uid == v
    ensures NodeChange(DeltaPayload(d), s.previous, s.current, u)
  {
    FindNodeListed(d.addNodes, Pending(s.diff, Create), u);
    FindNodeListed(d.updateNodes, Pending(s.diff, Update), u);
  }

  lemma EdgeListsChange(d: Delta, before: EdgeTable, after: EdgeTable, q: Pair)
    requires ListsEdges(d, before, after) && WellFiled(before) && WellFiled(after)
    ensures EdgeChange(DeltaPayload(d), Flat(before), Flat(after), q)
  {
    FindEdgeListed(d.addEdges, AddedEdges(before, after), q);
    FindEdgeListed(d.deleteEdges, DroppedEdges(before, after, d.deleteNodes), q);
    FindEdgeJoins(d.deleteEdges, q);
  }

  lemma BuiltWellFiled(t: EdgeTable, nodes: map<UID, Node>, fns: map<UID, EdgeFn>, common: CommonFn)
    requires Built(t, nodes, fns, common)
    ensures WellFiled(t)
  {
    var idx, order :| BuiltInOrder(t, nodes, fns, common, idx, order);
    BuiltPairs(t, nodes, fns, common, idx, order);
  }

  lemma DiffChanges(s: State, s': State, d: Delta, common: CommonFn)
    requires Consistent(s) && IsDiff(s, s', d, common) && s.diff != map[]
    ensures Changes(DeltaPayload(d), s, s')
  {
    BuiltWellFiled(s'.edges, s.current, s.fns, common);
    forall v | v in s.diff ensures s.diff[v].node.uid == v {
      assert DiffFits(s, v);
    }
    forall u ensures NodeChange(DeltaPayload(d), s.previous, s'.previous, u) {
      assert DiffFits(s, u);
      NodeListsChange(s, d, u);
    }
    forall q ensures EdgeChange(DeltaPayload(d), Flat(s.edges), Flat(s'.edges), q) {
      EdgeListsChange(d, s.edges, s'.edges, q);
    }
  }

  // ---- Applying it ----

  lemma ChangesDisjoint(p: Payload, s: State, s': State)
    requires Changes(p, s, s')
    ensures Disjoint(p)
  {
    forall u
      ensures FindNode(p.addResources, u).Some? ==> u !in p.deletedResources && FindNode(p.updatedResources, u).None?
      ensures FindNode(p.updatedResources, u).Some? ==> u !in p.deletedResources
    {
      assert NodeChange(p, s.previous, s'.previous, u);
    }
    forall q ensures Joins(p.addEdges, q) ==> !Joins(p.deleteEdges, q) {
      assert EdgeChange(p, Flat(s.edges), Flat(s'.edges), q);
      FindEdgeJoins(p.addEdges, q);
    }
  }

  lemma NodeUpToDate(p: Payload, s: State, s': State, a: Copy, u: UID)
    requires NodeChange(p, s.previous, s'.previous, u) && a.nodes == Wires(s.previous)
    ensures NodeAfter(a, p, ALL_PARTS, u) == Lookup(Wires(s'.previous), u)
  {
  }

  lemma EdgeUpToDate(p: Payload, before: map<Pair, Edge>, after: map<Pair, Edge>, a: Copy, q: Pair)
    requires EdgeChange(p, before, after, q) && a.edges.Keys == before.Keys
    ensures EdgeAfter(a, p, ALL_PARTS, q) ==
      if q !in after then None
      else if q !in before then Some(after[q])
      else if Touches(q, p.deletedResources) then None
      else Some(a.edges[q])
  {
    FindEdgeJoins(p.addEdges, q);
    assert q in a.edges.Keys <==> q in before.Keys;
  }

  lemma AppliedNodes(p: Payload, s: State, s': State, a: Copy)
    requires Changes(p, s, s') && !p.clearAll && a.nodes == Wires(s.previous)
    ensures Apply(a, p).nodes == Wires(s'.previous)
  {
    ChangesDisjoint(p, s, s');
    UsualOrderIsAfter(a, p);
    SameWires(Apply(a, p), a, p, s, s');
  }

  lemma SameWires(b: Copy, a: Copy, p: Payload, s: State, s': State)
    requires IsAfter(a, p, ALL_PARTS, b) && a.nodes == Wires(s.previous)
    requires forall u :: NodeChange(p, s.previous, s'.previous, u)
    ensures b.nodes == Wires(s'.previous)
  {
    forall u | u in b.nodes || u in Wires(s'.previous)
      ensures u in b.nodes && u in Wires(s'.previous) && b.nodes[u] == Wires(s'.previous)[u]
    {
      NodeUpToDate(p, s, s', a, u);
      assert Lookup(b.nodes, u) == Lookup(Wires(s'.previous), u);
    }
  }

  lemma AppliedEdge(p: Payload, s: State, s': State, a: Copy, q: Pair)
    requires Changes(p, s, s') && !p.clearAll && a.edges.Keys == Flat(s.edges).Keys
    ensures Lookup(Apply(a, p).edges, q) ==
      if q !in Flat(s'.edges) then None
      else if q !in Flat(s.edges) then Some(Flat(s'.edges)[q])
      else if Touches(q, p.deletedResources) then None
      else Some(a.edges[q])
  {
    ChangesDisjoint(p, s, s');
    UsualOrderIsAfter(a, p);
    assert Lookup(Apply(a, p).edges, q) == EdgeAfter(a, p, ALL_PARTS, q);
    EdgeUpToDate(p, Flat(s.edges), Flat(s'.edges), a, q);
  }

  /** No pair that is in both edge tables ends in a node that the delta deletes. */
  ghost predicate KeptAvoidDeleted(before: map<Pair, Edge>, after: map<Pair, Edge>, deleted: seq<UID>) {
    forall q :: q in before && q in after ==> !Touches(q, deleted)
  }

  lemma ChangesExactIff(p: Payload, s: State, s': State, a: Copy)
    requires Changes(p, s, s') && !p.clearAll && Mirrors(a, s)
    ensures Mirrors(Apply(a, p), s') <==> KeptAvoidDeleted(Flat(s.edges), Flat(s'.edges), p.deletedResources)
  {
    AppliedNodes(p, s, s', a);
    var b, before, after := Apply(a, p).edges, Flat(s.edges), Flat(s'.edges);
    forall q ensures q in b <==> q in after && !(q in before && Touches(q, p.deletedResources)) {
      AppliedEdge(p, s, s', a, q);
    }
    if KeptAvoidDeleted(before, after, p.deletedResources) {
      assert b.Keys == after.Keys;
    } else {
      var q :| q in before && q in after && Touches(q, p.deletedResources);
      assert q !in b.Keys && q in after.Keys;
    }
  }

  /**
   * For any edge builders at all: applying a delta to a copy of the last report gives a copy of the new one
   * exactly when no pair that both reports have ends in a deleted node. (Such a pair vanishes with the node,
   * and the delta, seeing it in both tables, does not send it.)
   */
  lemma DeltaExactIff(s: State, s': State, d: Delta, a: Copy, common: CommonFn)
    requires Consistent(s) && IsDiff(s, s', d, common) && s.diff != map[] && Mirrors(a, s)
    ensures Mirrors(Apply(a, DeltaPayload(d)), s') <==> KeptAvoidDeleted(Flat(s.edges), Flat(s'.edges), d.deleteNodes)
  {
    DiffChanges(s, s', d, common);
    ChangesExactIff(DeltaPayload(d), s, s', a);
  }

  ghost predicate SameDetails(before: map<Pair, Edge>, after: map<Pair, Edge>) {
    forall q :: q in before && q in after ==> before[q] == after[q]
  }

  /** A kept pair whose edge changed its type or kinds is not sent, so the copy keeps the edge it had. */
  lemma EdgeDetailsExactIff(s: State, s': State, d: Delta, a: Copy, common: CommonFn)
    requires Consistent(s) && IsDiff(s, s', d, common) && s.diff != map[]
    requires a.edges == Flat(s.edges) && KeptAvoidDeleted(Flat(s.edges), Flat(s'.edges), d.deleteNodes)
    ensures Apply(a, DeltaPayload(d)).edges == Flat(s'.edges) <==> SameDetails(Flat(s.edges), Flat(s'.edges))
  {
    hide IsDiff, Consistent, Apply, NodeChange, EdgeChange;
    DiffChanges(s, s', d, common);
    var b, before, after := Apply(a, DeltaPayload(d)).edges, Flat(s.edges), Flat(s'.edges);
    forall q ensures Lookup(b, q) == if q in after && q in before then Some(before[q]) else Lookup(after, q) {
      AppliedEdge(DeltaPayload(d), s, s', a, q);
    }
    KeptDetails(b, before, after);
  }

  lemma KeptDetails(b: map<Pair, Edge>, before: map<Pair, Edge>, after: map<Pair, Edge>)
    requires forall q :: Lookup(b, q) == if q in after && q in before then Some(before[q]) else Lookup(after, q)
    ensures b == after <==> SameDetails(before, after)
  {
    if SameDetails(before, after) {
      forall q | q in b || q in after ensures q in b && q in after && b[q] == after[q] {
        assert Lookup(b, q) == Lookup(after, q);
      }
    } else {
      var q :| q in before && q in after && before[q] != after[q];
      assert Lookup(b, q) != Lookup(after, q);
    }
  }

  /** When edge builders only name stored nodes, the new pairs never touch a deleted node. */
  lemma NewPairsAvoidDeleted(s: State, s': State, d: Delta, common: CommonFn)
    requires Consistent(s) && IsDiff(s, s', d, common) && s.diff != map[]
    requires BuildersNameStored(s.fns) && CommonNamesStored(common)
    ensures forall q :: q in Flat(s'.edges) ==> !Touches(q, d.deleteNodes)
  {
    BuiltPairsStored(s'.edges, s.current, s.fns, common);
    DiffChanges(s, s', d, common);
    forall u | u in d.deleteNodes ensures u !in s.current {
      assert NodeChange(DeltaPayload(d), s.previous, s'.previous, u);
    }
  }

  lemma ChangesAvoidDeleted(p: Payload, s: State, s': State)
    requires Changes(p, s, s') && forall q :: q in Flat(s'.edges) ==> !Touches(q, p.deletedResources)
    ensures AddsAvoidDeleted(p)
  {
    forall q | Joins(p.addEdges, q) ensures !Touches(q, p.deletedResources) {
      assert EdgeChange(p, Flat(s.edges), Flat(s'.edges), q);
      FindEdgeJoins(p.addEdges, q);
    }
  }

  /**
   * Then a delta brings a copy of the last report exactly up to date, and may be applied in any order
   * and repeatedly.
   */
  lemma DeltaExact(s: State, s': State, d: Delta, a: Copy, common: CommonFn)
    requires Consistent(s) && IsDiff(s, s', d, common) && Mirrors(a, s)
    requires BuildersNameStored(s.fns) && CommonNamesStored(common)
    ensures Mirrors(Apply(a, DeltaPayload(d)), s')
    ensures Disjoint(DeltaPayload(d)) && AddsAvoidDeleted(DeltaPayload(d))
  {
    var p := DeltaPayload(d);
    if s.diff == map[] {
      EmptyChangesNothing(a, p);
    } else {
      DiffChanges(s, s', d, common);
      NewPairsAvoidDeleted(s, s', d, common);
      ChangesDisjoint(p, s, s');
      ChangesExactIff(p, s, s', a);
      ChangesAvoidDeleted(p, s, s');
    }
  }

  /** The totals in a report are the sizes of the copy that mirrors it. */
  lemma DeltaTotals(s: State, s': State, d: Delta, b: Copy, common: CommonFn)
    requires Consistent(s) && IsDiff(s, s', d, common) && Mirrors(b, s')
    ensures |b.nodes| == d.totalNodes && |b.edges| == d.totalEdges
  {
    ReportsKeepConsistent(s, s', d, NOTHING, common);
    MirrorCounts(b, s');
  }

  const NOTHING := CompleteState([], [], 0, 0)

  lemma EmptyChangesNothing(a: Copy, p: Payload)
    requires p.Empty() && !p.clearAll
    ensures Apply(a, p) == a && Disjoint(p) && AddsAvoidDeleted(p)
  {
    UsualOrderIsAfter(a, p);
    assert IsAfter(a, p, ALL_PARTS, a);
    SameAfter(a, p, ALL_PARTS, Apply(a, p), a);
  }

  /** A payload is empty exactly when nothing was pending, so a skipped send skips no change. */
  lemma EmptyIffNothingPending(s: State, s': State, d: Delta, common: CommonFn)
    requires IsDiff(s, s', d, common)
    ensures DeltaPayload(d).Empty() <==> s.diff == map[]
  {
    hide Built, ListsEdges;
    if u :| u in s.diff {
      var op := s.diff[u].op;
      assert u in Pending(s.diff, op);
    }
  }

  // ---- The complete state ----

  ghost predicate AllThere(p: Payload, nodes: map<UID, Node>, edges: map<Pair, Edge>) {
    && p.clearAll && p.deletedResources == [] && p.updatedResources == [] && p.deleteEdges == []
    && (forall u :: FindNode(p.addResources, u) == Lookup(nodes, u))
    && (forall q :: FindEdge(p.addEdges, q) == Lookup(edges, q))
  }

  lemma AllThereApplied(p: Payload, nodes: map<UID, Node>, edges: map<Pair, Edge>, a: Copy)
    requires AllThere(p, nodes, edges)
    ensures Apply(a, p).nodes == Wires(nodes) && Apply(a, p).edges == edges
  {
    UsualOrderIsAfter(EMPTY, p);
    var b := Apply(a, p);
    forall u | u in b.nodes || u in Wires(nodes)
      ensures u in b.nodes && u in Wires(nodes) && b.nodes[u] == Wires(nodes)[u]
    {
      assert Lookup(b.nodes, u) == NodeAfter(EMPTY, p, ALL_PARTS, u);
      assert FindNode(p.addResources, u) == Lookup(nodes, u);
    }
    forall q | q in b.edges || q in edges
      ensures q in b.edges && q in edges && b.edges[q] == edges[q]
    {
      assert Lookup(b.edges, q) == EdgeAfter(EMPTY, p, ALL_PARTS, q);
      assert FindEdge(p.addEdges, q) == Lookup(edges, q);
    }
  }

  lemma CompleteIsAllThere(nodes: map<UID, Node>, t: EdgeTable, c: CompleteState)
    requires OwnUids(nodes) && WellFiled(t) && Enumerates(c.nodes, nodes) && Enumerates(c.edges, Flat(t))
    ensures AllThere(CompletePayload(c), nodes, Flat(t))
  {
    forall u ensures FindNode(c.nodes, u) == Lookup(nodes, u) {
      FindNodeListed(c.nodes, nodes, u);
    }
    forall q ensures FindEdge(c.edges, q) == Lookup(Flat(t), q) {
      FindEdgeListed(c.edges, Flat(t), q);
    }
  }

  /** A complete payload makes a copy of the report out of whatever was there before, edge details included. */
  lemma CompleteExact(s: State, s': State, c: CompleteState, a: Copy, common: CommonFn)
    requires Consistent(s) && IsComplete(s, s', c, common)
    ensures Mirrors(Apply(a, CompletePayload(c)), s') && Apply(a, CompletePayload(c)).edges == Flat(s'.edges)
  {
    BuiltWellFiled(s'.edges, s.current, s.fns, common);
    CompleteIsAllThere(s.current, s'.edges, c);
    AllThereApplied(CompletePayload(c), s.current, Flat(s'.edges), a);
  }

  lemma CompleteTotals(s: State, s': State, c: CompleteState, b: Copy, common: CommonFn)
    requires IsComplete(s, s', c, common) && Mirrors(b, s')
    ensures |b.nodes| == c.totalNodes && |b.edges| == c.totalEdges
  {
    MirrorCounts(b, s');
  }
}
