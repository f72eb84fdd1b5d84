/** Payloads of which the aggregator cannot apply some items, and what its answer's totals then say. */
module PartialDelivery {
  import opened Types
  import opened EdgeTables
  import opened ReconcilerState
  import opened Aggregator
  import opened Replication
  import opened SyncProtocol

  /** The items that an answer lists as failed: resources by their UIDs, edges by their ends. */
  datatype Failures = Failures(
    adds: set<UID>,
    updates: set<UID>,
    deletes: set<UID>,
    addEdges: set<Pair>,
    deleteEdges: set<Pair>)

  function Filter<T>(list: seq<T>, keep: T -> bool): seq<T> {
    if list == [] then []
    else
      Filter(list[..|list| - 1], keep) + if keep(list[|list| - 1]) then [list[|list| - 1]] else []
  }

  /** The payload without the failed items. */
  function Delivered(p: Payload, f: Failures): Payload {
    p.(
      addResources := Filter(p.addResources, (n: Node) => n.uid !in f.adds),
      updatedResources := Filter(p.updatedResources, (n: Node) => n.uid !in f.updates),
      deletedResources := Filter(p.deletedResources, u => u !in f.deletes),
      addEdges := Filter(p.addEdges, (e: Edge) => e.Ends() !in f.addEdges),
      deleteEdges := Filter(p.deleteEdges, (e: Edge) => e.Ends() !in f.deleteEdges))
  }

  /** Only items of the payload fail. */
  ghost predicate FailuresOf(f: Failures, p: Payload) {
    && (forall u :: u in f.adds ==> FindNode(p.addResources, u).Some?)
    && (forall u :: u in f.updates ==> FindNode(p.updatedResources, u).Some?)
    && (forall u :: u in f.deletes ==> u in p.deletedResources)
    && (forall q :: q in f.addEdges ==> Joins(p.addEdges, q))
    && (forall q :: q in f.deleteEdges ==> Joins(p.deleteEdges, q))
  }

  /** The answer lists each failed item once. */
  predicate Lists(r: SyncResponse, f: Failures) {
    && r.addErrors == |f.adds| && r.updateErrors == |f.updates| && r.deleteErrors == |f.deletes|
    && r.addEdgeErrors == |f.addEdges| && r.deleteEdgeErrors == |f.deleteEdges|
  }

  /** The payload suits the copy: it adds what is not there, and updates and deletes what is. */
  ghost predicate Suits(p: Payload, base: Copy) {
    && Disjoint(p) && AddsAvoidDeleted(p)
    && (forall u :: FindNode(p.addResources, u).Some? ==> u !in base.nodes)
    && (forall u :: FindNode(p.updatedResources, u).Some? ==> u in base.nodes)
    && (forall u :: u in p.deletedResources ==> u in base.nodes)
    && (forall q :: Joins(p.addEdges, q) ==> q !in base.edges)
    && (forall q :: Joins(p.deleteEdges, q) ==> q in base.edges && !Touches(q, p.deletedResources))
  }

  /** Where the payload starts from. */
  function Base(a: Copy, p: Payload): Copy {
    if p.clearAll then EMPTY else a
  }

  /** An edge that should vanish with its deleted ends, all of which are still there. */
  ghost predicate IsStranded(q: Pair, base: Copy, p: Payload, f: Failures) {
    && q in base.edges && Touches(q, p.deletedResources) && !Joins(p.deleteEdges, q)
    && (q.0 in p.deletedResources ==> q.0 in f.deletes)
    && (q.1 in p.deletedResources ==> q.1 in f.deletes)
  }

  ghost function Stranded(base: Copy, p: Payload, f: Failures): set<Pair> {
    set q | q in base.edges && IsStranded(q, base, p, f)
  }

  // ---- The payload without the failed items ----

  lemma {:induction false} FilterKeeps<T>(list: seq<T>, keep: T -> bool, x: T)
    ensures x in Filter(list, keep) <==> x in list && keep(x)
  {
    if list != [] {
      var n := |list| - 1;
      FilterKeeps(list[..n], keep, x);
      assert x in list <==> x in list[..n] || x == list[n];
    }
  }

  lemma {:induction false} FindDelivered(list: seq<Node>, failed: set<UID>, u: UID)
    ensures FindNode(Filter(list, (n: Node) => n.uid !in failed), u) ==
              if u in failed then None else FindNode(list, u)
  {
    if list != [] {
      var n := |list| - 1;
      var most := Filter(list[..n], (n: Node) => n.uid !in failed);
      FindDelivered(list[..n], failed, u);
      assert most + [] == most && (most + [list[n]])[..|most|] == most;
    }
  }

  lemma JoinsDelivered(list: seq<Edge>, failed: set<Pair>, q: Pair)
    ensures Joins(Filter(list, (e: Edge) => e.Ends() !in failed), q) <==> Joins(list, q) && q !in failed
  {
    var keep := (e: Edge) => e.Ends() !in failed;
    if e :| e in list && e.Ends() == q {
      FilterKeeps(list, keep, e);
    }
    if e :| e in Filter(list, keep) && e.Ends() == q {
      FilterKeeps(list, keep, e);
    }
  }

  lemma DeliveredNode(p: Payload, f: Failures, u: UID)
    ensures
      var part := Delivered(p, f);
      && (FindNode(part.addResources, u).Some? <==> FindNode(p.addResources, u).Some? && u !in f.adds)
      && (FindNode(part.updatedResources, u).Some? <==> FindNode(p.updatedResources, u).Some? && u !in f.updates)
      && (u in part.deletedResources <==> u in p.deletedResources && u !in f.deletes)
  {
    FindDelivered(p.addResources, f.adds, u);
    FindDelivered(p.updatedResources, f.updates, u);
    FilterKeeps(p.deletedResources, u => u !in f.deletes, u);
  }

  lemma DeliveredPair(p: Payload, f: Failures, q: Pair)
    ensures
      var part := Delivered(p, f);
      && (Joins(part.addEdges, q) <==> Joins(p.addEdges, q) && q !in f.addEdges)
      && (Joins(part.deleteEdges, q) <==> Joins(p.deleteEdges, q) && q !in f.deleteEdges)
  {
    JoinsDelivered(p.addEdges, f.addEdges, q);
    JoinsDelivered(p.deleteEdges, f.deleteEdges, q);
  }

  lemma DeliveredDisjoint(p: Payload, f: Failures)
    requires Disjoint(p)
    ensures Disjoint(Delivered(p, f))
  {
    hide Delivered, Joins;
    var part := Delivered(p, f);
    forall u
      ensures FindNode(part.addResources, u).Some? ==>
                u !in part.deletedResources && FindNode(part.updatedResources, u).None?
      ensures FindNode(part.updatedResources, u).Some? ==> u !in part.deletedResources
    {
      DeliveredNode(p, f, u);
    }
    forall q ensures Joins(part.addEdges, q) ==> !Joins(part.deleteEdges, q) {
      DeliveredPair(p, f, q);
    }
  }

  // ---- The keys of the copy afterwards ----

  lemma NodeThere(a: Copy, p: Payload, u: UID)
    requires Disjoint(p)
    ensures u in Apply(a, p).nodes <==>
      && u !in p.deletedResources
      && (|| FindNode(p.addResources, u).Some? || FindNode(p.updatedResources, u).Some?
          || u in Base(a, p).nodes)
  {
    UsualOrderIsAfter(Base(a, p), p);
    assert Lookup(Apply(a, p).nodes, u) == NodeAfter(Base(a, p), p, ALL_PARTS, u);
  }

  lemma PairThere(a: Copy, p: Payload, q: Pair)
    requires Disjoint(p)
    ensures q in Apply(a, p).edges <==>
      || Joins(p.addEdges, q)
      || (!Joins(p.deleteEdges, q) && !Touches(q, p.deletedResources) && q in Base(a, p).edges)
  {
    UsualOrderIsAfter(Base(a, p), p);
    FindEdgeJoins(p.addEdges, q);
    assert Lookup(Apply(a, p).edges, q) == EdgeAfter(Base(a, p), p, ALL_PARTS, q);
  }

  lemma NodesShort(a: Copy, p: Payload, f: Failures)
    requires Suits(p, Base(a, p)) && FailuresOf(f, p)
    ensures
      var full, part := Apply(a, p).nodes.Keys, Apply(a, Delivered(p, f)).nodes.Keys;
      part == full - f.adds + f.deletes && f.adds <= full && f.deletes !! full
  {
    hide Delivered, Apply, Suits, FailuresOf;
    var full, part := Apply(a, p).nodes.Keys, Apply(a, Delivered(p, f)).nodes.Keys;
    forall u
      ensures u in part <==> (u in full && u !in f.adds) || u in f.deletes
      ensures (u in f.adds ==> u in full) && (u in f.deletes ==> u !in full)
    {
      NodeShort(a, p, f, u);
    }
  }

  lemma NodeShort(a: Copy, p: Payload, f: Failures, u: UID)
    requires Suits(p, Base(a, p)) && FailuresOf(f, p)
    ensures
      var full, part := Apply(a, p).nodes, Apply(a, Delivered(p, f)).nodes;
      && (u in part <==> (u in full && u !in f.adds) || u in f.deletes)
      && (u in f.adds ==> u in full) && (u in f.deletes ==> u !in full)
  {
    hide Apply;
    DeliveredDisjoint(p, f);
    NodeThere(a, p, u);
    NodeThere(a, Delivered(p, f), u);
    DeliveredNode(p, f, u);
  }

  lemma EdgesShort(a: Copy, p: Payload, f: Failures)
    requires Suits(p, Base(a, p)) && FailuresOf(f, p)
    ensures
      var full, part := Apply(a, p).edges.Keys, Apply(a, Delivered(p, f)).edges.Keys;
      var stranded := Stranded(Base(a, p), p, f);
      && part == full - f.addEdges + f.deleteEdges + stranded
      && f.addEdges <= full && f.deleteEdges !! full && stranded !! full + f.deleteEdges
  {
    hide Delivered, Apply, Suits, FailuresOf, IsStranded;
    var full, part := Apply(a, p).edges.Keys, Apply(a, Delivered(p, f)).edges.Keys;
    forall q
      ensures q in part <==>
                || (q in full && q !in f.addEdges) || q in f.deleteEdges || IsStranded(q, Base(a, p), p, f)
      ensures (q in f.addEdges ==> q in full) && (q in f.deleteEdges ==> q !in full)
      ensures IsStranded(q, Base(a, p), p, f) ==> q !in full && q !in f.deleteEdges && q in Base(a, p).edges
    {
      EdgeShort(a, p, f, q);
    }
  }

  lemma EdgeShort(a: Copy, p: Payload, f: Failures, q: Pair)
    requires Suits(p, Base(a, p)) && FailuresOf(f, p)
    ensures
      var full, part, stranded := Apply(a, p).edges, Apply(a, Delivered(p, f)).edges, IsStranded(q, Base(a, p), p, f);
      && (q in part <==> (q in full && q !in f.addEdges) || q in f.deleteEdges || stranded)
      && (q in f.addEdges ==> q in full) && (q in f.deleteEdges ==> q !in full)
      && (stranded ==> q !in full && q !in f.deleteEdges && q in Base(a, p).edges)
  {
    hide Apply, Joins;
    DeliveredDisjoint(p, f);
    PairThere(a, p, q);
    PairThere(a, Delivered(p, f), q);
    DeliveredPair(p, f, q);
    DeliveredNode(p, f, q.0);
    DeliveredNode(p, f, q.1);
  }

  /** How far the true sizes are from those of a full delivery. */
  lemma SizesOfPart(a: Copy, p: Payload, f: Failures)
    requires Suits(p, Base(a, p)) && FailuresOf(f, p)
    ensures
      var full, part := Apply(a, p), Apply(a, Delivered(p, f));
      && |part.nodes| == |full.nodes| - |f.adds| + |f.deletes|
      && |part.edges| == |full.edges| - |f.addEdges| + |f.deleteEdges| + |Stranded(Base(a, p), p, f)|
  {
    hide Apply, Delivered, Stranded, Suits, FailuresOf;
    NodesShort(a, p, f);
    EdgesShort(a, p, f);
    var full, part := Apply(a, p), Apply(a, Delivered(p, f));
    assert |part.nodes| == |part.nodes.Keys| && |full.nodes| == |full.nodes.Keys|;
    assert |part.edges| == |part.edges.Keys| && |full.edges| == |full.edges.Keys|;
  }

  // ---- What the sender makes of the answer ----

  /** A delta suits a copy of the last report, and a complete payload suits the emptied copy. */
  lemma DeltaSuits(s: State, s': State, d: Delta, a: Copy, common: CommonFn)
    requires Consistent(s) && IsDiff(s, s', d, common) && Mirrors(a, s)
    requires BuildersNameStored(s.fns) && CommonNamesStored(common)
    ensures Suits(DeltaPayload(d), a)
  {
    hide Built, BuildersNameStored, CommonNamesStored, Mirrors, ListsEdges, Disjoint, AddsAvoidDeleted, Joins, Changes,
      FindNode, Consistent, ListsNodes;
    var p := DeltaPayload(d);
    DeltaExact(s, s', d, a, common);
    if s.diff == map[] {
      NothingSuits(p, a);
    } else {
      DiffChanges(s, s', d, common);
      forall u
        ensures FindNode(p.addResources, u).Some? ==> u !in a.nodes
        ensures FindNode(p.updatedResources, u).Some? || u in p.deletedResources ==> u in a.nodes
      {
        DeltaNodeSuits(s, d, a, u);
      }
      forall q
        ensures Joins(p.addEdges, q) ==> q !in a.edges
        ensures Joins(p.deleteEdges, q) ==> q in a.edges && !Touches(q, p.deletedResources)
      {
        DeltaPairSuits(p, s, s', a, q);
      }
    }
  }

  lemma NothingSuits(p: Payload, a: Copy)
    requires p.Empty()
    ensures Suits(p, a)
  {
  }

  lemma DeltaNodeSuits(s: State, d: Delta, a: Copy, u: UID)
    requires Consistent(s) && ListsNodes(d, s.diff) && Mirrors(a, s)
    ensures FindNode(d.addNodes, u).Some? ==> u !in a.nodes
    ensures FindNode(d.updateNodes, u).Some? || u in d.deleteNodes ==> u in a.nodes
  {
    forall v | v in s.diff ensures s.diff[v].node.uid == v {
      assert DiffFits(s, v);
    }
    assert DiffFits(s, u);
    FindNodeListed(d.addNodes, Pending(s.diff, Create), u);
    FindNodeListed(d.updateNodes, Pending(s.diff, Update), u);
  }

  lemma DeltaPairSuits(p: Payload, s: State, s': State, a: Copy, q: Pair)
    requires Changes(p, s, s') && Mirrors(a, s)
    ensures Joins(p.addEdges, q) ==> q !in a.edges
    ensures Joins(p.deleteEdges, q) ==> q in a.edges && !Touches(q, p.deletedResources)
  {
    assert EdgeChange(p, Flat(s.edges), Flat(s'.edges), q);
    FindEdgeJoins(p.addEdges, q);
    assert q in a.edges.Keys <==> q in Flat(s.edges).Keys;
  }

  lemma CompleteSuits(c: CompleteState)
    ensures Suits(CompletePayload(c), EMPTY)
  {
  }

  /**
   * The size checks see through failed items: whatever items of a payload fail, the answer that lists them is
   * accepted if and only if it gives the copy's true sizes, but for the edges that should have vanished with
   * nodes whose deletion failed. Those the checks do not allow for.
   */
  lemma AcceptedIffTrueSizes(c: Config, f: Failures, r: SyncResponse, now: int, accepted: bool, c': Config,
                             common: CommonFn)
    requires c.phase.Sending? && Deliverable(c) && Suits(c.phase.payload, Base(c.copy, c.phase.payload))
    requires FailuresOf(f, c.phase.payload) && Lists(r, f)
    requires Next(c, Hear(Answered(r, Apply(c.copy, Delivered(c.phase.payload, f))), now, accepted), c', common)
    ensures accepted <==>
      && r.totalResources == |c'.copy.nodes|
      && r.totalEdges == |c'.copy.edges| - |Stranded(Base(c.copy, c.phase.payload), c.phase.payload, f)|
    ensures accepted ==> c'.phase == Idle && c'.lastSent == now
    ensures !accepted ==> c'.phase == NeedComplete || (c'.phase == Idle && c'.lastSent == -1)
  {
    hide Apply, Delivered, Suits, FailuresOf, Stranded, Base, Mirrors, Next;
    HeardAnswer(c, r, Apply(c.copy, Delivered(c.phase.payload, f)), now, accepted, c', common);
    SizesOfPart(c.copy, c.phase.payload, f);
    MirrorCounts(Apply(c.copy, c.phase.payload), c.rec);
  }

  lemma HeardAnswer(c: Config, r: SyncResponse, left: Copy, now: int, accepted: bool, c': Config, common: CommonFn)
    requires Next(c, Hear(Answered(r, left), now, accepted), c', common)
    ensures c.phase.Sending? && c'.copy == left
    ensures accepted <==>
      && r.totalResources - c.phase.totalResources == r.deleteErrors - r.addErrors
      && r.totalEdges - c.phase.totalEdges == r.deleteEdgeErrors - r.addEdgeErrors
    ensures accepted ==> c'.phase == Idle && c'.lastSent == now
    ensures !accepted ==> c'.phase == NeedComplete || (c'.phase == Idle && c'.lastSent == -1)
  {
  }

  /**
   * So for a delta, however many of its items fail and whatever arrives in between: unless an edge is left at a
   * node that should be gone, exactly the truth is accepted; and if one is left, the truth is refused.
   */
  lemma TruthAboutDeltaAcceptedIff(start: Config, begun: Config, d: Delta, quiet: bool, c: Config, f: Failures,
                                   r: SyncResponse, now: int, accepted: bool, c': Config, common: CommonFn)
    requires Inv(start) && CommonNamesStored(common) && start.phase == Idle && start.lastSent != -1
    requires StartsDelta(start, begun, d, quiet, common) && begun.phase.Sending?
    requires c == begun.(rec := c.rec) && c.rec.previous == begun.rec.previous && c.rec.edges == begun.rec.edges
    requires FailuresOf(f, DeltaPayload(d)) && Lists(r, f)
    requires Next(c, Hear(Answered(r, Apply(c.copy, Delivered(DeltaPayload(d), f))), now, accepted), c', common)
    ensures
      var truth := r.totalResources == |c'.copy.nodes| && r.totalEdges == |c'.copy.edges|;
      if Stranded(c.copy, DeltaPayload(d), f) == {} then accepted <==> truth else accepted ==> !truth
  {
    hide Next, IsDiff, Consistent, BuildersNameStored, CommonNamesStored, FailuresOf, Suits, Delivered, Apply,
      IsStranded;
    StartedDelta(start, begun, d, quiet, common);
    DeltaSuits(start.rec, begun.rec, d, start.copy, common);
    AcceptedIffTrueSizes(c, f, r, now, accepted, c', common);
    assert |Stranded(c.copy, DeltaPayload(d), f)| == 0 <==> Stranded(c.copy, DeltaPayload(d), f) == {};
  }

  /** A complete payload deletes nothing, so the truth about it is always accepted and anything else refused. */
  lemma TruthAboutCompleteAcceptedIff(start: Config, begun: Config, full: CompleteState, c: Config, f: Failures,
                                      r: SyncResponse, now: int, accepted: bool, c': Config, common: CommonFn)
    requires Inv(start) && StartsComplete(start, begun, full, common)
    requires c.phase == begun.phase && c.rec.previous == begun.rec.previous && c.rec.edges == begun.rec.edges
    requires FailuresOf(f, CompletePayload(full)) && Lists(r, f)
    requires Next(c, Hear(Answered(r, Apply(c.copy, Delivered(CompletePayload(full), f))), now, accepted), c', common)
    ensures accepted <==> r.totalResources == |c'.copy.nodes| && r.totalEdges == |c'.copy.edges|
  {
    hide Next, IsComplete, Consistent, BuildersNameStored, FailuresOf, Suits, Delivered, Apply, IsStranded;
    CompleteExact(start.rec, begun.rec, full, c.copy, common);
    ApplyTwice(c.copy, CompletePayload(full));
    CompleteTotals(start.rec, begun.rec, full, Apply(c.copy, CompletePayload(full)), common);
    MirrorCounts(Apply(c.copy, CompletePayload(full)), begun.rec);
    CompleteSuits(full);
    AcceptedIffTrueSizes(c, f, r, now, accepted, c', common);
    NothingStranded(full, f);
  }

  lemma NothingStranded(full: CompleteState, f: Failures)
    ensures Stranded(EMPTY, CompletePayload(full), f) == {}
  {
  }
}
