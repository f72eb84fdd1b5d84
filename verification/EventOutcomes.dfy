/** What one node event does to the reconciler, told from the event, the last report and what is remembered. */
module EventOutcomes {
  import opened Types
  import opened TombstoneCache
  import opened ReconcilerState
  import opened Aggregator
  import opened Replication

  /** A later change of the node is pending, or it was deleted at the same time or later. */
  ghost predicate Superseded(s: State, ev: NodeEvent) {
    || (ev.node.uid in s.diff && ev.time < s.diff[ev.node.uid].time)
    || exists t :: t in s.purged && t.uid == ev.node.uid && ev.time <= t.time
  }

  /** Taking in the event put its node and its edge builder in place, to be reported. */
  ghost predicate TakesUp(s: State, ev: NodeEvent, after: State) {
    var u := ev.node.uid;
    && after.current == s.current[u := ev.node]
    && after.fns == s.fns[u := ev.computeEdges]
    && after.diff ==
       s.diff[u := NodeEvent(ev.node, ev.computeEdges, ev.time, if u in s.previous then Update else Create)]
    && after.previous == s.previous && after.edges == s.edges && after.totalEdges == s.totalEdges
    && multiset(after.purged) == multiset(s.purged)
  }

  /** Nothing changed, except that the node's tombstone may have moved to the front. */
  ghost predicate PassesOver(s: State, after: State) {
    after == s.(purged := after.purged) && multiset(after.purged) == multiset(s.purged)
  }

  lemma SupersededFound(s: State, ev: NodeEvent)
    requires OneEach(s.purged)
    ensures
      var tomb := Find(s.purged, ev.node.uid);
      Superseded(s, ev) <==>
        || (ev.node.uid in s.diff && s.diff[ev.node.uid].time > ev.time)
        || (tomb.Some? && tomb.value.time >= ev.time)
  {
    var tomb := Find(s.purged, ev.node.uid);
    forall t | t in s.purged && t.uid == ev.node.uid ensures tomb == Some(t) {
      assert Has(s.purged, ev.node.uid);
    }
  }

  lemma {:induction false} WithoutElements(c: Cache, u: UID)
    requires OneEach(c)
    ensures match Find(c, u)
            case None => TombstoneCache.Without(c, u) == c
            case Some(t) => multiset([t] + TombstoneCache.Without(c, u)) == multiset(c)
  {
    if c != [] {
      assert c == [c[0]] + c[1..];
      WithoutElements(c[1..], u);
      if c[0].uid == u {
        assert Find(c[1..], u).None?;
      }
    }
  }

  lemma LookingUpKeeps(c: Cache, u: UID)
    requires OneEach(c)
    ensures multiset(Get(c, u).1) == multiset(c)
  {
    WithoutElements(c, u);
  }

  /** Of a node's events, one that is older than what is pending, or no newer than its deletion, does nothing. */
  lemma SupersededPassedOver(s: State, ev: NodeEvent)
    requires OneEach(s.purged) && Superseded(s, ev)
    ensures PassesOver(s, Reconcile(s, ev))
  {
    hide Redundant, AgainstHeld;
    SupersededFound(s, ev);
    LookingUpKeeps(s.purged, ev.node.uid);
  }

  /** Any other delete removes the node and its builder, is reported if the node was, and leaves a tombstone. */
  lemma DeleteIsTaken(s: State, ev: NodeEvent)
    requires OneEach(s.purged) && !Superseded(s, ev) && ev.op == Delete
    ensures
      var u, after := ev.node.uid, Reconcile(s, ev);
      && after.current == s.current - {u} && after.fns == s.fns - {u}
      && after.diff == (if u in s.previous then s.diff[u := ev] else s.diff - {u})
      && after.previous == s.previous && after.edges == s.edges && after.totalEdges == s.totalEdges
      && after.purged != [] && after.purged[0] == Tombstone(u, ev.time)
  {
    hide Redundant, AgainstHeld, Get;
    SupersededFound(s, ev);
  }

  /** An upsert of a node that was not reported, or was reported with other properties, is taken up. */
  lemma NewPropertiesAreTakenUp(s: State, ev: NodeEvent)
    requires OneEach(s.purged) && !Superseded(s, ev) && ev.op != Delete && ev.node.resource != "releases"
    requires ev.node.uid in s.previous ==> s.previous[ev.node.uid].props != ev.node.props
    ensures TakesUp(s, ev, Reconcile(s, ev))
  {
    hide AgainstHeld, Get, KindIn;
    SupersededFound(s, ev);
    LookingUpKeeps(s.purged, ev.node.uid);
  }

  /** With the properties as reported, what may still be new: the metadata from which edges are built. */
  ghost predicate EdgesMayDiffer(n: Node, last: Node) {
    var kind := Lookup(n.props, "kind");
    || kind == Some(Str("Application"))
    || kind == Some(Str("Subscription"))
    || (kind == Some(Str("ValidatingAdmissionPolicyBinding"))
        && Lookup(n.meta, "paramRef") != Lookup(last.meta, "paramRef"))
    || ((|| kind == Some(Str("CertificatePolicy")) || kind == Some(Str("ConfigurationPolicy"))
         || kind == Some(Str("OperatorPolicy"))
         || Lookup(n.props, "apigroup") == Some(Str("constraints.gatekeeper.sh")))
        && Lookup(n.meta, "relObjs") != Lookup(last.meta, "relObjs"))
  }

  lemma NothingDiffers(n: Node, last: Node)
    requires n.props == last.props
    ensures Redundant(n, last) <==> !EdgesMayDiffer(n, last)
  {
    var kind := Lookup(n.props, "kind");
    assert forall k, kinds :: k in kinds && kind == Some(Str(k)) ==> KindIn(n, kinds);
    assert forall kinds :: KindIn(n, kinds) ==> kind.Some? && kind.value.Str? && kind.value.s in kinds;
  }

  /**
   * An upsert with the properties last reported is taken up exactly for applications, subscriptions, bindings
   * whose parameters changed and policies or constraints whose related objects changed.
   */
  lemma SamePropertiesTakenUpIff(s: State, ev: NodeEvent)
    requires OneEach(s.purged) && !Superseded(s, ev) && ev.op != Delete && ev.node.resource != "releases"
    requires ev.node.uid in s.previous && s.previous[ev.node.uid].props == ev.node.props
    ensures
      var after := Reconcile(s, ev);
      if EdgesMayDiffer(ev.node, s.previous[ev.node.uid]) then TakesUp(s, ev, after) else PassesOver(s, after)
  {
    hide AgainstHeld, Get, Redundant, EdgesMayDiffer, KindIn;
    SupersededFound(s, ev);
    LookingUpKeeps(s.purged, ev.node.uid);
    NothingDiffers(ev.node, s.previous[ev.node.uid]);
  }

  predicate HasRevision(n: Node, revision: int) {
    Lookup(n.props, "revision") == Some(Int(revision))
  }

  /** Of a release, the node must not have a lower revision than any held. */
  ghost predicate NoneHigher(held: Option<Node>, revision: int) {
    held.Some? ==> forall r :: HasRevision(held.value, r) ==> r <= revision
  }

  ghost predicate Readable(held: Option<Node>) {
    held.Some? ==> exists r :: HasRevision(held.value, r)
  }

  /** A release is taken up exactly when neither the last report nor the present holds a higher revision of it. */
  lemma ReleaseTakenUpIff(s: State, ev: NodeEvent, revision: int)
    requires OneEach(s.purged) && !Superseded(s, ev) && ev.op != Delete && ev.node.resource == "releases"
    requires ev.node.uid in s.previous ==> s.previous[ev.node.uid].props != ev.node.props
    requires HasRevision(ev.node, revision)
    requires Readable(Lookup(s.previous, ev.node.uid)) && Readable(Lookup(s.current, ev.node.uid))
    ensures
      var after, u := Reconcile(s, ev), ev.node.uid;
      if NoneHigher(Lookup(s.previous, u), revision) && NoneHigher(Lookup(s.current, u), revision)
      then TakesUp(s, ev, after) else PassesOver(s, after)
  {
    hide Get, KindIn, TakesUp, PassesOver;
    SupersededFound(s, ev);
    LookingUpKeeps(s.purged, ev.node.uid);
    HeldRevision(Lookup(s.previous, ev.node.uid), ev.node, revision);
    HeldRevision(Lookup(s.current, ev.node.uid), ev.node, revision);
    ReleaseSettled(s, ev);
  }

  lemma HeldRevision(held: Option<Node>, n: Node, revision: int)
    requires HasRevision(n, revision) && Readable(held)
    ensures AgainstHeld(held, n) == if NoneHigher(held, revision) then Stored else OlderRelease
  {
    if held.Some? {
      var r :| HasRevision(held.value, r);
      assert Revision(held.value) == Some(r);
    }
  }

  lemma ReleaseSettled(s: State, ev: NodeEvent)
    requires OneEach(s.purged)
    ensures Judge(s, ev) == Stored ==> TakesUp(s, ev, Reconcile(s, ev))
    ensures Judge(s, ev) == OlderRelease ==> PassesOver(s, Reconcile(s, ev))
  {
    hide Get, Judge;
    LookingUpKeeps(s.purged, ev.node.uid);
  }

  /** So an upsert that is passed over as saying nothing new has the properties that the aggregator already holds. */
  lemma PassedOverIsHeld(s: State, ev: NodeEvent, copy: Copy)
    requires OneEach(s.purged) && !Superseded(s, ev) && ev.op != Delete && ev.node.resource != "releases"
    requires ev.node.uid in s.diff ==> s.diff[ev.node.uid].time < ev.time
    requires PassesOver(s, Reconcile(s, ev)) && Mirrors(copy, s)
    ensures ev.node.uid in copy.nodes && copy.nodes[ev.node.uid].props == ev.node.props
  {
    var u := ev.node.uid;
    if u !in s.previous || s.previous[u].props != ev.node.props {
      NewPropertiesAreTakenUp(s, ev);
    }
  }
}
