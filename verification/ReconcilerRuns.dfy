/** What holds over whole runs of the reconciler: events in any order, with reports in between. */
module ReconcilerRuns {
  import opened Types
  import opened TombstoneCache
  import opened EdgeTables
  import opened NodeIndex
  import opened ReconcilerState

  /** A report moves the snapshot; which edge table it files makes no difference here. */
  datatype Action = Event(ev: NodeEvent) | Report(t: EdgeTable, total: int)

  function Step(s: State, a: Action): State {
    match a
    case Event(ev) => Reconcile(s, ev)
    case Report(t, total) => Snapshot(s, t, total)
  }

  function Run(s: State, acts: seq<Action>): State
    decreases acts
  {
    if acts == [] then s else Run(Step(s, acts[0]), acts[1..])
  }

  // ---- Deleted nodes stay deleted ----

  function UsedSince(others: set<UID>, a: Action, u: UID): set<UID> {
    if a.Report? then others
    else if a.ev.node.uid == u then {}
    else others + {a.ev.node.uid}
  }

  /** At every point of the run, fewer than 500 other nodes had events since u last had one. */
  ghost predicate Remembered(u: UID, others: set<UID>, acts: seq<Action>)
    decreases acts
  {
    |others| < 500 && (acts == [] || Remembered(u, UsedSince(others, acts[0], u), acts[1..]))
  }

  /** u has a tombstone no older than t, and only the given others were used more recently. */
  ghost predicate Buried(s: State, u: UID, t: int, others: set<UID>) {
    && Valid(s.purged)
    && Find(s.purged, u).Some? && Find(s.purged, u).value.time >= t
    && Ahead(s.purged, u) <= others
  }

  lemma LaterDelete(s: State, ev: NodeEvent)
    requires Judge(s, ev).Deleted? && Find(s.purged, ev.node.uid).Some?
    ensures Find(s.purged, ev.node.uid).value.time < ev.time
  {
  }

  lemma TombstonesAfter(s: State, ev: NodeEvent)
    ensures
      var touched := Get(s.purged, ev.node.uid).1;
      Reconcile(s, ev).purged ==
      if Judge(s, ev).Deleted? then Add(touched, Tombstone(ev.node.uid, ev.time)) else touched
  {
    hide Judge, Get, Add;
  }

  lemma EventKeepsBuried(s: State, ev: NodeEvent, u: UID, t: int, others: set<UID>)
    requires Buried(s, u, t, others)
    requires ev.node.uid != u ==> |others + {ev.node.uid}| < CACHE_SIZE
    ensures Buried(Reconcile(s, ev), u, t, UsedSince(others, Event(ev), u))
  {
    hide Judge, Settle, Find, Ahead, Get, Add;
    var x := ev.node.uid;
    var touched := Get(s.purged, x).1;
    GetKeeps(s.purged, x);
    TombstonesAfter(s, ev);
    if Judge(s, ev).Deleted? {
      AddFinds(touched, Tombstone(x, ev.time));
      if x == u {
        LaterDelete(s, ev);
      } else {
        AddKeeps(touched, Tombstone(x, ev.time), u, others + {x});
      }
    }
  }

  lemma {:induction false} RunKeepsBuried(s: State, acts: seq<Action>, u: UID, t: int, others: set<UID>)
    returns (others': set<UID>)
    requires Buried(s, u, t, others) && Remembered(u, others, acts)
    ensures Buried(Run(s, acts), u, t, others')
    decreases acts
  {
    if acts == [] {
      others' := others;
    } else {
      if acts[0].Event? {
        EventKeepsBuried(s, acts[0].ev, u, t, others);
      }
      others' := RunKeepsBuried(Step(s, acts[0]), acts[1..], u, t, UsedSince(others, acts[0], u));
    }
  }

  lemma BuriedIgnores(s: State, ev: NodeEvent, t: int, others: set<UID>)
    requires Buried(s, ev.node.uid, t, others) && ev.time <= t
    ensures Reconcile(s, ev) == s.(purged := Get(s.purged, ev.node.uid).1)
  {
  }

  /**
   * Once a deletion is taken, an event no later than it is ignored after any run of other events and
   * reports, as long as fewer than 500 other nodes had events since the deleted one last had one.
   */
  lemma DeletionOutlastsReports(s: State, deletion: NodeEvent, acts: seq<Action>, late: NodeEvent)
    requires Valid(s.purged) && Judge(s, deletion).Deleted?
    requires late.node.uid == deletion.node.uid && late.time <= deletion.time
    requires Remembered(late.node.uid, {}, acts)
    ensures
      var before := Run(Reconcile(s, deletion), acts);
      Reconcile(before, late) == before.(purged := Get(before.purged, late.node.uid).1)
  {
    var u := deletion.node.uid;
    GetKeeps(s.purged, u);
    AddFinds(Get(s.purged, u).1, Tombstone(u, deletion.time));
    var others := RunKeepsBuried(Reconcile(s, deletion), acts, u, deletion.time, {});
    BuriedIgnores(Run(Reconcile(s, deletion), acts), late, deletion.time, others);
  }

  ghost predicate NoneLater(acts: seq<Action>, u: UID, t: int) {
    forall a :: a in acts && a.Event? && a.ev.node.uid == u ==> a.ev.time <= t
  }

  lemma OtherNodesUntouched(s: State, ev: NodeEvent, u: UID)
    requires ev.node.uid != u && u !in s.current
    ensures u !in Reconcile(s, ev).current
  {
  }

  lemma {:induction false} StaysAbsent(s: State, acts: seq<Action>, u: UID, t: int, others: set<UID>)
    requires Buried(s, u, t, others) && Remembered(u, others, acts)
    requires NoneLater(acts, u, t) && u !in s.current
    ensures u !in Run(s, acts).current
    decreases acts
  {
    if acts != [] {
      assert acts[0] in acts;
      if acts[0].Event? {
        EventKeepsBuried(s, acts[0].ev, u, t, others);
        if acts[0].ev.node.uid == u {
          BuriedIgnores(s, acts[0].ev, t, others);
        } else {
          OtherNodesUntouched(s, acts[0].ev, u);
        }
      }
      StaysAbsent(Step(s, acts[0]), acts[1..], u, t, UsedSince(others, acts[0], u));
    }
  }

  /** With only events up to the deletion's time to come, the node is never seen again. */
  lemma DeletedStaysDeleted(s: State, deletion: NodeEvent, acts: seq<Action>)
    requires Valid(s.purged) && Judge(s, deletion).Deleted?
    requires Remembered(deletion.node.uid, {}, acts) && NoneLater(acts, deletion.node.uid, deletion.time)
    ensures deletion.node.uid !in Run(Reconcile(s, deletion), acts).current
  {
    var u := deletion.node.uid;
    GetKeeps(s.purged, u);
    AddFinds(Get(s.purged, u).1, Tombstone(u, deletion.time));
    StaysAbsent(Reconcile(s, deletion), acts, u, deletion.time, {});
  }

  // ---- Times never run backwards between reports ----

  ghost predicate Taken(s: State, ev: NodeEvent) {
    Judge(s, ev).Deleted? || Judge(s, ev).Stored?
  }

  /** The latest time the state remembers of u, if any, is at least t. */
  ghost predicate SeenAt(s: State, u: UID, t: int) {
    || (u in s.diff && s.diff[u].time >= t)
    || (Find(s.purged, u).Some? && Find(s.purged, u).value.time >= t)
  }

  ghost predicate KeepsTombstone(s: State, s': State, u: UID) {
    Find(s.purged, u).Some? ==> Find(s'.purged, u).Some?
  }

  lemma TombstonesOnlyAge(s: State, ev: NodeEvent, u: UID, t: int)
    requires Valid(s.purged) && Find(s.purged, u).Some? && Find(s.purged, u).value.time >= t
    requires KeepsTombstone(s, Reconcile(s, ev), u)
    ensures Find(Reconcile(s, ev).purged, u).value.time >= t
  {
    var x := ev.node.uid;
    GetKeeps(s.purged, x);
    if Judge(s, ev).Deleted? {
      AddFinds(Get(s.purged, x).1, Tombstone(x, ev.time));
      if x == u {
        LaterDelete(s, ev);
      } else {
        AddFindsOthers(Get(s.purged, x).1, Tombstone(x, ev.time), u);
      }
    }
  }

  lemma SeenStaysSeen(s: State, ev: NodeEvent, u: UID, t: int)
    requires Valid(s.purged) && SeenAt(s, u, t)
    requires KeepsTombstone(s, Reconcile(s, ev), u)
    ensures SeenAt(Reconcile(s, ev), u, t)
  {
    var x := ev.node.uid;
    if Find(s.purged, u).Some? && Find(s.purged, u).value.time >= t {
      TombstonesOnlyAge(s, ev, u, t);
    } else if x == u && Judge(s, ev).Deleted? {
      GetKeeps(s.purged, x);
      AddFinds(Get(s.purged, x).1, Tombstone(x, ev.time));
    }
  }

  lemma TakenIsSeen(s: State, ev: NodeEvent)
    requires Valid(s.purged) && Taken(s, ev)
    ensures SeenAt(Reconcile(s, ev), ev.node.uid, ev.time)
  {
    GetKeeps(s.purged, ev.node.uid);
    AddFinds(Get(s.purged, ev.node.uid).1, Tombstone(ev.node.uid, ev.time));
  }

  lemma SeenBlocksEarlier(s: State, ev: NodeEvent, t: int)
    requires SeenAt(s, ev.node.uid, t) && Taken(s, ev)
    ensures t <= ev.time
  {
  }

  ghost predicate TombstoneKeptThroughout(s: State, evs: seq<NodeEvent>, u: UID)
    decreases evs
  {
    || evs == []
    || (&& KeepsTombstone(s, Reconcile(s, evs[0]), u)
        && TombstoneKeptThroughout(Reconcile(s, evs[0]), evs[1..], u))
  }

  function After(s: State, evs: seq<NodeEvent>): State
    decreases evs
  {
    if evs == [] then s else After(Reconcile(s, evs[0]), evs[1..])
  }

  lemma {:induction false} SeenThroughout(s: State, evs: seq<NodeEvent>, u: UID, t: int)
    requires Consistent(s) && SeenAt(s, u, t) && TombstoneKeptThroughout(s, evs, u)
    ensures SeenAt(After(s, evs), u, t) && Consistent(After(s, evs))
    decreases evs
  {
    if evs != [] {
      SeenStaysSeen(s, evs[0], u, t);
      ReconcileKeepsConsistent(s, evs[0]);
      SeenThroughout(Reconcile(s, evs[0]), evs[1..], u, t);
    }
  }

  /** Between two reports, and while its tombstone is kept, a node's state is taken from events of ever later times. */
  lemma TimesNeverDecrease(s: State, first: NodeEvent, between: seq<NodeEvent>, second: NodeEvent)
    requires Consistent(s) && Taken(s, first) && second.node.uid == first.node.uid
    requires TombstoneKeptThroughout(Reconcile(s, first), between, first.node.uid)
    requires Taken(After(Reconcile(s, first), between), second)
    ensures first.time <= second.time
  {
    TakenIsSeen(s, first);
    ReconcileKeepsConsistent(s, first);
    SeenThroughout(Reconcile(s, first), between, first.node.uid, first.time);
    SeenBlocksEarlier(After(Reconcile(s, first), between), second, first.time);
  }

  // ---- The revision of a release never goes back ----

  ghost predicate OnlyReleases(acts: seq<Action>, u: UID) {
    forall a :: a in acts && a.Event? && a.ev.node.uid == u && !a.ev.op.Delete? ==> IsRelease(a.ev.node)
  }

  ghost predicate HeldThroughout(s: State, acts: seq<Action>, u: UID)
    decreases acts
  {
    u in s.current && (acts == [] || HeldThroughout(Step(s, acts[0]), acts[1..], u))
  }

  lemma RevisionStep(s: State, ev: NodeEvent, u: UID)
    requires u in s.current && Revision(s.current[u]).Some? && u in Reconcile(s, ev).current
    requires ev.node.uid == u && !ev.op.Delete? ==> IsRelease(ev.node)
    ensures
      var n := Reconcile(s, ev).current[u];
      Revision(n).Some? && Revision(s.current[u]).value <= Revision(n).value
  {
  }

  /** While a release stays known, the revision held for it only grows, across any events and reports. */
  lemma {:induction false} RevisionsNeverDecrease(s: State, acts: seq<Action>, u: UID)
    requires HeldThroughout(s, acts, u) && OnlyReleases(acts, u)
    requires Revision(s.current[u]).Some?
    ensures u in Run(s, acts).current && Revision(Run(s, acts).current[u]).Some?
    ensures Revision(s.current[u]).value <= Revision(Run(s, acts).current[u]).value
    decreases acts
  {
    if acts != [] {
      assert acts[0] in acts;
      if acts[0].Event? {
        RevisionStep(s, acts[0].ev, u);
      }
      RevisionsNeverDecrease(Step(s, acts[0]), acts[1..], u);
    }
  }

  // ---- Nothing pending means nothing changed ----

  /** Away from pending changes, the builders are those of the last report; and the report itself is unmoved. */
  ghost predicate BuildersAsReported(s0: State, s: State) {
    && (forall u :: u !in s.diff ==> Lookup(s.fns, u) == Lookup(s0.fns, u))
    && s.previous == s0.previous && s.edges == s0.edges && s.totalEdges == s0.totalEdges
  }

  lemma SettleKeepsBuilders(s0: State, s: State, ev: NodeEvent, outcome: Outcome)
    requires BuildersAsReported(s0, s) && s0.fns.Keys == s0.previous.Keys
    ensures BuildersAsReported(s0, Settle(s, ev, outcome))
  {
    var u, s' := ev.node.uid, Settle(s, ev, outcome);
    forall v | v !in s'.diff ensures Lookup(s'.fns, v) == Lookup(s0.fns, v) {
      if v != u {
        assert v !in s.diff && Lookup(s'.fns, v) == Lookup(s.fns, v);
      }
    }
  }

  lemma {:induction false} EventsKeepBuilders(s0: State, s: State, evs: seq<NodeEvent>)
    requires Consistent(s) && BuildersAsReported(s0, s) && s0.fns.Keys == s0.previous.Keys
    ensures Consistent(After(s, evs)) && BuildersAsReported(s0, After(s, evs))
    decreases evs
  {
    if evs != [] {
      ReconcileKeepsConsistent(s, evs[0]);
      var touched := s.(purged := Get(s.purged, evs[0].node.uid).1);
      SettleKeepsBuilders(s0, touched, evs[0], Judge(s, evs[0]));
      EventsKeepBuilders(s0, Reconcile(s, evs[0]), evs[1..]);
    }
  }

  lemma NothingPending(s0: State, s: State)
    requires Consistent(s) && BuildersAsReported(s0, s) && s.diff == map[]
    requires s0.fns.Keys == s0.current.Keys && s0.previous == s0.current
    ensures s.current == s0.current && s.fns == s0.fns
  {
    forall u ensures Lookup(s.current, u) == Lookup(s0.current, u) {
      assert DiffFits(s, u);
    }
    SameLookups(s.current, s0.current);
    forall u ensures Lookup(s.fns, u) == Lookup(s0.fns, u) {
    }
    SameLookups(s.fns, s0.fns);
  }

  /**
   * The shortcut of a report with nothing pending is sound: whatever events came since the last report,
   * rebuilding the edges would give the pairs and the totals that the last report already had.
   */
  lemma ShortcutLosesNothing(s0: State, evs: seq<NodeEvent>, common: CommonFn, rebuilt: EdgeTable)
    requires Consistent(s0) && s0.previous == s0.current
    requires Built(s0.edges, s0.current, s0.fns, common)
    requires After(s0, evs).diff == map[] && NoTwins(s0.current)
    requires Built(rebuilt, After(s0, evs).current, After(s0, evs).fns, common)
    ensures
      var s := After(s0, evs);
      && s.current == s.previous
      && Flat(rebuilt).Keys == Flat(s.edges).Keys
      && |Flat(rebuilt)| == s.totalEdges
  {
    EventsKeepBuilders(s0, s0, evs);
    NothingPending(s0, After(s0, evs));
    RebuildAgrees(rebuilt, s0.edges, s0.current, s0.fns, common);
    assert |Flat(rebuilt).Keys| == |Flat(s0.edges).Keys|;
  }

  // ---- When the latest event is what the state shows ----

  /** No release of a higher revision is held, and both revisions can be read. */
  ghost predicate NotOlder(held: Option<Node>, n: Node) {
    held.None? || (Revision(held.value).Some? && Revision(n).Some? && Revision(held.value).value <= Revision(n).value)
  }

  /** What the event must meet: nothing newer is remembered of its node, and an upsert is news. */
  ghost predicate Lands(s: State, ev: NodeEvent) {
    var u := ev.node.uid;
    && (u in s.diff ==> s.diff[u].time <= ev.time)
    && (Find(s.purged, u).Some? ==> Find(s.purged, u).value.time < ev.time)
    && (ev.op.Delete?
        || (&& !(u in s.previous && Redundant(ev.node, s.previous[u]))
            && (IsRelease(ev.node) ==> NotOlder(Lookup(s.previous, u), ev.node))
            && (IsRelease(ev.node) ==> NotOlder(Lookup(s.current, u), ev.node))))
  }

  /** The state shows what the event says. */
  ghost predicate Shows(s: State, ev: NodeEvent) {
    Lookup(s.current, ev.node.uid) == if ev.op.Delete? then None else Some(ev.node)
  }

  /**
   * The state shows an event after taking it in exactly when the event lands, or was shown already. Redundancy
   * is measured against the last snapshot and not against the current state.
   */
  lemma EventShownIff(s: State, ev: NodeEvent)
    ensures Shows(Reconcile(s, ev), ev) <==> Lands(s, ev) || Shows(s, ev)
    ensures !Lands(s, ev) ==> Reconcile(s, ev).current == s.current
  {
    hide Judge, Lands, Get, Add;
    JudgedToLand(s, ev);
  }

  lemma JudgedToLand(s: State, ev: NodeEvent)
    ensures Judge(s, ev) == Deleted <==> Lands(s, ev) && ev.op.Delete?
    ensures Judge(s, ev) == Stored <==> Lands(s, ev) && !ev.op.Delete?
  {
    hide Find, Redundant;
  }

  /** From here on, no event of the node lands. */
  ghost predicate NoneLands(s: State, acts: seq<Action>, u: UID)
    decreases acts
  {
    || acts == []
    || (&& (acts[0].Event? && acts[0].ev.node.uid == u ==> !Lands(s, acts[0].ev))
        && NoneLands(Step(s, acts[0]), acts[1..], u))
  }

  lemma OthersKeepNode(s: State, a: Action, u: UID)
    requires a.Event? ==> a.ev.node.uid != u
    ensures Lookup(Step(s, a).current, u) == Lookup(s.current, u)
  {
    hide Judge, Get;
  }

  lemma {:induction false} NodeStays(s: State, acts: seq<Action>, u: UID)
    requires NoneLands(s, acts, u)
    ensures Lookup(Run(s, acts).current, u) == Lookup(s.current, u)
    decreases acts
  {
    hide Lands;
    if acts != [] {
      if acts[0].Event? && acts[0].ev.node.uid == u {
        EventShownIff(s, acts[0].ev);
      } else {
        OthersKeepNode(s, acts[0], u);
      }
      NodeStays(Step(s, acts[0]), acts[1..], u);
    }
  }

  /**
   * Over whole runs: if no event of its node lands after it, whatever else happens and however often a report is
   * made, the state shows an event at the end exactly when it landed, or was shown when it came.
   */
  lemma LatestEventShownIff(start: State, before: seq<Action>, ev: NodeEvent, after: seq<Action>)
    requires NoneLands(Reconcile(Run(start, before), ev), after, ev.node.uid)
    ensures
      var s := Run(start, before);
      Shows(Run(Reconcile(s, ev), after), ev) <==> Lands(s, ev) || Shows(s, ev)
  {
    hide Lands, Reconcile;
    EventShownIff(Run(start, before), ev);
    NodeStays(Reconcile(Run(start, before), ev), after, ev.node.uid);
  }

  // ---- Events out of order fold to the latest ----

  /** Everything remembered of u is from before t. */
  ghost predicate OnlyBefore(s: State, u: UID, t: int) {
    && (u in s.diff ==> s.diff[u].time < t)
    && (Find(s.purged, u).Some? ==> Find(s.purged, u).value.time < t)
  }

  ghost predicate AllBefore(evs: seq<NodeEvent>, u: UID, t: int) {
    forall ev :: ev in evs && ev.node.uid == u ==> ev.time < t
  }

  lemma EventKeepsOnlyBefore(s: State, ev: NodeEvent, u: UID, t: int)
    requires Valid(s.purged) && OnlyBefore(s, u, t) && (ev.node.uid == u ==> ev.time < t)
    ensures OnlyBefore(Reconcile(s, ev), u, t) && Reconcile(s, ev).previous == s.previous
  {
    hide Judge, Find, Get, Add;
    var x := ev.node.uid;
    GetKeeps(s.purged, x);
    TombstonesAfter(s, ev);
    if Judge(s, ev).Deleted? {
      var touched, tomb := Get(s.purged, x).1, Tombstone(x, ev.time);
      AddFinds(touched, tomb);
      if x != u && Find(Add(touched, tomb), u).Some? {
        AddFindsOthers(touched, tomb, u);
      }
    }
  }

  lemma {:induction false} StaysOnlyBefore(s: State, evs: seq<NodeEvent>, u: UID, t: int)
    requires Consistent(s) && OnlyBefore(s, u, t) && AllBefore(evs, u, t)
    ensures OnlyBefore(After(s, evs), u, t) && After(s, evs).previous == s.previous && Consistent(After(s, evs))
    decreases evs
  {
    hide OnlyBefore, Reconcile;
    if evs != [] {
      assert evs[0] in evs;
      EventKeepsOnlyBefore(s, evs[0], u, t);
      ReconcileKeepsConsistent(s, evs[0]);
      StaysOnlyBefore(Reconcile(s, evs[0]), evs[1..], u, t);
    }
  }

  lemma {:induction false} EarlierOnesChangeNothing(s: State, evs: seq<NodeEvent>, u: UID, t: int)
    requires Consistent(s) && SeenAt(s, u, t) && AllBefore(evs, u, t) && TombstoneKeptThroughout(s, evs, u)
    ensures Lookup(After(s, evs).current, u) == Lookup(s.current, u)
    decreases evs
  {
    hide SeenAt, Reconcile, Lands, Consistent;
    if evs != [] {
      assert evs[0] in evs;
      if evs[0].node.uid == u {
        EarlierDoesNotLand(s, evs[0], t);
        EventShownIff(s, evs[0]);
      } else {
        OthersKeepNode(s, Event(evs[0]), u);
      }
      ReconcileKeepsConsistent(s, evs[0]);
      ConsistentIsValid(s);
      SeenStaysSeen(s, evs[0], u, t);
      EarlierOnesChangeNothing(Reconcile(s, evs[0]), evs[1..], u, t);
    }
  }

  lemma ConsistentIsValid(s: State)
    requires Consistent(s)
    ensures Valid(s.purged)
  {
  }

  lemma EarlierDoesNotLand(s: State, ev: NodeEvent, t: int)
    requires SeenAt(s, ev.node.uid, t) && ev.time < t
    ensures !Lands(s, ev)
  {
  }

  lemma LandingIsSeen(s: State, ev: NodeEvent)
    requires Valid(s.purged) && Lands(s, ev)
    ensures SeenAt(Reconcile(s, ev), ev.node.uid, ev.time)
  {
    hide Judge, Lands, Reconcile;
    JudgedToLand(s, ev);
    TakenIsSeen(s, ev);
  }

  /** A deletion, or an upsert of something other than a release that differs from what was last reported. */
  ghost predicate News(s: State, ev: NodeEvent) {
    var u := ev.node.uid;
    ev.op.Delete? || (!IsRelease(ev.node) && !(u in s.previous && Redundant(ev.node, s.previous[u])))
  }

  /**
   * However the events of a node arrive between two reports, the state shows the latest: an event later than all
   * others of its node, and than what is remembered of it, is what the state shows in the end, if it is news and
   * the node's tombstone is kept meanwhile.
   */
  lemma LatestTimeWins(s: State, earlier: seq<NodeEvent>, ev: NodeEvent, rest: seq<NodeEvent>)
    requires Consistent(s) && OnlyBefore(s, ev.node.uid, ev.time) && News(s, ev)
    requires AllBefore(earlier, ev.node.uid, ev.time) && AllBefore(rest, ev.node.uid, ev.time)
    requires TombstoneKeptThroughout(Reconcile(After(s, earlier), ev), rest, ev.node.uid)
    ensures Shows(After(s, earlier + [ev] + rest), ev)
  {
    hide Reconcile, SeenAt, TombstoneKeptThroughout, Redundant;
    var u, t, mid := ev.node.uid, ev.time, After(s, earlier);
    StaysOnlyBefore(s, earlier, u, t);
    assert Lands(mid, ev);
    EventShownIff(mid, ev);
    LandingIsSeen(mid, ev);
    ReconcileKeepsConsistent(mid, ev);
    EarlierOnesChangeNothing(Reconcile(mid, ev), rest, u, t);
    AfterSplits(s, earlier, ev, rest);
  }

  lemma {:induction false} AfterSplits(s: State, earlier: seq<NodeEvent>, ev: NodeEvent, rest: seq<NodeEvent>)
    ensures After(s, earlier + [ev] + rest) == After(Reconcile(After(s, earlier), ev), rest)
    decreases earlier
  {
    hide Reconcile;
    if earlier == [] {
      assert ([] + [ev] + rest)[1..] == rest;
    } else {
      assert (earlier + [ev] + rest)[1..] == earlier[1..] + [ev] + rest;
      AfterSplits(Reconcile(s, earlier[0]), earlier[1..], ev, rest);
    }
  }

  lemma DeletedThenRedundant(s: State, back: NodeEvent, t: int)
    requires back.node.uid in s.diff && s.diff[back.node.uid].time == t < back.time && !back.op.Delete?
    requires Find(s.purged, back.node.uid) == Some(Tombstone(back.node.uid, t))
    requires back.node.uid in s.previous && Redundant(back.node, s.previous[back.node.uid])
    ensures Judge(s, back) == Unchanged
  {
  }

  lemma DeletedIsPending(s: State, gone: NodeEvent)
    requires Consistent(s) && Judge(s, gone).Deleted? && gone.node.uid in s.previous
    ensures
      var u, after := gone.node.uid, Reconcile(s, gone);
      && u !in after.current && u in after.diff && after.diff[u] == gone && gone.op == Delete
      && after.previous == s.previous && Find(after.purged, u) == Some(Tombstone(u, gone.time))
  {
    hide Find, Ahead, Has, Get, Add;
    var u := gone.node.uid;
    GetKeeps(s.purged, u);
    AddFinds(Get(s.purged, u).1, Tombstone(u, gone.time));
    DeletedMeansDelete(s, gone);
  }

  /** So a node that is deleted and then comes back as it was last reported stays missing. */
  lemma RevertIsLost(s: State, gone: NodeEvent, back: NodeEvent)
    requires Consistent(s) && Judge(s, gone).Deleted?
    requires gone.node.uid in s.previous
    requires back.node.uid == gone.node.uid && gone.time < back.time && !back.op.Delete?
    requires Redundant(back.node, s.previous[gone.node.uid])
    ensures
      var end := Reconcile(Reconcile(s, gone), back);
      back.node.uid !in end.current && back.node.uid in end.diff && end.diff[back.node.uid].op == Delete
  {
    hide Judge, Find, Ahead, Has, Get, Redundant;
    DeletedIsPending(s, gone);
    DeletedThenRedundant(Reconcile(s, gone), back, gone.time);
  }

  lemma FirstCreate(ev: NodeEvent)
    requires ev.op == Create
    ensures
      var s, u := Reconcile(INITIAL, ev), ev.node.uid;
      s.current == map[u := ev.node] && s.fns == map[u := ev.computeEdges] && s.purged == []
  {
  }

  /** Creating a node and reporting it, from the very beginning. */
  lemma CreatedAndReported(n: Node, builder: EdgeFn, time: int, t: EdgeTable, common: CommonFn)
    requires Built(t, map[n.uid := n], map[n.uid := builder], common)
    ensures
      var s := Run(INITIAL, [Event(NodeEvent(n, builder, time, Create)), Report(t, |Flat(t)|)]);
      && Consistent(s) && s.previous == map[n.uid := n] && s.diff == map[] && s.purged == []
  {
    hide Consistent, Built, Reconcile;
    var ev := NodeEvent(n, builder, time, Create);
    var acts := [Event(ev), Report(t, |Flat(t)|)];
    assert acts[1..] == [Report(t, |Flat(t)|)] && acts[1..][1..] == [];
    InitialConsistent();
    ReconcileKeepsConsistent(INITIAL, ev);
    FirstCreate(ev);
    var s := Reconcile(INITIAL, ev);
    SnapshotConsistent(s, t, common);
    assert Run(INITIAL, acts) == Run(s, acts[1..]) == Run(Snapshot(s, t, |Flat(t)|), []);
  }

  lemma NothingRememberedDeletes(s: State, gone: NodeEvent)
    requires s.diff == map[] && s.purged == [] && gone.op == Delete
    ensures Judge(s, gone).Deleted?
  {
  }

  /**
   * It happens to any node other than an application or subscription: created, reported, deleted, and created
   * again as it was, in that order and a second apart, it is missing.
   */
  lemma RevertIsLostExample(n: Node, builder: EdgeFn, time: int, t: EdgeTable, common: CommonFn)
    requires !KindIn(n, {"Application", "Subscription"})
    requires Built(t, map[n.uid := n], map[n.uid := builder], common)
    ensures
      var reported := Run(INITIAL, [Event(NodeEvent(n, builder, time, Create)), Report(t, |Flat(t)|)]);
      var gone, back := NodeEvent(n, builder, time + 1, Delete), NodeEvent(n, builder, time + 2, Create);
      n.uid !in Run(reported, [Event(gone), Event(back)]).current
  {
    hide Consistent, Built, Reconcile;
    CreatedAndReported(n, builder, time, t, common);
    var reported := Run(INITIAL, [Event(NodeEvent(n, builder, time, Create)), Report(t, |Flat(t)|)]);
    var gone, back := NodeEvent(n, builder, time + 1, Delete), NodeEvent(n, builder, time + 2, Create);
    NothingRememberedDeletes(reported, gone);
    RevertIsLost(reported, gone, back);
    var acts := [Event(gone), Event(back)];
    assert acts[1..] == [Event(back)] && acts[1..][1..] == [];
    assert Run(reported, acts) == Run(Reconcile(reported, gone), acts[1..]) ==
      Reconcile(Reconcile(reported, gone), back);
  }
}
