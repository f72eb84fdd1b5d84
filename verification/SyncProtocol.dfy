/**
 * The whole exchange as a state machine: node events arrive at any time, while one sync cycle after another
 * reports to an aggregator that may answer, be busy, or fail in any way.
 */
module SyncProtocol {
  import opened Types
  import opened EdgeTables
  import opened ReconcilerState
  import opened Aggregator
  import opened Replication

  /** What the sender is doing; while sending it remembers the payload and the totals it expects. */
  datatype Phase =
    | Idle
    | Sending(payload: Payload, totalResources: int, totalEdges: int, complete: bool)
    | NeedComplete

  /** lastSent is -1 when the remote state is not known. */
  datatype Config = Config(rec: State, copy: Copy, lastSent: int, phase: Phase)

  datatype SyncResponse = SyncResponse(
    totalResources: int,
    totalEdges: int,
    addErrors: nat,
    updateErrors: nat,
    deleteErrors: nat,
    addEdgeErrors: nat,
    deleteEdgeErrors: nat)
  {
    predicate NoItemErrors() {
      addErrors == updateErrors == deleteErrors == addEdgeErrors == deleteEdgeErrors == 0
    }
  }

  /**
   * A busy aggregator has applied the payload in full or not at all; a failed exchange may leave anything
   * behind; and so may an answer that reports errors for single items.
   */
  datatype Reply = Busy(applied: bool) | Failed(left: Copy) | Answered(response: SyncResponse, left: Copy)

  ghost predicate Plausible(copy: Copy, p: Payload, reply: Reply) {
    reply.Answered? && reply.response.NoItemErrors() ==>
      && reply.left == Apply(copy, p)
      && reply.response.totalResources == |reply.left.nodes|
      && reply.response.totalEdges == |reply.left.edges|
  }

  function Effect(copy: Copy, p: Payload, reply: Reply): Copy {
    match reply
    case Busy(applied) => if applied then Apply(copy, p) else copy
    case Failed(left) => left
    case Answered(_, left) => left
  }

  /** The size checks on an answer, allowing for the items that the aggregator reports as failed. */
  predicate Accepts(r: SyncResponse, totalResources: int, totalEdges: int) {
    && r.totalResources == totalResources + r.deleteErrors - r.addErrors
    && r.totalEdges == totalEdges + r.deleteEdgeErrors - r.addEdgeErrors
  }

  predicate Succeeds(reply: Reply, totalResources: int, totalEdges: int) {
    reply.Answered? && Accepts(reply.response, totalResources, totalEdges)
  }

  /** A reply is heard together with whether the sender takes it for a success. */
  datatype Step =
    | Arrive(ev: NodeEvent)
    | Begin(now: int, heartbeat: int)
    | Rebuild
    | Hear(reply: Reply, now: int, accepted: bool)

  function SendDelta(d: Delta): Phase {
    Sending(DeltaPayload(d), d.totalNodes, d.totalEdges, false)
  }

  function SendComplete(c: CompleteState): Phase {
    Sending(CompletePayload(c), c.totalNodes, c.totalEdges, true)
  }

  ghost predicate StartsComplete(c: Config, c': Config, full: CompleteState, common: CommonFn) {
    && IsComplete(c.rec, c'.rec, full, common)
    && c'.copy == c.copy && c'.lastSent == c.lastSent
    && c'.phase == SendComplete(full)
  }

  /** An empty delta is not sent while the last exchange is recent enough. */
  ghost predicate StartsDelta(c: Config, c': Config, d: Delta, quiet: bool, common: CommonFn) {
    && IsDiff(c.rec, c'.rec, d, common)
    && c'.copy == c.copy && c'.lastSent == c.lastSent
    && c'.phase == if DeltaPayload(d).Empty() && quiet then Idle else SendDelta(d)
  }

  ghost predicate BeginsDelta(c: Config, c': Config, quiet: bool, common: CommonFn) {
    exists d :: StartsDelta(c, c', d, quiet, common)
  }

  ghost predicate Handles(c: Config, c': Config, reply: Reply, now: int) {
    && c.phase.Sending?
    && Plausible(c.copy, c.phase.payload, reply)
    && c'.rec == c.rec
    && c'.copy == Effect(c.copy, c.phase.payload, reply)
    && (if reply.Busy? then c'.phase == c.phase && c'.lastSent == c.lastSent
        else if Succeeds(reply, c.phase.totalResources, c.phase.totalEdges) then c'.phase == Idle && c'.lastSent == now
        else if c.phase.complete then c'.phase == Idle && c'.lastSent == -1
        else c'.phase == NeedComplete && c'.lastSent == c.lastSent)
  }

  ghost predicate Next(c: Config, step: Step, c': Config, common: CommonFn) {
    match step
    case Arrive(ev) => c' == c.(rec := Reconcile(c.rec, ev))
    case Begin(now, heartbeat) =>
      && c.phase == Idle
      && if c.lastSent == -1 then exists full :: StartsComplete(c, c', full, common)
         else BeginsDelta(c, c', now - c.lastSent < heartbeat, common)
    case Rebuild => c.phase == NeedComplete && exists full :: StartsComplete(c, c', full, common)
    case Hear(reply, now, accepted) =>
      Handles(c, c', reply, now) && accepted == Succeeds(reply, c.phase.totalResources, c.phase.totalEdges)
  }

  // ---- The invariant ----

  /** Delivering the payload makes the copy match the report; delivering it again changes nothing. */
  ghost predicate Deliverable(c: Config)
    requires c.phase.Sending?
  {
    var p := c.phase.payload;
    && Mirrors(Apply(c.copy, p), c.rec)
    && Apply(Apply(c.copy, p), p) == Apply(c.copy, p)
    && c.phase.totalResources == |c.rec.previous|
    && c.phase.totalEdges == |Flat(c.rec.edges)|
  }

  ghost predicate InStep(c: Config) {
    match c.phase
    case Idle => c.lastSent != -1 ==> Mirrors(c.copy, c.rec)
    case Sending(_, _, _, _) => Deliverable(c)
    case NeedComplete => true
  }

  ghost predicate Inv(c: Config) {
    && Consistent(c.rec) && BuildersNameStored(c.rec.fns)
    && InStep(c)
  }

  /** Steps a run may take: builders that name stored nodes, and no accepted answer with errors for single items. */
  ghost predicate Clean(step: Step) {
    && (step.Arrive? ==> NamesStored(step.ev.node.uid, step.ev.computeEdges))
    && (step.Hear? && step.accepted && step.reply.Answered? ==> step.reply.response.NoItemErrors())
  }

  lemma ArriveKeepsStep(c: Config, ev: NodeEvent)
    requires InStep(c)
    ensures InStep(c.(rec := Reconcile(c.rec, ev)))
  {
    var r := Reconcile(c.rec, ev);
    assert r.previous == c.rec.previous && r.edges == c.rec.edges;
  }

  lemma StartedComplete(c: Config, c': Config, full: CompleteState, common: CommonFn)
    requires Inv(c) && StartsComplete(c, c', full, common)
    ensures Inv(c')
  {
    ReportsKeepConsistent(c.rec, c'.rec, NO_CHANGES, full, common);
    CompleteExact(c.rec, c'.rec, full, c.copy, common);
    ApplyTwice(c.copy, CompletePayload(full));
  }

  lemma StartedDelta(c: Config, c': Config, d: Delta, quiet: bool, common: CommonFn)
    requires Inv(c) && CommonNamesStored(common)
    requires c.phase == Idle && c.lastSent != -1 && StartsDelta(c, c', d, quiet, common)
    ensures Inv(c')
  {
    ReportsKeepConsistent(c.rec, c'.rec, d, NOTHING, common);
    DeltaExact(c.rec, c'.rec, d, c.copy, common);
    DeltaTotals(c.rec, c'.rec, d, Apply(c.copy, DeltaPayload(d)), common);
    MirrorCounts(Apply(c.copy, DeltaPayload(d)), c'.rec);
    ApplyTwice(c.copy, DeltaPayload(d));
    if DeltaPayload(d).Empty() {
      EmptyChangesNothing(c.copy, DeltaPayload(d));
    }
  }

  /** An answer without item errors passes the size checks: they never force a needless resend. */
  lemma CleanAnswersAreAccepted(c: Config, reply: Reply)
    requires c.phase.Sending? && Deliverable(c) && Plausible(c.copy, c.phase.payload, reply)
    requires reply.Answered? && reply.response.NoItemErrors()
    ensures Succeeds(reply, c.phase.totalResources, c.phase.totalEdges)
    ensures Mirrors(reply.left, c.rec)
  {
    MirrorCounts(reply.left, c.rec);
  }

  lemma HandledKeepsStep(c: Config, c': Config, reply: Reply, now: int)
    requires InStep(c) && Handles(c, c', reply, now)
    requires Succeeds(reply, c.phase.totalResources, c.phase.totalEdges) ==> reply.response.NoItemErrors()
    ensures InStep(c')
  {
    if Succeeds(reply, c.phase.totalResources, c.phase.totalEdges) {
      CleanAnswersAreAccepted(c, reply);
    }
  }

  lemma NextKeepsInv(c: Config, step: Step, c': Config, common: CommonFn)
    requires Inv(c) && Next(c, step, c', common) && Clean(step) && CommonNamesStored(common)
    ensures Inv(c')
  {
    match step
    case Arrive(ev) =>
      ReconcileKeepsConsistent(c.rec, ev);
      ReconcileKeepsBuilders(c.rec, ev);
      ArriveKeepsStep(c, ev);
    case Begin(now, heartbeat) =>
      if c.lastSent == -1 {
        var full :| StartsComplete(c, c', full, common);
        StartedComplete(c, c', full, common);
      } else {
        var d :| StartsDelta(c, c', d, now - c.lastSent < heartbeat, common);
        StartedDelta(c, c', d, now - c.lastSent < heartbeat, common);
      }
    case Rebuild =>
      var full :| StartsComplete(c, c', full, common);
      StartedComplete(c, c', full, common);
    case Hear(reply, now, _) =>
      HandledKeepsStep(c, c', reply, now);
  }

  // ---- Whole runs ----

  /** A run starts with an empty reconciler and an aggregator in whatever state it happens to be. */
  ghost predicate Starts(c: Config) {
    c.rec == INITIAL && c.lastSent == -1 && c.phase == Idle
  }

  /** The steps, one after another, lead from c to c'. */
  ghost predicate Leads(c: Config, steps: seq<Step>, c': Config, common: CommonFn)
    decreases steps
  {
    if steps == [] then c == c'
    else exists mid :: Next(c, steps[0], mid, common) && Leads(mid, steps[1..], c', common)
  }

  lemma {:induction false} LeadsOn(c: Config, steps: seq<Step>, mid: Config, step: Step, c': Config, common: CommonFn)
    requires Leads(c, steps, mid, common) && Next(mid, step, c', common)
    ensures Leads(c, steps + [step], c', common)
    decreases steps
  {
    hide Next;
    if steps == [] {
      assert Leads(c', [], c', common);
      assert ([] + [step])[1..] == [];
    } else {
      var next :| Next(c, steps[0], next, common) && Leads(next, steps[1..], mid, common);
      LeadsOn(next, steps[1..], mid, step, c', common);
      assert (steps + [step])[1..] == steps[1..] + [step];
    }
  }

  ghost predicate AllClean(steps: seq<Step>) {
    forall step :: step in steps ==> Clean(step)
  }

  lemma {:induction false} RunKeepsInv(c: Config, steps: seq<Step>, c': Config, common: CommonFn)
    requires Leads(c, steps, c', common) && Inv(c)
    requires CommonNamesStored(common) && AllClean(steps)
    ensures Inv(c')
    decreases steps
  {
    if steps != [] {
      var mid :| Next(c, steps[0], mid, common) && Leads(mid, steps[1..], c', common);
      NextKeepsInv(c, steps[0], mid, common);
      RunKeepsInv(mid, steps[1..], c', common);
    }
  }

  /**
   * In every run, under any interleaving of events with sync cycles and any pattern of success, busy and
   * failure in which no accepted answer reports errors for single items: whenever no cycle is in flight and
   * the sender believes the remote state is known, the aggregator holds exactly the nodes of the last report
   * and joins exactly its pairs.
   */
  lemma RemoteMatchesLastReport(start: Config, steps: seq<Step>, c: Config, common: CommonFn)
    requires Starts(start) && Leads(start, steps, c, common)
    requires CommonNamesStored(common) && AllClean(steps)
    requires c.phase == Idle && c.lastSent != -1
    ensures c.copy.nodes == Wires(c.rec.previous)
    ensures forall u :: u in c.copy.nodes <==> u in c.rec.previous
    ensures forall u :: u in c.copy.nodes ==>
              c.copy.nodes[u] == Resource(u, c.rec.previous[u].resource, c.rec.previous[u].props)
    ensures c.copy.edges.Keys == Flat(c.rec.edges).Keys
    ensures Consistent(c.rec)
  {
    InitialConsistent();
    RunKeepsInv(start, steps, c, common);
  }

  /**
   * A cycle that starts with the remote state known sends nothing exactly when nothing is pending and the last
   * exchange is more recent than a heartbeat ago; and then nothing changes.
   */
  lemma SkipsIff(c: Config, now: int, heartbeat: int, c': Config, common: CommonFn)
    requires c.lastSent != -1 && Next(c, Begin(now, heartbeat), c', common)
    ensures c'.phase == Idle <==> c.rec.diff == map[] && now < c.lastSent + heartbeat
    ensures c'.phase == Idle ==> c' == c
  {
    hide Built, ListsNodes, ListsEdges;
    var d :| StartsDelta(c, c', d, now - c.lastSent < heartbeat, common);
    EmptyIffNothingPending(c.rec, c'.rec, d, common);
  }

  // ---- What the copy shows after a cycle ----

  predicate Reports(step: Step) {
    step.Begin? || step.Rebuild?
  }

  ghost predicate NoReports(steps: seq<Step>) {
    forall step :: step in steps ==> !Reports(step)
  }

  lemma ReportShowsPresent(c: Config, report: Step, begun: Config, common: CommonFn)
    requires Inv(c) && Reports(report) && Next(c, report, begun, common)
    ensures begun.rec.previous == c.rec.current
  {
    hide IsDiff, IsComplete, Consistent, BuildersNameStored, InStep;
    if report.Begin? && c.lastSent != -1 {
      var quiet := report.now - c.lastSent < report.heartbeat;
      var d :| StartsDelta(c, begun, d, quiet, common);
      ReportsKeepConsistent(c.rec, begun.rec, d, NOTHING, common);
    } else {
      var full :| StartsComplete(c, begun, full, common);
      ReportsKeepConsistent(c.rec, begun.rec, NO_CHANGES, full, common);
    }
  }

  lemma OtherStepsKeepReport(c: Config, step: Step, c': Config, common: CommonFn)
    requires !Reports(step) && Next(c, step, c', common)
    ensures c'.rec.previous == c.rec.previous
  {
  }

  lemma {:induction false} LastReportStays(c: Config, steps: seq<Step>, c': Config, common: CommonFn)
    requires Leads(c, steps, c', common) && NoReports(steps)
    ensures c'.rec.previous == c.rec.previous
    decreases steps
  {
    hide Next;
    if steps != [] {
      var mid :| Next(c, steps[0], mid, common) && Leads(mid, steps[1..], c', common);
      assert steps[0] in steps;
      OtherStepsKeepReport(c, steps[0], mid, common);
      LastReportStays(mid, steps[1..], c', common);
    }
  }

  /**
   * Between cycles, and whatever happened in them: when the remote state is known, the aggregator holds the
   * nodes that were current when the last payload was put together. The report may begin a cycle or rebuild
   * after a failure; events and replies may come at any point before and after it.
   */
  lemma CopyShowsLastReport(c: Config, before: seq<Step>, mid: Config, report: Step, begun: Config, after: seq<Step>,
                            done: Config,
                            common: CommonFn)
    requires Inv(c) && CommonNamesStored(common) && AllClean(before) && AllClean(after)
    requires Leads(c, before, mid, common) && Reports(report) && Next(mid, report, begun, common)
    requires Leads(begun, after, done, common) && NoReports(after)
    requires done.phase == Idle && done.lastSent != -1
    ensures done.copy.nodes == Wires(mid.rec.current) && Mirrors(done.copy, done.rec)
  {
    hide Next, Leads, Consistent, BuildersNameStored;
    RunKeepsInv(c, before, mid, common);
    NextKeepsInv(mid, report, begun, common);
    RunKeepsInv(begun, after, done, common);
    ReportShowsPresent(mid, report, begun, common);
    LastReportStays(begun, after, done, common);
  }

  lemma {:induction false} LeadsToLast(c: Config, steps: seq<Step>, step: Step, c': Config, common: CommonFn)
    returns (mid: Config)
    requires Leads(c, steps + [step], c', common)
    ensures Leads(c, steps, mid, common) && Next(mid, step, c', common)
    decreases steps
  {
    hide Next;
    if steps == [] {
      mid := c;
      assert ([] + [step])[1..] == [];
    } else {
      var next :| Next(c, steps[0], next, common) && Leads(next, (steps + [step])[1..], c', common);
      assert (steps + [step])[1..] == steps[1..] + [step];
      mid := LeadsToLast(next, steps[1..], step, c', common);
    }
  }

  lemma AnswerLands(begun: Config, done: Config, now: int, reply: Reply)
    requires InStep(begun) && begun.phase.Sending? && Handles(begun, done, reply, now)
    requires reply.Answered? && reply.response.NoItemErrors()
    ensures done.phase == Idle && done.lastSent == now && done.rec == begun.rec && Mirrors(done.copy, done.rec)
    ensures Succeeds(reply, begun.phase.totalResources, begun.phase.totalEdges)
  {
    hide Mirrors, Plausible, Accepts;
    CleanAnswersAreAccepted(begun, reply);
  }

  /**
   * One answer is enough, whatever came before it: along any path of the protocol, with events, busy replies,
   * failures and rebuilds, an answer without item errors is accepted, ends the cycle, and leaves the aggregator
   * with the nodes that were current when the last payload was put together.
   */
  lemma OneAnswerCatchesUp(c: Config, before: seq<Step>, mid: Config, report: Step, begun: Config, after: seq<Step>,
                           reply: Reply, now: int, accepted: bool, done: Config, common: CommonFn)
    requires Inv(c) && CommonNamesStored(common) && AllClean(before) && AllClean(after)
    requires Leads(c, before, mid, common) && Reports(report) && Next(mid, report, begun, common)
    requires Leads(begun, after + [Hear(reply, now, accepted)], done, common) && NoReports(after)
    requires reply.Answered? && reply.response.NoItemErrors()
    ensures accepted && done.phase == Idle && done.lastSent == now
    ensures done.copy.nodes == Wires(mid.rec.current) && Mirrors(done.copy, done.rec)
  {
    hide Leads, Consistent, BuildersNameStored, StartsComplete, BeginsDelta;
    var last := LeadsToLast(begun, after, Hear(reply, now, accepted), done, common);
    RunKeepsInv(c, before, mid, common);
    NextKeepsInv(mid, report, begun, common);
    RunKeepsInv(begun, after, last, common);
    ReportShowsPresent(mid, report, begun, common);
    LastReportStays(begun, after, last, common);
    AnswerLands(last, done, now, reply);
  }

  // ---- Errors for single items ----

  /**
   * The exact condition for an accepted answer to mean an exact copy: for every copy that the aggregator may be
   * left with, it mirrors the report if and only if the answer reports no errors for single items.
   */
  lemma AcceptedAnswerExactIff(c: Config, r: SyncResponse)
    requires c.phase.Sending? && Deliverable(c) && Accepts(r, c.phase.totalResources, c.phase.totalEdges)
    ensures (forall left :: Plausible(c.copy, c.phase.payload, Answered(r, left)) ==> Mirrors(left, c.rec)) <==>
      r.NoItemErrors()
  {
    if r.NoItemErrors() {
      forall left | Plausible(c.copy, c.phase.payload, Answered(r, left)) ensures Mirrors(left, c.rec) {
        CleanAnswersAreAccepted(c, Answered(r, left));
      }
    } else {
      var wrong := NotAMirror(c.rec);
      assert Plausible(c.copy, c.phase.payload, Answered(r, wrong));
    }
  }

  lemma NotAMirror(s: State) returns (wrong: Copy)
    ensures !Mirrors(wrong, s)
  {
    var n := Node("", "", map[], map[]);
    if Wires(s.previous) == map[] {
      wrong := Copy(map["" := Wire(n)], map[]);
      assert "" in wrong.nodes;
    } else {
      wrong := Copy(map[], map[]);
    }
  }

  /**
   * And such answers do occur: whatever the aggregator is left with, there is an answer that reports its true
   * sizes, mentions some failed items, and is accepted.
   */
  lemma ItemErrorsGoUnnoticed(c: Config, left: Copy, now: int)
    requires c.phase.Sending?
    ensures exists r: SyncResponse ::
      && !r.NoItemErrors() && r.totalResources == |left.nodes| && r.totalEdges == |left.edges|
      && Plausible(c.copy, c.phase.payload, Answered(r, left))
      && Handles(c, c.(copy := left, lastSent := now, phase := Idle), Answered(r, left), now)
  {
    var n, e := |left.nodes| - c.phase.totalResources, |left.edges| - c.phase.totalEdges;
    var r := SyncResponse(|left.nodes|, |left.edges|,
      if n < 0 then -n else 0, 1, if n > 0 then n else 0,
      if e < 0 then -e else 0, if e > 0 then e else 0);
    assert Handles(c, c.(copy := left, lastSent := now, phase := Idle), Answered(r, left), now);
  }
}
