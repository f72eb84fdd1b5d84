/** The sender: one sync cycle, with its retries, written as the loops and branches that run it. */
module SenderModule {
  import opened Types
  import opened ReconcilerState
  import opened ReconcilerModule
  import opened Aggregator
  import opened Replication
  import opened SyncProtocol

  /** What happens around a cycle, in order: an event reaches the reconciler, or the aggregator replies. */
  datatype Happening = Arrives(ev: NodeEvent) | Replies(reply: Reply, now: nat)

  /** A cycle has returned without error, returned an error, or is still waiting for what happens next. */
  datatype Verdict = Done | Failure | InFlight

  /** What a step shows of what happened around the cycle: an event, or a reply of some kind at some time. */
  datatype Mark = Came(ev: NodeEvent) | Heard(busy: bool, failed: bool, itemErrors: bool, now: int)

  predicate HasItemErrors(reply: Reply) {
    reply.Answered? && !reply.response.NoItemErrors()
  }

  function MarkOf(reply: Reply, now: int): Mark {
    Heard(reply.Busy?, reply.Failed?, HasItemErrors(reply), now)
  }

  function Told(script: seq<Happening>): seq<Mark> {
    if script == [] then []
    else
      [match script[0] case Arrives(ev) => Came(ev) case Replies(reply, now) => MarkOf(reply, now)] + Told(script[1..])
  }

  function Shown(step: Step): seq<Mark> {
    match step
    case Arrive(ev) => [Came(ev)]
    case Hear(reply, now, _) => [MarkOf(reply, now)]
    case _ => []
  }

  function Outline(steps: seq<Step>): seq<Mark> {
    if steps == [] then [] else Outline(steps[..|steps| - 1]) + Shown(steps[|steps| - 1])
  }

  /** The steps take in the script in its order, leaving out nothing, up to the rest. */
  ghost predicate Uses(script: seq<Happening>, steps: seq<Step>, rest: seq<Happening>) {
    Told(script) == Outline(steps) + Told(rest)
  }

  lemma {:induction false} OutlineJoins(a: seq<Step>, b: seq<Step>)
    ensures Outline(a + b) == Outline(a) + Outline(b)
  {
    hide Shown;
    if b == [] {
      assert a + b == a;
    } else {
      var n := |b| - 1;
      OutlineJoins(a, b[..n]);
      OutlineEnds(a + b, a + b[..n]);
      OutlineEnds(b, b[..n]);
    }
  }

  lemma OutlineEnds(steps: seq<Step>, most: seq<Step>)
    requires steps != [] && most == steps[..|steps| - 1]
    ensures Outline(steps) == Outline(most) + Shown(steps[|steps| - 1])
  {
  }

  lemma UsesOn(script: seq<Happening>, steps: seq<Step>, mid: seq<Happening>, more: seq<Step>, rest: seq<Happening>)
    requires Uses(script, steps, mid) && Uses(mid, more, rest)
    ensures Uses(script, steps + more, rest)
  {
    OutlineJoins(steps, more);
  }

  lemma UsesOne(script: seq<Happening>, step: Step)
    requires script != [] && Shown(step) == [Told(script)[0]]
    ensures Uses(script, [step], script[1..])
  {
    assert [step][..0] == [];
  }

  lemma UsesNone(script: seq<Happening>, step: Step)
    ensures Uses(script, [], script)
    ensures Shown(step) == [] ==> Uses(script, [step], script)
  {
    assert [step][..0] == [];
  }

  /** An answer without item errors tells the truth about a copy that took the payload. */
  function Truthful(copy: Copy, p: Payload, reply: Reply): (r: Reply)
    ensures Plausible(copy, p, r)
    ensures MarkOf(r, 0) == MarkOf(reply, 0)
    ensures reply.Busy? ==> r == reply
  {
    if reply.Answered? && reply.response.NoItemErrors() then
      var after := Apply(copy, p);
      Answered(SyncResponse(|after.nodes|, |after.edges|, 0, 0, 0, 0, 0), after)
    else reply
  }

  class Sender {
    var lastSentTime: int
    const rec: Reconciler
    var copy: Copy
    ghost var phase: Phase

    ghost function View(): Config
      reads this, rec
    {
      Config(rec.Contents(), copy, lastSentTime, phase)
    }

    constructor (rec: Reconciler, copy: Copy)
      ensures this.rec == rec && View() == Config(rec.Contents(), copy, -1, Idle)
    {
      lastSentTime := -1;
      this.rec := rec;
      this.copy := copy;
      phase := Idle;
    }

    method Receive(ev: NodeEvent)
      requires Consistent(rec.Contents())
      modifies rec
      ensures View() == old(View()).(rec := Reconcile(old(rec.Contents()), ev))
      ensures Consistent(rec.Contents())
    {
      ReconcileKeepsConsistent(rec.Contents(), ev);
      var _ := rec.ReconcileNode(ev);
    }

    /** Takes in the events that arrive before anything else happens. */
    method Absorb(script: seq<Happening>) returns (rest: seq<Happening>, ghost steps: seq<Step>)
      requires Consistent(rec.Contents())
      modifies rec
      ensures Leads(old(View()), steps, View(), rec.common)
      ensures View() == old(View()).(rec := rec.Contents()) && Consistent(rec.Contents())
      ensures Uses(script, steps, rest)
      ensures |rest| <= |script| && (rest != [] ==> rest[0].Replies?)
    {
      hide Next, Leads, Consistent, Uses;
      rest, steps := script, [];
      StartsNowhere(View(), rec.common);
      UsesNone(script, Rebuild);
      ghost var start := View();
      while rest != [] && rest[0].Arrives?
        invariant Leads(start, steps, View(), rec.common)
        invariant View() == start.(rec := rec.Contents()) && Consistent(rec.Contents())
        invariant |rest| <= |script| && Uses(script, steps, rest)
        decreases |rest|
      {
        ghost var mid := View();
        Receive(rest[0].ev);
        ArrivalIsAStep(mid, View(), rest[0].ev, rec.common);
        UsesOne(rest, Arrive(rest[0].ev));
        UsesOn(script, steps, rest, [Arrive(rest[0].ev)], rest[1..]);
        LeadsOn(start, steps, mid, Arrive(rest[0].ev), View(), rec.common);
        steps := steps + [Arrive(rest[0].ev)];
        rest := rest[1..];
      }
    }

    /**
     * Sends the payload until the reply is not "busy". While it waits, events may arrive. On return with a
     * verdict, the copy has been affected by the last reply, and nothing else has changed since mid.
     */
    method SendWithRetry(payload: Payload, totalResources: int, totalEdges: int, ghost complete: bool,
                         script: seq<Happening>)
      returns (verdict: Verdict, now: nat, rest: seq<Happening>, ghost steps: seq<Step>, ghost mid: Config,
               ghost last: Reply)
      requires Consistent(rec.Contents())
      requires phase == Sending(payload, totalResources, totalEdges, complete)
      modifies this`copy, rec
      ensures Leads(old(View()), steps, mid, rec.common)
      ensures mid.phase == phase && mid.lastSent == lastSentTime && mid.rec == rec.Contents()
      ensures Consistent(rec.Contents())
      ensures verdict.InFlight? ==> View() == mid && rest == [] && Uses(script, steps, rest)
      ensures !verdict.InFlight? ==> Uses(script, steps + [Hear(last, now, verdict.Done?)], rest)
      ensures !verdict.InFlight? ==>
        && !last.Busy? && Plausible(mid.copy, payload, last) && copy == Effect(mid.copy, payload, last)
        && (verdict.Done? <==> Succeeds(last, totalResources, totalEdges))
      ensures verdict.Done? ==> last.Answered?
      ensures !verdict.InFlight? && last.Answered? ==>
        var r := last.response;
        verdict.Done? <==>
          && r.totalResources - totalResources == r.deleteErrors - r.addErrors
          && r.totalEdges - totalEdges == r.deleteEdgeErrors - r.addEdgeErrors
    {
      hide Next, Leads, Consistent, Uses;
      rest, steps, now := script, [], 0;
      StartsNowhere(View(), rec.common);
      UsesNone(script, Rebuild);
      last := Busy(false);
      while true
        invariant Leads(old(View()), steps, View(), rec.common)
        invariant View() == old(View()).(rec := rec.Contents(), copy := copy) && Consistent(rec.Contents())
        invariant Uses(script, steps, rest)
        decreases |rest|
      {
        ghost var before, left := View(), rest;
        ghost var arrivals;
        rest, arrivals := Absorb(rest);
        UsesOn(script, steps, left, arrivals, rest);
        LeadsThrough(old(View()), steps, before, arrivals, View(), rec.common);
        steps := steps + arrivals;
        mid := View();
        if rest == [] {
          return InFlight, now, rest, steps, mid, last;
        }
        now := rest[0].now;
        var reply := Post(payload, rest[0].reply);
        ghost var heard := Hear(reply, now, Succeeds(reply, totalResources, totalEdges));
        UsesOne(rest, heard);
        UsesOn(script, steps, rest, [heard], rest[1..]);
        rest := rest[1..];
        if !reply.Busy? {
          last := reply;
          verdict := if Succeeds(reply, totalResources, totalEdges) then Done else Failure;
          return;
        }
        BusyIsAStep(mid, View(), payload, reply, now, rec.common);
        LeadsOn(old(View()), steps, mid, heard, View(), rec.common);
        steps := steps + [heard];
      }
    }

    /** One request and the reply to it. */
    method Post(payload: Payload, outcome: Reply) returns (reply: Reply)
      modifies this`copy
      ensures Plausible(old(copy), payload, reply)
      ensures View() == old(View()).(copy := Effect(old(copy), payload, reply))
      ensures forall now :: MarkOf(reply, now) == MarkOf(outcome, now)
    {
      reply := Truthful(copy, payload, outcome);
      copy := Effect(copy, payload, reply);
    }

    /** Takes a complete report and turns to sending it. */
    method StartComplete(ghost how: Step) returns (c: CompleteState)
      requires Consistent(rec.Contents())
      requires (how.Begin? && phase == Idle && lastSentTime == -1) || (how.Rebuild? && phase == NeedComplete)
      modifies this`phase, rec
      ensures Next(old(View()), how, View(), rec.common)
      ensures phase == SendComplete(c) && Consistent(rec.Contents())
    {
      hide Next, IsComplete, Consistent, Reportable;
      ConsistentIsReportable(rec.Contents());
      ghost var before := View();
      c := rec.Complete();
      phase := SendComplete(c);
      CompleteIsAStep(before, View(), how, c, rec.common);
    }

    /** Takes a delta report; when it is empty and the last exchange is recent, nothing is sent. */
    method StartDelta(now: int, heartbeat: int) returns (d: Delta)
      requires Consistent(rec.Contents())
      requires phase == Idle && lastSentTime != -1
      modifies this`phase, rec
      ensures Next(old(View()), Begin(now, heartbeat), View(), rec.common)
      ensures phase == if DeltaPayload(d).Empty() && now - lastSentTime < heartbeat then Idle else SendDelta(d)
      ensures Consistent(rec.Contents())
    {
      hide Next, IsDiff, Consistent, Reportable;
      ConsistentIsReportable(rec.Contents());
      ghost var before := View();
      d := rec.Diff();
      phase := if DeltaPayload(d).Empty() && now - lastSentTime < heartbeat then Idle else SendDelta(d);
      DeltaIsAStep(before, View(), d, now, heartbeat, rec.common);
    }

    /** Records how an exchange ended. */
    method Finish(ok: bool, complete: bool, now: int, ghost mid: Config, ghost reply: Reply)
      requires mid.phase == phase && phase.Sending? && phase.complete == complete && !reply.Busy?
      requires View() == mid.(copy := Effect(mid.copy, phase.payload, reply))
      requires Plausible(mid.copy, phase.payload, reply)
      requires ok <==> Succeeds(reply, phase.totalResources, phase.totalEdges)
      modifies this`phase, this`lastSentTime
      ensures Next(mid, Hear(reply, now, ok), View(), rec.common)
      ensures phase == if ok || complete then Idle else NeedComplete
      ensures lastSentTime == if ok then now else if complete then -1 else old(lastSentTime)
    {
      if ok {
        lastSentTime := now;
      } else if complete {
        lastSentTime := -1;
      }
      phase := if ok || complete then Idle else NeedComplete;
    }

    /** Sends the complete state; on failure the remote state is unknown. */
    method SendCompletePayload(ghost how: Step, script: seq<Happening>)
      returns (verdict: Verdict, rest: seq<Happening>, ghost steps: seq<Step>)
      requires Consistent(rec.Contents())
      requires (how.Begin? && phase == Idle && lastSentTime == -1) || (how.Rebuild? && phase == NeedComplete)
      modifies this, rec
      ensures Leads(old(View()), steps, View(), rec.common) && Consistent(rec.Contents())
      ensures Uses(script, steps, rest) && steps != [] && steps[0] == how
      ensures if verdict.InFlight? then rest == [] else phase == Idle
      ensures verdict.Failure? ==> lastSentTime == -1
      ensures verdict.Done? ==> lastSentTime != -1
    {
      hide Next, Leads, Consistent, Uses;
      ghost var start := View();
      UsesNone(script, how);
      var c := StartComplete(how);
      ghost var begun := View();
      LeadsOne(start, how, begun, rec.common);
      var now;
      ghost var more, mid, last;
      verdict, now, rest, more, mid, last :=
        SendWithRetry(CompletePayload(c), c.totalNodes, c.totalEdges, true, script);
      LeadsThrough(start, [how], begun, more, mid, rec.common);
      steps := [how] + more;
      if verdict.InFlight? {
        UsesOn(script, [how], script, more, rest);
      } else {
        UsesOn(script, [how], script, more + [Hear(last, now, verdict.Done?)], rest);
        assert [how] + (more + [Hear(last, now, verdict.Done?)]) == steps + [Hear(last, now, verdict.Done?)];
        Finish(verdict.Done?, true, now, mid, last);
        LeadsOn(start, steps, mid, Hear(last, now, verdict.Done?), View(), rec.common);
        steps := steps + [Hear(last, now, verdict.Done?)];
      }
    }

    /** Sends the changes; on failure a complete payload is due. */
    method SendDeltaPayload(now: nat, heartbeat: int, script: seq<Happening>)
      returns (verdict: Verdict, rest: seq<Happening>, ghost steps: seq<Step>)
      requires Consistent(rec.Contents())
      requires phase == Idle && lastSentTime != -1
      modifies this, rec
      ensures Leads(old(View()), steps, View(), rec.common) && Consistent(rec.Contents())
      ensures Uses(script, steps, rest) && steps != [] && steps[0] == Begin(now, heartbeat)
      ensures verdict.InFlight? ==> rest == []
      ensures verdict.Done? ==> phase == Idle && lastSentTime != -1
      ensures verdict.Failure? ==> phase == NeedComplete
    {
      hide Next, Leads, Consistent, Uses;
      ghost var start, how := View(), Begin(now, heartbeat);
      UsesNone(script, how);
      var d := StartDelta(now, heartbeat);
      ghost var begun := View();
      LeadsOne(start, how, begun, rec.common);
      if DeltaPayload(d).Empty() && now - lastSentTime < heartbeat {
        return Done, script, [how];
      }
      var at;
      ghost var more, mid, last;
      verdict, at, rest, more, mid, last :=
        SendWithRetry(DeltaPayload(d), d.totalNodes, d.totalEdges, false, script);
      LeadsThrough(start, [how], begun, more, mid, rec.common);
      steps := [how] + more;
      if verdict.InFlight? {
        UsesOn(script, [how], script, more, rest);
      } else {
        UsesOn(script, [how], script, more + [Hear(last, at, verdict.Done?)], rest);
        assert [how] + (more + [Hear(last, at, verdict.Done?)]) == steps + [Hear(last, at, verdict.Done?)];
        Finish(verdict.Done?, false, at, mid, last);
        LeadsOn(start, steps, mid, Hear(last, at, verdict.Done?), View(), rec.common);
        steps := steps + [Hear(last, at, verdict.Done?)];
      }
    }

    /**
     * One cycle: the changes if the remote state is known, and the complete state if it is not or if
     * sending the changes failed. Every way it can go is a path of the protocol, which takes in every event
     * and every reply in the order in which they came. So from a state that a run can reach, and unless an
     * answer with errors for single items is accepted, it leaves an exact copy, or an error and the knowledge
     * that the copy may not be exact.
     */
    method Sync(now: nat, heartbeat: int, script: seq<Happening>)
      returns (verdict: Verdict, rest: seq<Happening>, ghost steps: seq<Step>)
      requires Consistent(rec.Contents()) && phase == Idle
      modifies this, rec
      ensures Leads(old(View()), steps, View(), rec.common) && Consistent(rec.Contents())
      ensures Uses(script, steps, rest) && steps != [] && steps[0] == Begin(now, heartbeat)
      ensures if verdict.InFlight? then rest == [] else phase == Idle
      ensures verdict.Failure? ==> lastSentTime == -1
      ensures verdict.Done? ==> lastSentTime != -1
      ensures old(Inv(View())) && CommonNamesStored(rec.common) && (AllClean(steps) || CleanScript(script)) ==>
                && Inv(View())
                && (verdict.Done? ==> Mirrors(copy, rec.Contents()))
                && (verdict.Failure? ==> lastSentTime == -1)
    {
      hide Next, Leads, Consistent, Uses, Inv, AllClean, CleanScript;
      ghost var start := View();
      verdict, rest, steps := RunCycle(now, heartbeat, script);
      if Inv(start) && CommonNamesStored(rec.common) && (AllClean(steps) || CleanScript(script)) {
        if !AllClean(steps) {
          CleanScriptCleanSteps(script, steps, rest);
        }
        SyncedOrKnownNotToBe(start, steps, View(), rec.common);
      }
    }

    /** The branches of a cycle. */
    method RunCycle(now: nat, heartbeat: int, script: seq<Happening>)
      returns (verdict: Verdict, rest: seq<Happening>, ghost steps: seq<Step>)
      requires Consistent(rec.Contents()) && phase == Idle
      modifies this, rec
      ensures Leads(old(View()), steps, View(), rec.common) && Consistent(rec.Contents())
      ensures Uses(script, steps, rest) && steps != [] && steps[0] == Begin(now, heartbeat)
      ensures if verdict.InFlight? then rest == [] else phase == Idle
      ensures verdict.Failure? ==> lastSentTime == -1
      ensures verdict.Done? ==> lastSentTime != -1
    {
      hide Next, Leads, Consistent, Uses;
      if lastSentTime == -1 {
        verdict, rest, steps := SendCompletePayload(Begin(now, heartbeat), script);
        return;
      }
      ghost var start := View();
      verdict, rest, steps := SendDeltaPayload(now, heartbeat, script);
      if verdict.Failure? {
        ghost var failed := View();
        ghost var arrivals, more;
        ghost var left := rest;
        rest, arrivals := Absorb(rest);
        UsesOn(script, steps, left, arrivals, rest);
        left := rest;
        ghost var ready := View();
        LeadsThrough(start, steps, failed, arrivals, ready, rec.common);
        verdict, rest, more := SendCompletePayload(Rebuild, rest);
        LeadsThrough(start, steps + arrivals, ready, more, View(), rec.common);
        UsesOn(script, steps + arrivals, left, more, rest);
        steps := steps + arrivals + more;
      }
    }
  }

  /** What comes is clean: builders that name stored nodes, and answers without errors for single items. */
  ghost predicate CleanScript(script: seq<Happening>) {
    forall m :: m in Told(script) ==> Tidy(m)
  }

  ghost predicate Tidy(m: Mark) {
    match m
    case Came(ev) => NamesStored(ev.node.uid, ev.computeEdges)
    case Heard(_, _, itemErrors, _) => !itemErrors
  }

  lemma {:induction false} TidyOutlineCleanSteps(steps: seq<Step>)
    requires forall m :: m in Outline(steps) ==> Tidy(m)
    ensures AllClean(steps)
  {
    if steps != [] {
      var n := |steps| - 1;
      OutlineEnds(steps, steps[..n]);
      TidyOutlineCleanSteps(steps[..n]);
      assert steps == steps[..n] + [steps[n]];
      assert forall m :: m in Shown(steps[n]) ==> Tidy(m);
      TidyStepIsClean(steps[n]);
    }
  }

  lemma TidyStepIsClean(step: Step)
    requires forall m :: m in Shown(step) ==> Tidy(m)
    ensures Clean(step)
  {
    if step.Arrive? {
      assert Came(step.ev) in Shown(step);
    } else if step.Hear? {
      assert MarkOf(step.reply, step.now) in Shown(step);
    }
  }

  /** When what comes is clean, so are the steps that take it in. */
  lemma CleanScriptCleanSteps(script: seq<Happening>, steps: seq<Step>, rest: seq<Happening>)
    requires CleanScript(script) && Uses(script, steps, rest)
    ensures AllClean(steps)
  {
    hide Tidy, AllClean;
    assert forall m :: m in Outline(steps) ==> m in Told(script);
    TidyOutlineCleanSteps(steps);
  }

  lemma StartsNowhere(c: Config, common: CommonFn)
    ensures Leads(c, [], c, common)
  {
  }

  lemma ArrivalIsAStep(before: Config, after: Config, ev: NodeEvent, common: CommonFn)
    requires after == before.(rec := Reconcile(before.rec, ev))
    ensures Next(before, Arrive(ev), after, common)
  {
  }

  lemma LeadsOne(c: Config, step: Step, c': Config, common: CommonFn)
    requires Next(c, step, c', common)
    ensures Leads(c, [step], c', common)
  {
    LeadsOn(c, [], c, step, c', common);
    assert [] + [step] == [step];
  }

  /**
   * Any path between cycles in which no accepted answer reports errors for single items leaves either an exact
   * copy or the knowledge that there may be none.
   */
  lemma SyncedOrKnownNotToBe(before: Config, steps: seq<Step>, after: Config, common: CommonFn)
    requires Inv(before) && Leads(before, steps, after, common) && AllClean(steps) && CommonNamesStored(common)
    ensures Inv(after)
    ensures after.phase == Idle ==> Mirrors(after.copy, after.rec) || after.lastSent == -1
  {
    RunKeepsInv(before, steps, after, common);
  }

  lemma CompleteIsAStep(before: Config, after: Config, how: Step, c: CompleteState, common: CommonFn)
    requires Consistent(before.rec) && StartsComplete(before, after, c, common)
    requires
      || (how.Begin? && before.phase == Idle && before.lastSent == -1)
      || (how.Rebuild? && before.phase == NeedComplete)
    ensures Next(before, how, after, common) && Consistent(after.rec)
  {
    ReportsKeepConsistent(before.rec, after.rec, NO_CHANGES, c, common);
  }

  lemma DeltaIsAStep(before: Config, after: Config, d: Delta, now: int, heartbeat: int, common: CommonFn)
    requires Consistent(before.rec) && before.phase == Idle && before.lastSent != -1
    requires StartsDelta(before, after, d, now - before.lastSent < heartbeat, common)
    ensures Next(before, Begin(now, heartbeat), after, common) && Consistent(after.rec)
  {
    ReportsKeepConsistent(before.rec, after.rec, d, NOTHING, common);
  }

  lemma BusyIsAStep(mid: Config, c: Config, payload: Payload, reply: Reply, now: int, common: CommonFn)
    requires mid.phase.Sending? && mid.phase.payload == payload && reply.Busy?
    requires c == mid.(copy := Effect(mid.copy, payload, reply))
    ensures Next(mid, Hear(reply, now, false), c, common)
  {
  }

  lemma {:induction false} LeadsThrough(c: Config, steps: seq<Step>, mid: Config, more: seq<Step>, c': Config,
                                        common: CommonFn)
    requires Leads(c, steps, mid, common) && Leads(mid, more, c', common)
    ensures Leads(c, steps + more, c', common)
    decreases steps
  {
    hide Next;
    if steps == [] {
      assert [] + more == more;
    } else {
      var next :| Next(c, steps[0], next, common) && Leads(next, steps[1..], mid, common);
      LeadsThrough(next, steps[1..], mid, more, c', common);
      assert (steps + more)[1..] == steps[1..] + more;
    }
  }
}
