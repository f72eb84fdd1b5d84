/**
 * The hand-over of resync requests: any number of threads queue keys under a lock and then poke a channel of
 * capacity one; the main loop takes the poke, empties the queue and works on what it got.
 */
module ResyncQueue {
  import opened Types

  /** Where the main loop is: at its select, between the poke and the drain, or working on something. */
  datatype Loop = Selecting | Received | Working

  datatype Thread = Thread(id: nat)

  /** A thread between its unlock and its send is in sending. */
  datatype Queue = Queue(
    pending: set<string>,
    pendingSync: bool,
    signal: bool,
    sending: set<Thread>,
    loop: Loop)

  const EMPTY := Queue({}, false, false, {}, Selecting)

  datatype Step =
    | QueueKeys(thread: Thread, keys: set<string>)
    | QueueSync(thread: Thread)
    | Send(thread: Thread)
    | Receive
    | Drain(keys: set<string>, sync: bool)
    | Finish
    | OtherWork

  predicate Enabled(q: Queue, step: Step) {
    match step
    case QueueKeys(t, _) => t !in q.sending
    case QueueSync(t) => t !in q.sending
    case Send(t) => t in q.sending
    case Receive => q.loop.Selecting? && q.signal
    case Drain(keys, sync) => q.loop.Received? && keys == q.pending && sync == q.pendingSync
    case Finish => q.loop.Working?
    case OtherWork => q.loop.Selecting?
  }

  function After(q: Queue, step: Step): Queue {
    match step
    case QueueKeys(t, keys) => q.(pending := q.pending + keys, sending := q.sending + {t})
    case QueueSync(t) => q.(pendingSync := true, sending := q.sending + {t})
    case Send(t) => q.(signal := true, sending := q.sending - {t})
    case Receive => q.(signal := false, loop := Received)
    case Drain(_, _) => q.(pending := {}, pendingSync := false, loop := Working)
    case Finish => q.(loop := Selecting)
    case OtherWork => q.(loop := Working)
  }

  /** The threads and the loop can take these steps, in this interleaving. */
  predicate Runs(q: Queue, steps: seq<Step>)
    decreases |steps|
  {
    steps == [] || (Enabled(q, steps[0]) && Runs(After(q, steps[0]), steps[1..]))
  }

  function End(q: Queue, steps: seq<Step>): Queue
    decreases |steps|
  {
    if steps == [] then q else End(After(q, steps[0]), steps[1..])
  }

  // ---- No lost wakeup ----

  /** Whatever is pending, the loop is going to look: a poke is in the channel, about to be, or just taken. */
  predicate Noticed(q: Queue) {
    q.pending != {} || q.pendingSync ==> q.signal || q.sending != {} || q.loop.Received?
  }

  lemma {:induction false} NoLostWakeup(q: Queue, steps: seq<Step>)
    requires Noticed(q) && Runs(q, steps)
    ensures Noticed(End(q, steps))
    decreases |steps|
  {
    if steps != [] {
      NoLostWakeup(After(q, steps[0]), steps[1..]);
    }
  }

  // ---- Nothing queued is dropped, nothing is made up ----

  function Queued(steps: seq<Step>): set<string> {
    if steps == [] then {} else (if steps[0].QueueKeys? then steps[0].keys else {}) + Queued(steps[1..])
  }

  function Drained(steps: seq<Step>): set<string> {
    if steps == [] then {} else (if steps[0].Drain? then steps[0].keys else {}) + Drained(steps[1..])
  }

  predicate SyncQueued(steps: seq<Step>) {
    exists step :: step in steps && step.QueueSync?
  }

  predicate SyncDrained(steps: seq<Step>) {
    exists step :: step in steps && step.Drain? && step.sync
  }

  /** The keys pending or queued are always exactly those drained or still pending; likewise for a full sync. */
  lemma {:induction false} QueuedIsDrainedOrPending(q: Queue, steps: seq<Step>)
    requires Runs(q, steps)
    ensures q.pending + Queued(steps) == Drained(steps) + End(q, steps).pending
    ensures q.pendingSync || SyncQueued(steps) <==> SyncDrained(steps) || End(q, steps).pendingSync
    decreases |steps|
  {
    if steps != [] {
      QueuedIsDrainedOrPending(After(q, steps[0]), steps[1..]);
      assert steps == [steps[0]] + steps[1..];
    }
  }

  lemma {:induction false} RunsSplit(q: Queue, steps: seq<Step>, i: nat)
    requires Runs(q, steps) && i <= |steps|
    ensures Runs(q, steps[..i]) && Runs(End(q, steps[..i]), steps[i..])
    ensures End(End(q, steps[..i]), steps[i..]) == End(q, steps)
    decreases |steps|
  {
    if i > 0 {
      RunsSplit(After(q, steps[0]), steps[1..], i - 1);
      assert steps[..i][1..] == steps[1..][..i - 1] && steps[1..][i - 1..] == steps[i..];
    } else {
      assert steps[0..] == steps;
    }
  }

  /** A key queued at some point of a run is in a later drain or still pending at the end. */
  lemma QueuedKeyComesOut(q: Queue, steps: seq<Step>, i: nat, key: string)
    requires Runs(q, steps) && i < |steps| && steps[i].QueueKeys? && key in steps[i].keys
    ensures key in Drained(steps[i + 1..]) || key in End(q, steps).pending
  {
    RunsSplit(q, steps, i);
    var mid := End(q, steps[..i]);
    assert steps[i..][1..] == steps[i + 1..];
    QueuedIsDrainedOrPending(After(mid, steps[i]), steps[i + 1..]);
  }

  /** Keys that are pending together come out together: the next drain has them all. */
  lemma {:induction false} PendingKeysComeOutTogether(q: Queue, steps: seq<Step>, keys: set<string>) returns (d: nat)
    requires Runs(q, steps) && keys <= q.pending && !(keys <= End(q, steps).pending)
    ensures d < |steps| && steps[d].Drain? && keys <= steps[d].keys
    decreases |steps|
  {
    if steps[0].Drain? {
      d := 0;
    } else {
      d := PendingKeysComeOutTogether(After(q, steps[0]), steps[1..], keys);
      d := d + 1;
    }
  }

  /** In a run that has settled, the keys queued in one step are all in one later drain. */
  lemma QueuedKeysComeOutTogether(q: Queue, steps: seq<Step>, i: nat) returns (d: nat)
    requires Noticed(q) && Runs(q, steps) && Settled(End(q, steps))
    requires i < |steps| && steps[i].QueueKeys? && steps[i].keys != {}
    ensures i < d < |steps| && steps[d].Drain? && steps[i].keys <= steps[d].keys
  {
    RunsSplit(q, steps, i);
    NoLostWakeup(q, steps);
    var mid := End(q, steps[..i]);
    assert steps[i..][1..] == steps[i + 1..];
    d := PendingKeysComeOutTogether(After(mid, steps[i]), steps[i + 1..], steps[i].keys);
    d := i + 1 + d;
  }

  // ---- Everything pending is drained once no more is queued ----

  predicate Quiet(steps: seq<Step>) {
    forall step :: step in steps ==> step.Send? || step.Receive? || step.Drain? || step.Finish?
  }

  /** None of those steps can be taken. */
  predicate Settled(q: Queue) {
    q.sending == {} && q.loop.Selecting? && !q.signal
  }

  lemma SettledMeansStuck(q: Queue)
    ensures Settled(q) <==> forall step :: Quiet([step]) ==> !Enabled(q, step)
  {
    if t :| t in q.sending {
      assert Quiet([Send(t)]) && Enabled(q, Send(t));
    } else if !Settled(q) {
      var step :=
        match q.loop
        case Selecting => Receive
        case Received => Drain(q.pending, q.pendingSync)
        case Working => Finish;
      assert Quiet([step]) && Enabled(q, step);
    } else {
      forall step | Quiet([step]) ensures !Enabled(q, step) {
        assert step in [step];
      }
    }
  }

  /** How many such steps there can still be. */
  function Work(q: Queue): nat {
    5 * |q.sending| + (if q.signal then 4 else 0) +
    match q.loop case Selecting => 0 case Received => 2 case Working => 1
  }

  /** Without new requests a run ends within a known number of steps. */
  lemma {:induction false} QuietRunsEnd(q: Queue, steps: seq<Step>)
    requires Runs(q, steps) && Quiet(steps)
    ensures |steps| + Work(End(q, steps)) <= Work(q)
    decreases |steps|
  {
    if steps != [] {
      assert steps[0] in steps;
      QuietRunsEnd(After(q, steps[0]), steps[1..]);
    }
  }

  /** And however it got there, when it has ended everything that was pending has been drained. */
  lemma EverythingIsDrained(q: Queue, steps: seq<Step>)
    requires Noticed(q) && Runs(q, steps) && Settled(End(q, steps))
    ensures q.pending + Queued(steps) == Drained(steps)
    ensures q.pendingSync || SyncQueued(steps) <==> SyncDrained(steps)
  {
    NoLostWakeup(q, steps);
    QueuedIsDrainedOrPending(q, steps);
  }

  // ---- The code: each method is one step, the triggers are two ----

  lemma OneStep(q: Queue, a: Step)
    ensures Runs(q, [a]) <==> Enabled(q, a)
    ensures End(q, [a]) == After(q, a)
  {
    assert [a][1..] == [];
  }

  lemma TwoSteps(q: Queue, a: Step, b: Step)
    ensures Runs(q, [a, b]) <==> Enabled(q, a) && Enabled(After(q, a), b)
    ensures End(q, [a, b]) == After(After(q, a), b)
  {
    assert [a, b][1..] == [b];
    OneStep(After(q, a), b);
  }

  function Elements(keys: seq<string>): set<string> {
    set k | k in keys
  }

  /** The keys in no particular order. */
  method ListKeys(pending: set<string>) returns (keys: seq<string>)
    ensures Elements(keys) == pending
    ensures NoDuplicates(keys)
  {
    keys := [];
    var left := pending;
    while left != {}
      invariant left !! Elements(keys) && left + Elements(keys) == pending
      invariant NoDuplicates(keys)
    {
      var k :| k in left;
      assert Elements(keys + [k]) == Elements(keys) + {k};
      keys := keys + [k];
      left := left - {k};
    }
  }

  class ResyncRequests {
    var pendingResync: set<string>
    var pendingSyncInformers: bool
    var resyncSignal: bool
    ghost var sending: set<Thread>
    ghost var loop: Loop

    constructor ()
      ensures View() == EMPTY
    {
      pendingResync, pendingSyncInformers, resyncSignal := {}, false, false;
      sending, loop := {}, Selecting;
    }

    ghost function View(): Queue
      reads this
    {
      Queue(pendingResync, pendingSyncInformers, resyncSignal, sending, loop)
    }

    method AddPending(keys: seq<string>, ghost thread: Thread)
      requires thread !in sending
      modifies this
      ensures
        var step := QueueKeys(thread, Elements(keys));
        Enabled(old(View()), step) && View() == After(old(View()), step)
    {
      for i := 0 to |keys|
        invariant View() == old(View()).(pending := old(pendingResync) + Elements(keys[..i]))
      {
        pendingResync := pendingResync + {keys[i]};
        assert keys[..i + 1] == keys[..i] + [keys[i]];
      }
      assert keys[..|keys|] == keys;
      sending := sending + {thread};
    }

    method AddSync(ghost thread: Thread)
      requires thread !in sending
      modifies this
      ensures Enabled(old(View()), QueueSync(thread)) && View() == After(old(View()), QueueSync(thread))
    {
      pendingSyncInformers := true;
      sending := sending + {thread};
    }

    /** Sends without blocking: when the channel is full the poke is already there. */
    method Poke(ghost thread: Thread)
      requires thread in sending
      modifies this
      ensures Enabled(old(View()), Send(thread)) && View() == After(old(View()), Send(thread))
    {
      if !resyncSignal {
        resyncSignal := true;
      }
      sending := sending - {thread};
    }

    method TriggerResyncForConfigKeys(keys: seq<string>, ghost thread: Thread)
      requires thread !in sending
      modifies this
      ensures
        var steps := [QueueKeys(thread, Elements(keys)), Send(thread)];
        Runs(old(View()), steps) && View() == End(old(View()), steps)
    {
      AddPending(keys, thread);
      Poke(thread);
      TwoSteps(old(View()), QueueKeys(thread, Elements(keys)), Send(thread));
    }

    method TriggerSyncInformers(ghost thread: Thread)
      requires thread !in sending
      modifies this
      ensures
        var steps := [QueueSync(thread), Send(thread)];
        Runs(old(View()), steps) && View() == End(old(View()), steps)
    {
      AddSync(thread);
      Poke(thread);
      TwoSteps(old(View()), QueueSync(thread), Send(thread));
    }

    method TakePoke()
      requires loop.Selecting? && resyncSignal
      modifies this
      ensures Enabled(old(View()), Receive) && View() == After(old(View()), Receive)
    {
      resyncSignal := false;
      loop := Received;
    }

    method DrainPendingResync() returns (keys: seq<string>, needSync: bool)
      requires loop.Received?
      modifies this
      ensures
        var step := Drain(Elements(keys), needSync);
        Enabled(old(View()), step) && View() == After(old(View()), step)
      ensures NoDuplicates(keys)
    {
      keys := ListKeys(pendingResync);
      pendingResync := {};
      needSync := pendingSyncInformers;
      pendingSyncInformers := false;
      loop := Working;
    }

    /** The work on what was drained is done; the loop goes back to its select. */
    ghost method GoBack()
      requires loop.Working?
      modifies this`loop
      ensures Enabled(old(View()), Finish) && View() == After(old(View()), Finish)
    {
      loop := Selecting;
    }
  }
}
