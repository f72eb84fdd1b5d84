/** The running informers: keeping them in step with discovery, and asking them to list again. */
module InformerRegistry {
  import opened Types
  import opened ConfigKeys
  import opened ConfigMerge
  import opened ConfigReload
  import opened SupportedResources
  import RQ = ResyncQueue

  class Informer {
    const gvr: GVR
    /** How often it has been cancelled. */
    var cancels: nat
    /** Whether a request to list again is in its channel. */
    var resync: bool

    constructor (gvr: GVR)
      ensures this.gvr == gvr && cancels == 0 && !resync
    {
      this.gvr, cancels, resync := gvr, 0, false;
    }

    method Cancel()
      modifies this`cancels
      ensures cancels == old(cancels) + 1
    {
      cancels := cancels + 1;
    }

    method TriggerResync()
      modifies this`resync
      ensures resync
    {
      if !resync {
        resync := true;
      }
    }
  }

  /** What discovery answers; it may fail, and the two parts may fail apart. */
  datatype Discovery = Discovery(gvrs: Option<set<GVR>>, names: Option<map<string, GVR>>)

  /** What dispatching a config key asks of the informer of gvr: names decide, unless the kind is the wildcard. */
  predicate Signals(key: string, gvr: GVR, names: map<string, GVR>) {
    var (kind, group) := KindAndGroup(key);
    if kind != "*" then key in names && names[key] == gvr
    else group == "*" || gvr.group == group
  }

  predicate AnySignals(keys: seq<string>, gvr: GVR, names: map<string, GVR>) {
    exists key :: key in keys && Signals(key, gvr, names)
  }

  class Registry {
    var informers: map<GVR, Informer>
    var names: map<string, GVR>
    /** Every informer ever started. */
    ghost var started: set<Informer>

    constructor ()
      ensures Valid() && fresh(started) && informers == map[]
    {
      informers, names, started := map[], map[], {};
    }

    /** The informers not cancelled are exactly those registered, each under its own resource. */
    ghost predicate Valid()
      reads this, started
    {
      && (forall g :: g in informers ==> informers[g] in started && informers[g].gvr == g)
      && (forall i :: i in started ==> i.cancels == if i.gvr in informers && informers[i.gvr] == i then 0 else 1)
    }

    /** So no resource ever has two informers running. */
    lemma AtMostOneRunning(i: Informer, j: Informer)
      requires Valid() && i in started && j in started
      requires i.gvr == j.gvr && i.cancels == 0 && j.cancels == 0
      ensures i == j
    {
    }

    /** Cancels and forgets the informers that are not wanted any more. */
    method StopUnwanted(gvrs: set<GVR>) returns (missing: set<GVR>)
      requires Valid()
      modifies this`informers, started`cancels
      ensures Valid()
      ensures informers == map g | g in old(informers) && g in gvrs :: old(informers)[g]
      ensures missing == gvrs - old(informers).Keys
    {
      missing := gvrs;
      var todo := informers.Keys;
      while todo != {}
        invariant Valid() && todo <= informers.Keys
        invariant informers == map g | g in old(informers) && (g in todo || g in gvrs) :: old(informers)[g]
        invariant missing == gvrs - (old(informers).Keys - todo)
      {
        var g :| g in todo;
        todo := todo - {g};
        if g in missing {
          missing := missing - {g};
        } else {
          informers[g].Cancel();
          informers := informers - {g};
        }
      }
    }

    /** Starts an informer for each resource that has none. */
    method StartMissing(missing: set<GVR>)
      requires Valid() && missing !! informers.Keys
      modifies this`informers, this`started
      ensures Valid()
      ensures informers.Keys == old(informers).Keys + missing
      ensures forall g :: g in old(informers) ==> informers[g] == old(informers)[g]
      ensures old(started) <= started && fresh(started - old(started))
      ensures forall g :: g in missing ==> informers[g] !in old(started) && !informers[g].resync
    {
      var todo := missing;
      while todo != {}
        invariant Valid() && todo <= missing
        invariant informers.Keys == old(informers).Keys + (missing - todo)
        invariant forall g :: g in old(informers) ==> informers[g] == old(informers)[g]
        invariant old(started) <= started && fresh(started - old(started))
        invariant forall g :: g in missing - todo ==> informers[g] !in old(started) && !informers[g].resync
      {
        var g :| g in todo;
        todo := todo - {g};
        var inform := new Informer(g);
        informers := informers[g := inform];
        started := started + {inform};
      }
    }

    /** The informer was registered and is not any more. */
    twostate predicate Dropped(i: Informer)
      reads this
    {
      i.gvr in old(informers) && old(informers[i.gvr]) == i && i.gvr !in informers
    }

    /** Kept informers are the same instances, others are new, and exactly the dropped ones are cancelled, once. */
    twostate predicate KeepsInstances()
      reads this, started
    {
      && (forall g :: g in informers && g in old(informers) ==> informers[g] == old(informers)[g])
      && (forall g :: g in informers && g !in old(informers) ==> informers[g] !in old(started))
      && old(started) <= started && fresh(started - old(started))
      && (forall i :: i in old(started) ==> i.cancels == old(i.cancels) + if Dropped(i) then 1 else 0)
    }

    /** An informer was registered for the resource and had a request in its channel. */
    twostate predicate HadRequest(g: GVR) {
      g in old(informers) && old(informers[g].resync)
    }

    /**
     * Brings the informers in step with discovery. Without a resource list nothing starts or stops; with one,
     * exactly the listed resources have informers, those that had one keep it, and each dropped one is cancelled once.
     */
    method SyncInformers(found: Discovery)
      requires Valid()
      modifies this, started`cancels
      ensures Valid()
      ensures names == if found.names.Some? then found.names.value else old(names)
      ensures informers.Keys == if found.gvrs.Some? then found.gvrs.value else old(informers).Keys
      ensures forall g :: g in informers && g in old(informers) ==> informers[g] == old(informers)[g]
      ensures forall g :: g in informers && g !in old(informers) ==>
        informers[g] !in old(started) && !informers[g].resync
      ensures old(started) <= started && fresh(started - old(started))
      ensures forall i :: i in old(started) ==> i.cancels == old(i.cancels) + if Dropped(i) then 1 else 0
    {
      if found.names.Some? {
        names := found.names.value;
      }
      if found.gvrs.Some? {
        var missing := StopUnwanted(found.gvrs.value);
        StartMissing(missing);
      }
    }

    method DispatchResyncForKey(key: string)
      requires Valid()
      modifies started`resync
      ensures forall g :: g in informers ==> informers[g].resync == (old(informers[g].resync) || Signals(key, g, names))
      ensures forall i :: i in started && (i.gvr !in informers || informers[i.gvr] != i) ==> i.resync == old(i.resync)
    {
      var (kind, group) := KindAndGroup(key);
      if kind != "*" {
        if key in names && names[key] in informers {
          informers[names[key]].TriggerResync();
        }
        return;
      }
      var todo := informers.Keys;
      while todo != {}
        invariant todo <= informers.Keys
        invariant forall g :: g in informers ==>
          informers[g].resync == (old(informers[g].resync) || (g !in todo && Signals(key, g, names)))
        invariant forall i :: i in started && (i.gvr !in informers || informers[i.gvr] != i) ==>
          i.resync == old(i.resync)
      {
        var g :| g in todo;
        todo := todo - {g};
        if group == "*" || g.group == group {
          informers[g].TriggerResync();
        }
      }
    }

    method DispatchAll(keys: seq<string>)
      requires Valid()
      modifies started`resync
      ensures forall g :: g in informers ==>
        informers[g].resync == (old(informers[g].resync) || AnySignals(keys, g, names))
    {
      for i := 0 to |keys|
        invariant forall g :: g in informers ==>
          informers[g].resync == (old(informers[g].resync) || AnySignals(keys[..i], g, names))
      {
        OneMoreSignal(keys, i, names);
        DispatchResyncForKey(keys[i]);
      }
      assert keys[..|keys|] == keys;
    }

    /**
     * The main loop's turn after a poke, with what it drained: a full sync when one is due, then the dispatch.
     * Afterwards an informer has a request in its channel exactly when it had one before or some key asks for it.
     */
    method HandleResync(keys: seq<string>, needSync: bool, found: Discovery)
      requires Valid()
      modifies this, started
      ensures Valid()
      ensures !needSync ==> informers == old(informers)
      ensures names == if needSync && found.names.Some? then found.names.value else old(names)
      ensures informers.Keys == if needSync && found.gvrs.Some? then found.gvrs.value else old(informers).Keys
      ensures KeepsInstances()
      ensures forall g :: g in informers ==>
        informers[g].resync == (HadRequest(g) || AnySignals(keys, g, names))
    {
      if needSync {
        SyncInformers(found);
      }
      DispatchAll(keys);
    }
  }

  lemma OneMoreSignal(keys: seq<string>, i: nat, names: map<string, GVR>)
    requires i < |keys|
    ensures forall g :: AnySignals(keys[..i + 1], g, names) <==>
      AnySignals(keys[..i], g, names) || Signals(keys[i], g, names)
  {
    assert keys[..i + 1] == keys[..i] + [keys[i]];
  }

  // ---- A changed config reaches the informers it concerns ----

  /** A specific key reaches the informer that its name stands for. */
  lemma SpecificKeySignals(kind: string, gvr: GVR, names: map<string, GVR>)
    requires '.' !in kind && kind != "*"
    ensures Signals(ConfigKey(kind, gvr.group), gvr, names) <==> Lookup(names, ConfigKey(kind, gvr.group)) == Some(gvr)
  {
    KeySplitsBackIff(kind, gvr.group);
  }

  /** A group's wildcard reaches exactly the informers of that group, and "*.*" reaches all. */
  lemma WildcardKeySignals(group: string, gvr: GVR, names: map<string, GVR>)
    ensures Signals(WildcardKey(group), gvr, names) <==> group == "*" || gvr.group == group
  {
    KeySplitsBackIff("*", group);
  }

  /** If a reload changes what extraction does for a resource, one of the listed keys signals its informer. */
  lemma ChangedPlanSignals(before: Config, after: Config, keys: seq<string>, kind: string, gvr: GVR,
                           names: map<string, GVR>,
                           columns: seq<ExtractProperty>, settings: Settings)
    requires ListsChanges(keys, before, after)
    requires PlanFor(before, gvr.group, kind, columns, settings) != PlanFor(after, gvr.group, kind, columns, settings)
    requires '.' !in kind && kind != "*" && Lookup(names, ConfigKey(kind, gvr.group)) == Some(gvr)
    ensures AnySignals(keys, gvr, names)
  {
    hide PlanFor, Signals;
    PlanChangesOnlyWithItsKeys(before, after, gvr.group, kind, columns, settings);
    SpecificKeySignals(kind, gvr, names);
    WildcardKeySignals(gvr.group, gvr, names);
    assert ConfigKey(kind, gvr.group) in keys || WildcardKey(gvr.group) in keys;
  }

  ghost predicate Signalled(keys: set<string>, gvr: GVR, names: map<string, GVR>) {
    exists key :: key in keys && Signals(key, gvr, names)
  }

  /** The resource is found under its own name. */
  predicate Named(kind: string, gvr: GVR, names: map<string, GVR>) {
    '.' !in kind && kind != "*" && Lookup(names, ConfigKey(kind, gvr.group)) == Some(gvr)
  }

  /** All keys of some change of the config are pending, and the change concerns the resource. */
  ghost predicate ChangePending(pending: set<string>, kind: string, gvr: GVR) {
    exists before, after, columns, settings ::
      && PlanFor(before, gvr.group, kind, columns, settings) != PlanFor(after, gvr.group, kind, columns, settings)
      && forall key :: Changed(before, after, key) ==> key in pending
  }

  /** Then, whatever the names are by the time they are used, the pending keys signal the resource's informer. */
  lemma PendingChangeSignals(pending: set<string>, kind: string, gvr: GVR, names: map<string, GVR>)
    requires ChangePending(pending, kind, gvr) && Named(kind, gvr, names)
    ensures Signalled(pending, gvr, names)
  {
    hide PlanFor, Signals;
    var before, after, columns, settings :|
      && PlanFor(before, gvr.group, kind, columns, settings) != PlanFor(after, gvr.group, kind, columns, settings)
      && forall key :: Changed(before, after, key) ==> key in pending;
    PlanChangesOnlyWithItsKeys(before, after, gvr.group, kind, columns, settings);
    SpecificKeySignals(kind, gvr, names);
    WildcardKeySignals(gvr.group, gvr, names);
  }

  /**
   * Targeted resync is complete: in every interleaving of the threads with the main loop, if the keys that a
   * reload listed were queued at some point and the run has settled since, one later drain handed the main loop
   * all of them. Whatever the names are when it dispatches what it drained, that signals the informer of every
   * resource whose extraction the reload changed and which is found under its name.
   */
  lemma ChangedConfigIsDispatched(q: RQ.Queue, steps: seq<RQ.Step>, i: nat, before: Config, after: Config,
                                  keys: seq<string>, kind: string, gvr: GVR, columns: seq<ExtractProperty>,
                                  settings: Settings)
    returns (d: nat)
    requires RQ.Noticed(q) && RQ.Runs(q, steps) && RQ.Settled(RQ.End(q, steps))
    requires i < |steps| && steps[i].QueueKeys? && steps[i].keys == RQ.Elements(keys)
    requires ListsChanges(keys, before, after)
    requires PlanFor(before, gvr.group, kind, columns, settings) != PlanFor(after, gvr.group, kind, columns, settings)
    ensures i < d < |steps| && steps[d].Drain? && ChangePending(steps[d].keys, kind, gvr)
    ensures forall names :: Named(kind, gvr, names) ==> Signalled(steps[d].keys, gvr, names)
  {
    hide PlanFor, Signals, Named;
    PlanChangesOnlyWithItsKeys(before, after, gvr.group, kind, columns, settings);
    assert ConfigKey(kind, gvr.group) in steps[i].keys || WildcardKey(gvr.group) in steps[i].keys;
    d := RQ.QueuedKeysComeOutTogether(q, steps, i);
    forall names | Named(kind, gvr, names) ensures Signalled(steps[d].keys, gvr, names) {
      PendingChangeSignals(steps[d].keys, kind, gvr, names);
    }
  }

  /**
   * The main loop's turn from the poke on: it drains, syncs if that is due, and dispatches. What it drains is
   * whatever the threads have queued by then. The informers and names are then those of the discovery if a sync
   * was due and it answered, and as before otherwise; informers still wanted are the same instances, and each
   * dropped one is cancelled once. Exactly the informers that had a request or that some drained key asks for
   * have one; so an informer that ran before, is still wanted, and whose extraction a pending change concerns is
   * going to list again.
   */
  method ServePoke(requests: RQ.ResyncRequests, registry: Registry, found: Discovery)
    requires registry.Valid() && requests.loop.Received?
    modifies requests, registry, registry.started
    ensures registry.Valid()
    ensures
      var steps := [RQ.Drain(old(requests.pendingResync), old(requests.pendingSyncInformers)), RQ.Finish];
      RQ.Runs(old(requests.View()), steps) && requests.View() == RQ.End(old(requests.View()), steps)
    ensures registry.names ==
      if old(requests.pendingSyncInformers) && found.names.Some? then found.names.value else old(registry.names)
    ensures registry.informers.Keys ==
      if old(requests.pendingSyncInformers) && found.gvrs.Some? then found.gvrs.value else old(registry.informers).Keys
    ensures !old(requests.pendingSyncInformers) ==> registry.informers == old(registry.informers)
    ensures registry.KeepsInstances()
    ensures forall g :: g in registry.informers ==>
      registry.informers[g].resync ==
      (registry.HadRequest(g) || Signalled(old(requests.pendingResync), g, registry.names))
    ensures forall g, kind ::
      (&& g in registry.informers && Named(kind, g, registry.names)
       && ChangePending(old(requests.pendingResync), kind, g)) ==>
      registry.informers[g].resync && (g in old(registry.informers) ==> old(registry.informers)[g].resync)
  {
    ghost var pending, sync := requests.pendingResync, requests.pendingSyncInformers;
    var keys, needSync := requests.DrainPendingResync();
    assert RQ.Elements(keys) == pending;
    registry.HandleResync(keys, needSync, found);
    requests.GoBack();
    RQ.TwoSteps(old(requests.View()), RQ.Drain(pending, sync), RQ.Finish);
    ListedSignals(keys, registry.names);
    forall g, kind | g in registry.informers && Named(kind, g, registry.names) && ChangePending(pending, kind, g)
      ensures Signalled(pending, g, registry.names)
    {
      PendingChangeSignals(pending, kind, g, registry.names);
    }
  }

  lemma ListedSignals(keys: seq<string>, names: map<string, GVR>)
    ensures forall g :: AnySignals(keys, g, names) <==> Signalled(RQ.Elements(keys), g, names)
  {
    hide Signals;
  }

  // ---- The event loop ----

  /** One turn of the main loop: woken by a poke, or by a change of the CRDs. */
  datatype Turn =
    | Poked(keys: seq<string>, needSync: bool, found: Discovery)
    | CrdsChanged(found: Discovery)

  predicate Lists(turn: Turn) {
    (turn.CrdsChanged? || turn.needSync) && turn.found.gvrs.Some?
  }

  /** The resources of the last turn that got a list. */
  function LastListed(start: set<GVR>, turns: seq<Turn>): set<GVR> {
    if turns == [] then start
    else
      var last := turns[|turns| - 1];
      if Lists(last) then last.found.gvrs.value else LastListed(start, turns[..|turns| - 1])
  }

  /** However the turns go, one informer runs for each resource of the last list that was got, and no other runs. */
  method RunInformers(first: Discovery, turns: seq<Turn>) returns (registry: Registry)
    ensures fresh(registry) && registry.Valid()
    ensures registry.informers.Keys == LastListed(if first.gvrs.Some? then first.gvrs.value else {}, turns)
  {
    ghost var start := if first.gvrs.Some? then first.gvrs.value else {};
    registry := new Registry();
    registry.SyncInformers(first);
    for n := 0 to |turns|
      invariant fresh(registry) && fresh(registry.started) && registry.Valid()
      invariant registry.informers.Keys == LastListed(start, turns[..n])
    {
      assert turns[..n + 1][..n] == turns[..n];
      match turns[n] {
        case Poked(keys, needSync, found) => registry.HandleResync(keys, needSync, found);
        case CrdsChanged(found) => registry.SyncInformers(found);
      }
    }
    assert turns[..|turns|] == turns;
  }
}
