/** What an event of the CollectorConfig resource sets in motion: a reload, and requests for what it changed. */
module ConfigReloadHandler {
  import opened Types
  import opened ConfigMerge
  import opened ConfigReload
  import opened ResyncQueue

  const MERGED_CONFIG_NAME := "merged-collector-config"

  class Handler {
    const config: TransformConfig
    const requests: ResyncRequests
    var lastSeenGeneration: int

    constructor (config: TransformConfig, requests: ResyncRequests)
      ensures this.config == config && this.requests == requests && lastSeenGeneration == 0
    {
      this.config, this.requests, lastSeenGeneration := config, requests, 0;
    }

    /** Exactly what changed since the old state has been requested, and a poke is there if anything was. */
    twostate predicate ChangesRequested()
      reads config, requests
    {
      && (forall k :: k in requests.pendingResync <==>
            k in old(requests.pendingResync) || Changed(old(config.merged), config.merged, k))
      && requests.pendingSyncInformers ==
         (old(requests.pendingSyncInformers) || config.excludeRules != old(config.excludeRules))
      && requests.resyncSignal ==
         (|| old(requests.resyncSignal)
          || config.merged != old(config.merged)
          || config.excludeRules != old(config.excludeRules))
      && requests.sending == old(requests.sending) && requests.loop == old(requests.loop)
    }

    method Reload(source: ConfigMerge.Source, ghost thread: Thread)
      requires thread !in requests.sending
      modifies config, requests
      ensures config.InForce(RulesOf(source)) && ChangesRequested()
    {
      var result := config.ReloadAndDiff(source);
      HandleReloadResult(result, thread);
      SameWhenNone(result, old(config.merged), config.merged, old(requests.pendingResync));
    }

    method HandleReloadResult(result: Option<ReloadResult>, ghost thread: Thread)
      requires thread !in requests.sending
      modifies requests
      ensures requests.View() == Requested(old(requests.View()), result)
    {
      if result.None? {
        return;
      }
      if result.value.excludeRulesChanged {
        requests.TriggerSyncInformers(thread);
        TwoSteps(old(requests.View()), QueueSync(thread), Send(thread));
      }
      if |result.value.affectedResources| > 0 {
        ghost var before := requests.View();
        requests.TriggerResyncForConfigKeys(result.value.affectedResources, thread);
        TwoSteps(before, QueueKeys(thread, Elements(result.value.affectedResources)), Send(thread));
      }
    }

    /** An event for another name, or with the generation already seen, does nothing. */
    method OnAddOrUpdate(name: string, generation: int, source: ConfigMerge.Source, ghost thread: Thread)
      requires thread !in requests.sending
      modifies this, config, requests
      ensures name != "merged-collector-config" || generation == old(lastSeenGeneration) ==>
                unchanged(this) && unchanged(config) && unchanged(requests)
      ensures name == "merged-collector-config" && generation != old(lastSeenGeneration) ==>
                lastSeenGeneration == generation && config.InForce(RulesOf(source)) && ChangesRequested()
    {
      if name != MERGED_CONFIG_NAME || generation == lastSeenGeneration {
        return;
      }
      lastSeenGeneration := generation;
      Reload(source, thread);
    }

    method OnDelete(name: string, source: ConfigMerge.Source, ghost thread: Thread)
      requires thread !in requests.sending
      modifies this, config, requests
      ensures name != "merged-collector-config" ==> unchanged(this) && unchanged(config) && unchanged(requests)
      ensures name == "merged-collector-config" ==>
                lastSeenGeneration == 0 && config.InForce(RulesOf(source)) && ChangesRequested()
    {
      if name != MERGED_CONFIG_NAME {
        return;
      }
      lastSeenGeneration := 0;
      Reload(source, thread);
    }
  }

  ghost function Requested(q: Queue, result: Option<ReloadResult>): Queue {
    if result.None? then q
    else
      var keys, sync := result.value.affectedResources, result.value.excludeRulesChanged;
      q.(pending := q.pending + Elements(keys),
         pendingSync := q.pendingSync || sync,
         signal := q.signal || sync || keys != [])
  }

  lemma SameWhenNone(result: Option<ReloadResult>, before: Config, after: Config, pending: set<string>)
    requires result.None? ==> before == after
    requires result.Some? ==> ListsChanges(result.value.affectedResources, before, after)
    ensures forall k :: k in (pending + if result.Some? then Elements(result.value.affectedResources) else {}) <==>
              k in pending || Changed(before, after, k)
    ensures result.Some? ==> (result.value.affectedResources == [] <==> before == after)
  {
    if result.Some? {
      SameWhenNoneListed(result.value.affectedResources, before, after);
    }
  }
}
