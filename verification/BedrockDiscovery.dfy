/** Bedrock model discovery: the module-level cache and the three pieces its `await`s cut a call into. */
module BedrockDiscovery {
  import opened Options
  import opened DiscoveryProtocol

  const DEFAULT_REFRESH_INTERVAL_SECONDS := 3600.0

  /** `Math.max(0, Math.floor(config.refreshInterval ?? default))` */
  function RefreshIntervalSeconds(configured: Option<real>): (r: nat)
    ensures configured.None? ==> r == 3600
    ensures r == 0 <==> configured.Some? && configured.value < 1.0
    ensures r > 0 && configured.Some? ==> r as real <= configured.value < r as real + 1.0
  {
    var interval := if configured.Some? then configured.value else DEFAULT_REFRESH_INTERVAL_SECONDS;
    if interval.Floor < 0 then 0 else interval.Floor
  }

  class Discoverer {
    var discoveryCache: map<Key, Entry>
    var hasLoggedBedrockError: bool
    /** The discovery promises created so far, and what every call did with them. */
    var discoveries: seq<Discovery>
    var calls: seq<Call>
    /** How the promises handed out by the calls have ended. */
    var results: map<nat, Result>
    var warnings: nat

    constructor ()
      ensures Snapshot() == START
    {
      discoveryCache, hasLoggedBedrockError := map[], false;
      discoveries, calls, results, warnings := [], [], map[], 0;
    }

    ghost function Snapshot(): State
      reads this
    {
      State(discoveryCache, discoveries, calls, results, hasLoggedBedrockError, warnings)
    }

    /** `discoverBedrockModels` up to its first `await`. */
    method DiscoverBedrockModels(settings: string, refreshInterval: Option<real>, now: int, clientOk: bool)
      modifies this
      ensures Snapshot() == Step(old(Snapshot()), Called(Key(settings, RefreshIntervalSeconds(refreshInterval)), now, clientOk))
    {
      var interval := RefreshIntervalSeconds(refreshInterval);
      var cacheKey := Key(settings, interval);
      if interval > 0 && cacheKey in discoveryCache {
        var cached := discoveryCache[cacheKey];
        if cached.value.Some? && cached.expiresAt > now {
          results := results[|calls| := Returned(cached.value.value)];
          calls := calls + [Hit(cacheKey, now, cached.value.value)];
          return;
        }
        if cached.inFlight.Some? {
          var i := cached.inFlight.value;
          if i < |discoveries| && Outcome(discoveries[i].status).Some? {
            results := results[|calls| := Outcome(discoveries[i].status).value];
          }
          calls := calls + [Joined(i)];
          return;
        }
      }
      if !clientOk {
        results := results[|calls| := Rejects];
        calls := calls + [ClientFailed];
        return;
      }
      var discovery := |discoveries|;
      discoveries := discoveries + [Discovery(cacheKey, now, |calls|, Running, false)];
      calls := calls + [Initiated(discovery)];
      if interval > 0 {
        discoveryCache := discoveryCache[cacheKey := Entry(now + interval * 1000, None, Some(discovery))];
      }
    }

    /** The discovery promise `i` is fulfilled or rejected, and with it what the calls that joined it returned. */
    method DiscoverySettles(i: nat, models: Option<Models>)
      modifies this`discoveries, this`results
      ensures Snapshot() == Step(old(Snapshot()), Settled(i, models))
    {
      if i < |discoveries| && discoveries[i].status.Running? {
        var status := if models.Some? then Fulfilled(models.value) else Failed;
        discoveries := discoveries[i := discoveries[i].(status := status)];
        var result := if models.Some? then Returned(models.value) else Rejects;
        ghost var settled := discoveries;
        for k := 0 to |calls|
          invariant discoveries == settled
          invariant results == old(results) + Answers(calls[..k], i, result)
        {
          if calls[k] == Joined(i) {
            results := results[k := result];
          }
        }
        assert calls[..|calls|] == calls;
      }
    }

    /** The initiating call goes on after `await discoveryPromise`, by its try or its catch block, and returns. */
    method InitiatorResumes(i: nat) returns (value: Option<Models>)
      modifies this
      ensures Snapshot() == Step(old(Snapshot()), Resumed(i))
      ensures value.Some? <==> Snapshot() != old(Snapshot())
      ensures value.Some? ==> i < |discoveries| && discoveries[i].caller in results
                              && results[discoveries[i].caller] == Returned(value.value)
    {
      if i >= |discoveries| || discoveries[i].status.Running? || discoveries[i].resumed {
        return None;
      }
      var d := discoveries[i];
      discoveries := discoveries[i := d.(resumed := true)];
      if d.status.Fulfilled? {
        if d.key.refreshIntervalSeconds > 0 {
          discoveryCache := discoveryCache[d.key := Entry(d.startedAt + d.key.refreshIntervalSeconds * 1000,
                                                          Some(d.status.models), None)];
        }
        results := results[d.caller := Returned(d.status.models)];
        return Some(d.status.models);
      }
      if d.key.refreshIntervalSeconds > 0 {
        discoveryCache := discoveryCache - {d.key};
      }
      if !hasLoggedBedrockError {
        hasLoggedBedrockError := true;
        warnings := warnings + 1;
      }
      results := results[d.caller := Returned([])];
      return Some([]);
    }
  }

  lemma {:induction false} WholeSeconds(seconds: nat)
    ensures RefreshIntervalSeconds(Some(seconds as real)) == seconds
  {
    var r := RefreshIntervalSeconds(Some(seconds as real));
    assert r > 0 ==> r as real <= seconds as real < (r + 1) as real;
  }

  /** Any interleaving of calls, settlements and continuations is a run of the protocol. */
  method Drive(events: seq<Event>) returns (discoverer: Discoverer)
    ensures fresh(discoverer) && discoverer.Snapshot() == Run(events)
  {
    hide Step;
    discoverer := new Discoverer();
    for k := 0 to |events|
      invariant fresh(discoverer) && discoverer.Snapshot() == Run(events[..k])
    {
      RunSnoc(events[..k], events[k]);
      assert events[..k + 1] == events[..k] + [events[k]];
      match events[k] {
        case Called(key, now, clientOk) =>
          WholeSeconds(key.refreshIntervalSeconds);
          discoverer.DiscoverBedrockModels(key.settings, Some(key.refreshIntervalSeconds as real), now, clientOk);
        case Settled(i, models) => discoverer.DiscoverySettles(i, models);
        case Resumed(i) => var _ := discoverer.InitiatorResumes(i);
      }
    }
    assert events[..|events|] == events;
  }
}
