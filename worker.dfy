/** The loop of one target (startForTarget with runProbe): the requests it
    derives once at start, the per-responder counters it keeps, the tick
    counter that paces exports, and the exported events. Each tick's calls
    are an input: `exchange` gives what the call to each responder host
    produced on that tick. */
module Worker {
  import opened Types
  import opened Config
  import opened Classify
  import opened Results
  import opened Requests
  import opened Targets
  import opened ProbeState

  class TargetLoop {
    const probe: Probe
    const target: Endpoint
    /** The cancel handle the sync gave this loop. */
    const handle: Handle
    /** The probe's statsExportFrequency, fixed once Init has run. */
    const frequency: nat

    var requests: map<string, Request>
    var results: map<string, ProbeResult>
    var runCnt: nat
    var events: seq<Event>
    /** Whether the loop has returned. */
    var stopped: bool

    /** Counters exist only for responders with a request and stay consistent. */
    ghost predicate Valid()
      reads this
    {
      && frequency >= 1
      && results.Keys <= requests.Keys
      && AllConsistent(results)
    }

    /** The start of startForTarget for the loop `launch` started: derive the
        requests from the probe's cache, or return at once if that fails. */
    constructor Start(p: Probe, launch: Launch, parseHost: string -> Option<string>,
                      createRequest: (Cert, Cert) -> Option<seq<bv8>>)
      requires p.statsExportFrequency >= 1
      ensures Valid()
      ensures probe == p && target == launch.target && handle == launch.handle
      ensures frequency == p.statsExportFrequency
      ensures results == map[] && runCnt == 0 && events == []
      ensures var r := TargetRequests(p.certs, p.issuers, launch.target.key, parseHost, createRequest);
        && stopped == r.Err?
        && requests == (if r.Ok? then r.value else map[])
    {
      var r := p.RequestsForTarget(launch.target, parseHost, createRequest);
      probe := p;
      target := launch.target;
      handle := launch.handle;
      frequency := p.statsExportFrequency;
      results := map[];
      runCnt := 0;
      events := [];
      if r.Err? {
        requests := map[];
        stopped := true;
      } else {
        requests := r.value;
        stopped := false;
      }
    }

    /** runProbe: without a cached issuer do nothing; otherwise call the
        responders in some order, recording each call on its (lazily created)
        counters and returning at the first error. `visited` is the order of
        the calls made. */
    method RunProbe(exchange: string -> Exchange) returns (visited: seq<string>)
      requires Valid()
      modifies this`results
      ensures Valid()
      ensures results == ProbeRound(old(results), visited, exchange)
      ensures target.key !in probe.issuers ==> visited == []
      ensures target.key in probe.issuers ==> StopsAtFirstError(visited, requests.Keys, exchange)
    {
      visited := [];
      if target.key !in probe.issuers {
        return;
      }
      var pending := requests.Keys;
      while pending != {}
        invariant pending <= requests.Keys
        invariant CleanPrefix(visited, requests.Keys, pending, exchange)
        invariant results == ProbeRound(old(results), visited, exchange)
        decreases pending
      {
        var server :| server in pending;
        assert (visited + [server])[..|visited|] == visited;
        var ok := Call(server, exchange(server));
        if !ok {
          CleanPrefixFail(visited, requests.Keys, pending, exchange, server);
          visited := visited + [server];
          ProbeRoundKeeps(old(results), visited, exchange, requests.Keys);
          return;
        }
        CleanPrefixStep(visited, requests.Keys, pending, exchange, server);
        visited := visited + [server];
        pending := pending - {server};
      }
      CleanPrefixComplete(visited, requests.Keys, exchange);
      ProbeRoundKeeps(old(results), visited, exchange, requests.Keys);
    }

    /** One iteration of runProbe's loop: classify the call to `server`,
        create its counters if absent and record the call on them. `ok` says
        whether the loop goes on. */
    method Call(server: string, x: Exchange) returns (ok: bool)
      modifies this`results
      ensures results == Attempt(old(results), server, x)
      ensures ok <==> Succeeded(x)
    {
      var outcome := OcspProbe(x);
      ghost var before := Lookup(results, server);
      if server !in results {
        results := results[server := NewResult()];
      }
      var result := results[server];
      assert result == before;
      result := result.(total := result.total + 1);
      if outcome.err.Some? {
        if IsClientTimeout(outcome.err.value) {
          result := result.(timeouts := result.timeouts + 1);
        }
        assert result == Record(before, outcome);
        results := results[server := result];
        return false;
      }
      result := result.(success := result.success + 1,
                        respCodes := Bump(result.respCodes, outcome.call.httpStatus),
                        ocspCodes := Bump(result.ocspCodes, outcome.call.ocspStatus));
      assert result == Record(before, outcome);
      results := results[server := result];
      return true;
    }

    /** The export of startForTarget: one event per responder with counters,
        in some order, each carrying the cumulative counters. */
    method Export()
      modifies this`events
      ensures |old(events)| <= |events| && events[..|old(events)|] == old(events)
      ensures ExportBatch(events[|old(events)|..], target.name, results, results.Keys)
    {
      var pending := results.Keys;
      ghost var batch: seq<Event> := [];
      while pending != {}
        invariant pending <= results.Keys
        invariant events == old(events) + batch
        invariant ExportBatch(batch, target.name, results, results.Keys - pending)
        decreases pending
      {
        var server :| server in pending;
        var e := Event(target.name, server, results[server]);
        ExportBatchAppend(batch, target.name, results, results.Keys - pending, e);
        assert results.Keys - (pending - {server}) == (results.Keys - pending) + {server};
        pending := pending - {server};
        batch := batch + [e];
        events := events + [e];
      }
      assert events[|old(events)|..] == batch;
    }

    /** One tick of startForTarget: stop if the loop has returned or its
        context is done (the root context, or this loop's cancel handle
        invoked); otherwise probe, count the tick, and export on every
        frequency-th tick. */
    method Tick(rootDone: bool, exchange: string -> Exchange) returns (visited: seq<string>)
      requires Valid()
      modifies this`results, this`runCnt, this`events, this`stopped
      ensures Valid()
      ensures stopped == (old(stopped) || rootDone || probe.IsCancelled(handle))
      ensures stopped ==> visited == [] && results == old(results) && runCnt == old(runCnt) && events == old(events)
      ensures !stopped ==> runCnt == old(runCnt) + 1
      ensures !stopped ==> results == ProbeRound(old(results), visited, exchange)
      ensures !stopped && target.key !in probe.issuers ==> visited == []
      ensures !stopped && target.key in probe.issuers ==> StopsAtFirstError(visited, requests.Keys, exchange)
      ensures !stopped && !ShouldExport(runCnt, frequency) ==> events == old(events)
      ensures !stopped && ShouldExport(runCnt, frequency) ==>
        && |old(events)| <= |events| && events[..|old(events)|] == old(events)
        && ExportBatch(events[|old(events)|..], target.name, results, results.Keys)
    {
      if stopped || rootDone || probe.IsCancelled(handle) {
        stopped := true;
        visited := [];
        return;
      }
      visited := RunProbe(exchange);
      runCnt := runCnt + 1;
      if runCnt % frequency == 0 {
        Export();
      }
    }
  }
}
