/** The probe object (Probe in ocsp/ocsp.go): its configuration, the
    intervals Init derives from it, the registered target loops by key, and the
    certificate cache. Starting a target loop and invoking a cancel function
    are recorded in the `launched` and `cancelled` logs. */
module ProbeState {
  import opened Types
  import opened Config
  import opened Targets
  import opened Certs
  import opened Requests

  class Probe {
    /** Probe interval, stats-export interval (nanoseconds) and the configured
        gap between target loop starts (milliseconds, 0 when unset). */
    const interval: nat
    const statsExportInterval: nat
    const gapMsec: nat

    var statsExportFrequency: nat
    var targetsUpdateInterval: nat
    var targets: seq<Endpoint>

    /** cancelFuncs: the cancel handle of the target loop registered for each key. */
    var cancelFuncs: map<string, Handle>
    /** The next cancel handle context.WithCancel hands out. */
    var nextHandle: Handle
    var launched: seq<Launch>
    var cancelled: seq<Cancellation>

    var certs: map<string, Cert>
    var issuers: map<string, Cert>

    /** Whether the cancel function of `h` has been invoked. */
    predicate IsCancelled(h: Handle)
      reads this
    {
      exists i :: 0 <= i < |cancelled| && cancelled[i].handle == h
    }

    /** Every registered loop has its own handle, handed out earlier and not cancelled. */
    ghost predicate Valid()
      reads this
    {
      && interval > 0
      && statsExportFrequency >= 1
      && LiveHandles(cancelFuncs, nextHandle, cancelled)
    }

    /** Init, for its derived intervals: `listed` is the first target listing. */
    constructor Init(interval: nat, statsExportInterval: nat, gapMsec: nat, listed: seq<Endpoint>)
      requires interval > 0
      ensures Valid()
      ensures this.interval == interval && this.statsExportInterval == statsExportInterval && this.gapMsec == gapMsec
      ensures statsExportFrequency == ExportFrequency(statsExportInterval, interval)
      ensures targetsUpdateInterval == TargetsUpdateInterval(interval)
      ensures targets == listed
      ensures cancelFuncs == map[] && certs == map[] && issuers == map[]
      ensures launched == [] && cancelled == [] && nextHandle == 0
    {
      this.interval := interval;
      this.statsExportInterval := statsExportInterval;
      this.gapMsec := gapMsec;
      certs := map[];
      issuers := map[];
      var frequency := statsExportInterval / interval;
      if frequency == 0 {
        frequency := 1;
      }
      statsExportFrequency := frequency;
      targets := listed;
      cancelFuncs := map[];
      var update := DefaultTargetsUpdateInterval;
      if update < interval {
        update := interval;
      }
      targetsUpdateInterval := update;
      nextHandle := 0;
      launched := [];
      cancelled := [];
    }

    /** updateTargetsAndStartProbes with `listed` as the new target listing.
        The gap is computed unconditionally and divides by the number of
        targets when none is configured; drawing a jitter needs a positive
        bound, and a jitter is drawn for every new key. */
    method UpdateTargets(listed: seq<Endpoint>)
      requires Valid()
      requires gapMsec != 0 || |listed| > 0
      requires ActiveTargets(listed).Keys - cancelFuncs.Keys != {} ==>
        JitterBound(GapBetweenTargets(gapMsec, interval, |listed|)) > 0
      modifies this`targets, this`cancelFuncs, this`nextHandle, this`launched, this`cancelled
      ensures Valid()
      ensures targets == listed
      ensures cancelFuncs.Keys == KeysOf(listed)
      ensures forall k :: k in old(cancelFuncs) && k in cancelFuncs ==> cancelFuncs[k] == old(cancelFuncs)[k]
      ensures |old(cancelled)| <= |cancelled| && cancelled[..|old(cancelled)|] == old(cancelled)
      ensures CancelBatch(cancelled[|old(cancelled)|..], old(cancelFuncs), old(cancelFuncs).Keys - KeysOf(listed))
      ensures |old(launched)| <= |launched| && launched[..|old(launched)|] == old(launched)
      ensures LaunchBatch(launched[|old(launched)|..], ActiveTargets(listed), KeysOf(listed) - old(cancelFuncs).Keys,
                          GapBetweenTargets(gapMsec, interval, |listed|), old(nextHandle))
      ensures forall l :: l in launched[|old(launched)|..] ==> l.target.key in cancelFuncs && cancelFuncs[l.target.key] == l.handle
    {
      targets := listed;
      ActiveKeys(listed);
      ActiveKeyed(listed);
      var active := CollectActive(listed);
      CancelGone(active);
      var gap := GapBetweenTargets(gapMsec, interval, |listed|);
      ghost var live := cancelFuncs;
      ghost var gone := old(cancelFuncs).Keys - active.Keys;
      assert active.Keys - live.Keys == KeysOf(listed) - old(cancelFuncs).Keys;
      StartNew(active, gap);
      ghost var cancels, launches := cancelled[|old(cancelled)|..], launched[|old(launched)|..];
      assert cancelled == old(cancelled) + cancels;
      assert nextHandle == old(nextHandle) + |launches|;
      LiveHandlesSync(old(cancelFuncs), old(nextHandle), old(cancelled), cancels, gone, live,
                      launches, active, active.Keys - live.Keys, gap, cancelFuncs);
    }

    /** The loop of updateTargetsAndStartProbes that stops the loops of the
        keys no longer active: each such key's cancel function is invoked and
        the key deleted. */
    method CancelGone(active: map<string, Endpoint>)
      modifies this`cancelFuncs, this`cancelled
      ensures cancelFuncs == old(cancelFuncs) - (old(cancelFuncs).Keys - active.Keys)
      ensures |old(cancelled)| <= |cancelled| && cancelled[..|old(cancelled)|] == old(cancelled)
      ensures CancelBatch(cancelled[|old(cancelled)|..], old(cancelFuncs), old(cancelFuncs).Keys - active.Keys)
    {
      var pending := cancelFuncs.Keys;
      ghost var batch: seq<Cancellation> := [];
      while pending != {}
        invariant pending <= old(cancelFuncs).Keys
        invariant cancelFuncs == old(cancelFuncs) - ((old(cancelFuncs).Keys - active.Keys) - pending)
        invariant cancelled == old(cancelled) + batch
        invariant CancelBatch(batch, old(cancelFuncs), (old(cancelFuncs).Keys - active.Keys) - pending)
        decreases pending
      {
        var key :| key in pending;
        pending := pending - {key};
        if key !in active {
          var c := Cancellation(key, cancelFuncs[key]);
          CancelBatchAppend(batch, old(cancelFuncs), (old(cancelFuncs).Keys - active.Keys) - (pending + {key}), c);
          batch := batch + [c];
          cancelled := cancelled + [c];
          cancelFuncs := cancelFuncs - {key};
        }
      }
      assert cancelled[|old(cancelled)|..] == batch;
    }

    /** The loop of updateTargetsAndStartProbes that starts a loop for each
        active key without one, the k-th such key waiting k * gap plus a
        jitter before its first probe. */
    method StartNew(active: map<string, Endpoint>, gap: nat)
      requires forall k :: k in active ==> active[k].key == k
      requires active.Keys - cancelFuncs.Keys != {} ==> JitterBound(gap) > 0
      modifies this`cancelFuncs, this`nextHandle, this`launched
      ensures |old(launched)| <= |launched| && launched[..|old(launched)|] == old(launched)
      ensures nextHandle == old(nextHandle) + (|launched| - |old(launched)|)
      ensures Started(cancelFuncs, old(cancelFuncs), launched[|old(launched)|..], active,
                      active.Keys - old(cancelFuncs).Keys, gap, old(nextHandle))
    {
      var startWaitTime: nat := 0;
      ghost var added := active.Keys - old(cancelFuncs).Keys;
      ghost var batch: seq<Launch> := [];
      var todo := active.Keys;
      while todo != {}
        invariant todo <= active.Keys
        invariant Started(cancelFuncs, old(cancelFuncs), batch, active, added - todo, gap, old(nextHandle))
        invariant launched == old(launched) + batch
        invariant startWaitTime == |batch| * gap
        invariant nextHandle == old(nextHandle) + |batch|
        decreases todo
      {
        var key :| key in todo;
        ghost var done := added - todo;
        todo := todo - {key};
        if key !in cancelFuncs {
          assert key in active.Keys - old(cancelFuncs).Keys;
          ghost var before := cancelFuncs;
          ghost var launchedBefore := launched;
          var launch := LaunchOne(active[key], startWaitTime, gap);
          assert cancelFuncs == before[launch.target.key := launch.handle];
          StartedStep(before, old(cancelFuncs), batch, active, done, gap, old(nextHandle), launch);
          assert added - todo == done + {key};
          MulSucc(|batch|, gap);
          assert launched == old(launched) + (batch + [launch]) by {
            assert launched == launchedBefore + [launch];
          }
          batch := batch + [launch];
          startWaitTime := startWaitTime + gap;
        } else {
          assert added - todo == done;
        }
      }
      assert launched[|old(launched)|..] == batch;
    }

    /** One launch of updateTargetsAndStartProbes: register a fresh cancel
        handle for the target's key, draw the jitter and start the loop. */
    method LaunchOne(target: Endpoint, wait: nat, gap: nat) returns (launch: Launch)
      requires JitterBound(gap) > 0
      modifies this`cancelFuncs, this`nextHandle, this`launched
      ensures launch.target == target && launch.handle == old(nextHandle) && launch.wait == wait
      ensures launch.jitterUs < JitterBound(gap)
      ensures launched == old(launched) + [launch]
      ensures cancelFuncs == old(cancelFuncs)[target.key := old(nextHandle)]
      ensures nextHandle == old(nextHandle) + 1
    {
      var jitterUs: nat :| jitterUs < JitterBound(gap);
      launch := Launch(target, nextHandle, wait, jitterUs);
      launched := launched + [launch];
      cancelFuncs := cancelFuncs[target.key := nextHandle];
      nextHandle := nextHandle + 1;
    }

    /** updateCertificates with `listed` as the target listing. */
    method UpdateCertificates(listed: seq<Endpoint>, dial: string -> Handshake, fetch: string -> Option<Cert>)
      modifies this`certs, this`issuers
      ensures CertCache(certs, issuers) == Refresh(CertCache(old(certs), old(issuers)), listed, dial, fetch)
    {
      var i := 0;
      while i < |listed|
        invariant 0 <= i <= |listed|
        invariant Refresh(CertCache(old(certs), old(issuers)), listed, dial, fetch)
               == Refresh(CertCache(certs, issuers), listed[i..], dial, fetch)
      {
        var target := listed[i];
        assert listed[i..][0] == target && listed[i..][1..] == listed[i + 1..];
        ghost var p := FetchPair(target, dial, fetch);
        var handshake := DownloadServerCertificate(target.name, dial);
        if handshake.DialFailed? {
          assert p.DialError?;
          return;
        }
        if handshake.leaf.None? {
          assert p.NilLeaf?;
          return;
        }
        var cert := handshake.leaf.value;
        certs := certs[target.key := cert];
        var issuer := FetchIssuer(cert.issuingUrls, fetch);
        if issuer.None? {
          assert p == LeafOnly(cert);
          return;
        }
        assert p == Pair(cert, issuer.value);
        issuers := issuers[target.key := issuer.value];
        i := i + 1;
      }
    }

    /** ocspRequestForTarget: the requests for the responders of `target`'s
        cached certificate. */
    method RequestsForTarget(target: Endpoint, parseHost: string -> Option<string>, createRequest: (Cert, Cert) -> Option<seq<bv8>>)
      returns (r: Result<map<string, Request>, RequestError>)
      ensures r == TargetRequests(certs, issuers, target.key, parseHost, createRequest)
    {
      if target.key !in certs {
        return Err(NoCertificate);
      }
      var cert := certs[target.key];
      if |cert.ocspServers| < 1 {
        return Err(NoOcspServers);
      }
      if target.key !in issuers {
        return Err(NoIssuer);
      }
      var body := createRequest(cert, issuers[target.key]);
      if body.None? {
        return Err(CreateFailed);
      }
      var requests: map<string, Request> := map[];
      var i := 0;
      while i < |cert.ocspServers|
        invariant 0 <= i <= |cert.ocspServers|
        invariant requests == RequestsFrom(cert.ocspServers[..i], parseHost, body.value)
      {
        var url := cert.ocspServers[i];
        assert cert.ocspServers[..i + 1][..i] == cert.ocspServers[..i];
        var host := parseHost(url);
        if host.Some? {
          requests := requests[host.value := NewRequest(url, host.value, body.value)];
        }
        i := i + 1;
      }
      assert cert.ocspServers[..i] == cert.ocspServers;
      return Ok(requests);
    }
  }
}
