# OCSP probe: a Dafny model of its bookkeeping

This project models the sequential core of the OCSP probe in `ocsp/ocsp.go`.
The probe is an OCSP responder prober for cloudprober. For every target it
caches the server's leaf certificate and that certificate's issuer. For each host of
the leaf's parseable OCSP responder URLs (the last URL of a host wins), the
target's loop POSTs one OCSP request per tick, until the first failed call of
that tick. It counts the totals, successes, timeouts and status codes per
responder, and exports those cumulative counters every
`statsExportFrequency` ticks. A coordinating loop re-lists the targets. It
starts a staggered target loop for each new key and cancels the loops of keys
that have gone away.

Every network call, goroutine, timer and cryptographic call is an input to
the model:

- the target listing is a `seq<Endpoint>`;
- the TLS dial is a function from address to `Handshake`;
- the issuer download is a function from URL to `Option<Cert>`;
- URL parsing gives `Option<host>`;
- `ocsp.CreateRequest` gives `Option<body>`;
- one HTTP exchange together with `ocsp.ParseResponse` (the response
  validation of section 4.2 of RFC 6960) is an `Exchange` value;
- the jitter drawn by `rand.Int63n` is any value below its bound;
- the context state is a boolean for the root context plus the probe's log
  of invoked cancel functions.

Go's random map iteration order is modelled by nondeterministic choice. The
order actually taken shows in the `launched`, `cancelled` and `events` logs
and in the `visited` sequence that `RunProbe` returns.

Modules, one per concern:

- `Types`: endpoints, certificates, handles.
- `Config`: the arithmetic of `Init`, `gapBetweenTargets`, the start jitter
  and the export cadence, in nanoseconds.
- `Classify`: `ocspProbe`.
- `Results`: `probeResult`, `newResult`, one probe round, exported events.
- `Targets`: `activeTargets` and the launch and cancel logs of the sync.
- `Certs`: `updateCertificates` and `downloadServerCertificate`.
- `Requests`: `ocspRequestForTarget`.
- `ProbeState`: the `Probe` object. It holds `cancelFuncs`, the certificate
  cache and the derived intervals.
- `Worker`: one target loop (`startForTarget` with `runProbe`), as a class
  that holds its requests, counters, tick counter and emitted events.

Four behaviours of the code that the model follows as written:

- The requests of a target are built once, when its loop starts
  (`ocsp/ocsp.go:357`), not again on every tick. If building them fails, the
  loop returns at once (`ocsp/ocsp.go:358-361`).
- A failure while refreshing one target's certificates abandons the rest of
  the refresh cycle (`ocsp/ocsp.go:579`, `583`, `599`). It does not carry on
  with the next target.
- A non-200 response is an error return of `ocspProbe`
  (`ocsp/ocsp.go:482-486`). So it adds only to `total` and never creates a
  bucket in the HTTP-status histogram (`MixedOutcomes` below).
- The first error on any responder ends that tick's round for the target
  (`ocsp/ocsp.go:313`, `316`), so later responders are not called.

## Model

| member | source | states |
|---|---|---|
| ProbeState.Probe.Init | ocsp/ocsp.go:155-168 | The probe starts with the export frequency `ExportFrequency(statsExportInterval, interval)`, the update interval `TargetsUpdateInterval(interval)`, the listed targets, and no registered loops, certificates or log entries; the handle bookkeeping holds. |
| Config.ExportFrequency | ocsp/ocsp.go:155-158 | The frequency is at least 1. When the export interval is at least the probe interval, it is the integer quotient (`f*interval <= s < (f+1)*interval`); otherwise it is 1. |
| Config.ExportFrequencyOfMultiple | ocsp/ocsp.go:155-158 | An export interval of m probe intervals gives frequency exactly m. |
| Config.TargetsUpdateInterval | ocsp/ocsp.go:163-168 | The update interval is the larger of the 10 s default and the probe interval. |
| Config.GapBetweenTargets | ocsp/ocsp.go:402-413 | A configured gap is that many milliseconds. Otherwise the gap is the integer quotient of the interval by 10 times the number of targets, which must then be nonzero. |
| Config.JitterBound | ocsp/ocsp.go:259 | The jitter bound is a tenth of the gap's whole microseconds (`b*10µs <= gap < (b+1)*10µs`). |
| Config.SleepWithinStagger | ocsp/ocsp.go:259 | A start wait k*gap plus a jitter below the bound lies in `[k*gap, k*gap + gap/10)`. |
| Config.StaggerOrdered | ocsp/ocsp.go:259-263 | Sleeps of the i-th and j-th new targets, i < j, are strictly ordered. |
| Config.ExportCadence | ocsp/ocsp.go:377-378 | Among ticks 1..n exactly n / frequency export. |
| Config.ExportEveryFrequencyTicks | ocsp/ocsp.go:377-378 | Tick m*f + j with j < f exports iff j == 0, where `ShouldExport(runCnt, f)` is the test `runCnt % f == 0` of line 378. |
| Targets.ActiveTargets | ocsp/ocsp.go:226-230 | The map of active targets by key; every endpoint in it is one of the listed endpoints. |
| Targets.CollectActive | ocsp/ocsp.go:226-230 | The loop builds exactly `ActiveTargets(listed)`. |
| Targets.ActiveKeys | ocsp/ocsp.go:226-230 | The active keys are exactly the keys of the listed endpoints. |
| Targets.ActiveKeyed | ocsp/ocsp.go:226-230 | Every active endpoint sits under its own key. |
| Targets.ActiveLastWins | ocsp/ocsp.go:227-229 | A key maps to the last listed endpoint with that key. |
| Targets.CancelBatchCancels | ocsp/ocsp.go:233-240 | Every removed key's cancel function is invoked in the batch, through the handle it held. |
| Targets.LiveHandlesSync | ocsp/ocsp.go:233-266 | The handle bookkeeping survives a sync. Every registered handle was handed out, no two keys share one, and none is cancelled. |
| Targets.Sleep | ocsp/ocsp.go:259 | A launched loop sleeps its start wait plus its jitter: never less than the wait, and the excess is exactly the jitter in whole microseconds. |
| Targets.LaunchSleeps | ocsp/ocsp.go:242-263 | In a launch batch the i-th sleep lies in `[i*gap, i*gap + gap/10)`, and sleeps strictly increase in launch order. |
| ProbeState.Probe.UpdateTargets | ocsp/ocsp.go:213-267 | Afterwards the targets are the listing and the keys of `cancelFuncs` are exactly the listed keys. A kept key keeps its handle. The new cancellations cancel each removed key once, with its old handle. The new launches start each new key once with the active endpoint, the i-th getting wait i*gap, a jitter below the bound and a fresh handle recorded in `cancelFuncs`. The handle bookkeeping holds. Only keys absent from the old `cancelFuncs` are launched, so a loop that returned at start because its requests could not be built (`ocsp/ocsp.go:358-361`) keeps its entry and is not relaunched while its key stays listed. |
| ProbeState.Probe.CancelGone | ocsp/ocsp.go:232-240 | Exactly the keys that are no longer active are deleted. The appended cancellations cancel each of them once, with its handle. |
| ProbeState.Probe.LaunchOne | ocsp/ocsp.go:252-263 | One launch registers the next cancel handle under the target's key, draws a jitter below the bound, keeps the given wait, and appends exactly that launch to the log. |
| ProbeState.Probe.StartNew | ocsp/ocsp.go:242-266 | Each active key without a loop gets a launch, in some order, with waits 0, gap, 2*gap, …, a jitter below the bound and consecutive fresh handles. Existing keys keep their handles. |
| Classify.OcspProbe | ocsp/ocsp.go:464-501 | There is no error iff a 200 response parsed. The HTTP code is 0 after a transport error and the response's code otherwise. The OCSP code differs from ServerFailed iff there is no error, and then it is the parsed status. The error is a client timeout iff the transport timed out; `IsClientTimeout` (`ocsp/ocsp.go:656-663`) holds only of a timed-out transport error, so a non-200 status or an unreadable or unparsable body is never a timeout. |
| Results.NewResult | ocsp/ocsp.go:269-281 | Fresh counters: total, success and timeouts zero, both histograms empty maps (so every bucket reads zero), and consistent. |
| Results.Bump | ocsp/ocsp.go:321-322 | IncKey adds one to its bucket, creating it if absent, and leaves every other bucket alone. |
| Results.Lookup | ocsp/ocsp.go:302-305 | A responder's counters are its entry when it has one, and otherwise exactly `NewResult()`: zero total, success and timeouts with empty histograms. |
| Results.Record | ocsp/ocsp.go:302-322 | One classified call adds 1 to total, 1 to success iff there is no error, 1 to timeouts iff the error is a client timeout, and an error leaves both histograms unchanged. |
| Results.RecordExchange | ocsp/ocsp.go:302-322 | A call always adds 1 to total. A success adds 1 to success, to the 200 bucket and to the parsed status's bucket. A client timeout adds 1 to timeouts only. Every other error changes nothing else. |
| Results.Attempt | ocsp/ocsp.go:302-322 | One iteration of the loop gives the responder an entry if it had none, with one more attempt than before, and one more success iff the call succeeded. |
| Results.RecordConsistent | ocsp/ocsp.go:307-319 | Successes plus timeouts never exceed the total. |
| Results.ProbeRound | ocsp/ocsp.go:292-325 | The counters after calling the responders in `visited` order. No responder loses its entry, and its total, success and timeout counts never decrease: the counters are cumulative. |
| Results.ProbeRoundAt | ocsp/ocsp.go:292-325 | After a round, each called responder has an entry with exactly one more call recorded on its previous (or fresh) counters. Every other responder is unchanged. |
| Results.ProbeRoundKeys | ocsp/ocsp.go:302-305 | The responders with counters after a round are those before plus those called. |
| Results.ProbeRoundConsistent | ocsp/ocsp.go:292-325 | A round keeps every responder's counters consistent. |
| Results.CleanPrefixFail | ocsp/ocsp.go:309-316 | A failed call to a responder not yet called ends the round on that call. |
| Results.RecordAllCounts | ocsp/ocsp.go:302-322 | From fresh counters, a run of calls leaves total = number of calls, success = number of successes and timeouts = number of timeouts. The HTTP histogram holds only the 200 bucket, which counts the successes. |
| Results.MixedOutcomes | ocsp/ocsp.go:302-322 | Three successes, a timeout and a 503 leave total 5, success 3, timeouts 1, a 200 bucket of 3 and no 503 bucket. |
| Worker.TargetLoop.Start | ocsp/ocsp.go:357-363 | The loop takes the requests `TargetRequests` derives from the probe's cache and stops at once iff that fails. Its counters, tick count and events are empty, and its frequency is the probe's. |
| Worker.TargetLoop.RunProbe | ocsp/ocsp.go:283-327 | With no cached issuer nothing is called and the counters are unchanged. Otherwise the responders are called each at most once; every call but the last succeeded, and the round ends early only on a failed call. The counters become `ProbeRound` over the calls made. |
| Worker.TargetLoop.Call | ocsp/ocsp.go:298-325 | One responder's call is recorded on its lazily created counters, and the loop goes on iff the call succeeded. |
| Worker.TargetLoop.Export | ocsp/ocsp.go:379-397 | The appended events hold exactly one event per responder with counters, each carrying the target name and the cumulative counters. |
| Worker.TargetLoop.Tick | ocsp/ocsp.go:368-398 | A loop that has returned, whose root context is done or whose cancel handle was invoked stops and changes nothing else. Otherwise it runs one probe round, counts the tick, and exports one event per responder iff the tick count is a multiple of the frequency. |
| Certs.DownloadServerCertificate | ocsp/ocsp.go:607-631 | The handshake is the one at the server name itself when it has a ':', and at the name with ":443" appended otherwise. |
| Certs.DefaultAddress | ocsp/ocsp.go:613-615 | The dial address contains ':'. It equals the server name iff that name has a ':', and otherwise is the name with ":443" appended. |
| Certs.DefaultAddressIdempotent | ocsp/ocsp.go:613-615 | Defaulting the port a second time changes nothing. |
| Certs.FirstFetched | ocsp/ocsp.go:588-595 | A found issuer was fetched from one of the URLs; nothing is found only when every URL fails; a first URL that can be fetched gives the issuer. |
| Certs.FirstFetchedIsFirst | ocsp/ocsp.go:588-595 | The issuer search finds nothing iff no URL can be fetched. Otherwise it finds the certificate of a URL all of whose predecessors failed. |
| Certs.FetchIssuer | ocsp/ocsp.go:588-595 | The loop returns `FirstFetched` of the issuing URLs. |
| Certs.FetchPair | ocsp/ocsp.go:576-600 | One target's outcome: a dial error iff the dial at the defaulted address fails, a nil leaf iff it yields none, otherwise the handshake's leaf; leaf only when no issuing URL can be fetched, and a pair whose issuer was fetched from one of the leaf's issuing URLs. |
| Certs.Refresh | ocsp/ocsp.go:569-605 | The cache after one refresh cycle over the listing. No cached leaf or issuer is evicted, and a key that gains an issuer also holds a leaf. |
| Certs.RefreshFirst | ocsp/ocsp.go:575-603 | With distinct keys, a first target whose leaf and issuer are both obtained holds them after the refresh. |
| Certs.RefreshBeforeFailure | ocsp/ocsp.go:575-603 | With distinct keys, every target before the first failure holds its new leaf and issuer afterwards. |
| Certs.RefreshAtFailure | ocsp/ocsp.go:576-600 | With distinct keys, the target the refresh fails at keeps its old issuer. It keeps its old leaf too, unless only the issuer fetch failed; that target holds its new leaf (`ocsp/ocsp.go:586`). |
| Certs.RefreshAfterFailure | ocsp/ocsp.go:575-603 | With distinct keys, after the first failure, no target's cached leaf or issuer changes. |
| Certs.RefreshUnlisted | ocsp/ocsp.go:575-603 | A key that is not listed keeps its cached leaf and issuer. |
| ProbeState.Probe.UpdateCertificates | ocsp/ocsp.go:569-605 | The new cache is `Refresh` of the old one over the listing, with the dial and fetch inputs. |
| Requests.NewRequest | ocsp/ocsp.go:450-457 | A POST request to the URL, for the host, with the body, carrying exactly three headers: the OCSP request content type, the OCSP response accept type and the host. |
| Requests.RequestsFrom | ocsp/ocsp.go:443-458 | Every request built is keyed by the host its URL parses to, posts to one of the URLs, and is `NewRequest` of that URL, host and body. |
| Requests.RequestsKeys | ocsp/ocsp.go:443-458 | The requests are keyed by exactly the hosts of the responder URLs that parse. |
| Requests.RequestsLastWins | ocsp/ocsp.go:443-458 | A host's request is built from the last parseable URL with that host, with the three headers and the shared body. |
| Requests.TargetRequests | ocsp/ocsp.go:416-461 | On success the target has a cached leaf and issuer and a request body could be built. Every request is keyed by its host, posts to one of the leaf's responder URLs that parses to that host, and carries that body with the three headers. |
| Requests.TargetRequestsOutcome | ocsp/ocsp.go:422-460 | The derivation fails iff the certificate is missing, it has no responder URLs, the issuer is missing or the request body cannot be built. On success the keys are exactly the parsed hosts. |
| ProbeState.Probe.RequestsForTarget | ocsp/ocsp.go:416-461 | The method returns exactly `TargetRequests` of the current cache. |

## Left out

- `cmd/driveprober.go` is not part of this model. It is process bootstrap.
- `Start`'s control loop (`ocsp/ocsp.go:175-207`) is left out. Its retry-until-nonempty listing, the update ticker and `p.wait()` are scheduling, and their effects are the modelled `UpdateCertificates` and `UpdateTargets` calls.
- Goroutines, `sync.WaitGroup`, the mutex, tickers, `time.Sleep` and the blocking send on `dataChan` are concurrency. A goroutine launch is a `Launch` log entry, and an invoked cancel function is a `Cancellation` entry.
- The random jitter is any value below `JitterBound(gap)`. `rand` is not modelled.
- The HTTP client and transport, the proxy URL, the TLS dial, `fetchRemote`'s PEM/DER parsing, `ocsp.CreateRequest`, `ocsp.ParseResponse`, `url.Parse` and the type tests of `isClientTimeout` are foreign calls. They are the abstract inputs listed above.
- Latency accumulation (`ocsp/ocsp.go:323`) and the `newResult` latency value are floating point and are not modelled.
- For `EventMetrics`, only its target name, responder and counters are modelled. The timestamp, labels, additional labels and `LogMetrics` are not.
- The `RequestsPerProbe != 1` branch and the commented-out code do nothing and are not modelled.
- The parts of `Init` other than the derived intervals are not modelled: option parsing, the proxy URL error and the HTTP client.
- Histogram buckets are keyed by the integer status code, not by its decimal string.
- Durations and counters are unbounded naturals, so int64 overflow and negative durations are not modelled.
- ProbeState.Probe.Init requires a positive probe interval, and so does `Config.ExportFrequency`. With a zero interval the code panics: it divides by the interval at `ocsp/ocsp.go:155`, and `time.NewTicker` needs a positive interval at `ocsp/ocsp.go:365`.
- `ProbeState.Probe.UpdateTargets` requires a configured gap or a nonempty listing; the code divides by zero otherwise (`ocsp/ocsp.go:409`). It also requires a positive jitter bound whenever a key is new, because `rand.Int63n` panics otherwise (`ocsp/ocsp.go:259`).
- The empty peer-certificate list is not modelled. The guard at `ocsp/ocsp.go:626` can never be true, but a successful TLS handshake always presents a certificate. `Handshake.Connected` carries the first certificate, with `None` standing for a nil one.
- An `http.NewRequest` failure (`ocsp/ocsp.go:451-453`) is not modelled. That call re-parses a URL that `url.Parse` has just accepted.
- `Worker.TargetLoop.RunProbe` reads the issuer map at the time of the call. The code reads it without the lock while a refresh may be writing it, and that race is not modelled.
- `Worker.TargetLoop.Start`: the loop's export frequency is a constant copied from the probe. The code reads `p.statsExportFrequency` on every tick, but that field never changes after `Init`.
