/** The per-responder counters a target loop keeps (probeResult), how one
    classified call updates them, how one probe round over the responders
    folds those updates, and the records an export emits. */
module Results {
  import opened Types
  import opened Classify

  /** Cumulative counters of one OCSP responder: attempts, successes,
      timeouts and the histograms of HTTP and OCSP status codes of the
      successful calls. */
  datatype ProbeResult = ProbeResult(
    total: nat, success: nat, timeouts: nat,
    respCodes: map<int, nat>, ocspCodes: map<int, nat>)

  /** newResult: every counter zero, both histograms empty. */
  function NewResult(): (r: ProbeResult)
    ensures Consistent(r) && r.total == 0 && r.success == 0 && r.timeouts == 0
    ensures r.respCodes == map[] && r.ocspCodes == map[]
    ensures forall k :: Count(r.respCodes, k) == 0 && Count(r.ocspCodes, k) == 0
  {
    ProbeResult(0, 0, 0, map[], map[])
  }

  /** The value of a histogram bucket; an absent bucket reads as zero. */
  function Count(h: map<int, nat>, k: int): nat
  {
    if k in h then h[k] else 0
  }

  /** IncKey: add one to bucket k and leave every other bucket alone. */
  function Bump(h: map<int, nat>, k: int): (h': map<int, nat>)
    ensures h'.Keys == h.Keys + {k}
    ensures Count(h', k) == Count(h, k) + 1
    ensures forall j :: j != k ==> Count(h', j) == Count(h, j)
  {
    h[k := Count(h, k) + 1]
  }

  /** The counter updates runProbe makes for one call. */
  function Record(r: ProbeResult, o: Outcome): (r': ProbeResult)
    ensures r'.total == r.total + 1
    ensures r'.success == r.success + (if o.err.None? then 1 else 0)
    ensures r'.timeouts == r.timeouts + (if o.err.Some? && IsClientTimeout(o.err.value) then 1 else 0)
    ensures o.err.Some? ==> r'.respCodes == r.respCodes && r'.ocspCodes == r.ocspCodes
  {
    var r := r.(total := r.total + 1);
    match o.err
    case Some(e) => if IsClientTimeout(e) then r.(timeouts := r.timeouts + 1) else r
    case None =>
      r.(success := r.success + 1,
         respCodes := Bump(r.respCodes, o.call.httpStatus),
         ocspCodes := Bump(r.ocspCodes, o.call.ocspStatus))
  }

  /** Successes and timeouts are disjoint kinds of attempts. */
  ghost predicate Consistent(r: ProbeResult)
  {
    r.success + r.timeouts <= r.total
  }

  ghost predicate AllConsistent(results: map<string, ProbeResult>)
  {
    forall s :: s in results ==> Consistent(results[s])
  }

  /** What one call does to a responder's counters, by what the exchange
      produced: a success adds one to `success`, to the 200 bucket and to the
      bucket of the parsed OCSP status; a client timeout adds one to
      `timeouts`; every other error (non-200 status included) touches no
      counter but `total`. */
  lemma RecordExchange(r: ProbeResult, x: Exchange)
    ensures var r' := Record(r, OcspProbe(x));
      && r'.total == r.total + 1
      && (Succeeded(x) ==>
            && r'.success == r.success + 1 && r'.timeouts == r.timeouts
            && r'.respCodes == Bump(r.respCodes, StatusOK)
            && r'.ocspCodes == Bump(r.ocspCodes, x.body.status))
      && (x == TransportFailed(true) ==>
            r' == r.(total := r.total + 1, timeouts := r.timeouts + 1))
      && (!Succeeded(x) && x != TransportFailed(true) ==>
            r' == r.(total := r.total + 1))
  {
  }

  /** Recording a call keeps successes and timeouts within the attempts. */
  lemma RecordConsistent(r: ProbeResult, o: Outcome)
    requires Consistent(r)
    ensures Consistent(Record(r, o))
  {
  }

  /** The responder's counters so far, or fresh ones if it has none yet. */
  function Lookup(results: map<string, ProbeResult>, server: string): (r: ProbeResult)
    ensures server in results ==> r == results[server]
    ensures server !in results ==> r == NewResult()
  {
    if server in results then results[server] else NewResult()
  }

  /** One iteration of runProbe's loop: create the entry if absent, record the call. */
  function Attempt(results: map<string, ProbeResult>, server: string, x: Exchange): (r: map<string, ProbeResult>)
    ensures r.Keys == results.Keys + {server}
    ensures r[server].total == Lookup(results, server).total + 1
    ensures r[server].success == Lookup(results, server).success + (if Succeeded(x) then 1 else 0)
  {
    results[server := Record(Lookup(results, server), OcspProbe(x))]
  }

  /** The results after attempting the responders of `visited` in that order. */
  function ProbeRound(results: map<string, ProbeResult>, visited: seq<string>, exchange: string -> Exchange): (r: map<string, ProbeResult>)
    decreases |visited|
    ensures results.Keys <= r.Keys
    ensures forall s :: s in results ==>
      && r[s].total >= results[s].total
      && r[s].success >= results[s].success
      && r[s].timeouts >= results[s].timeouts
  {
    if visited == [] then results
    else
      var last := visited[|visited| - 1];
      Attempt(ProbeRound(results, visited[..|visited| - 1], exchange), last, exchange(last))
  }

  ghost predicate Distinct(s: seq<string>)
  {
    forall i, j :: 0 <= i < j < |s| ==> s[i] != s[j]
  }

  /** How runProbe's loop runs over the responders `servers` in some order:
      each at most once, every call but the last one succeeding, and the
      loop ending early only right after a failed call. */
  ghost predicate StopsAtFirstError(visited: seq<string>, servers: set<string>, exchange: string -> Exchange)
  {
    && Distinct(visited)
    && (forall i :: 0 <= i < |visited| ==> visited[i] in servers)
    && (forall i :: 0 <= i < |visited| - 1 ==> Succeeded(exchange(visited[i])))
    && ((exists s :: s in servers && s !in visited) ==>
          visited != [] && !Succeeded(exchange(visited[|visited| - 1])))
  }

  /** Part way through runProbe's loop: the responders of `servers` not in
      `pending` have been called, each once, and every call succeeded. */
  ghost predicate CleanPrefix(visited: seq<string>, servers: set<string>, pending: set<string>, exchange: string -> Exchange)
  {
    && Distinct(visited)
    && (forall i :: 0 <= i < |visited| ==> visited[i] in servers && Succeeded(exchange(visited[i])))
    && (forall s :: s in servers ==> (s in visited <==> s !in pending))
  }

  /** A successful call to a pending responder extends a clean prefix. */
  lemma CleanPrefixStep(visited: seq<string>, servers: set<string>, pending: set<string>, exchange: string -> Exchange, server: string)
    requires CleanPrefix(visited, servers, pending, exchange) && pending <= servers && server in pending
    requires Succeeded(exchange(server))
    ensures CleanPrefix(visited + [server], servers, pending - {server}, exchange)
  {
    assert server !in visited;
    var v := visited + [server];
    forall i | 0 <= i < |v| ensures v[i] in servers && Succeeded(exchange(v[i])) {
      if i < |visited| { assert v[i] == visited[i]; }
    }
    forall s | s in servers ensures s in v <==> s !in pending - {server} {
      assert s in v <==> s in visited || s == server;
    }
  }

  /** A clean prefix with nothing pending has called every responder. */
  lemma CleanPrefixComplete(visited: seq<string>, servers: set<string>, exchange: string -> Exchange)
    requires CleanPrefix(visited, servers, {}, exchange)
    ensures StopsAtFirstError(visited, servers, exchange)
  {
  }

  /** A failed call to a pending responder ends the round. */
  lemma CleanPrefixFail(visited: seq<string>, servers: set<string>, pending: set<string>, exchange: string -> Exchange, server: string)
    requires CleanPrefix(visited, servers, pending, exchange) && pending <= servers && server in pending
    requires !Succeeded(exchange(server))
    ensures StopsAtFirstError(visited + [server], servers, exchange)
  {
    assert server !in visited;
    var v := visited + [server];
    forall i | 0 <= i < |v| ensures v[i] in servers {
      if i < |visited| { assert v[i] == visited[i]; }
    }
    forall i | 0 <= i < |v| - 1 ensures Succeeded(exchange(v[i])) {
      assert v[i] == visited[i];
    }
  }

  /** After a round each attempted responder has an entry and exactly one
      more call recorded on it; every other responder is as it was. */
  lemma {:induction false} ProbeRoundAt(results: map<string, ProbeResult>, visited: seq<string>, exchange: string -> Exchange, s: string)
    requires Distinct(visited)
    ensures var r := ProbeRound(results, visited, exchange);
      && (s in visited ==> s in r && r[s] == Record(Lookup(results, s), OcspProbe(exchange(s))))
      && (s !in visited ==> (s in r <==> s in results) && (s in results ==> r[s] == results[s]))
  {
    if visited != [] {
      var init := visited[..|visited| - 1];
      assert Distinct(init);
      ProbeRoundAt(results, init, exchange, s);
      if s == visited[|visited| - 1] {
        assert s !in init;
      } else {
        assert s in visited <==> s in init;
      }
    }
  }

  /** The responders with results after a round are those before it plus the attempted ones. */
  lemma {:induction false} ProbeRoundKeys(results: map<string, ProbeResult>, visited: seq<string>, exchange: string -> Exchange)
    ensures ProbeRound(results, visited, exchange).Keys == results.Keys + set s | s in visited
  {
    if visited != [] {
      var init := visited[..|visited| - 1];
      var last := visited[|visited| - 1];
      ProbeRoundKeys(results, init, exchange);
      assert visited == init + [last];
      assert (set s | s in visited) == (set s | s in init) + {last};
    }
  }

  /** A round keeps every responder's counters consistent. */
  lemma {:induction false} ProbeRoundConsistent(results: map<string, ProbeResult>, visited: seq<string>, exchange: string -> Exchange)
    requires AllConsistent(results)
    ensures AllConsistent(ProbeRound(results, visited, exchange))
  {
    if visited != [] {
      var init := visited[..|visited| - 1];
      ProbeRoundConsistent(results, init, exchange);
      var prev := ProbeRound(results, init, exchange);
      var last := visited[|visited| - 1];
      RecordConsistent(Lookup(prev, last), OcspProbe(exchange(last)));
    }
  }

  /** A round over responders of `servers` keeps the counters consistent and
      within `servers`. */
  lemma ProbeRoundKeeps(results: map<string, ProbeResult>, visited: seq<string>, exchange: string -> Exchange, servers: set<string>)
    requires AllConsistent(results) && results.Keys <= servers
    requires forall i :: 0 <= i < |visited| ==> visited[i] in servers
    ensures AllConsistent(ProbeRound(results, visited, exchange))
    ensures ProbeRound(results, visited, exchange).Keys <= servers
  {
    ProbeRoundConsistent(results, visited, exchange);
    ProbeRoundKeys(results, visited, exchange);
  }

  /** One exported metric event: the target's name, the responder host, and
      the cumulative counters at export time. */
  datatype Event = Event(dst: string, server: string, counters: ProbeResult)

  /** `batch` holds exactly one event per responder of `servers`, each with
      that responder's current counters. */
  ghost predicate ExportBatch(batch: seq<Event>, dst: string, results: map<string, ProbeResult>, servers: set<string>)
  {
    && (forall i, j :: 0 <= i < j < |batch| ==> batch[i].server != batch[j].server)
    && (set e | e in batch :: e.server) == servers
    && (forall e :: e in batch ==> e.dst == dst && e.server in results && e.counters == results[e.server])
  }

  /** Emitting one more responder's event extends an export batch. */
  lemma ExportBatchAppend(batch: seq<Event>, dst: string, results: map<string, ProbeResult>, servers: set<string>, e: Event)
    requires ExportBatch(batch, dst, results, servers)
    requires e.server !in servers && e.dst == dst && e.server in results && e.counters == results[e.server]
    ensures ExportBatch(batch + [e], dst, results, servers + {e.server})
  {
    assert (set x | x in batch + [e] :: x.server) == (set x | x in batch :: x.server) + {e.server};
    forall i | 0 <= i < |batch| ensures batch[i].server != e.server {
      assert batch[i] in batch;
    }
  }

  /** The counters of one responder after the calls `xs`, in order. */
  function RecordAll(r: ProbeResult, xs: seq<Exchange>): ProbeResult
    decreases |xs|
  {
    if xs == [] then r else Record(RecordAll(r, xs[..|xs| - 1]), OcspProbe(xs[|xs| - 1]))
  }

  /** The number of successful calls among `xs`. */
  function Successes(xs: seq<Exchange>): nat
    decreases |xs|
  {
    if xs == [] then 0 else Successes(xs[..|xs| - 1]) + (if Succeeded(xs[|xs| - 1]) then 1 else 0)
  }

  /** The number of client timeouts among `xs`. */
  function Timeouts(xs: seq<Exchange>): nat
    decreases |xs|
  {
    if xs == [] then 0 else Timeouts(xs[..|xs| - 1]) + (if xs[|xs| - 1] == TransportFailed(true) then 1 else 0)
  }

  /** From fresh counters, the calls `xs` leave total |xs|, the successes and
      timeouts among them, and an HTTP-status histogram holding only the 200
      bucket, which counts the successes. */
  lemma {:induction false} RecordAllCounts(xs: seq<Exchange>)
    ensures var r := RecordAll(NewResult(), xs);
      && r.total == |xs| && r.success == Successes(xs) && r.timeouts == Timeouts(xs)
      && r.respCodes.Keys <= {StatusOK} && Count(r.respCodes, StatusOK) == Successes(xs)
  {
    if xs != [] {
      RecordAllCounts(xs[..|xs| - 1]);
      RecordExchange(RecordAll(NewResult(), xs[..|xs| - 1]), xs[|xs| - 1]);
    }
  }

  /** Three successes, a timeout and a 503 leave total 5, success 3,
      timeouts 1, and no 503 bucket: a non-200 status is an error and is
      never counted in the histogram. */
  lemma MixedOutcomes(x: Exchange)
    requires Succeeded(x)
    ensures var xs := [x, x, x, TransportFailed(true), Responded(503, ReadFailed)];
      var r := RecordAll(NewResult(), xs);
      r.total == 5 && r.success == 3 && r.timeouts == 1 && 503 !in r.respCodes && Count(r.respCodes, StatusOK) == 3
  {
    var xs := [x, x, x, TransportFailed(true), Responded(503, ReadFailed)];
    RecordAllCounts(xs);
    assert xs[..4] == [x, x, x, TransportFailed(true)] && xs[..4][..3] == [x, x, x];
    assert [x, x, x][..2] == [x, x] && [x, x][..1] == [x] && [x][..0] == [];
    assert Successes([x]) == 1 && Timeouts([x]) == 0;
    assert Successes([x, x]) == 2 && Timeouts([x, x]) == 0;
    assert Successes([x, x, x]) == 3 && Timeouts([x, x, x]) == 0;
    assert Successes(xs) == 3 && Timeouts(xs) == 1;
  }
}
