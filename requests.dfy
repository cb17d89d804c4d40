/** Building the per-responder OCSP requests of a target
    (ocspRequestForTarget). URL parsing and the OCSP library's request
    encoding are inputs: `parseHost` gives the host of a URL that parses,
    `createRequest` the request body for a leaf and its issuer, if it can be
    built. */
module Requests {
  import opened Types

  /** An HTTP POST to one OCSP responder URL, with its host and body. */
  datatype Request = Request(url: string, host: string, headers: seq<(string, string)>, body: seq<bv8>)

  function NewRequest(url: string, host: string, body: seq<bv8>): (r: Request)
    ensures r.url == url && r.host == host && r.body == body
    ensures |r.headers| == 3
    ensures ("Content-Type", "application/ocsp-request") in r.headers
    ensures ("Accept", "application/ocsp-response") in r.headers
    ensures ("host", host) in r.headers
  {
    Request(url, host,
      [("Content-Type", "application/ocsp-request"), ("Accept", "application/ocsp-response"), ("host", host)],
      body)
  }

  datatype RequestError = NoCertificate | NoOcspServers | NoIssuer | CreateFailed

  /** The requests for the responder URLs `urls`, in order, keyed by host:
      a URL that does not parse is skipped, and a later URL with the same host
      replaces an earlier one. */
  function RequestsFrom(urls: seq<string>, parseHost: string -> Option<string>, body: seq<bv8>): (m: map<string, Request>)
    decreases |urls|
    ensures forall h :: h in m ==> m[h].url in urls && parseHost(m[h].url) == Some(h) && m[h] == NewRequest(m[h].url, h, body)
  {
    if urls == [] then map[]
    else
      var m := RequestsFrom(urls[..|urls| - 1], parseHost, body);
      var url := urls[|urls| - 1];
      assert forall u :: u in urls[..|urls| - 1] ==> u in urls;
      match parseHost(url)
      case None => m
      case Some(host) => m[host := NewRequest(url, host, body)]
  }

  /** The hosts of the URLs of `urls` that parse. */
  function ParsedHosts(urls: seq<string>, parseHost: string -> Option<string>): set<string>
  {
    set i | 0 <= i < |urls| && parseHost(urls[i]).Some? :: parseHost(urls[i]).value
  }

  /** The requests are keyed by exactly the hosts of the parseable URLs. */
  lemma {:induction false} RequestsKeys(urls: seq<string>, parseHost: string -> Option<string>, body: seq<bv8>)
    ensures RequestsFrom(urls, parseHost, body).Keys == ParsedHosts(urls, parseHost)
  {
    if urls != [] {
      var init := urls[..|urls| - 1];
      var url := urls[|urls| - 1];
      RequestsKeys(init, parseHost, body);
      var extra := if parseHost(url).Some? then {parseHost(url).value} else {};
      assert ParsedHosts(urls, parseHost) == ParsedHosts(init, parseHost) + extra by {
        forall h | h in ParsedHosts(urls, parseHost) ensures h in ParsedHosts(init, parseHost) + extra {
          var i :| 0 <= i < |urls| && parseHost(urls[i]).Some? && parseHost(urls[i]).value == h;
          if i < |urls| - 1 { assert init[i] == urls[i]; }
        }
        forall h | h in ParsedHosts(init, parseHost) ensures h in ParsedHosts(urls, parseHost) {
          var i :| 0 <= i < |init| && parseHost(init[i]).Some? && parseHost(init[i]).value == h;
          assert urls[i] == init[i];
        }
      }
    }
  }

  /** The request of a host is built from the last parseable URL with that host. */
  lemma {:induction false} RequestsLastWins(urls: seq<string>, parseHost: string -> Option<string>, body: seq<bv8>, i: nat)
    requires i < |urls| && parseHost(urls[i]).Some?
    requires forall j :: i < j < |urls| ==> parseHost(urls[j]) != parseHost(urls[i])
    ensures var host := parseHost(urls[i]).value;
      host in RequestsFrom(urls, parseHost, body)
      && RequestsFrom(urls, parseHost, body)[host] == NewRequest(urls[i], host, body)
  {
    if i < |urls| - 1 {
      var init := urls[..|urls| - 1];
      assert init[i] == urls[i];
      RequestsLastWins(init, parseHost, body, i);
    }
  }

  /** ocspRequestForTarget: fail without a certificate, without responder
      URLs, without an issuer, or when the request body cannot be built;
      otherwise the requests of the certificate's responder URLs. */
  function TargetRequests(
    certs: map<string, Cert>, issuers: map<string, Cert>, key: string,
    parseHost: string -> Option<string>, createRequest: (Cert, Cert) -> Option<seq<bv8>>): (r: Result<map<string, Request>, RequestError>)
    ensures r.Ok? ==> key in certs && key in issuers && createRequest(certs[key], issuers[key]).Some?
    ensures r.Ok? ==> forall h :: h in r.value ==>
      && r.value[h].url in certs[key].ocspServers
      && parseHost(r.value[h].url) == Some(h)
      && r.value[h] == NewRequest(r.value[h].url, h, createRequest(certs[key], issuers[key]).value)
  {
    if key !in certs then Err(NoCertificate)
    else if |certs[key].ocspServers| < 1 then Err(NoOcspServers)
    else if key !in issuers then Err(NoIssuer)
    else
      match createRequest(certs[key], issuers[key])
      case None => Err(CreateFailed)
      case Some(body) => Ok(RequestsFrom(certs[key].ocspServers, parseHost, body))
  }

  /** The derivation fails iff one of its four inputs is missing or unusable,
      and on success its requests are keyed by exactly the hosts of the
      certificate's parseable responder URLs. */
  lemma TargetRequestsOutcome(
    certs: map<string, Cert>, issuers: map<string, Cert>, key: string,
    parseHost: string -> Option<string>, createRequest: (Cert, Cert) -> Option<seq<bv8>>)
    ensures var r := TargetRequests(certs, issuers, key, parseHost, createRequest);
      && (r.Err? <==>
            key !in certs || certs[key].ocspServers == [] || key !in issuers
            || createRequest(certs[key], issuers[key]).None?)
      && (r.Ok? ==> r.value.Keys == ParsedHosts(certs[key].ocspServers, parseHost))
  {
    var r := TargetRequests(certs, issuers, key, parseHost, createRequest);
    if r.Ok? {
      RequestsKeys(certs[key].ocspServers, parseHost, createRequest(certs[key], issuers[key]).value);
    }
  }
}
