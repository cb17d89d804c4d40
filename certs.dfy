/** The certificate cache refresh (updateCertificates with
    downloadServerCertificate). The TLS dial that yields the server's leaf
    certificate and the download and parsing of an issuer certificate are
    inputs: `dial` gives the handshake outcome at an address, `fetch` the
    certificate fetched from a URL, if any. */
module Certs {
  import opened Types

  const DefaultPort: string := "443"

  /** The dial address: the server name, with ":443" appended iff it holds no ':'. */
  function DefaultAddress(server: string): (addr: string)
    ensures ':' in addr
    ensures addr == server <==> ':' in server
    ensures addr == server || addr == server + ":" + DefaultPort
  {
    if ':' !in server then server + ":" + DefaultPort else server
  }

  /** Defaulting the port twice changes nothing more. */
  lemma DefaultAddressIdempotent(server: string)
    ensures DefaultAddress(DefaultAddress(server)) == DefaultAddress(server)
  {
  }

  /** The outcome of the TLS handshake: a dial error, or the first peer
      certificate (None stands for a nil certificate). */
  datatype Handshake = DialFailed | Connected(leaf: Option<Cert>)

  /** downloadServerCertificate: dial the named server at its defaulted address. */
  function DownloadServerCertificate(server: string, dial: string -> Handshake): (h: Handshake)
    ensures ':' in server ==> h == dial(server)
    ensures ':' !in server ==> h == dial(server + ":443")
  {
    assert ":" + DefaultPort == ":443";
    assert server + ":" + DefaultPort == server + ":443";
    dial(DefaultAddress(server))
  }

  /** The first issuer URL whose certificate can be fetched, in list order. */
  function FirstFetched(urls: seq<string>, fetch: string -> Option<Cert>): (r: Option<Cert>)
    decreases |urls|
    ensures r.Some? ==> exists u :: u in urls && fetch(u) == r
    ensures r.None? ==> forall u :: u in urls ==> fetch(u).None?
    ensures urls != [] && fetch(urls[0]).Some? ==> r == fetch(urls[0])
  {
    if urls == [] then None
    else if fetch(urls[0]).Some? then fetch(urls[0])
    else FirstFetched(urls[1..], fetch)
  }

  /** FirstFetched finds nothing iff no URL can be fetched, and otherwise the
      certificate of a URL all of whose predecessors failed. */
  lemma {:induction false} FirstFetchedIsFirst(urls: seq<string>, fetch: string -> Option<Cert>)
    ensures FirstFetched(urls, fetch).None? <==> forall i :: 0 <= i < |urls| ==> fetch(urls[i]).None?
    ensures FirstFetched(urls, fetch).Some? ==>
      exists i :: 0 <= i < |urls| && fetch(urls[i]) == FirstFetched(urls, fetch)
        && forall j :: 0 <= j < i ==> fetch(urls[j]).None?
  {
    if urls != [] && fetch(urls[0]).None? {
      FirstFetchedIsFirst(urls[1..], fetch);
      if FirstFetched(urls, fetch).Some? {
        var i :| 0 <= i < |urls[1..]| && fetch(urls[1..][i]) == FirstFetched(urls[1..], fetch)
          && forall j :: 0 <= j < i ==> fetch(urls[1..][j]).None?;
        assert fetch(urls[i + 1]) == FirstFetched(urls, fetch);
        assert forall j :: 0 <= j < i + 1 ==> fetch(urls[j]).None? by {
          forall j | 0 <= j < i + 1 ensures fetch(urls[j]).None? {
            if j > 0 { assert urls[j] == urls[1..][j - 1]; }
          }
        }
      } else {
        forall i | 0 <= i < |urls| ensures fetch(urls[i]).None? {
          if i > 0 { assert urls[i] == urls[1..][i - 1]; }
        }
      }
    }
  }

  /** The issuer loop of updateCertificates: try the URLs in order, keep the first success. */
  method FetchIssuer(urls: seq<string>, fetch: string -> Option<Cert>) returns (issuer: Option<Cert>)
    ensures issuer == FirstFetched(urls, fetch)
  {
    issuer := None;
    var i := 0;
    while i < |urls|
      invariant 0 <= i <= |urls|
      invariant issuer.None?
      invariant FirstFetched(urls, fetch) == FirstFetched(urls[i..], fetch)
    {
      assert urls[i..][1..] == urls[i + 1..];
      issuer := fetch(urls[i]);
      if issuer.Some? {
        return;
      }
      i := i + 1;
    }
  }

  /** The certificates and issuers cached per target key. */
  datatype CertCache = CertCache(certs: map<string, Cert>, issuers: map<string, Cert>)

  /** What the refresh obtains for one target. */
  datatype Fetch = DialError | NilLeaf | LeafOnly(leaf: Cert) | Pair(leaf: Cert, issuer: Cert)

  function FetchPair(t: Endpoint, dial: string -> Handshake, fetch: string -> Option<Cert>): (p: Fetch)
    ensures p.DialError? <==> dial(DefaultAddress(t.name)).DialFailed?
    ensures p.NilLeaf? <==> dial(DefaultAddress(t.name)) == Connected(None)
    ensures p.LeafOnly? || p.Pair? ==> dial(DefaultAddress(t.name)) == Connected(Some(p.leaf))
    ensures p.LeafOnly? ==> forall u :: u in p.leaf.issuingUrls ==> fetch(u).None?
    ensures p.Pair? ==> exists u :: u in p.leaf.issuingUrls && fetch(u) == Some(p.issuer)
  {
    match DownloadServerCertificate(t.name, dial)
    case DialFailed => DialError
    case Connected(None) => NilLeaf
    case Connected(Some(leaf)) =>
      match FirstFetched(leaf.issuingUrls, fetch)
      case None => LeafOnly(leaf)
      case Some(issuer) => Pair(leaf, issuer)
  }

  /** updateCertificates: the listed targets in order, each storing its leaf
      and then its issuer, the cycle abandoned at the first target that
      fails; a target whose issuer cannot be fetched has already stored its
      leaf. */
  function Refresh(c: CertCache, listed: seq<Endpoint>, dial: string -> Handshake, fetch: string -> Option<Cert>): (c': CertCache)
    decreases |listed|
    ensures c.certs.Keys <= c'.certs.Keys && c.issuers.Keys <= c'.issuers.Keys
    ensures c'.issuers.Keys - c.issuers.Keys <= c'.certs.Keys
  {
    if listed == [] then c
    else
      var k := listed[0].key;
      match FetchPair(listed[0], dial, fetch)
      case DialError => c
      case NilLeaf => c
      case LeafOnly(leaf) => c.(certs := c.certs[k := leaf])
      case Pair(leaf, issuer) => Refresh(CertCache(c.certs[k := leaf], c.issuers[k := issuer]), listed[1..], dial, fetch)
  }

  /** The index of the first target the refresh fails for (|listed| if none). */
  function FirstFailure(listed: seq<Endpoint>, dial: string -> Handshake, fetch: string -> Option<Cert>): (n: nat)
    ensures n <= |listed|
    decreases |listed|
  {
    if listed == [] then 0
    else if FetchPair(listed[0], dial, fetch).Pair? then 1 + FirstFailure(listed[1..], dial, fetch)
    else 0
  }

  /** The cached certificate of key k is the same in both caches. */
  ghost predicate SameCert(c: CertCache, d: CertCache, k: string)
  {
    (k in c.certs <==> k in d.certs) && (k in c.certs ==> c.certs[k] == d.certs[k])
  }

  /** The cached issuer of key k is the same in both caches. */
  ghost predicate SameIssuer(c: CertCache, d: CertCache, k: string)
  {
    (k in c.issuers <==> k in d.issuers) && (k in c.issuers ==> c.issuers[k] == d.issuers[k])
  }

  /** Dropping the first endpoint keeps the keys distinct, and leaves no
      endpoint with the first one's key. */
  lemma DistinctTail(listed: seq<Endpoint>)
    requires listed != [] && DistinctKeys(listed)
    ensures DistinctKeys(listed[1..])
    ensures listed[0].key !in KeysOf(listed[1..])
  {
    forall j | 0 <= j < |listed[1..]| ensures listed[1..][j].key != listed[0].key {
      assert listed[1..][j] == listed[j + 1];
    }
    forall a, b | 0 <= a < b < |listed[1..]| ensures listed[1..][a].key != listed[1..][b].key {
      assert listed[1..][a] == listed[a + 1] && listed[1..][b] == listed[b + 1];
    }
  }

  /** Keys being distinct, a first target whose leaf and issuer are both
      obtained holds them after the refresh. */
  lemma RefreshFirst(c: CertCache, listed: seq<Endpoint>, dial: string -> Handshake, fetch: string -> Option<Cert>)
    requires listed != [] && DistinctKeys(listed) && FetchPair(listed[0], dial, fetch).Pair?
    ensures var r := Refresh(c, listed, dial, fetch);
      var k := listed[0].key;
      var p := FetchPair(listed[0], dial, fetch);
      k in r.certs && r.certs[k] == p.leaf && k in r.issuers && r.issuers[k] == p.issuer
  {
    var k0 := listed[0].key;
    var p0 := FetchPair(listed[0], dial, fetch);
    var c' := CertCache(c.certs[k0 := p0.leaf], c.issuers[k0 := p0.issuer]);
    DistinctTail(listed);
    RefreshUnlisted(c', listed[1..], dial, fetch, k0);
  }

  /** Keys being distinct, every target before the first failure holds its
      new leaf and issuer after the refresh. */
  lemma {:induction false} RefreshBeforeFailure(c: CertCache, listed: seq<Endpoint>, dial: string -> Handshake, fetch: string -> Option<Cert>, i: nat)
    requires DistinctKeys(listed) && i < FirstFailure(listed, dial, fetch)
    decreases |listed|
    ensures var r := Refresh(c, listed, dial, fetch);
      var k := listed[i].key;
      var p := FetchPair(listed[i], dial, fetch);
      p.Pair? && k in r.certs && r.certs[k] == p.leaf && k in r.issuers && r.issuers[k] == p.issuer
  {
    if i == 0 {
      RefreshFirst(c, listed, dial, fetch);
    } else {
      var k0 := listed[0].key;
      var p0 := FetchPair(listed[0], dial, fetch);
      var c' := CertCache(c.certs[k0 := p0.leaf], c.issuers[k0 := p0.issuer]);
      var rest := listed[1..];
      assert p0.Pair? && FirstFailure(listed, dial, fetch) == 1 + FirstFailure(rest, dial, fetch)
          && Refresh(c, listed, dial, fetch) == Refresh(c', rest, dial, fetch) by {
        assert p0.Pair?;
      }
      DistinctTail(listed);
      assert rest[i - 1] == listed[i];
      RefreshBeforeFailure(c', rest, dial, fetch, i - 1);
    }
  }

  /** Keys being distinct, the target the refresh fails for keeps its old
      issuer, and keeps its old leaf too unless the failure was the issuer
      fetch, in which case it holds its new leaf. */
  lemma {:induction false} RefreshAtFailure(c: CertCache, listed: seq<Endpoint>, dial: string -> Handshake, fetch: string -> Option<Cert>)
    requires DistinctKeys(listed) && FirstFailure(listed, dial, fetch) < |listed|
    decreases |listed|
    ensures var r := Refresh(c, listed, dial, fetch);
      var f := FirstFailure(listed, dial, fetch);
      var k := listed[f].key;
      var p := FetchPair(listed[f], dial, fetch);
      && !p.Pair?
      && (p.LeafOnly? ==> k in r.certs && r.certs[k] == p.leaf)
      && (!p.LeafOnly? ==> SameCert(c, r, k))
      && SameIssuer(c, r, k)
  {
    var k0 := listed[0].key;
    var p0 := FetchPair(listed[0], dial, fetch);
    if p0.Pair? {
      var c' := CertCache(c.certs[k0 := p0.leaf], c.issuers[k0 := p0.issuer]);
      var f := FirstFailure(listed, dial, fetch);
      DistinctTail(listed);
      assert listed[1..][f - 1] == listed[f];
      RefreshAtFailure(c', listed[1..], dial, fetch);
      assert listed[0].key != listed[f].key;
    }
  }

  /** Keys being distinct, every target after the first failure keeps its
      old leaf and issuer. */
  lemma {:induction false} RefreshAfterFailure(c: CertCache, listed: seq<Endpoint>, dial: string -> Handshake, fetch: string -> Option<Cert>, i: nat)
    requires DistinctKeys(listed) && FirstFailure(listed, dial, fetch) < i < |listed|
    decreases |listed|
    ensures var r := Refresh(c, listed, dial, fetch);
      SameCert(c, r, listed[i].key) && SameIssuer(c, r, listed[i].key)
  {
    var k0 := listed[0].key;
    var p0 := FetchPair(listed[0], dial, fetch);
    assert listed[0].key != listed[i].key;
    if p0.Pair? {
      var c' := CertCache(c.certs[k0 := p0.leaf], c.issuers[k0 := p0.issuer]);
      assert Refresh(c, listed, dial, fetch) == Refresh(c', listed[1..], dial, fetch);
      assert FirstFailure(listed, dial, fetch) == 1 + FirstFailure(listed[1..], dial, fetch);
      DistinctTail(listed);
      assert listed[1..][i - 1] == listed[i];
      RefreshAfterFailure(c', listed[1..], dial, fetch, i - 1);
    } else {
      assert Refresh(c, listed, dial, fetch) == if p0.LeafOnly? then c.(certs := c.certs[k0 := p0.leaf]) else c;
    }
  }

  /** A key that is not listed keeps its cached pair. */
  lemma {:induction false} RefreshUnlisted(c: CertCache, listed: seq<Endpoint>, dial: string -> Handshake, fetch: string -> Option<Cert>, k: string)
    requires k !in KeysOf(listed)
    decreases |listed|
    ensures SameCert(c, Refresh(c, listed, dial, fetch), k)
    ensures SameIssuer(c, Refresh(c, listed, dial, fetch), k)
  {
    if listed != [] {
      assert listed[0].key != k;
      var p0 := FetchPair(listed[0], dial, fetch);
      if p0.Pair? {
        var c' := CertCache(c.certs[listed[0].key := p0.leaf], c.issuers[listed[0].key := p0.issuer]);
        assert k !in KeysOf(listed[1..]) by {
          forall j | 0 <= j < |listed[1..]| ensures listed[1..][j].key != k {
            assert listed[1..][j] == listed[j + 1];
          }
        }
        RefreshUnlisted(c', listed[1..], dial, fetch, k);
      }
    }
  }
}
