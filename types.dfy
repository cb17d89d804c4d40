/** Values shared by every part of the OCSP probe model. */
module Types {

  datatype Option<T> = None | Some(value: T)

  datatype Result<T, E> = Ok(value: T) | Err(error: E)

  /** A monitored endpoint as the target resolver lists it. `key` is what the
      endpoint's Key() reports (name, port and labels); the key computation
      belongs to the probing framework, so the model carries its value. */
  datatype Endpoint = Endpoint(name: string, key: string)

  /** An X.509 certificate, reduced to what the probe reads from it: an
      identity, the OCSP responder URLs and the issuing-certificate URLs of
      its Authority Information Access extension. */
  datatype Cert = Cert(serial: nat, ocspServers: seq<string>, issuingUrls: seq<string>)

  /** The identity of one context.CancelFunc, handed out by a counter. */
  type Handle = nat

  /** No key of `listed` occurs twice. */
  ghost predicate DistinctKeys(listed: seq<Endpoint>)
  {
    forall i, j :: 0 <= i < j < |listed| ==> listed[i].key != listed[j].key
  }

  /** The set of keys of `listed`. */
  function KeysOf(listed: seq<Endpoint>): set<string>
  {
    set i | 0 <= i < |listed| :: listed[i].key
  }
}
