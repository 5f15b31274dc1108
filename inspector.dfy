/**
 * The certificate inspector, `GetExpiration`. The TLS handshake is an opaque
 * `dial` that either fails or yields the peer's certificate chain, whose
 * entries are pointers and so may be nil.
 */
module Inspector {
  import opened Wrappers
  import opened Times
  import opened Settings

  datatype Certificate = Certificate(notAfter: Time)

  /** `ConnectionState().PeerCertificates`: leaf first, each entry possibly nil. */
  type Chain = seq<Option<Certificate>>

  datatype InspectError =
    | DialFailed(host: Host)
    | NoPeerCertificates(host: Host)
    | NilLeafCertificate(host: Host)

  /** The choice made once the handshake has produced `certs`. */
  function LeafExpiration(host: Host, certs: Chain): (r: Result<Time, InspectError>)
    ensures |certs| == 0 <==> r == Failure(NoPeerCertificates(host))
    ensures |certs| > 0 && certs[0].None? <==> r == Failure(NilLeafCertificate(host))
    ensures r.Success? <==> |certs| > 0 && certs[0].Some?
    ensures r.Success? ==> r.value == certs[0].value.notAfter
  {
    if |certs| == 0 then Failure(NoPeerCertificates(host))
    else if certs[0].None? then Failure(NilLeafCertificate(host))
    else Success(certs[0].value.notAfter)
  }

  /** Only the leaf counts: the rest of the chain never changes the outcome. */
  lemma LeafIgnoresRestOfChain(host: Host, leaf: Option<Certificate>, rest: Chain)
    ensures LeafExpiration(host, [leaf] + rest) == LeafExpiration(host, [leaf])
  {
  }

  /** `GetExpiration(host)`, with the dial and handshake of `host:443` as `dial`. */
  function GetExpiration(host: Host, dial: Host -> Option<Chain>): (r: Result<Time, InspectError>)
    ensures dial(host).None? ==> r == Failure(DialFailed(host))
    ensures r.Success? <==> dial(host).Some? && |dial(host).value| > 0 && dial(host).value[0].Some?
    ensures r.Success? ==> r.value == dial(host).value[0].value.notAfter
    ensures dial(host).Some? && r.Failure? ==> r.error.NoPeerCertificates? || r.error.NilLeafCertificate?
  {
    match dial(host)
    case None => Failure(DialFailed(host))
    case Some(certs) => LeafExpiration(host, certs)
  }
}
