/** The two DNS verdicts of the prerequisite test. The lookups themselves
    are parameters: each verdict receives the list of addresses a name
    resolved to. */
module Dns {
  import opened Outcomes

  datatype DnsError =
    /** The name does not resolve to the expected address (an empty list
        included). */
    | WrongTarget(name: string, resolved: seq<string>, expected: string)
    /** The name resolves to the expected address and to others too. */
    | Multiple(name: string, resolved: seq<string>, expected: string)
    /** The stable name resolves to nothing. */
    | NoAddress(name: string)
    /** The stable name resolves to several addresses. */
    | Ambiguous(name: string, resolved: seq<string>)

  /** `App.test_public_dns_name`: a public name must resolve to the
      gateway's public address and to nothing else. Membership is tested
      before the count. */
  function PublicNameVerdict(name: string, resolved: seq<string>, publicIp: string): (r: Outcome<DnsError>)
    ensures r.Pass? <==> resolved == [publicIp]
    ensures r == Fail(WrongTarget(name, resolved, publicIp)) <==> publicIp !in resolved
    ensures r == Fail(Multiple(name, resolved, publicIp)) <==> publicIp in resolved && |resolved| > 1
  {
    if publicIp !in resolved then Fail(WrongTarget(name, resolved, publicIp))
    else if |resolved| > 1 then Fail(Multiple(name, resolved, publicIp))
    else Pass
  }

  /** The stable public name's single address, as `main` takes it: no
      address and several addresses are both refused. */
  function StableAddress(name: string, resolved: seq<string>): (r: Result<string, DnsError>)
    ensures r.Ok? <==> |resolved| == 1
    ensures r.Ok? ==> resolved == [r.value]
    ensures |resolved| == 0 ==> r == Err(NoAddress(name))
    ensures |resolved| > 1 ==> r == Err(Ambiguous(name, resolved))
  {
    if |resolved| == 0 then Err(NoAddress(name))
    else if |resolved| > 1 then Err(Ambiguous(name, resolved))
    else Ok(resolved[0])
  }

  /** The stable address is `a` exactly when the name resolves to `a`
      alone. */
  lemma StableAddressIff(name: string, resolved: seq<string>, a: string)
    ensures StableAddress(name, resolved) == Ok(a) <==> resolved == [a]
  {
  }

  /** The two verdicts agree: a public name passes for an address exactly
      when that address is the name's stable address. */
  lemma PublicNameAgreesWithStable(name: string, resolved: seq<string>, publicIp: string)
    ensures PublicNameVerdict(name, resolved, publicIp).Pass? <==> StableAddress(name, resolved) == Ok(publicIp)
  {
    StableAddressIff(name, resolved, publicIp);
  }

  /** An empty answer fails the public-name check with the wrong-target
      error, and so does an answer of several addresses none of which is
      the public one: membership is tested first. */
  lemma MembershipBeforeCount(name: string, a: string, b: string, publicIp: string)
    requires a != publicIp && b != publicIp
    ensures PublicNameVerdict(name, [], publicIp) == Fail(WrongTarget(name, [], publicIp))
    ensures PublicNameVerdict(name, [a, b], publicIp) == Fail(WrongTarget(name, [a, b], publicIp))
    ensures PublicNameVerdict(name, [publicIp, b], publicIp) == Fail(Multiple(name, [publicIp, b], publicIp))
  {
    assert publicIp in [publicIp, b];
  }
}
