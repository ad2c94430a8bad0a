/** One reachability probe, `App.test_whoami_port_connection`: ask the
    stub server at a host and port to echo a request for a random path,
    decode the echo, and accept only an echo of that very path that also
    names the expected host. The HTTP exchange itself is a parameter: the
    probe receives either the echoed lines or the reason the exchange
    failed. */
module Probe {
  import opened Text
  import opened Outcomes
  import opened Echo
  import RequestLine
  import Hex

  /** The header under which the stub reports its host name. */
  const HostnameKey: string := "Hostname"

  /** What the HTTP exchange produced. */
  datatype Fetch = Fetched(lines: seq<string>) | FetchFailed(reason: string)

  datatype ProbeError =
    | Unreachable(reason: string)
    | BadEcho(line: string)
    | NoPath
    | PrefixOnRepeatedPath
    | PathMismatch(expected: string, observed: HeaderValue)
    | NoHostname
    | HostnameMismatch(expected: string, observed: HeaderValue)

  /** The `stripped_path_prefix` argument as the probe uses it: absent or
      empty means no prefix, and a prefix gets a leading slash if it lacks
      one. */
  function NormalisePrefix(p: Option<string>): (r: Option<string>)
    ensures r.None? <==> p.None? || p.value == ""
    ensures r.Some? ==> HasPrefix(r.value, "/")
    ensures r.Some? ==> r.value == p.value || r.value == "/" + p.value
  {
    match p
    case None => None
    case Some(s) =>
      if s == "" then None
      else if HasPrefix(s, "/") then Some(s)
      else Some("/" + s)
  }

  /** The text a prefix contributes in front of the observed path. */
  function PrefixText(p: Option<string>): string {
    match NormalisePrefix(p)
    case None => ""
    case Some(q) => q
  }

  /** Normalising twice is normalising once, and a prefix that already
      starts with a slash is kept as it is. */
  lemma NormalisePrefixIdempotent(p: Option<string>)
    ensures NormalisePrefix(NormalisePrefix(p)) == NormalisePrefix(p)
    ensures p.Some? && HasPrefix(p.value, "/") ==> NormalisePrefix(p) == p
  {
  }

  /** The prefix is concatenated in front of the observed path:
      `api` normalises to `/api`, and the observed `/abc` then reads as
      `/api/abc`. */
  lemma PrefixExample()
    ensures NormalisePrefix(Some("api")) == Some("/api")
    ensures NormalisePrefix(Some("/api")) == Some("/api")
    ensures NormalisePrefix(Some("")) == None
    ensures PrefixText(Some("api")) + "/abc" == "/api/abc"
  {
    assert "api"[..1][0] == 'a';
    assert "/" + "api" == "/api";
    assert "/api" + "/abc" == "/api/abc";
  }

  /** `stripped_path_prefix + http_path`: the observed path with the
      normalised prefix put back in front. A repeated path header is a
      list, and Python refuses to add a string and a list. */
  function RestorePath(prefix: Option<string>, observed: HeaderValue): (r: Result<HeaderValue, ProbeError>)
    ensures r.Err? <==> prefix.Some? && observed.Seq?
    ensures r.Err? ==> r.error == PrefixOnRepeatedPath
    ensures r.Ok? && prefix.None? ==> r.value == observed
    ensures r.Ok? && prefix.Some? ==> observed.Scalar? && r.value == Scalar(prefix.value + observed.value)
  {
    match prefix
    case None => Ok(observed)
    case Some(p) =>
      match observed
      case Scalar(v) => Ok(Scalar(p + v))
      case Seq(_) => Err(PrefixOnRepeatedPath)
  }

  /** The restored path starts with the prefix, and cutting the prefix off
      again gives back the observed path. */
  lemma {:induction false} RestorePathUndone(prefix: Option<string>, observed: HeaderValue)
    requires RestorePath(prefix, observed).Ok? && prefix.Some?
    ensures var restored := RestorePath(prefix, observed).value.value;
            HasPrefix(restored, prefix.value) && restored[|prefix.value|..] == observed.value
  {
    var restored := prefix.value + observed.value;
    assert restored[..|prefix.value|] == prefix.value;
    assert restored[|prefix.value|..] == observed.value;
  }

  /** The path part of the verdict holds: the echo names exactly one path,
      and with the prefix in front it is the requested `/<nonce>`. */
  predicate PathAccepted(nonce: string, m: Headers, prefix: Option<string>) {
    && PathKey in m
    && m[PathKey].Scalar?
    && PrefixText(prefix) + m[PathKey].value == "/" + nonce
  }

  /** The host part of the verdict holds: a host name is echoed and, when
      one is expected, it is exactly that single name. */
  predicate HostAccepted(m: Headers, expectedHost: Option<string>) {
    && HostnameKey in m
    && (expectedHost.Some? ==> m[HostnameKey] == Scalar(expectedHost.value))
  }

  /** The verdict on a decoded echo. The checks run in the order the
      script makes them, and the first one that fails is reported. */
  function Verdict(nonce: string, m: Headers, prefix: Option<string>, expectedHost: Option<string>): (r: Outcome<ProbeError>)
    ensures r.Pass? <==> PathAccepted(nonce, m, prefix) && HostAccepted(m, expectedHost)
    ensures r == Fail(NoPath) <==> PathKey !in m
    ensures r == Fail(PrefixOnRepeatedPath) <==> PathKey in m && m[PathKey].Seq? && NormalisePrefix(prefix).Some?
    ensures (r.Fail? && r.error.PathMismatch?) <==>
              PathKey in m && !(m[PathKey].Seq? && NormalisePrefix(prefix).Some?) && !PathAccepted(nonce, m, prefix)
    ensures r.Fail? && r.error.PathMismatch? ==>
              && PathKey in m && r.error.expected == "/" + nonce
              && r.error.observed == (if m[PathKey].Seq? then m[PathKey] else Scalar(PrefixText(prefix) + m[PathKey].value))
    ensures r == Fail(NoHostname) <==> PathAccepted(nonce, m, prefix) && HostnameKey !in m
    ensures (r.Fail? && r.error.HostnameMismatch?) <==>
              PathAccepted(nonce, m, prefix) && HostnameKey in m && !HostAccepted(m, expectedHost)
    ensures r.Fail? && r.error.HostnameMismatch? ==>
              && expectedHost.Some? && HostnameKey in m
              && r.error == HostnameMismatch(expectedHost.value, m[HostnameKey])
  {
    var pre := NormalisePrefix(prefix);
    if PathKey !in m then Fail(NoPath)
    else
      match RestorePath(pre, m[PathKey])
      case Err(e) => Fail(e)
      case Ok(path) =>
        assert pre.None? && m[PathKey].Scalar? ==> PrefixText(prefix) + m[PathKey].value == m[PathKey].value;
        if path != Scalar("/" + nonce) then Fail(PathMismatch("/" + nonce, path))
        else if HostnameKey !in m then Fail(NoHostname)
        else if expectedHost.Some? && m[HostnameKey] != Scalar(expectedHost.value) then
          Fail(HostnameMismatch(expectedHost.value, m[HostnameKey]))
        else Pass
  }

  /** An echo passes for at most one nonce: the nonce is what the path
      check pins down. */
  lemma NonceDetermined(n1: string, n2: string, m: Headers, prefix: Option<string>, expectedHost: Option<string>)
    requires Verdict(n1, m, prefix, expectedHost).Pass?
    requires Verdict(n2, m, prefix, expectedHost).Pass?
    ensures n1 == n2
  {
    assert ("/" + n1)[1..] == n1;
    assert ("/" + n2)[1..] == n2;
  }

  /** An echo passes for at most one expected host name. */
  lemma HostDetermined(nonce: string, m: Headers, prefix: Option<string>, h1: string, h2: string)
    requires Verdict(nonce, m, prefix, Some(h1)).Pass?
    requires Verdict(nonce, m, prefix, Some(h2)).Pass?
    ensures h1 == h2
  {
  }

  /** A repeated `Hostname` header is a list, which never equals the
      expected name; without an expected name it is accepted as it is. */
  lemma RepeatedHostname(nonce: string, m: Headers, prefix: Option<string>, expectedHost: Option<string>)
    requires PathAccepted(nonce, m, prefix)
    requires HostnameKey in m && m[HostnameKey].Seq?
    ensures expectedHost.Some? ==> Verdict(nonce, m, prefix, expectedHost) == Fail(HostnameMismatch(expectedHost.value, m[HostnameKey]))
    ensures expectedHost.None? ==> Verdict(nonce, m, prefix, expectedHost) == Pass
  {
  }

  /** A repeated path header always fails the probe: as a list compared
      with the expected text, or in the addition of the prefix. */
  lemma RepeatedPath(nonce: string, m: Headers, prefix: Option<string>, expectedHost: Option<string>)
    requires PathKey in m && m[PathKey].Seq?
    ensures NormalisePrefix(prefix).None? ==>
              Verdict(nonce, m, prefix, expectedHost) == Fail(PathMismatch("/" + nonce, m[PathKey]))
    ensures NormalisePrefix(prefix).Some? ==> Verdict(nonce, m, prefix, expectedHost) == Fail(PrefixOnRepeatedPath)
  {
  }

  /** A passing probe with a prefix means the requested path began with
      the prefix: the request itself never carries the prefix, so the
      random nonce must. */
  lemma PrefixLeadsNonce(nonce: string, m: Headers, prefix: Option<string>, expectedHost: Option<string>)
    requires Verdict(nonce, m, prefix, expectedHost).Pass?
    requires NormalisePrefix(prefix).Some?
    ensures HasPrefix("/" + nonce, NormalisePrefix(prefix).value)
  {
    var q := NormalisePrefix(prefix).value;
    assert ("/" + nonce)[..|q|] == (q + m[PathKey].value)[..|q|];
  }

  /** With a hexadecimal nonce, as the port test draws, a prefix holding
      a letter beyond `f`, such as `/api`, can never pass. */
  lemma HexNonceRejectsApiPrefix(nonce: string, m: Headers, expectedHost: Option<string>)
    requires Hex.IsHex(nonce)
    ensures !Verdict(nonce, m, Some("/api"), expectedHost).Pass?
  {
    if Verdict(nonce, m, Some("/api"), expectedHost).Pass? {
      PrefixLeadsNonce(nonce, m, Some("/api"), expectedHost);
      ApiLeadsNonce(nonce);
      assert false;
    }
  }

  lemma ApiLeadsNonce(nonce: string)
    requires HasPrefix("/" + nonce, "/api")
    ensures |nonce| >= 3 && nonce[1] == 'p'
  {
    assert ("/" + nonce)[2] == nonce[1];
    assert ("/" + nonce)[..4][2] == "/api"[2];
  }

  /** The whole probe: the exchange, the decoding of the echo, then the
      verdict. A failed exchange or an undecodable echo fails the probe
      before any check is made. */
  function Probe(nonce: string, fetch: Fetch, prefix: Option<string>, expectedHost: Option<string>): (r: Outcome<ProbeError>)
    ensures fetch.FetchFailed? ==> r == Fail(Unreachable(fetch.reason))
    ensures fetch.Fetched? && Parse(fetch.lines).Err? ==> r == Fail(BadEcho(Parse(fetch.lines).error.line))
    ensures fetch.Fetched? && Parse(fetch.lines).Ok? ==> r == Verdict(nonce, Parse(fetch.lines).value, prefix, expectedHost)
  {
    match fetch
    case FetchFailed(reason) => Fail(Unreachable(reason))
    case Fetched(lines) =>
      match Parse(lines)
      case Err(NoColon(line)) => Fail(BadEcho(line))
      case Ok(m) => Verdict(nonce, m, prefix, expectedHost)
  }

  /** A probe passes exactly when the exchange succeeded, every echoed
      line was understood, and both parts of the verdict hold. */
  lemma ProbePassIff(nonce: string, fetch: Fetch, prefix: Option<string>, expectedHost: Option<string>)
    ensures Probe(nonce, fetch, prefix, expectedHost).Pass? <==>
              && fetch.Fetched?
              && Parse(fetch.lines).Ok?
              && PathAccepted(nonce, Parse(fetch.lines).value, prefix)
              && HostAccepted(Parse(fetch.lines).value, expectedHost)
  {
  }

  /** An echo whose line the decoder rejects is reported with the first
      such line. */
  lemma ProbeReportsFirstBadLine(nonce: string, lines: seq<string>, prefix: Option<string>, expectedHost: Option<string>)
    requires !NoneMalformed(lines)
    ensures exists i :: FirstMalformedAt(lines, i) && Probe(nonce, Fetched(lines), prefix, expectedHost) == Fail(BadEcho(lines[i]))
  {
    ParseOkIff(lines);
    ParseFailsOnFirstMalformed(lines);
  }

  /** The request the stub sees: `GET /<nonce> HTTP/1.1`. */
  function StubRequest(nonce: string): RequestLine.Pieces {
    RequestLine.Pieces("GET", " ", "/" + nonce, " ", "1.1", "")
  }

  lemma StubRequestWellFormed(nonce: string)
    requires Hex.IsHex(nonce)
    ensures RequestLine.WellFormed(StubRequest(nonce))
  {
    Hex.HexIsPlain(nonce);
    RequestLine.VersionOf("1", "1");
    var path := "/" + nonce;
    assert '\n' !in path by {
      assert forall i :: 1 <= i < |path| ==> path[i] == nonce[i - 1];
    }
    if |nonce| > 0 {
      assert path[|path| - 1] == nonce[|nonce| - 1];
    }
  }

  /** A decoded echo holding the requested path once and the expected
      host name once passes. */
  lemma VerdictOnEcho(nonce: string, m: Headers, host: string)
    requires Shaped(m)
    requires ValuesOf(m, PathKey) == ["/" + nonce]
    requires ValuesOf(m, HostnameKey) == [host]
    ensures Verdict(nonce, m, None, Some(host)) == Pass
  {
    ShapeOfValues(m, PathKey);
    ShapeOfValues(m, HostnameKey);
    assert "" + ("/" + nonce) == "/" + nonce;
  }

  /** A stub that echoes the request for a hexadecimal nonce together with
      headers naming exactly one host passes the probe that expects that
      host. */
  lemma StubEchoPasses(nonce: string, headers: seq<(string, string)>, host: string)
    requires Hex.IsHex(nonce)
    requires Echoable(headers) && SentValues(headers, HostnameKey) == [host]
    ensures Probe(nonce, Fetched(EchoLines(StubRequest(nonce), headers)), None, Some(host)) == Pass
  {
    var request := StubRequest(nonce);
    StubRequestWellFormed(nonce);
    ParseEcho(request, headers);
    var m := Parse(EchoLines(request, headers)).value;
    assert ValuesOf(m, PathKey) == Expected(request, headers, PathKey);
    assert ValuesOf(m, HostnameKey) == Expected(request, headers, HostnameKey);
    VerdictOnEcho(nonce, m, host);
  }

  /** The same echo fails the probe of any other nonce: an echo left over
      from an earlier request, or from another server, is not accepted. */
  lemma StaleEchoFails(nonce: string, other: string, headers: seq<(string, string)>, host: string)
    requires Hex.IsHex(nonce)
    requires Echoable(headers) && SentValues(headers, HostnameKey) == [host]
    requires other != nonce
    ensures Probe(other, Fetched(EchoLines(StubRequest(nonce), headers)), None, Some(host)).Fail?
  {
    var lines := EchoLines(StubRequest(nonce), headers);
    StubEchoPasses(nonce, headers, host);
    var m := Parse(lines).value;
    if Verdict(other, m, None, Some(host)).Pass? {
      NonceDetermined(nonce, other, m, None, Some(host));
    }
  }
}
