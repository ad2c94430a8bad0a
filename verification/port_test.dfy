/** The port test, `App.test_server_traefik_ports`: with a stack of stub
    servers listening on the hub's ports, probe every hub port at the
    machine's LAN address, then the two forwarded ports at the gateway's
    public address, and stop at the first probe that fails. Starting the
    stack and the probes themselves are parameters: the stack start either
    succeeds or fails with a reason, and each probe's outcome comes from an
    oracle indexed by the probed host and port. */
module PortTest {
  import opened Outcomes
  import Probe
  import Echo
  import Hex
  import Text

  /** The ports the hub listens on (`ports`), probed at the LAN address. */
  const LanPorts: seq<int> := [80, 443, 7080, 7443, 8080, 9000]

  /** The gateway ports probed at the public address. */
  const PublicPorts: seq<int> := [80, 443]

  /** The gateway forwards public port `p` to LAN port `p + 7000`. */
  const ForwardOffset: int := 7000

  datatype Side = Lan | Public

  /** One probe: which address it goes to, the host and the port. */
  datatype Target = Target(side: Side, host: string, port: int)

  function Targets(side: Side, host: string, ports: seq<int>): (ts: seq<Target>)
    ensures |ts| == |ports|
    ensures forall i :: 0 <= i < |ports| ==> ts[i] == Target(side, host, ports[i])
    decreases |ports|
  {
    if |ports| == 0 then []
    else [Target(side, host, ports[0])] + Targets(side, host, ports[1..])
  }

  /** The probes in the order they are made: every LAN port, then the
      public ports. */
  function Schedule(lanIp: string, publicIp: string): (s: seq<Target>)
    ensures |s| == |LanPorts| + |PublicPorts|
    ensures forall i :: 0 <= i < |LanPorts| ==> s[i] == Target(Lan, lanIp, LanPorts[i])
    ensures forall i :: 0 <= i < |PublicPorts| ==> s[|LanPorts| + i] == Target(Public, publicIp, PublicPorts[i])
  {
    Targets(Lan, lanIp, LanPorts) + Targets(Public, publicIp, PublicPorts)
  }

  /** Every scheduled probe passes. */
  predicate AllProbesPass(lanIp: string, publicIp: string, probe: Target -> Outcome<Probe.ProbeError>) {
    forall i :: 0 <= i < |Schedule(lanIp, publicIp)| ==> probe(Schedule(lanIp, publicIp)[i]).Pass?
  }

  datatype PortTestError =
    /** The stack of stub servers could not be started. */
    | StackStart(reason: string)
    /** "Unable to launch port test stack", raised from the cause. */
    | LaunchFailed(raised: PortTestError)
    /** "Test for hub LAN port <lan>:<port> failed", raised from the probe's error. */
    | LanPortFailed(lanIp: string, port: int, cause: Probe.ProbeError)
    /** "Test for Gateway public port <public>:<port> forwarding to
        <lan>:<port + 7000> failed", raised from the probe's error. */
    | PublicPortFailed(publicIp: string, port: int, lanIp: string, forwardedTo: int, cause: Probe.ProbeError)
    /** The `TypeError` Python raises when asked to raise a string. It is
        raised while the probe's error is handled, so that error stays
        attached as its context; the message naming the public port and
        its forwarding is lost. */
    | RaisedString(context: Probe.ProbeError)

  /** How a failed public probe is reported: as the script is written, by
      raising a string, or as its message evidently intends. */
  datatype Reporting = AsWritten | Intended

  /** The error a failed probe becomes. */
  function Failure(how: Reporting, lanIp: string, publicIp: string, t: Target, e: Probe.ProbeError): (r: PortTestError)
    ensures t.side == Lan ==> r == LanPortFailed(lanIp, t.port, e)
    ensures t.side == Public && how == Intended ==> r == PublicPortFailed(publicIp, t.port, lanIp, t.port + ForwardOffset, e)
    ensures t.side == Public && how == AsWritten ==> r == RaisedString(e)
  {
    match t.side
    case Lan => LanPortFailed(lanIp, t.port, e)
    case Public =>
      if how == Intended then PublicPortFailed(publicIp, t.port, lanIp, t.port + ForwardOffset, e)
      else RaisedString(e)
  }

  /** The outer handler: an error raised before the stack was entered is
      wrapped as a launch failure, any later one propagates unchanged. */
  function Handle(stackCreated: bool, raised: Outcome<PortTestError>): (r: Outcome<PortTestError>)
    ensures r.Pass? <==> raised.Pass?
    ensures raised.Fail? && !stackCreated ==> r == Fail(LaunchFailed(raised.error))
    ensures raised.Fail? && stackCreated ==> r == raised
  {
    match raised
    case Pass => Pass
    case Fail(e) => if stackCreated then Fail(e) else Fail(LaunchFailed(e))
  }

  function RunWith(how: Reporting, lanIp: string, publicIp: string, start: Outcome<string>,
                   probe: Target -> Outcome<Probe.ProbeError>): (r: Outcome<PortTestError>)
    ensures r.Pass? <==> start.Pass? && AllProbesPass(lanIp, publicIp, probe)
    ensures start.Fail? ==> r == Fail(LaunchFailed(StackStart(start.error)))
    ensures r.Fail? && r.error.LaunchFailed? ==> start.Fail?
  {
    var stackCreated := start.Pass?;
    var raised :=
      if !stackCreated then Fail(StackStart(start.error))
      else
        match FirstFailure(Schedule(lanIp, publicIp), probe)
        case Completed => Pass
        case StoppedAt(i, e) => Fail(Failure(how, lanIp, publicIp, Schedule(lanIp, publicIp)[i], e));
    Handle(stackCreated, raised)
  }

  /** The port test with failed public probes reported as intended. */
  function Run(lanIp: string, publicIp: string, start: Outcome<string>,
               probe: Target -> Outcome<Probe.ProbeError>): (r: Outcome<PortTestError>)
    ensures r.Pass? <==> start.Pass? && AllProbesPass(lanIp, publicIp, probe)
    ensures start.Fail? ==> r == Fail(LaunchFailed(StackStart(start.error)))
    ensures r.Fail? && r.error.LaunchFailed? <==> start.Fail?
  {
    RunWith(Intended, lanIp, publicIp, start, probe)
  }

  /** The port test exactly as written: a failed public probe raises a
      string. */
  function RunAsWritten(lanIp: string, publicIp: string, start: Outcome<string>,
                        probe: Target -> Outcome<Probe.ProbeError>): (r: Outcome<PortTestError>)
    ensures r.Pass? <==> start.Pass? && AllProbesPass(lanIp, publicIp, probe)
  {
    RunWith(AsWritten, lanIp, publicIp, start, probe)
  }

  /** Fail fast: once the stack is up, the error reported is the first
      failing probe's, wrapped with its address and port. */
  lemma RunStopsAtFirstFailure(lanIp: string, publicIp: string, start: Outcome<string>,
                                probe: Target -> Outcome<Probe.ProbeError>, i: nat)
    requires start.Pass?
    requires i < |Schedule(lanIp, publicIp)| && probe(Schedule(lanIp, publicIp)[i]).Fail?
    requires forall j :: 0 <= j < i ==> probe(Schedule(lanIp, publicIp)[j]).Pass?
    ensures Run(lanIp, publicIp, start, probe)
            == Fail(Failure(Intended, lanIp, publicIp, Schedule(lanIp, publicIp)[i], probe(Schedule(lanIp, publicIp)[i]).error))
  {
    FirstFailureAt(Schedule(lanIp, publicIp), probe, i);
  }

  /** A failed LAN probe names a LAN port, every LAN probe before it
      passed, and no public probe was made. */
  lemma LanFailureIsFirst(lanIp: string, publicIp: string, start: Outcome<string>,
                          probe: Target -> Outcome<Probe.ProbeError>, ip: string, port: int, e: Probe.ProbeError)
    requires Run(lanIp, publicIp, start, probe) == Fail(LanPortFailed(ip, port, e))
    ensures ip == lanIp
    ensures exists i :: 0 <= i < |LanPorts| && LanPorts[i] == port
                        && probe(Target(Lan, lanIp, port)) == Fail(e)
                        && forall j :: 0 <= j < i ==> probe(Target(Lan, lanIp, LanPorts[j])).Pass?
  {
    var s := Schedule(lanIp, publicIp);
    RunStopped(lanIp, publicIp, start, probe);
    var i := FirstFailure(s, probe).index;
    assert s[i].side == Lan;
    forall j | 0 <= j < i ensures probe(Target(Lan, lanIp, LanPorts[j])).Pass? {
      assert s[j] == Target(Lan, lanIp, LanPorts[j]);
    }
  }

  /** A run that fails other than at launch stopped at a probe. */
  lemma RunStopped(lanIp: string, publicIp: string, start: Outcome<string>, probe: Target -> Outcome<Probe.ProbeError>)
    requires Run(lanIp, publicIp, start, probe).Fail? && !Run(lanIp, publicIp, start, probe).error.LaunchFailed?
    ensures start.Pass? && FirstFailure(Schedule(lanIp, publicIp), probe).StoppedAt?
    ensures var stop := FirstFailure(Schedule(lanIp, publicIp), probe);
            Run(lanIp, publicIp, start, probe)
            == Fail(Failure(Intended, lanIp, publicIp, Schedule(lanIp, publicIp)[stop.index], stop.error))
  {
  }

  /** A public probe is reported failing only after every LAN probe
      passed, and the public ports before it passed too. */
  lemma PublicFailureFollowsLan(lanIp: string, publicIp: string, start: Outcome<string>,
                                probe: Target -> Outcome<Probe.ProbeError>,
                                ip: string, port: int, lan: string, forwarded: int, e: Probe.ProbeError)
    requires Run(lanIp, publicIp, start, probe) == Fail(PublicPortFailed(ip, port, lan, forwarded, e))
    ensures ip == publicIp && lan == lanIp && forwarded == port + ForwardOffset && forwarded in LanPorts
    ensures forall j :: 0 <= j < |LanPorts| ==> probe(Target(Lan, lanIp, LanPorts[j])).Pass?
    ensures exists i :: 0 <= i < |PublicPorts| && PublicPorts[i] == port
                        && probe(Target(Public, publicIp, port)) == Fail(e)
                        && forall j :: 0 <= j < i ==> probe(Target(Public, publicIp, PublicPorts[j])).Pass?
  {
    var s := Schedule(lanIp, publicIp);
    RunStopped(lanIp, publicIp, start, probe);
    var i := FirstFailure(s, probe).index;
    assert s[i].side == Public;
    assert i >= |LanPorts|;
    forall j | 0 <= j < |LanPorts| ensures probe(Target(Lan, lanIp, LanPorts[j])).Pass? {
      assert s[j] == Target(Lan, lanIp, LanPorts[j]);
    }
    var k := i - |LanPorts|;
    forall j | 0 <= j < k ensures probe(Target(Public, publicIp, PublicPorts[j])).Pass? {
      assert s[|LanPorts| + j] == Target(Public, publicIp, PublicPorts[j]);
    }
    ForwardedPortsAreLanPorts();
    assert PublicPorts[k] + ForwardOffset in LanPorts;
  }

  /** Every public port is forwarded to one of the hub's LAN ports. */
  lemma ForwardedPortsAreLanPorts()
    ensures forall i :: 0 <= i < |PublicPorts| ==> PublicPorts[i] + ForwardOffset in LanPorts
  {
    assert LanPorts[2] == PublicPorts[0] + ForwardOffset;
    assert LanPorts[3] == PublicPorts[1] + ForwardOffset;
  }

  /** As written, a failed public probe is lost: when the first failing
      probe is a public one, the intended run names the public port, its
      forwarding and the probe's cause, and the run as written raises the
      `TypeError` of raising a string instead. */
  lemma AsWrittenLosesPublicFailure(lanIp: string, publicIp: string, start: Outcome<string>,
                                    probe: Target -> Outcome<Probe.ProbeError>, i: nat)
    requires start.Pass?
    requires |LanPorts| <= i < |Schedule(lanIp, publicIp)| && probe(Schedule(lanIp, publicIp)[i]).Fail?
    requires forall j :: 0 <= j < i ==> probe(Schedule(lanIp, publicIp)[j]).Pass?
    ensures var port := PublicPorts[i - |LanPorts|];
            Run(lanIp, publicIp, start, probe)
            == Fail(PublicPortFailed(publicIp, port, lanIp, port + ForwardOffset, probe(Target(Public, publicIp, port)).error))
    ensures var port := PublicPorts[i - |LanPorts|];
            RunAsWritten(lanIp, publicIp, start, probe) == Fail(RaisedString(probe(Target(Public, publicIp, port)).error))
  {
    var s := Schedule(lanIp, publicIp);
    assert s[i] == Target(Public, publicIp, PublicPorts[i - |LanPorts|]);
    FirstFailureAt(s, probe, i);
  }

  /** Apart from that, the script as written and the intended reporting
      agree. */
  lemma AsWrittenAgreesOtherwise(lanIp: string, publicIp: string, start: Outcome<string>,
                                 probe: Target -> Outcome<Probe.ProbeError>)
    requires !(Run(lanIp, publicIp, start, probe).Fail? && Run(lanIp, publicIp, start, probe).error.PublicPortFailed?)
    ensures RunAsWritten(lanIp, publicIp, start, probe) == Run(lanIp, publicIp, start, probe)
  {
  }

  /** A concrete run that shows it: every LAN probe passes and the gateway
      does not forward port 80. */
  lemma PublicPort80Unforwarded(lanIp: string, publicIp: string)
    ensures var probe := (t: Target) => if t.side == Public && t.port == 80 then Fail(Probe.Unreachable("refused")) else Pass;
            && Run(lanIp, publicIp, Pass, probe) == Fail(PublicPortFailed(publicIp, 80, lanIp, 7080, Probe.Unreachable("refused")))
            && RunAsWritten(lanIp, publicIp, Pass, probe) == Fail(RaisedString(Probe.Unreachable("refused")))
  {
    var probe := (t: Target) => if t.side == Public && t.port == 80 then Fail(Probe.Unreachable("refused")) else Pass;
    var s := Schedule(lanIp, publicIp);
    assert s[|LanPorts|] == Target(Public, publicIp, 80);
    RunStopsAtFirstFailure(lanIp, publicIp, Pass, probe, |LanPorts|);
  }

  /** The host name every stub reports: `port-test-` and the hex text of a
      random token. */
  function ExpectedHostname(token: seq<Hex.byte>): (h: string)
    ensures |h| == 10 + 2 * |token| && Text.HasPrefix(h, "port-test-")
    ensures Hex.Decode(h[10..]) == Some(token)
  {
    var h := "port-test-" + Hex.Encode(token);
    assert h[..10] == "port-test-" && h[10..] == Hex.Encode(token);
    Hex.DecodeEncode(token);
    h
  }

  /** The real probe of a target, given what the exchange with it
      produced: the random nonce it requested and the reply. */
  function Probing(exchange: Target -> (string, Probe.Fetch), expectedHost: string): Target -> Outcome<Probe.ProbeError> {
    t => Probe.Probe(exchange(t).0, exchange(t).1, None, Some(expectedHost))
  }

  /** When the stack starts and every stub echoes its request with headers
      naming the expected host once, the whole port test passes. */
  lemma AllStubsAnswering(lanIp: string, publicIp: string, token: seq<Hex.byte>,
                          exchange: Target -> (string, Probe.Fetch), headers: seq<(string, string)>)
    requires Echo.Echoable(headers) && Echo.SentValues(headers, Probe.HostnameKey) == [ExpectedHostname(token)]
    requires forall t :: Hex.IsHex(exchange(t).0)
    requires forall t :: exchange(t).1 == Probe.Fetched(Echo.EchoLines(Probe.StubRequest(exchange(t).0), headers))
    ensures Run(lanIp, publicIp, Pass, Probing(exchange, ExpectedHostname(token))) == Pass
  {
    StubsPassProbes(lanIp, publicIp, exchange, headers, ExpectedHostname(token));
  }

  lemma StubsPassProbes(lanIp: string, publicIp: string, exchange: Target -> (string, Probe.Fetch),
                        headers: seq<(string, string)>, host: string)
    requires Echo.Echoable(headers) && Echo.SentValues(headers, Probe.HostnameKey) == [host]
    requires forall t :: Hex.IsHex(exchange(t).0)
    requires forall t :: exchange(t).1 == Probe.Fetched(Echo.EchoLines(Probe.StubRequest(exchange(t).0), headers))
    ensures AllProbesPass(lanIp, publicIp, Probing(exchange, host))
  {
    var probe := Probing(exchange, host);
    forall t ensures probe(t).Pass? {
      ProbingStub(exchange, headers, host, t);
    }
    PassingEverywhere(lanIp, publicIp, probe);
  }

  lemma PassingEverywhere(lanIp: string, publicIp: string, probe: Target -> Outcome<Probe.ProbeError>)
    requires forall t :: probe(t).Pass?
    ensures AllProbesPass(lanIp, publicIp, probe)
  {
  }

  lemma ProbingStub(exchange: Target -> (string, Probe.Fetch), headers: seq<(string, string)>, host: string, t: Target)
    requires Echo.Echoable(headers) && Echo.SentValues(headers, Probe.HostnameKey) == [host]
    requires Hex.IsHex(exchange(t).0)
    requires exchange(t).1 == Probe.Fetched(Echo.EchoLines(Probe.StubRequest(exchange(t).0), headers))
    ensures Probing(exchange, host)(t) == Pass
  {
    Probe.StubEchoPasses(exchange(t).0, headers, host);
  }
}
