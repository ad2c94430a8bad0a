/** The verdict of the prerequisite test as a whole, `App.main` without its
    argument parsing and its report: the stable public name must resolve
    to one address, every hub name must resolve to the gateway's public
    address alone, and the port test, aimed at the stable address, must
    pass. The checks run in that order and the first failure ends the run.
    Name resolution, the gateway's public address, the LAN address, the
    stack start and the probes are parameters. */
module Prereqs {
  import opened Outcomes
  import opened Dns
  import PortTest
  import Probe

  /** The hub's public names are these labels under the parent domain. */
  const Subdomains: seq<string> := ["ddns", "traefik", "portainer", "hub", "whoami"]

  function PublicNames(domain: string): (names: seq<string>)
    ensures |names| == |Subdomains|
    ensures forall i :: 0 <= i < |Subdomains| ==> names[i] == Subdomains[i] + "." + domain
  {
    seq(|Subdomains|, i requires 0 <= i < |Subdomains| => Subdomains[i] + "." + domain)
  }

  datatype PrereqError =
    | StableName(dns: DnsError)
    /** `os.environ["USER"]` raised `KeyError`. */
    | NoUser
    | PublicName(dns: DnsError)
    | Ports(ports: PortTest.PortTestError)

  /** The inputs the test gathers from the outside world. */
  datatype Environment = Environment(
    resolve: string -> seq<string>,
    gatewayPublicIp: string,
    lanIp: string,
    user: Option<string>,
    stackStart: Outcome<string>,
    probe: PortTest.Target -> Outcome<Probe.ProbeError>)

  function NameCheck(env: Environment): string -> Outcome<DnsError> {
    name => PublicNameVerdict(name, env.resolve(name), env.gatewayPublicIp)
  }

  /** The verdict, and whether the gateway's public address differs from
      the stable one, which is only a warning. */
  datatype Report = Report(outcome: Outcome<PrereqError>, addressWarning: bool)

  /** `how` says whether the port test reports a failed public probe as
      written or as intended. */
  function Main(how: PortTest.Reporting, stableName: string, domain: string, env: Environment): (r: Report)
    ensures r.outcome.Pass? <==>
              && |env.resolve(stableName)| == 1
              && env.user.Some?
              && (forall i :: 0 <= i < |Subdomains| ==> env.resolve(PublicNames(domain)[i]) == [env.gatewayPublicIp])
              && env.stackStart.Pass? && PortTest.AllProbesPass(env.lanIp, env.resolve(stableName)[0], env.probe)
    ensures r.addressWarning <==> |env.resolve(stableName)| == 1 && env.resolve(stableName)[0] != env.gatewayPublicIp
  {
    match StableAddress(stableName, env.resolve(stableName))
    case Err(e) => Report(Fail(StableName(e)), false)
    case Ok(a) =>
      var warning := env.gatewayPublicIp != a;
      if env.user.None? then Report(Fail(NoUser), warning)
      else
        match FirstFailure(PublicNames(domain), NameCheck(env))
        case StoppedAt(_, e) => Report(Fail(PublicName(e)), warning)
        case Completed =>
          match PortTest.RunWith(how, env.lanIp, a, env.stackStart, env.probe)
          case Pass => Report(Pass, warning)
          case Fail(e) => Report(Fail(Ports(e)), warning)
  }

  /** The stable name is checked first: when it does not resolve to exactly
      one address, nothing else is looked at. */
  lemma StableNameFirst(how: PortTest.Reporting, stableName: string, domain: string, env: Environment)
    requires |env.resolve(stableName)| != 1
    ensures Main(how, stableName, domain, env).outcome == Fail(StableName(StableAddress(stableName, env.resolve(stableName)).error))
  {
  }

  /** The `USER` variable is read after the stable name and before any hub
      name: without it the run fails whatever the names resolve to. */
  lemma UserBeforeNames(how: PortTest.Reporting, stableName: string, domain: string, env: Environment)
    requires |env.resolve(stableName)| == 1 && env.user.None?
    ensures Main(how, stableName, domain, env) == Report(Fail(NoUser), env.resolve(stableName)[0] != env.gatewayPublicIp)
  {
  }

  /** A failing public name is reported before the port test runs, and it
      is the first failing name in the order of `Subdomains`. */
  lemma PublicNameFailureIsFirst(how: PortTest.Reporting, stableName: string, domain: string, env: Environment, i: nat)
    requires |env.resolve(stableName)| == 1 && env.user.Some?
    requires i < |Subdomains|
    requires NameCheck(env)(PublicNames(domain)[i]).Fail?
    requires forall j :: 0 <= j < i ==> NameCheck(env)(PublicNames(domain)[j]).Pass?
    ensures Main(how, stableName, domain, env).outcome == Fail(PublicName(NameCheck(env)(PublicNames(domain)[i]).error))
  {
    FirstFailureAt(PublicNames(domain), NameCheck(env), i);
  }

  /** Once the stable name, `USER` and every hub name are good, the run
      reports exactly what the port test reports: its pass, or its own
      error, whichever reading of the port test is chosen. */
  lemma PortTestReported(how: PortTest.Reporting, stableName: string, domain: string, env: Environment)
    requires |env.resolve(stableName)| == 1 && env.user.Some?
    requires forall i :: 0 <= i < |Subdomains| ==> NameCheck(env)(PublicNames(domain)[i]).Pass?
    ensures var run := PortTest.RunWith(how, env.lanIp, env.resolve(stableName)[0], env.stackStart, env.probe);
            Main(how, stableName, domain, env).outcome == (if run.Pass? then Pass else Fail(Ports(run.error)))
  {
  }

  /** The two readings of the port test give the same report unless the
      intended one names a failed public port. */
  lemma ReportingAgreesOtherwise(stableName: string, domain: string, env: Environment)
    requires |env.resolve(stableName)| == 1
    requires var run := PortTest.Run(env.lanIp, env.resolve(stableName)[0], env.stackStart, env.probe);
             !(run.Fail? && run.error.PublicPortFailed?)
    ensures Main(PortTest.AsWritten, stableName, domain, env) == Main(PortTest.Intended, stableName, domain, env)
  {
    PortTest.AsWrittenAgreesOtherwise(env.lanIp, env.resolve(stableName)[0], env.stackStart, env.probe);
  }

  /** The mismatch warning never changes the verdict: when the test passes
      with the warning raised, the hub names resolve to the gateway's
      address and the stable name to a different one, and every probe
      passed at the stable one. */
  lemma WarningStillPasses(how: PortTest.Reporting, stableName: string, domain: string, env: Environment)
    requires Main(how, stableName, domain, env).outcome.Pass?
    requires Main(how, stableName, domain, env).addressWarning
    ensures forall i :: 0 <= i < |Subdomains| ==> env.resolve(PublicNames(domain)[i]) == [env.gatewayPublicIp]
    ensures exists a :: && env.resolve(stableName) == [a] && a != env.gatewayPublicIp
                        && PortTest.Run(env.lanIp, a, env.stackStart, env.probe).Pass?
  {
    assert env.resolve(stableName) == [env.resolve(stableName)[0]];
  }
}
