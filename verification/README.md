# Network prerequisite test: a Dafny model

This project models the decision logic of `bin/env-bin/test-network-prereqs.py`.
That script checks a home server's network before the hub is installed. It checks:

- that the hub's public DNS names resolve to the gateway's public address;
- that every hub port can be listened on and reached from the LAN;
- that the gateway forwards public ports 80 and 443 to the hub.

Reachability is tested with "whoami" stub servers. Each probe requests a random path from a stub. The stub answers with plain text that the probe decodes line by line. A request line gives the verb, path and version; it may stand at any position. A `Name: value` line gives a value under a name; these include the request's headers and the stub's own `Hostname` line. The probe accepts the answer only if it names the requested path and the expected host. The probe fails if it does not get that echo.

Modules, in dependency order:

- `Outcomes`: `Option`, `Result`, `Outcome` (pass, or fail with an error), and the fail-fast fold `FirstFailure`. The fold models the loop over the hub names (lines 215-216) and the two port loops (lines 152-163). The echo decoder's loop is its own fold over `Result`, in `Echo`. The probe's verdict checks and the stable-name checks are chains of `if`s.
- `Text`: ASCII whitespace and digits, `str.strip()`, and the first colon of a line.
- `RequestLine`: the request-line pattern `^(GET|POST)\s+(.*[^\s])\s+HTTP/(\d+\.\d+)\s*$`, as an explicit ASCII matcher.
  - The greedy quantifiers leave exactly one way to cut a matching line.
  - The model computes that cut and proves it is the only one.
- `Echo`: the echo decoder `parse_whoami_response`.
  - It is a fold over the lines: blank lines are skipped, request lines set `http-verb`/`http-path`/`http-version`, and header lines are split at the first colon.
  - A repeated name turns a single value into a list, in arrival order.
- `Hex`: `bytes.hex()`, the form of the random path and of the random host-name suffix.
- `Probe`: the verdict of `test_whoami_port_connection`. It covers prefix normalisation and the path and host checks in source order. The HTTP exchange is a parameter.
- `Dns`: the public-name check of `test_public_dns_name` and the stable-name check of `main`.
- `PortTest`: the probe schedule of `test_server_traefik_ports`.
  - The six LAN ports run first, then public ports 80 and 443. The run stops at the first failure.
  - The `stack_created` flag decides how an error is wrapped.
  - The stack start and each probe's outcome are parameters.
- `Prereqs`: the order of `main`'s checks. The stable name comes first, then the `USER` variable, then the five hub names, then the port test aimed at the stable address.

All text is treated as ASCII. Python's Unicode `\s`, `\d` and `str.isspace` agree with `Text.IsSpace` and `Text.IsDigit` on ASCII input.

## Model

| member | source | states |
|---|---|---|
| `Outcomes.FirstFailure` | bin/env-bin/test-network-prereqs.py:152-163 | A loop that stops at the first raising check completes exactly when every check passes. When it stops, it stops at a failing element, and every earlier element passed. |
| `Outcomes.FirstFailureAt` | bin/env-bin/test-network-prereqs.py:152-163 | If element i fails and all earlier ones pass, the loop stops at i with i's error. |
| `Text.Strip` | bin/env-bin/test-network-prereqs.py:57 | `str.strip()` returns a slice of the input with only whitespace cut off both ends, and the result has no whitespace at either end. |
| `Text.StripSurrounded` | bin/env-bin/test-network-prereqs.py:68-69 | Stripping text that starts and ends with non-whitespace, after whitespace was added around it, gives back exactly that text. |
| `Text.BlankIffAllSpace` | bin/env-bin/test-network-prereqs.py:57 | `line.strip() == ""` holds exactly when every character of the line is whitespace. |
| `Text.ColonIndex` | bin/env-bin/test-network-prereqs.py:67 | `split(":", 1)` splits at a colon that has no colon before it. |
| `Text.ColonIndexOf` | bin/env-bin/test-network-prereqs.py:67 | That split point is unique: any colon with no colon before it is the one used. |
| `RequestLine.Split` | bin/env-bin/test-network-prereqs.py:50 | A line the matcher accepts is well-formed pieces written out. The verb is GET or POST, and the path is non-empty, starts and ends with non-whitespace, and has no line feed. The version is digits, a dot, digits. |
| `RequestLine.Match` | bin/env-bin/test-network-prereqs.py:50 | The groups reported come from a well-formed cut of the very line that was matched. |
| `RequestLine.SplitRender` | bin/env-bin/test-network-prereqs.py:50 | Every well-formed request line is recognised, and cut back into exactly the pieces it was written from. |
| `RequestLine.MatchIff` | bin/env-bin/test-network-prereqs.py:50 | A line matches with groups (verb, path, version) if and only if it is the rendering of well-formed pieces with those groups. |
| `RequestLine.MatchFits` | bin/env-bin/test-network-prereqs.py:50 | Any way of fitting the pattern to a line is recognised. The reported path is the fitted path without its leading whitespace, because the first `\s+` is greedy. |
| `RequestLine.NoVerbNoMatch` | bin/env-bin/test-network-prereqs.py:50 | A line that does not start with GET or POST never matches. |
| `RequestLine.VersionOf` | bin/env-bin/test-network-prereqs.py:50 | Any non-empty digits, a dot, and non-empty digits form an accepted version. |
| `Echo.Classify` | bin/env-bin/test-network-prereqs.py:57-69 | A line is rejected exactly when it is not blank, not a request line, and has no colon. |
| `Echo.Insert` | bin/env-bin/test-network-prereqs.py:70-76 | Recording a value appends it to the values of its name and leaves every other name unchanged. A list only ever arises from promoting a scalar, so it always holds at least two values. |
| `Echo.SetRequestLine` | bin/env-bin/test-network-prereqs.py:60-63 | A request line sets exactly `http-verb`, `http-path` and `http-version` to its groups, replacing earlier values. Every other name is unchanged. |
| `Echo.Step` | bin/env-bin/test-network-prereqs.py:56-76 | One line fails the decode exactly when it is malformed, and the error names that line. A blank line changes nothing. |
| `Echo.ShapeOfValues` | bin/env-bin/test-network-prereqs.py:70-76 | In a decoded map, a name's entry is determined by its values: absent for none, a scalar for one, a list for two or more. |
| `Echo.Parse` | bin/env-bin/test-network-prereqs.py:52-77 | A successful decode is shaped: a name maps to a single value or, once repeated, to a list that holds at least two values. |
| `Echo.ParseOkIff` | bin/env-bin/test-network-prereqs.py:56-66 | The decode succeeds if and only if no line is malformed. |
| `Echo.ParseFailsOnFirstMalformed` | bin/env-bin/test-network-prereqs.py:65-66 | A failed decode returns no map and reports the first malformed line. |
| `Echo.BlankLineIgnored` | bin/env-bin/test-network-prereqs.py:57-58 | Inserting a whitespace-only line anywhere leaves the result unchanged, whether success or error. |
| `Echo.StepContributes` | bin/env-bin/test-network-prereqs.py:59-76 | One successful step changes each name's values exactly as that line contributes to the name. |
| `Echo.ParseRecordsContribution` | bin/env-bin/test-network-prereqs.py:52-77 | After a successful decode, every name holds exactly the values its lines contributed, oldest first. A later request line overwrites the request-line names. |
| `Echo.ParseShape` | bin/env-bin/test-network-prereqs.py:70-76 | A name seen once maps to a scalar. A name seen n >= 2 times maps to the list of its n values in arrival order. A name never seen is absent. |
| `Echo.HeaderSplitsAtFirstColon` | bin/env-bin/test-network-prereqs.py:67-69 | A header splits at its first colon only, so colons in the value survive. Both halves are stripped. |
| `Echo.HeaderLineClassified` | bin/env-bin/test-network-prereqs.py:64-69 | `Name: value`, written from a plain name and a stripped value, decodes to that name and value. |
| `Echo.ParseEcho` | bin/env-bin/test-network-prereqs.py:52-77 | Decoding an echo gives back what was sent: the request line's three groups, and under every other name its values in sending order. |
| `Hex.Encode` | bin/env-bin/test-network-prereqs.py:102 | `bytes.hex()` writes two lower-case hex digits per byte. |
| `Hex.DecodeEncode` | bin/env-bin/test-network-prereqs.py:102 | Hex text reads back to the bytes it was written from. |
| `Hex.EncodeInjective` | bin/env-bin/test-network-prereqs.py:134 | Distinct random tokens give distinct texts. |
| `Hex.HexIsPlain` | bin/env-bin/test-network-prereqs.py:102-104 | A hex nonce has no whitespace, line feed or colon, so it is safe in a request path. |
| `Probe.NormalisePrefix` | bin/env-bin/test-network-prereqs.py:92-96 | An absent or empty prefix means none. Any other prefix starts with `/`, and is the given text or that text with `/` in front. |
| `Probe.NormalisePrefixIdempotent` | bin/env-bin/test-network-prereqs.py:92-96 | Normalising twice is normalising once, and a prefix that already starts with `/` is kept unchanged. |
| `Probe.PrefixExample` | bin/env-bin/test-network-prereqs.py:92-112 | `api` becomes `/api`, `""` means no prefix, and the observed `/abc` is compared as `/api/abc`. |
| `Probe.RestorePath` | bin/env-bin/test-network-prereqs.py:111-112 | Putting the prefix back fails exactly for a repeated path header, because Python cannot add a string and a list. Without a prefix the observed path is kept. With one, the result is the prefix followed by the observed path. |
| `Probe.RestorePathUndone` | bin/env-bin/test-network-prereqs.py:111-112 | A restored path starts with the prefix, and cutting the prefix off again gives back the observed path. |
| `Probe.Verdict` | bin/env-bin/test-network-prereqs.py:108-120 | The verdict passes if and only if the path part and the host part both hold. Each error is reported exactly when its check is the first to fail: missing path, prefix on a repeated path, path mismatch, missing host name, host-name mismatch. A path mismatch carries the expected `/<nonce>` and the observed path with the prefix put back. A host-name mismatch carries the expected name and the echoed `Hostname` value. |
| `Probe.NonceDetermined` | bin/env-bin/test-network-prereqs.py:113-115 | An echo passes for at most one nonce. |
| `Probe.HostDetermined` | bin/env-bin/test-network-prereqs.py:119-120 | An echo passes for at most one expected host name. |
| `Probe.RepeatedHostname` | bin/env-bin/test-network-prereqs.py:116-120 | A repeated `Hostname` fails whenever a host name is expected. With no expected host name it passes. |
| `Probe.RepeatedPath` | bin/env-bin/test-network-prereqs.py:108-115 | A repeated `http-path` always fails: as a mismatch without a prefix, and on adding the prefix with one. |
| `Probe.PrefixLeadsNonce` | bin/env-bin/test-network-prereqs.py:104-115 | With a prefix, a probe passes only if `/` + nonce starts with the prefix. The request URL never carries the prefix. |
| `Probe.HexNonceRejectsApiPrefix` | bin/env-bin/test-network-prereqs.py:102-115 | With a hex nonce, the prefix `/api` can never pass. |
| `Probe.Probe` | bin/env-bin/test-network-prereqs.py:101-120 | A failed exchange and an undecodable echo each fail the probe before any check. Otherwise the probe is the verdict on the decoded echo. |
| `Probe.ProbePassIff` | bin/env-bin/test-network-prereqs.py:101-120 | A probe passes if and only if the exchange succeeded, the echo decoded, and both parts of the verdict hold. |
| `Probe.ProbeReportsFirstBadLine` | bin/env-bin/test-network-prereqs.py:101-110 | An echo with a rejected line fails the probe, and the error names the first rejected line. |
| `Probe.StubRequestWellFormed` | bin/env-bin/test-network-prereqs.py:102-104 | `GET /<hex nonce> HTTP/1.1` is a well-formed request line. |
| `Probe.VerdictOnEcho` | bin/env-bin/test-network-prereqs.py:108-120 | A decoded echo holding the requested path once and the expected host once passes. |
| `Probe.StubEchoPasses` | bin/env-bin/test-network-prereqs.py:101-120 | A stub echo of the request for a hex nonce passes the probe that expects the echoed host. The echo's headers must name that host exactly once. |
| `Probe.StaleEchoFails` | bin/env-bin/test-network-prereqs.py:101-115 | The same echo fails the probe of any other nonce. |
| `Dns.PublicNameVerdict` | bin/env-bin/test-network-prereqs.py:175-178 | Passes if and only if the name resolves to the public address alone. "Not the address" is reported exactly when the address is missing from the list; "multiple" only when it is present among others. |
| `Dns.StableAddress` | bin/env-bin/test-network-prereqs.py:194-198 | Yields an address if and only if the list has exactly one element, and that element is the address. Empty and multiple lists give their own errors. |
| `Dns.StableAddressIff` | bin/env-bin/test-network-prereqs.py:194-198 | The stable address is `a` if and only if the name resolves to `[a]`. |
| `Dns.PublicNameAgreesWithStable` | bin/env-bin/test-network-prereqs.py:175-178 | The public-name check passes for an address if and only if that address is the name's single address. |
| `Dns.MembershipBeforeCount` | bin/env-bin/test-network-prereqs.py:175-178 | Membership is tested before the count. `[]`, and two addresses that are both wrong, both fail as "not" the address. The address together with another one fails as "multiple". |
| `PortTest.Targets` | bin/env-bin/test-network-prereqs.py:152-158 | One probe per port, in the order of the port list. |
| `PortTest.Schedule` | bin/env-bin/test-network-prereqs.py:152-160 | The probe order is LAN ports 80, 443, 7080, 7443, 8080, 9000 at the LAN address, then 80 and 443 at the public address. |
| `PortTest.Failure` | bin/env-bin/test-network-prereqs.py:156-163 | A failed LAN probe is reported with the LAN address and port. A failed public probe is reported as intended, with the public port and its forwarding to port + 7000. As written, it is the `TypeError` of raising a string, with the probe's error attached as its context. |
| `PortTest.Handle` | bin/env-bin/test-network-prereqs.py:164-167 | An error raised before the stack is created becomes "Unable to launch port test stack". A later error propagates unchanged. |
| `PortTest.RunWith` | bin/env-bin/test-network-prereqs.py:139-167 | The test passes if and only if the stack starts and every scheduled probe passes. A failed start is the launch failure, and only a failed start is. |
| `PortTest.Run` | bin/env-bin/test-network-prereqs.py:139-167 | As `RunWith`, with public failures reported as intended. |
| `PortTest.RunAsWritten` | bin/env-bin/test-network-prereqs.py:139-167 | The same pass condition as the intended run. |
| `PortTest.RunStopsAtFirstFailure` | bin/env-bin/test-network-prereqs.py:152-163 | Once the stack is up, the error reported is the first failing probe's, wrapped with its address and port. |
| `PortTest.LanFailureIsFirst` | bin/env-bin/test-network-prereqs.py:152-157 | A LAN failure names the LAN address and one of the hub's ports whose probe failed with that cause. Every earlier LAN probe passed. |
| `PortTest.PublicFailureFollowsLan` | bin/env-bin/test-network-prereqs.py:158-163 | A public failure comes only after every LAN probe passed and the earlier public ports passed. It names the forwarded port `port + 7000`, which is one of the hub's LAN ports. |
| `PortTest.ForwardedPortsAreLanPorts` | bin/env-bin/test-network-prereqs.py:161 | Every public port forwards to a port the stubs listen on. |
| `PortTest.AsWrittenLosesPublicFailure` | bin/env-bin/test-network-prereqs.py:158-163 | When the stack is up, every LAN probe passed and the first failing probe is a public one, the intended run reports that public port, its forwarding to port + 7000 on the LAN address and the probe's cause. The run as written raises the `TypeError` instead, which keeps the probe's error as its context but loses the port and its forwarding. |
| `PortTest.AsWrittenAgreesOtherwise` | bin/env-bin/test-network-prereqs.py:139-167 | In every other case, the run as written and the intended run agree. |
| `PortTest.PublicPort80Unforwarded` | bin/env-bin/test-network-prereqs.py:158-167 | A concrete run where every LAN probe passes and public port 80 is refused. As intended it reports 80 forwarding to 7080; as written it raises the `TypeError`, whose context is the refusal. |
| `PortTest.AllStubsAnswering` | bin/env-bin/test-network-prereqs.py:134-167 | If the stack starts and every stub echoes its hex-nonce request with the expected `port-test-<hex>` host, the whole port test passes. |
| `PortTest.ExpectedHostname` | bin/env-bin/test-network-prereqs.py:134-135 | The expected host name is `port-test-` followed by the token's hex text, two digits per byte, and that text decodes back to the token. |
| `Prereqs.PublicNames` | bin/env-bin/test-network-prereqs.py:215-216 | The checked names are `ddns`, `traefik`, `portainer`, `hub` and `whoami` under the parent domain, in that order. |
| `Prereqs.Main` | bin/env-bin/test-network-prereqs.py:191-218 | The run passes if and only if four things hold: the stable name resolves to one address, `USER` is set, every hub name resolves to the gateway's address alone, and at the stable address the stack starts and every port probe passes. The warning is raised exactly when the stable address differs from the gateway's. |
| `Prereqs.StableNameFirst` | bin/env-bin/test-network-prereqs.py:193-198 | A stable name that does not resolve to one address fails the run before anything else. |
| `Prereqs.UserBeforeNames` | bin/env-bin/test-network-prereqs.py:193-209 | With a usable stable name and no `USER` variable, the run fails on the `KeyError` before any hub name is checked. The address warning has already been decided. |
| `Prereqs.PublicNameFailureIsFirst` | bin/env-bin/test-network-prereqs.py:215-216 | A failing hub name fails the run before the port test, and the first failing name is the one reported. |
| `Prereqs.PortTestReported` | bin/env-bin/test-network-prereqs.py:215-218 | Once the stable name, `USER` and every hub name are good, the run reports exactly what the port test reports: a pass, or the port test's own error (launch failure, LAN failure, or the public failure as written or as intended). |
| `Prereqs.ReportingAgreesOtherwise` | bin/env-bin/test-network-prereqs.py:158-167 | `main` as written and as intended give the same report, unless the intended port test names a failed public port. |
| `Prereqs.WarningStillPasses` | bin/env-bin/test-network-prereqs.py:202-205 | The address warning does not change the verdict. A passing run with the warning has the hub names on the gateway's address, the stable name on a different one, and the port test passed at the stable one. |

## Left out

- The HTTP exchange is not modelled: `download_url_text`, the urllib3 pool, and connect/read timeouts. Each probe instead receives the echoed lines or the reason the exchange failed.
- `splitlines` is not modelled: the echo is taken as a list of lines. Python also splits at some characters that are not line feeds; that detail is not covered.
- Unicode is not modelled. `\s`, `\d` and `str.isspace` are modelled on ASCII only.
- Randomness is not modelled. `token_bytes(16)` is a parameter; only the hex text made from it is modelled.
- `DockerComposeStack` is not modelled: starting and stopping the stubs, `time.sleep(4.0)`, and teardown.
  - Starting the stack is an `Outcome` parameter.
  - An error raised by the stack's own exit is not modelled, because the context manager's code is not part of this model.
- Address discovery and name resolution are parameters: `get_lan_ip_address`, `get_public_ip_address`, `get_gateway_lan_ip_address`, `get_default_interface`, `resolve_public_dns`.
  - `test_public_dns_name` asks for the public address anew for each name. The model takes one address for the whole run.
- Python's dictionary order is not modelled. The decoded map is a Dafny `map`; nothing in the script reads the order.
- These parts of `main` are not modelled: argument parsing, logging setup, loading the configuration, and the summary and warning prints. That includes the stray brace in `{ports}}` at line 229 and the `docker` group advice. The mismatch warning is kept as a flag.
- Exception chaining (`from e`) is not modelled. Each wrapped error keeps the cause's value instead.
- `bin/env-bin/install-prereqs.py` and `bin/python/tp_hub` are not part of this model. They install packages, create Docker resources and write files.
- `Prereqs.Main`: the failures of the other calls `main` makes are not modelled, and its pass condition assumes they return. These calls are `get_project_bin_data_dir()` (line 200), the address and interface lookups (lines 202-208) and `should_run_with_group("docker")` (line 220). Their code is not part of this model. The `USER` lookup at line 209 is modelled.
- The model keeps these facts about the code:
  - An empty DNS answer fails the public-name check as "resolves to [], not <address>", because membership is tested before the count.
  - Every failure the script raises on purpose is a `HubError` with its own message. The model keeps those messages apart as constructors.
  - Line 163 raises a `TypeError`; see Findings.

- `Probe.StubEchoPasses`, `Probe.StaleEchoFails` and `PortTest.AllStubsAnswering` cover only answers laid out as the request line followed by `Name: value` lines. The decoder itself accepts the request line anywhere, and `Echo.ParseRecordsContribution` covers any order. The stub's exact output format is not part of this model.

## Findings

| source | as written | input that shows it | evidently intended | confidence | as-written member | corrected member |
|---|---|---|---|---|---|---|
| bin/env-bin/test-network-prereqs.py:163 | `raise(f"...") from e` raises a string. Python 3 rejects that with `TypeError: exceptions must derive from BaseException`, and the outer handler re-raises that `TypeError`. The probe's error survives only as the `TypeError`'s context, because the `TypeError` is raised while that error is handled. The message naming the public port and its forwarding is lost. | All six LAN probes pass and the public probe of port 80 is refused. | `raise HubError(f"Test for Gateway public port ... failed") from e`, as on line 157. | high; not executed | `PortTest.AsWrittenLosesPublicFailure` | `PortTest.Run` |
