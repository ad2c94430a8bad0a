/** The decoder of the "whoami" stub server's plain-text answer,
    `App.parse_whoami_response`. The answer is decoded line by line: a
    request line, at any position, gives the verb, path and version, and a
    `Name: value` line (a request header or one of the stub's own lines,
    such as `Hostname`) gives a value under a name. The result maps each
    name to a single value or, for a repeated name, the list of its values
    in arrival order. */
module Echo {
  import opened Text
  import opened Outcomes
  import RequestLine

  /** A header's value: the single value of a name seen once, or the values
      of a name seen repeatedly, oldest first. */
  datatype HeaderValue = Scalar(value: string) | Seq(values: seq<string>)

  /** The decoded echo. Python's dictionary also remembers the order in
      which names first appeared; nothing downstream reads that order. */
  type Headers = map<string, HeaderValue>

  datatype ParseError = NoColon(line: string)

  /** The names under which the request line's three groups are stored. */
  const VerbKey: string := "http-verb"
  const PathKey: string := "http-path"
  const VersionKey: string := "http-version"

  predicate IsReserved(k: string) {
    k == VerbKey || k == PathKey || k == VersionKey
  }

  /** `line.strip() == ""` */
  predicate IsBlank(line: string) {
    Strip(line) == []
  }

  /** A line the decoder rejects: not blank, not a request line, and with
      no colon to split a header at. */
  predicate Malformed(line: string) {
    !IsBlank(line) && RequestLine.Match(line).None? && ':' !in line
  }

  /** `line.split(":", 1)` followed by stripping both halves. */
  function HeaderFields(line: string): (string, string)
    requires ':' in line
  {
    var i := ColonIndex(line);
    (Strip(line[..i]), Strip(line[i + 1..]))
  }

  /** What one line of the echo is, in the order the decoder tests it. */
  datatype LineKind =
    | Blank
    | Request(fields: RequestLine.RequestLine)
    | Header(key: string, value: string)
    | Bad

  function Classify(line: string): (k: LineKind)
    ensures k.Bad? <==> Malformed(line)
  {
    if IsBlank(line) then Blank
    else
      match RequestLine.Match(line)
      case Some(rl) => Request(rl)
      case None =>
        if ':' in line then
          var (key, value) := HeaderFields(line);
          Header(key, value)
        else Bad
  }

  /** All values recorded under `k`, oldest first. */
  function ValuesOf(m: Headers, k: string): seq<string> {
    if k !in m then []
    else
      match m[k]
      case Scalar(v) => [v]
      case Seq(vs) => vs
  }

  /** A list is only ever made by promoting a scalar, so it holds at least
      two values. */
  predicate Shaped(m: Headers) {
    forall k :: k in m && m[k].Seq? ==> |m[k].values| >= 2
  }

  /** In a shaped map the value under a name is determined by the values
      recorded for it: absent for none, a scalar for one, a list for more. */
  lemma ShapeOfValues(m: Headers, k: string)
    requires Shaped(m)
    ensures k !in m <==> ValuesOf(m, k) == []
    ensures |ValuesOf(m, k)| == 1 ==> m[k] == Scalar(ValuesOf(m, k)[0])
    ensures |ValuesOf(m, k)| >= 2 ==> m[k] == Seq(ValuesOf(m, k))
  {
  }

  /** Records one more value under `key`: a new name gets a scalar, a
      scalar is promoted to a two-element list, a list grows at its end. */
  function Insert(m: Headers, key: string, value: string): (r: Headers)
    ensures r.Keys == m.Keys + {key}
    ensures forall k :: k in m && k != key ==> r[k] == m[k]
    ensures ValuesOf(r, key) == ValuesOf(m, key) + [value]
    ensures Shaped(m) ==> Shaped(r)
  {
    if key in m then
      match m[key]
      case Scalar(first) => m[key := Seq([first, value])]
      case Seq(vs) => m[key := Seq(vs + [value])]
    else m[key := Scalar(value)]
  }

  /** Stores the request line's groups, replacing whatever was recorded
      under their names before. */
  function SetRequestLine(m: Headers, rl: RequestLine.RequestLine): (r: Headers)
    ensures r.Keys == m.Keys + {VerbKey, PathKey, VersionKey}
    ensures forall k :: k in m && !IsReserved(k) ==> r[k] == m[k]
    ensures ValuesOf(r, VerbKey) == [rl.verb]
    ensures ValuesOf(r, PathKey) == [rl.path]
    ensures ValuesOf(r, VersionKey) == [rl.version]
    ensures Shaped(m) ==> Shaped(r)
  {
    m[VerbKey := Scalar(rl.verb)][PathKey := Scalar(rl.path)][VersionKey := Scalar(rl.version)]
  }

  /** One iteration of the decoder's loop. */
  function Step(m: Headers, line: string): (r: Result<Headers, ParseError>)
    ensures r.Err? <==> Malformed(line)
    ensures r.Err? ==> r.error == NoColon(line)
    ensures IsBlank(line) ==> r == Ok(m)
    ensures r.Ok? && Shaped(m) ==> Shaped(r.value)
  {
    match Classify(line)
    case Blank => Ok(m)
    case Request(rl) => Ok(SetRequestLine(m, rl))
    case Header(key, value) => Ok(Insert(m, key, value))
    case Bad => Err(NoColon(line))
  }

  function Continue(r: Result<Headers, ParseError>, line: string): Result<Headers, ParseError> {
    match r
    case Err(e) => Err(e)
    case Ok(m) => Step(m, line)
  }

  /** `parse_whoami_response` over the lines of the echo. */
  function Parse(lines: seq<string>): (r: Result<Headers, ParseError>)
    ensures r.Ok? ==> Shaped(r.value)
    decreases |lines|
  {
    if |lines| == 0 then Ok(map[])
    else Continue(Parse(lines[..|lines| - 1]), lines[|lines| - 1])
  }

  lemma ParseSnoc(lines: seq<string>, line: string)
    ensures Parse(lines + [line]) == Continue(Parse(lines), line)
  {
    assert (lines + [line])[..|lines|] == lines;
  }

  predicate NoneMalformed(lines: seq<string>) {
    NoneOf(lines, Malformed)
  }

  /** The decoder succeeds exactly when no line is malformed. */
  lemma {:induction false} ParseOkIff(lines: seq<string>)
    ensures Parse(lines).Ok? <==> NoneMalformed(lines)
    decreases |lines|
  {
    if |lines| > 0 {
      var init := lines[..|lines| - 1];
      ParseLast(lines);
      ParseOkIff(init);
      NoneOfSnoc(lines, Malformed);
    }
  }

  /** `lines[i]` is the first malformed line. */
  predicate FirstMalformedAt(lines: seq<string>, i: int) {
    0 <= i < |lines| && Malformed(lines[i]) && NoneMalformed(lines[..i])
  }

  /** When the decoder fails it reports the first malformed line; there is
      no partial result. */
  lemma {:induction false} ParseFailsOnFirstMalformed(lines: seq<string>)
    requires Parse(lines).Err?
    ensures exists i :: FirstMalformedAt(lines, i) && Parse(lines).error == NoColon(lines[i])
    decreases |lines|
  {
    var init := lines[..|lines| - 1];
    ParseLast(lines);
    if Parse(init).Err? {
      ParseFailsOnFirstMalformed(init);
      var i :| FirstMalformedAt(init, i) && Parse(init).error == NoColon(init[i]);
      FirstMalformedInPrefix(lines, i);
    } else {
      ParseOkIff(init);
      FirstMalformedLast(lines);
    }
  }

  lemma FirstMalformedInPrefix(lines: seq<string>, i: int)
    requires |lines| > 0 && FirstMalformedAt(lines[..|lines| - 1], i)
    ensures FirstMalformedAt(lines, i) && lines[i] == lines[..|lines| - 1][i]
  {
    assert lines[..i] == lines[..|lines| - 1][..i];
  }

  lemma FirstMalformedLast(lines: seq<string>)
    requires |lines| > 0 && NoneMalformed(lines[..|lines| - 1]) && Malformed(lines[|lines| - 1])
    ensures FirstMalformedAt(lines, |lines| - 1)
  {
  }

  lemma ParseLast(lines: seq<string>)
    requires |lines| > 0
    ensures Parse(lines) == Continue(Parse(lines[..|lines| - 1]), lines[|lines| - 1])
  {
  }

  /** Whitespace-only lines never change the outcome, wherever they
      stand. */
  lemma {:induction false} BlankLineIgnored(before: seq<string>, blank: string, after: seq<string>)
    requires AllSpace(blank)
    ensures Parse(before + [blank] + after) == Parse(before + after)
    decreases |after|
  {
    BlankIffAllSpace(blank);
    if |after| == 0 {
      assert before + [blank] + after == before + [blank];
      assert before + after == before;
      ParseSnoc(before, blank);
    } else {
      var init := after[..|after| - 1];
      var last := after[|after| - 1];
      assert before + [blank] + after == (before + [blank] + init) + [last];
      assert before + after == (before + init) + [last];
      BlankLineIgnored(before, blank, init);
      ParseSnoc(before + [blank] + init, last);
      ParseSnoc(before + init, last);
    }
  }

  /** How one line changes the values recorded under `k`: a header line
      with that name adds its value; a request line replaces the values of
      the three request-line names with its own group. */
  function Contribute(prev: seq<string>, kind: LineKind, k: string): seq<string> {
    match kind
    case Request(rl) =>
      if k == VerbKey then [rl.verb]
      else if k == PathKey then [rl.path]
      else if k == VersionKey then [rl.version]
      else prev
    case Header(key, value) => if key == k then prev + [value] else prev
    case _ => prev
  }

  /** The values each name collects from the lines, oldest first. */
  function Contribution(lines: seq<string>, k: string): seq<string>
    decreases |lines|
  {
    if |lines| == 0 then []
    else Contribute(Contribution(lines[..|lines| - 1], k), Classify(lines[|lines| - 1]), k)
  }

  /** One decoding step changes the values of each name as the line
      contributes to it. */
  lemma StepContributes(m: Headers, line: string, k: string)
    requires Step(m, line).Ok?
    ensures ValuesOf(Step(m, line).value, k) == Contribute(ValuesOf(m, k), Classify(line), k)
  {
    match Classify(line)
    case Request(rl) =>
      StepOnRequest(m, line);
      SetRequestLineContributes(m, rl, k);
    case Header(key, value) =>
      StepOnHeader(m, line);
      InsertValues(m, key, value, k);
    case Blank =>
    case Bad =>
  }

  lemma StepOnRequest(m: Headers, line: string)
    requires Classify(line).Request?
    ensures Step(m, line) == Ok(SetRequestLine(m, Classify(line).fields))
  {
  }

  lemma SetRequestLineContributes(m: Headers, rl: RequestLine.RequestLine, k: string)
    ensures ValuesOf(SetRequestLine(m, rl), k) == Contribute(ValuesOf(m, k), Request(rl), k)
  {
  }

  /** A successful decode records under every name exactly the values the
      lines contribute to it, in arrival order. */
  lemma {:induction false} ParseRecordsContribution(lines: seq<string>, k: string)
    requires Parse(lines).Ok?
    ensures ValuesOf(Parse(lines).value, k) == Contribution(lines, k)
    decreases |lines|
  {
    if |lines| > 0 {
      var init := lines[..|lines| - 1];
      var last := lines[|lines| - 1];
      assert lines == init + [last];
      ParseSnoc(init, last);
      assert Parse(init).Ok?;
      ParseRecordsContribution(init, k);
      StepContributes(Parse(init).value, last, k);
    }
  }

  /** A name seen once maps to a scalar, a name seen n >= 2 times to a list
      of those n values in arrival order, and a name never seen is absent. */
  lemma ParseShape(lines: seq<string>, k: string)
    requires Parse(lines).Ok?
    ensures var m := Parse(lines).value; var c := Contribution(lines, k);
            && (k !in m <==> c == [])
            && (|c| == 1 ==> m[k] == Scalar(c[0]))
            && (|c| >= 2 ==> m[k] == Seq(c))
  {
    ParseRecordsContribution(lines, k);
    ShapeOfValues(Parse(lines).value, k);
  }

  /** A header line is split at its first colon only, so the value may
      itself contain colons; both halves are stripped. */
  lemma HeaderSplitsAtFirstColon(key: string, value: string)
    requires ':' !in key
    ensures HeaderFields(key + ":" + value) == (Strip(key), Strip(value))
  {
    var line := key + ":" + value;
    assert line[..|key|] == key;
    ColonIndexOf(line, |key|);
    assert line[|key| + 1..] == value;
  }

  /** A header line as the stub server writes it. */
  function HeaderLine(key: string, value: string): string {
    key + ":" + (" " + value)
  }

  /** A header name the stub can echo without ambiguity: no colon, no
      surrounding whitespace, and not starting like a request line. */
  predicate PlainKey(key: string) {
    ':' !in key && Strip(key) == key && !HasPrefix(key, "GET") && !HasPrefix(key, "POST")
  }

  /** A header line written from a plain name and a stripped value decodes
      to that very name and value. */
  lemma HeaderLineClassified(key: string, value: string)
    requires PlainKey(key) && Strip(value) == value
    ensures Classify(HeaderLine(key, value)) == Header(key, value)
  {
    var line := HeaderLine(key, value);
    HeaderLineNotBlank(key, value);
    HeaderLineHasNoVerb(key, value);
    RequestLine.NoVerbNoMatch(line);
    HeaderSplitsAtFirstColon(key, " " + value);
    StripPadded(value);
    ClassifyHeader(line);
  }

  lemma StripPadded(value: string)
    requires Strip(value) == value
    ensures Strip(" " + value) == value
  {
    assert " " + value == " " + value + "";
    StripSurrounded(" ", value, "");
  }

  lemma HeaderLineNotBlank(key: string, value: string)
    ensures !IsBlank(HeaderLine(key, value)) && ':' in HeaderLine(key, value)
  {
    var line := HeaderLine(key, value);
    assert line[|key|] == ':';
    BlankIffAllSpace(line);
  }

  lemma HeaderLineHasNoVerb(key: string, value: string)
    requires ':' !in key && !HasPrefix(key, "GET") && !HasPrefix(key, "POST")
    ensures !HasPrefix(HeaderLine(key, value), "GET") && !HasPrefix(HeaderLine(key, value), "POST")
  {
    var line := HeaderLine(key, value);
    assert line[|key|] == ':';
    assert !HasPrefix(line, "GET") by {
      if |key| >= 3 {
        assert line[..3] == key[..3];
      } else if |line| >= 3 {
        assert line[..3][|key|] == ':';
      }
    }
    assert !HasPrefix(line, "POST") by {
      if |key| >= 4 {
        assert line[..4] == key[..4];
      } else if |line| >= 4 {
        assert line[..4][|key|] == ':';
      }
    }
  }

  lemma ClassifyHeader(line: string)
    requires !IsBlank(line) && RequestLine.Match(line).None? && ':' in line
    ensures Classify(line) == Header(HeaderFields(line).0, HeaderFields(line).1)
  {
  }

  lemma ClassifyRequest(line: string)
    requires !IsBlank(line) && RequestLine.Match(line).Some?
    ensures Classify(line) == Request(RequestLine.Match(line).value)
  {
  }

  /** The header lines of an echo, in order. */
  function HeaderLines(headers: seq<(string, string)>): (lines: seq<string>)
    ensures |lines| == |headers|
    decreases |headers|
  {
    if |headers| == 0 then []
    else HeaderLines(headers[..|headers| - 1]) + [HeaderLine(headers[|headers| - 1].0, headers[|headers| - 1].1)]
  }

  /** The echo of a request: its request line, then its header lines. */
  function EchoLines(request: RequestLine.Pieces, headers: seq<(string, string)>): seq<string> {
    [RequestLine.Render(request)] + HeaderLines(headers)
  }

  /** The values sent under `key`, in order. */
  function SentValues(headers: seq<(string, string)>, key: string): seq<string>
    decreases |headers|
  {
    if |headers| == 0 then []
    else
      var prev := SentValues(headers[..|headers| - 1], key);
      if headers[|headers| - 1].0 == key then prev + [headers[|headers| - 1].1] else prev
  }

  predicate Echoable(headers: seq<(string, string)>) {
    forall i :: 0 <= i < |headers| ==>
      PlainKey(headers[i].0) && !IsReserved(headers[i].0) && Strip(headers[i].1) == headers[i].1
  }

  /** The values a decoded echo should hold under `k`. */
  function Expected(request: RequestLine.Pieces, headers: seq<(string, string)>, k: string): seq<string> {
    if k == VerbKey then [request.verb]
    else if k == PathKey then [request.path]
    else if k == VersionKey then [request.version]
    else SentValues(headers, k)
  }

  /** Decoding an echo the stub wrote gives back what was sent: the three
      request-line groups under their names, and under every other name
      the values sent with it, in the order they were sent. */
  lemma {:induction false} ParseEcho(request: RequestLine.Pieces, headers: seq<(string, string)>)
    requires RequestLine.WellFormed(request)
    requires Echoable(headers)
    ensures Parse(EchoLines(request, headers)).Ok?
    ensures forall k :: ValuesOf(Parse(EchoLines(request, headers)).value, k) == Expected(request, headers, k)
    decreases |headers|
  {
    if |headers| == 0 {
      ParseEchoEmpty(request);
    } else {
      var init := headers[..|headers| - 1];
      assert Echoable(init) by {
        assert forall i :: 0 <= i < |init| ==> init[i] == headers[i];
      }
      ParseEcho(request, init);
      var m := Parse(EchoLines(request, init)).value;
      ParseEchoSnoc(request, headers);
      ExpectedSnoc(request, headers, m);
    }
  }

  /** Adding one more sent header to the expectation is inserting it. */
  lemma ExpectedSnoc(request: RequestLine.Pieces, headers: seq<(string, string)>, m: Headers)
    requires |headers| > 0 && !IsReserved(headers[|headers| - 1].0)
    requires forall k :: ValuesOf(m, k) == Expected(request, headers[..|headers| - 1], k)
    ensures forall k :: ValuesOf(Insert(m, headers[|headers| - 1].0, headers[|headers| - 1].1), k) == Expected(request, headers, k)
  {
    var last := headers[|headers| - 1];
    forall k ensures ValuesOf(Insert(m, last.0, last.1), k) == Expected(request, headers, k) {
      InsertValues(m, last.0, last.1, k);
      SentValuesSnoc(headers, k);
    }
  }

  lemma ParseEchoEmpty(request: RequestLine.Pieces)
    requires RequestLine.WellFormed(request)
    ensures Parse(EchoLines(request, [])).Ok?
    ensures forall k :: ValuesOf(Parse(EchoLines(request, [])).value, k) == Expected(request, [], k)
  {
    ParseRequestOnly(request);
    RequestOnlyValues(request, SetRequestLine(map[], RequestLine.Captured(request)));
  }

  lemma RequestOnlyValues(request: RequestLine.Pieces, m: Headers)
    requires m == SetRequestLine(map[], RequestLine.Captured(request))
    ensures forall k :: ValuesOf(m, k) == Expected(request, [], k)
  {
    forall k ensures ValuesOf(m, k) == Expected(request, [], k) {
      if !IsReserved(k) {
        assert k !in m;
      }
    }
  }

  lemma SentValuesSnoc(headers: seq<(string, string)>, k: string)
    requires |headers| > 0
    ensures SentValues(headers, k)
            == if headers[|headers| - 1].0 == k then SentValues(headers[..|headers| - 1], k) + [headers[|headers| - 1].1]
               else SentValues(headers[..|headers| - 1], k)
  {
  }

  lemma ParseRequestOnly(request: RequestLine.Pieces)
    requires RequestLine.WellFormed(request)
    ensures Parse(EchoLines(request, [])) == Ok(SetRequestLine(map[], RequestLine.Captured(request)))
  {
    var line := RequestLine.Render(request);
    assert EchoLines(request, []) == [] + [line];
    ParseSnoc([], line);
    RequestClassified(request);
    StepOnRequest(map[], line);
  }

  /** A well-formed request line is classified as one, with its groups. */
  lemma RequestClassified(request: RequestLine.Pieces)
    requires RequestLine.WellFormed(request)
    ensures Classify(RequestLine.Render(request)) == Request(RequestLine.Captured(request))
  {
    var line := RequestLine.Render(request);
    RequestLine.SplitRender(request);
    assert !IsBlank(line) by {
      BlankIffAllSpace(line);
      assert line[0] == request.verb[0];
    }
    ClassifyRequest(line);
  }

  lemma ParseEchoSnoc(request: RequestLine.Pieces, headers: seq<(string, string)>)
    requires |headers| > 0
    requires PlainKey(headers[|headers| - 1].0) && Strip(headers[|headers| - 1].1) == headers[|headers| - 1].1
    requires Parse(EchoLines(request, headers[..|headers| - 1])).Ok?
    ensures Parse(EchoLines(request, headers))
            == Ok(Insert(Parse(EchoLines(request, headers[..|headers| - 1])).value,
                         headers[|headers| - 1].0, headers[|headers| - 1].1))
  {
    var last := headers[|headers| - 1];
    EchoLinesSnoc(request, headers);
    HeaderLineClassified(last.0, last.1);
    ParseHeaderSnoc(EchoLines(request, headers[..|headers| - 1]), HeaderLine(last.0, last.1));
  }

  lemma EchoLinesSnoc(request: RequestLine.Pieces, headers: seq<(string, string)>)
    requires |headers| > 0
    ensures EchoLines(request, headers)
            == EchoLines(request, headers[..|headers| - 1]) + [HeaderLine(headers[|headers| - 1].0, headers[|headers| - 1].1)]
  {
  }

  lemma ParseHeaderSnoc(lines: seq<string>, line: string)
    requires Parse(lines).Ok?
    requires Classify(line).Header?
    ensures Parse(lines + [line]) == Ok(Insert(Parse(lines).value, Classify(line).key, Classify(line).value))
  {
    ParseSnoc(lines, line);
    StepOnHeader(Parse(lines).value, line);
  }

  lemma StepOnHeader(m: Headers, line: string)
    requires Classify(line).Header?
    ensures Step(m, line) == Ok(Insert(m, Classify(line).key, Classify(line).value))
  {
  }

  lemma InsertValues(m: Headers, key: string, value: string, k: string)
    ensures ValuesOf(Insert(m, key, value), k) == if k == key then ValuesOf(m, k) + [value] else ValuesOf(m, k)
  {
  }
}
