/** The request-line pattern of the echo format,
    `^(GET|POST)\s+(.*[^\s])\s+HTTP/(\d+\.\d+)\s*$`, over ASCII text.

    The pattern's greedy quantifiers leave no choice in how a matching line
    is cut up: the first `\s+` takes the whole whitespace run after the verb,
    so the path begins with a non-space character; the text after `HTTP/`
    contains no whitespace except at its end, so `HTTP/<version>` is the last
    whitespace-separated token of the line; and the path is everything
    between the two, less the whitespace before that token. The `.` of the
    path group does not match a line feed, so a path never contains one. */
module RequestLine {
  import opened Text
  import opened Outcomes

  /** The three captured groups. */
  datatype RequestLine = RequestLine(verb: string, path: string, version: string)

  /** A request line cut into the pieces the pattern matches, whitespace
      included, so that the line can be put back together. */
  datatype Pieces = Pieces(verb: string, gap: string, path: string, sep: string, version: string, trail: string)

  predicate IsVerb(v: string) {
    v == "GET" || v == "POST"
  }

  /** `\d+\.\d+` */
  predicate IsVersion(v: string) {
    var n := DigitPrefixLen(v);
    0 < n && n + 1 < |v| && v[n] == '.' && AllDigits(v[n + 1..])
  }

  /** The pieces fit the pattern's groups: `Render(p)` is a line the
      pattern matches, with the path group spanning `p.path`. */
  predicate Fits(p: Pieces) {
    && IsVerb(p.verb)
    && |p.gap| > 0 && AllSpace(p.gap)
    && |p.path| > 0 && !IsSpace(p.path[|p.path| - 1])
    && '\n' !in p.path
    && |p.sep| > 0 && AllSpace(p.sep)
    && IsVersion(p.version)
    && AllSpace(p.trail)
  }

  /** The fit the matcher reports: its greedy first `\s+` leaves the path
      starting with a non-space character. */
  predicate WellFormed(p: Pieces) {
    Fits(p) && !IsSpace(p.path[0])
  }

  /** The line the pieces spell, grouped the way the pattern cuts it. */
  function Render(p: Pieces): string {
    p.verb + (p.gap + (((p.path + p.sep) + ("HTTP/" + p.version)) + p.trail))
  }

  function Captured(p: Pieces): RequestLine {
    RequestLine(p.verb, p.path, p.version)
  }

  /** The verb the line starts with, if it is one of the two allowed. */
  function LeadingVerb(line: string): (v: string)
    ensures v == "" || (IsVerb(v) && HasPrefix(line, v))
  {
    if HasPrefix(line, "GET") then "GET"
    else if HasPrefix(line, "POST") then "POST"
    else ""
  }

  /** The text after the verb, cut at the places the pattern's whitespace
      runs fall: leading gap, path, separator, last token, trailing space. */
  datatype Cuts = Cuts(gap: string, path: string, sep: string, token: string, trail: string)

  function Cut(rest: string): (c: Cuts)
    ensures rest == c.gap + (((c.path + c.sep) + c.token) + c.trail)
    ensures AllSpace(c.gap) && AllSpace(c.sep) && AllSpace(c.trail) && NoSpace(c.token)
    ensures |c.path| > 0 ==> !IsSpace(c.path[0]) && !IsSpace(c.path[|c.path| - 1])
  {
    var lead := SplitLeadingSpace(rest);
    var tail := SplitTrailingSpace(lead.1);
    var last := SplitLastWord(tail.0);
    var front := SplitTrailingSpace(last.0);
    PathStartsPlain(lead.1, tail, last, front);
    Cuts(lead.0, front.0, front.1, last.1, tail.1)
  }

  /** The path cut out of the text after the gap starts where that text
      does, so with a non-whitespace start it starts with non-whitespace. */
  lemma PathStartsPlain(body: string, tail: (string, string), last: (string, string), front: (string, string))
    requires body == tail.0 + tail.1 && tail.0 == last.0 + last.1 && last.0 == front.0 + front.1
    requires |body| > 0 ==> !IsSpace(body[0])
    ensures |front.0| > 0 ==> !IsSpace(front.0[0])
  {
    if |front.0| > 0 {
      FirstOfPrefix(front.0, front.1);
      FirstOfPrefix(last.0, last.1);
      FirstOfPrefix(tail.0, tail.1);
    }
  }

  lemma FirstOfPrefix(a: string, b: string)
    ensures |a| > 0 ==> (a + b)[0] == a[0]
  {
  }

  /** Cutting text laid out as gap, path, separator, token and trailing
      space gives those pieces back. */
  lemma CutOf(c: Cuts)
    requires AllSpace(c.gap) && AllSpace(c.sep) && AllSpace(c.trail) && NoSpace(c.token)
    requires |c.path| > 0 && !IsSpace(c.path[0]) && !IsSpace(c.path[|c.path| - 1])
    requires |c.sep| > 0 && |c.token| > 0
    ensures Cut(c.gap + (((c.path + c.sep) + c.token) + c.trail)) == c
  {
    var front := c.path + c.sep;
    var core := front + c.token;
    var body := core + c.trail;
    assert body[0] == c.path[0];
    SplitLeadingSpaceOf(c.gap, body);
    assert core[|core| - 1] == c.token[|c.token| - 1];
    SplitTrailingSpaceOf(core, c.trail);
    assert front[|front| - 1] == c.sep[|c.sep| - 1];
    SplitLastWordOf(front, c.token);
    SplitTrailingSpaceOf(c.path, c.sep);
  }

  lemma RenderOfCut(line: string, verb: string, c: Cuts, version: string)
    requires line == verb + (c.gap + (((c.path + c.sep) + c.token) + c.trail))
    requires c.token == "HTTP/" + version
    ensures line == Render(Pieces(verb, c.gap, c.path, c.sep, version, c.trail))
  {
  }

  /** A cut whose pieces meet the pattern's conditions spells a
      well-formed request line. */
  lemma PiecesOfCut(line: string, verb: string, c: Cuts)
    requires IsVerb(verb) && HasPrefix(line, verb) && c == Cut(line[|verb|..])
    requires |c.gap| > 0 && |c.sep| > 0 && |c.path| > 0 && '\n' !in c.path
    requires HasPrefix(c.token, "HTTP/") && IsVersion(c.token[5..])
    ensures WellFormed(Pieces(verb, c.gap, c.path, c.sep, c.token[5..], c.trail))
    ensures Render(Pieces(verb, c.gap, c.path, c.sep, c.token[5..], c.trail)) == line
  {
    PrefixThenRest(line, verb);
    PrefixThenRest(c.token, "HTTP/");
    RenderOfCut(line, verb, c, c.token[5..]);
  }

  /** Cuts `line` the way the pattern does, or reports that it does not
      match. */
  function Split(line: string): (r: Option<Pieces>)
    ensures r.Some? ==> WellFormed(r.value) && Render(r.value) == line
  {
    var verb := LeadingVerb(line);
    if verb == "" then None
    else
      var c := Cut(line[|verb|..]);
      if |c.gap| > 0 && |c.sep| > 0 && |c.path| > 0 && '\n' !in c.path
         && HasPrefix(c.token, "HTTP/") && IsVersion(c.token[5..])
      then
        PiecesOfCut(line, verb, c);
        Some(Pieces(verb, c.gap, c.path, c.sep, c.token[5..], c.trail))
      else None
  }

  /** `re.match` of the request-line pattern: the captured groups. */
  function Match(line: string): (r: Option<RequestLine>)
    ensures r.Some? ==> exists p :: WellFormed(p) && Render(p) == line && Captured(p) == r.value
  {
    match Split(line)
    case None => None
    case Some(p) => Some(Captured(p))
  }

  /** A line that does not start with `GET` or `POST` is never a request
      line. */
  lemma NoVerbNoMatch(line: string)
    requires !HasPrefix(line, "GET") && !HasPrefix(line, "POST")
    ensures Match(line) == None
  {
  }

  /** Every well-formed request line is recognised, with exactly the verb,
      path and version it was built from: rendering and then matching is the
      identity on the captured groups. */
  lemma {:induction false} SplitRender(p: Pieces)
    requires WellFormed(p)
    ensures Split(Render(p)) == Some(p)
  {
    var line := Render(p);
    var tok := "HTTP/" + p.version;
    VersionHasNoSpace(p.version);
    var c := Cuts(p.gap, p.path, p.sep, tok, p.trail);
    var rest := c.gap + (((c.path + c.sep) + c.token) + c.trail);
    assert line == p.verb + rest;
    assert LeadingVerb(line) == p.verb by {
      if p.verb == "POST" {
        assert line[0] == 'P';
      }
    }
    assert line[|p.verb|..] == rest;
    CutOf(c);
    assert tok[5..] == p.version;
  }

  lemma VersionHasNoSpace(v: string)
    requires IsVersion(v)
    ensures NoSpace("HTTP/" + v)
  {
    var tok := "HTTP/" + v;
    var n := DigitPrefixLen(v);
    forall i | 0 <= i < |tok| ensures !IsSpace(tok[i]) {
      if i >= 5 {
        var j := i - 5;
        assert tok[i] == v[j];
        if j < n {
          assert v[..n][j] == v[j];
        } else if j > n {
          assert v[n + 1..][j - n - 1] == v[j];
        }
      }
    }
  }

  /** Matching is exact: a line is recognised as a request line precisely
      when it is the rendering of well-formed pieces, and then the captured
      groups are those pieces' verb, path and version. */
  lemma MatchIff(line: string, rl: RequestLine)
    ensures Match(line) == Some(rl) <==> exists p :: WellFormed(p) && Render(p) == line && Captured(p) == rl
  {
    if p :| WellFormed(p) && Render(p) == line && Captured(p) == rl {
      SplitRender(p);
    }
  }

  /** Any way of fitting the pattern to a line is recognised, and the path
      reported is the fitted path without its leading whitespace: the
      pattern matches a line exactly when some fit exists. */
  lemma {:induction false} MatchFits(p: Pieces)
    requires Fits(p)
    ensures Match(Render(p)) == Some(RequestLine(p.verb, SplitLeadingSpace(p.path).1, p.version))
  {
    RefitWellFormed(p);
    SplitRender(Refit(p));
  }

  /** A fit with the path's leading whitespace moved into the gap, where
      the greedy `\s+` puts it. */
  function Refit(p: Pieces): Pieces {
    var (lead, path) := SplitLeadingSpace(p.path);
    Pieces(p.verb, p.gap + lead, path, p.sep, p.version, p.trail)
  }

  /** The refitted pieces are well-formed and write out the same line. */
  lemma RefitWellFormed(p: Pieces)
    requires Fits(p)
    ensures WellFormed(Refit(p)) && Render(Refit(p)) == Render(p)
  {
    var (lead, path) := SplitLeadingSpace(p.path);
    assert path[|path| - 1] == p.path[|p.path| - 1];
    assert '\n' !in path by {
      assert forall i :: 0 <= i < |path| ==> path[i] == p.path[|lead| + i];
    }
    assert AllSpace(p.gap + lead);
    var tail := ((path + p.sep) + ("HTTP/" + p.version)) + p.trail;
    assert ((p.path + p.sep) + ("HTTP/" + p.version)) + p.trail == lead + tail;
    assert p.gap + (lead + tail) == (p.gap + lead) + tail;
  }

  /** A version string `<major>.<minor>` of decimal digits is accepted. */
  lemma VersionOf(major: string, minor: string)
    requires |major| > 0 && AllDigits(major)
    requires |minor| > 0 && AllDigits(minor)
    ensures IsVersion(major + "." + minor)
  {
    var v := major + "." + minor;
    assert v == major + ("." + minor);
    DigitPrefixLenOf(major, "." + minor);
    assert v[|major| + 1..] == minor;
  }
}
