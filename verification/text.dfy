/** Character classes and trimming over ASCII text, as Python's `str.strip`,
    `str.isspace` and the `\s`/`\d` classes of `re` behave on ASCII input. */
module Text {

  /** Python's whitespace on ASCII: tab, line feed, vertical tab, form feed,
      carriage return, the four separators 0x1C..0x1F, and space. Both
      `str.strip()` and the regular-expression class `\s` use this set. */
  predicate IsSpace(c: char) {
    var n := c as int;
    (9 <= n <= 13) || (28 <= n <= 32)
  }

  predicate IsDigit(c: char) {
    '0' <= c <= '9'
  }

  predicate AllSpace(s: string) {
    forall i :: 0 <= i < |s| ==> IsSpace(s[i])
  }

  predicate NoSpace(s: string) {
    forall i :: 0 <= i < |s| ==> !IsSpace(s[i])
  }

  predicate AllDigits(s: string) {
    forall i :: 0 <= i < |s| ==> IsDigit(s[i])
  }

  predicate HasPrefix(s: string, p: string) {
    |p| <= |s| && s[..|p|] == p
  }

  lemma PrefixThenRest(s: string, p: string)
    requires HasPrefix(s, p)
    ensures s == p + s[|p|..]
  {
  }

  /** Length of the leading whitespace run of `s`. */
  function SpacePrefixLen(s: string): (n: nat)
    ensures n <= |s|
    ensures AllSpace(s[..n])
    ensures n < |s| ==> !IsSpace(s[n])
    decreases |s|
  {
    if |s| > 0 && IsSpace(s[0]) then
      var k := SpacePrefixLen(s[1..]);
      assert s[..k + 1] == [s[0]] + s[1..][..k];
      1 + k
    else 0
  }

  /** Length of the trailing whitespace run of `s`. */
  function SpaceSuffixLen(s: string): (n: nat)
    ensures n <= |s|
    ensures AllSpace(s[|s| - n..])
    ensures n < |s| ==> !IsSpace(s[|s| - n - 1])
    decreases |s|
  {
    if |s| > 0 && IsSpace(s[|s| - 1]) then
      var t := s[..|s| - 1];
      var k := SpaceSuffixLen(t);
      assert s[|s| - (k + 1)..] == t[|t| - k..] + [s[|s| - 1]];
      1 + k
    else 0
  }

  /** Length of the trailing run of non-whitespace characters of `s`. */
  function WordSuffixLen(s: string): (n: nat)
    ensures n <= |s|
    ensures NoSpace(s[|s| - n..])
    ensures n < |s| ==> IsSpace(s[|s| - n - 1])
    decreases |s|
  {
    if |s| > 0 && !IsSpace(s[|s| - 1]) then
      var t := s[..|s| - 1];
      var k := WordSuffixLen(t);
      assert s[|s| - (k + 1)..] == t[|t| - k..] + [s[|s| - 1]];
      1 + k
    else 0
  }

  /** Length of the leading run of decimal digits of `s`. */
  function DigitPrefixLen(s: string): (n: nat)
    ensures n <= |s|
    ensures AllDigits(s[..n])
    ensures n < |s| ==> !IsDigit(s[n])
    decreases |s|
  {
    if |s| > 0 && IsDigit(s[0]) then
      var k := DigitPrefixLen(s[1..]);
      assert s[..k + 1] == [s[0]] + s[1..][..k];
      1 + k
    else 0
  }

  /** The run lengths are determined by where the run ends. */
  lemma {:induction false} SpacePrefixLenOf(ws: string, rest: string)
    requires AllSpace(ws)
    requires |rest| > 0 ==> !IsSpace(rest[0])
    ensures SpacePrefixLen(ws + rest) == |ws|
    decreases |ws|
  {
    if |ws| == 0 {
      assert ws + rest == rest;
    } else {
      assert (ws + rest)[0] == ws[0];
      assert (ws + rest)[1..] == ws[1..] + rest;
      SpacePrefixLenOf(ws[1..], rest);
    }
  }

  lemma {:induction false} SpaceSuffixLenOf(rest: string, ws: string)
    requires AllSpace(ws)
    requires |rest| > 0 ==> !IsSpace(rest[|rest| - 1])
    ensures SpaceSuffixLen(rest + ws) == |ws|
    decreases |ws|
  {
    if |ws| == 0 {
      assert rest + ws == rest;
    } else {
      var s := rest + ws;
      assert s[|s| - 1] == ws[|ws| - 1];
      assert s[..|s| - 1] == rest + ws[..|ws| - 1];
      SpaceSuffixLenOf(rest, ws[..|ws| - 1]);
    }
  }

  lemma {:induction false} WordSuffixLenOf(rest: string, w: string)
    requires NoSpace(w)
    requires |rest| > 0 ==> IsSpace(rest[|rest| - 1])
    ensures WordSuffixLen(rest + w) == |w|
    decreases |w|
  {
    if |w| == 0 {
      assert rest + w == rest;
    } else {
      var s := rest + w;
      assert s[|s| - 1] == w[|w| - 1];
      assert s[..|s| - 1] == rest + w[..|w| - 1];
      WordSuffixLenOf(rest, w[..|w| - 1]);
    }
  }

  lemma {:induction false} DigitPrefixLenOf(ds: string, rest: string)
    requires AllDigits(ds)
    requires |rest| > 0 ==> !IsDigit(rest[0])
    ensures DigitPrefixLen(ds + rest) == |ds|
    decreases |ds|
  {
    if |ds| == 0 {
      assert ds + rest == rest;
    } else {
      assert (ds + rest)[0] == ds[0];
      assert (ds + rest)[1..] == ds[1..] + rest;
      DigitPrefixLenOf(ds[1..], rest);
    }
  }

  /** `s` cut after its leading whitespace run. */
  function SplitLeadingSpace(s: string): (r: (string, string))
    ensures s == r.0 + r.1
    ensures AllSpace(r.0)
    ensures |r.1| > 0 ==> !IsSpace(r.1[0])
  {
    var n := SpacePrefixLen(s);
    assert s == s[..n] + s[n..];
    (s[..n], s[n..])
  }

  /** `s` cut before its trailing whitespace run. */
  function SplitTrailingSpace(s: string): (r: (string, string))
    ensures s == r.0 + r.1
    ensures AllSpace(r.1)
    ensures |r.0| > 0 ==> !IsSpace(r.0[|r.0| - 1])
  {
    var k := |s| - SpaceSuffixLen(s);
    assert s == s[..k] + s[k..];
    (s[..k], s[k..])
  }

  /** `s` cut before its trailing run of non-whitespace characters. */
  function SplitLastWord(s: string): (r: (string, string))
    ensures s == r.0 + r.1
    ensures NoSpace(r.1)
    ensures |r.0| > 0 ==> IsSpace(r.0[|r.0| - 1])
  {
    var k := |s| - WordSuffixLen(s);
    assert s == s[..k] + s[k..];
    (s[..k], s[k..])
  }

  lemma SplitLeadingSpaceOf(ws: string, rest: string)
    requires AllSpace(ws)
    requires |rest| > 0 ==> !IsSpace(rest[0])
    ensures SplitLeadingSpace(ws + rest) == (ws, rest)
  {
    SpacePrefixLenOf(ws, rest);
    assert (ws + rest)[..|ws|] == ws;
    assert (ws + rest)[|ws|..] == rest;
  }

  lemma SplitTrailingSpaceOf(rest: string, ws: string)
    requires AllSpace(ws)
    requires |rest| > 0 ==> !IsSpace(rest[|rest| - 1])
    ensures SplitTrailingSpace(rest + ws) == (rest, ws)
  {
    SpaceSuffixLenOf(rest, ws);
    assert (rest + ws)[..|rest|] == rest;
    assert (rest + ws)[|rest|..] == ws;
  }

  lemma SplitLastWordOf(rest: string, w: string)
    requires NoSpace(w)
    requires |rest| > 0 ==> IsSpace(rest[|rest| - 1])
    ensures SplitLastWord(rest + w) == (rest, w)
  {
    WordSuffixLenOf(rest, w);
    assert (rest + w)[..|rest|] == rest;
    assert (rest + w)[|rest|..] == w;
  }

  /** Python's `str.strip()`: the text without its leading and trailing
      whitespace. */
  function Strip(s: string): (r: string)
    ensures |r| > 0 ==> !IsSpace(r[0]) && !IsSpace(r[|r| - 1])
    ensures exists i, j :: 0 <= i <= j <= |s| && r == s[i..j] && AllSpace(s[..i]) && AllSpace(s[j..])
  {
    var t := s[..|s| - SpaceSuffixLen(s)];
    var n := SpacePrefixLen(t);
    var r := t[n..];
    assert r == s[n..|t|];
    assert s[..n] == t[..n];
    assert s[|t|..] == s[|s| - SpaceSuffixLen(s)..];
    assert |r| > 0 ==> r[|r| - 1] == s[|s| - SpaceSuffixLen(s) - 1];
    r
  }

  /** Stripping removes exactly the surrounding whitespace of a text that
      begins and ends with non-whitespace. */
  lemma {:induction false} StripSurrounded(lead: string, x: string, trail: string)
    requires AllSpace(lead) && AllSpace(trail)
    requires |x| > 0 ==> !IsSpace(x[0]) && !IsSpace(x[|x| - 1])
    ensures Strip(lead + x + trail) == x
  {
    var s := lead + x + trail;
    if |x| > 0 {
      assert s == (lead + x) + trail;
      SpaceSuffixLenOf(lead + x, trail);
      assert s[..|s| - |trail|] == lead + x;
      SpacePrefixLenOf(lead, x);
      assert (lead + x)[|lead|..] == x;
    } else {
      assert s == [] + (lead + trail);
      assert AllSpace(lead + trail);
      SpaceSuffixLenOf([], lead + trail);
      assert s[..|s| - |lead + trail|] == [];
    }
  }

  /** A text is blank, in Python's `line.strip() == ""` sense, exactly when
      every character of it is whitespace. */
  lemma BlankIffAllSpace(s: string)
    ensures Strip(s) == [] <==> AllSpace(s)
  {
    if AllSpace(s) {
      assert s == [] + [] + s;
      StripSurrounded([], [], s);
    }
    if Strip(s) == [] {
      var i, j :| 0 <= i <= j <= |s| && Strip(s) == s[i..j] && AllSpace(s[..i]) && AllSpace(s[j..]);
      forall k | 0 <= k < |s| ensures IsSpace(s[k]) {
        if k < i {
          assert s[..i][k] == s[k];
        } else {
          assert s[j..][k - j] == s[k];
        }
      }
    }
  }

  /** Index of the first colon, as `str.split(":", 1)` finds it. */
  function ColonIndex(s: string): (i: nat)
    requires ':' in s
    ensures i < |s| && s[i] == ':'
    ensures ':' !in s[..i]
    decreases |s|
  {
    if s[0] == ':' then 0
    else
      assert ':' in s[1..] by {
        var k :| 0 <= k < |s| && s[k] == ':';
        assert s[1..][k - 1] == ':';
      }
      var j := ColonIndex(s[1..]);
      assert s[..j + 1] == [s[0]] + s[1..][..j];
      1 + j
  }

  /** The first colon is the one with no colon before it. */
  lemma {:induction false} ColonIndexOf(s: string, j: nat)
    requires j < |s| && s[j] == ':' && ':' !in s[..j]
    ensures ColonIndex(s) == j
    decreases j
  {
    if j > 0 {
      assert s[0] == s[..j][0];
      assert s[1..][..j - 1] == s[1..j];
      assert s[1..j] <= s[..j][1..];
      ColonIndexOf(s[1..], j - 1);
    }
  }
}
