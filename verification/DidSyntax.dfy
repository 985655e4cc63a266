/** The checks on a method-specific identifier. */
module DidSyntax {
  import opened Options
  import opened Strings
  import opened DidSegments

  predicate IsLower(c: char) { 'a' <= c <= 'z' }

  predicate IsAlphanumeric(c: char) {
    IsLower(c) || 'A' <= c <= 'Z' || '0' <= c <= '9'
  }

  predicate IsHex(c: char) {
    '0' <= c <= '9' || 'A' <= c <= 'F' || 'a' <= c <= 'f'
  }

  function HexValue(c: char): (v: nat)
    requires IsHex(c)
    ensures v < 16
  {
    if c <= '9' then c as int - '0' as int else if c <= 'F' then c as int - 'A' as int + 10 else c as int - 'a' as int + 10
  }

  predicate IsPlain(c: char) {
    IsAlphanumeric(c) || c == '.' || c == '_' || c == ':' || c == '-'
  }

  predicate AllPlain(s: string) {
    forall i :: 0 <= i < |s| ==> IsPlain(s[i])
  }

  predicate StartsEscape(s: string) {
    |s| >= 3 && s[0] == '%' && IsHex(s[1]) && IsHex(s[2])
  }

  predicate AllEscapes(s: string) {
    s == "" || (StartsEscape(s) && AllEscapes(s[3..]))
  }

  /** methodSpecificIDRegex: plain characters, one run of percent-encodings, plain characters. */
  predicate MatchesRegex(s: string) {
    exists i, j :: 0 <= i <= j <= |s| && Parts(s, i, j)
  }

  predicate Parts(s: string, i: nat, j: nat)
    requires i <= j <= |s|
  {
    AllPlain(s[..i]) && AllEscapes(s[i..j]) && AllPlain(s[j..])
  }

  /** Every percent sign starts a complete percent-encoding. */
  predicate WellEscaped(s: string) {
    if s == "" then true
    else if s[0] == '%' then StartsEscape(s) && WellEscaped(s[3..])
    else WellEscaped(s[1..])
  }

  /** url.QueryUnescape; None is its error. */
  function Unescape(s: string): Option<string> {
    if s == "" then Some("")
    else if s[0] == '%' then
      if !StartsEscape(s) then None
      else
        var rest := Unescape(s[3..]);
        if rest.None? then None else Some([(16 * HexValue(s[1]) + HexValue(s[2])) as char] + rest.value)
    else
      var rest := Unescape(s[1..]);
      if rest.None? then None else Some([if s[0] == '+' then ' ' else s[0]] + rest.value)
  }

  /** NUL, line breaks, and characters that mean something to a shell. */
  function Banned(): string {
    "\0\r\n`$|;&<>"
  }

  /** What checkDangerousPatterns looks for in the decoded identifier. */
  predicate Dangerous(decoded: string) {
    Contains(decoded, "..") || exists i :: 0 <= i < |decoded| && decoded[i] in Banned()
  }

  predicate MiddlesFilled(segments: seq<string>) {
    forall i :: 0 < i < |segments| - 1 ==> segments[i] != ""
  }

  predicate AllWellEscaped(segments: seq<string>) {
    forall i :: 0 <= i < |segments| ==> WellEscaped(segments[i])
  }

  // ---------------------------------------------------------------- the code

  method ValidatePercentEncoding(s: string) returns (ok: bool)
    ensures ok == WellEscaped(s)
  {
    var i := 0;
    while i < |s|
      invariant i <= |s| && WellEscaped(s) == WellEscaped(s[i..])
    {
      if s[i] == '%' {
        if i + 2 >= |s| { return false; }
        if !IsHex(s[i + 1]) || !IsHex(s[i + 2]) { return false; }
        assert s[i..][3..] == s[i + 3..];
        i := i + 2;
      } else {
        assert s[i..][1..] == s[i + 1..];
      }
      i := i + 1;
    }
    ok := true;
  }

  predicate CheckDangerousPatterns(msid: string) {
    var decoded := Unescape(msid);
    decoded.Some? && !Dangerous(decoded.value)
  }

  /** Everything validateMethodSpecificID asks for. */
  predicate PassesChecks(msid: string) {
    && msid != ""
    && CheckDangerousPatterns(msid)
    && MatchesRegex(msid)
    && MiddlesFilled(Split(msid, ':'))
    && AllWellEscaped(Split(msid, ':'))
  }

  method ValidateMethodSpecificId(msid: string) returns (ok: bool)
    ensures ok == PassesChecks(msid)
  {
    hide CheckDangerousPatterns, MatchesRegex, Split, WellEscaped;
    if msid == "" { return false; }
    if !CheckDangerousPatterns(msid) { return false; }
    if !MatchesRegex(msid) { return false; }
    var segments := Split(msid, ':');
    for i := 0 to |segments|
      invariant forall k :: 0 <= k < i ==> (0 < k < |segments| - 1 ==> segments[k] != "") && WellEscaped(segments[k])
    {
      if segments[i] == "" && i > 0 && i < |segments| - 1 { return false; }
      var escaped := ValidatePercentEncoding(segments[i]);
      if !escaped { return false; }
    }
    ok := true;
  }

  // ---------------------------------------------------------------- what the checks come to

  lemma {:induction false} UnescapeSucceeds(s: string)
    ensures Unescape(s).Some? <==> WellEscaped(s)
  {
    if s != "" {
      if StartsEscape(s) { UnescapeSucceeds(s[3..]); } else if s[0] != '%' { UnescapeSucceeds(s[1..]); }
    }
  }

  lemma {:induction false} PlainIsWellEscaped(s: string)
    requires AllPlain(s)
    ensures WellEscaped(s)
  {
    if s != "" { PlainIsWellEscaped(s[1..]); }
  }

  lemma {:induction false} EscapesThenRest(e: string, t: string)
    requires AllEscapes(e) && WellEscaped(t)
    ensures WellEscaped(e + t)
  {
    if e == "" {
      assert e + t == t;
    } else {
      EscapesThenRest(e[3..], t);
      assert (e + t)[3..] == e[3..] + t;
    }
  }

  lemma {:induction false} PlainThenRest(p: string, t: string)
    requires AllPlain(p) && WellEscaped(t)
    ensures WellEscaped(p + t)
  {
    if p == "" {
      assert p + t == t;
    } else {
      PlainThenRest(p[1..], t);
      assert (p + t)[1..] == p[1..] + t;
    }
  }

  lemma PartsAreWellEscaped(s: string, i: nat, j: nat)
    requires i <= j <= |s| && Parts(s, i, j)
    ensures WellEscaped(s)
  {
    hide AllPlain, AllEscapes, WellEscaped;
    var p, e, q := s[..i], s[i..j], s[j..];
    assert s == p + (e + q);
    PlainIsWellEscaped(q);
    EscapesThenRest(e, q);
    PlainThenRest(p, e + q);
  }

  lemma RegexIsWellEscaped(s: string)
    requires MatchesRegex(s)
    ensures WellEscaped(s)
  {
    var i, j :| 0 <= i <= j <= |s| && Parts(s, i, j);
    PartsAreWellEscaped(s, i, j);
  }

  /** A colon is no part of a percent-encoding, so cutting there leaves both sides well escaped. */
  lemma {:induction false} CutIsWellEscaped(s: string, i: nat)
    requires i < |s| && s[i] == ':' && Without(s[..i], ':') && WellEscaped(s)
    ensures WellEscaped(s[..i]) && WellEscaped(s[i + 1..])
  {
    if i > 0 {
      assert forall j :: 0 <= j < i ==> s[j] == s[..i][j];
      var n := if s[0] == '%' then 3 else 1;
      assert s[n..][..i - n] == s[..i][n..] && s[n..][i - n + 1..] == s[i + 1..];
      CutIsWellEscaped(s[n..], i - n);
    }
  }

  lemma {:induction false} SegmentsAreWellEscaped(s: string)
    requires WellEscaped(s)
    ensures AllWellEscaped(Split(s, ':'))
  {
    hide WellEscaped;
    var i := Index(s, ':');
    SplitSteps(s);
    if i < |s| {
      CutIsWellEscaped(s, i);
      SegmentsAreWellEscaped(s[i + 1..]);
    } else {
      SplitWhole(s);
    }
  }

  /** Neither decoding nor the check of each segment's percent-encoding ever refuses what the regular expression matches: it
      is accepted unless it is empty, a middle segment is empty, or the decoded identifier is dangerous. */
  lemma ChecksComeTo(msid: string)
    requires MatchesRegex(msid)
    ensures Unescape(msid).Some? && AllWellEscaped(Split(msid, ':'))
    ensures PassesChecks(msid)
       <==> msid != "" && MiddlesFilled(Split(msid, ':')) && !Dangerous(Unescape(msid).value)
  {
    hide Split, MatchesRegex, Unescape, WellEscaped, AllWellEscaped, Dangerous, MiddlesFilled;
    RegexIsWellEscaped(msid);
    UnescapeSucceeds(msid);
    SegmentsAreWellEscaped(msid);
  }

  lemma {:induction false} EscapePositions(e: string, k: nat)
    requires AllEscapes(e) && k < |e|
    ensures |e| % 3 == 0 && (e[k] == '%' <==> k % 3 == 0) && (e[k] == '%' || IsHex(e[k]))
  {
    if k >= 3 {
      EscapePositions(e[3..], k - 3);
    } else if |e| > 3 {
      EscapePositions(e[3..], 0);
    }
  }

  /** Where a percent sign stands, and what else there is. */
  lemma PartsCharacters(s: string, i: nat, j: nat, k: nat)
    requires i <= j <= |s| && Parts(s, i, j) && k < |s|
    ensures IsPlain(s[k]) || s[k] == '%'
    ensures s[k] == '%' <==> i <= k < j && (k - i) % 3 == 0
  {
    hide AllEscapes;
    if k < i {
      assert s[..i][k] == s[k];
    } else if k < j {
      EscapePositions(s[i..j], k - i);
      assert s[i..j][k - i] == s[k];
    } else {
      assert s[j..][k - j] == s[k];
    }
  }

  /** No accepted identifier holds a character that ends it in a DID URL, nor a NUL. */
  lemma RegexCharacters(s: string, k: nat)
    requires MatchesRegex(s) && k < |s|
    ensures IsPlain(s[k]) || s[k] == '%'
  {
    var i, j :| 0 <= i <= j <= |s| && Parts(s, i, j);
    PartsCharacters(s, i, j, k);
  }

  /** Between two percent-encodings there are only percent-encodings. */
  ghost predicate OneRun(s: string) {
    forall a, b, c :: 0 <= a <= b <= c < |s| && s[a] == s[c] == '%' ==> (s[b] == '%' <==> (b - a) % 3 == 0)
  }

  lemma RegexIsOneRun(s: string)
    requires MatchesRegex(s)
    ensures OneRun(s)
  {
    var i, j :| 0 <= i <= j <= |s| && Parts(s, i, j);
    hide Parts;
    forall a: nat, b: nat, c: nat | a <= b <= c < |s| && s[a] == s[c] == '%' ensures s[b] == '%' <==> (b - a) % 3 == 0 {
      PartsCharacters(s, i, j, a);
      PartsCharacters(s, i, j, b);
      PartsCharacters(s, i, j, c);
    }
  }

  /** The characters of a method-specific identifier, section 3.1 of W3C DID Core 1.0. */
  ghost predicate GrammarCharacters(s: string) {
    forall i :: 0 <= i < |s| ==> IsPlain(s[i]) || s[i] == '%'
  }

  /** How far the percent-encodings that s starts with reach. */
  ghost function RunLength(s: string): (n: nat)
    requires WellEscaped(s)
    ensures n <= |s| && n % 3 == 0 && AllEscapes(s[..n]) && (n < |s| ==> s[n] != '%')
  {
    if s == "" || s[0] != '%' then 0
    else
      var n := RunLength(s[3..]);
      assert s[..n + 3][3..] == s[3..][..n];
      n + 3
  }

  lemma {:induction false} WellEscapedFrom(s: string, i: nat)
    requires WellEscaped(s) && i <= |s| && Without(s[..i], '%')
    ensures WellEscaped(s[i..])
  {
    if i > 0 {
      assert s[0] == s[..i][0];
      assert s[1..][..i - 1] == s[..i][1..] && s[1..][i - 1..] == s[i..];
      WellEscapedFrom(s[1..], i - 1);
    }
  }

  lemma PlainWithout(s: string)
    requires GrammarCharacters(s) && Without(s, '%')
    ensures AllPlain(s)
  {
  }

  lemma OneRunMatches(s: string)
    requires GrammarCharacters(s) && WellEscaped(s) && OneRun(s)
    ensures MatchesRegex(s)
  {
    hide IsPlain, WellEscaped, AllEscapes;
    var i := Index(s, '%');
    WellEscapedFrom(s, i);
    var n := RunLength(s[i..]);
    var j := i + n;
    assert s[i..][..n] == s[i..j];
    if j < |s| {
      assert s[i..][n] == s[j] && (j - i) % 3 == 0 && s[i] == '%';
    }
    assert Without(s[j..], '%') by {
      assert forall c :: j <= c < |s| ==> s[c] != '%';
    }
    PlainWithout(s[..i]);
    PlainWithout(s[j..]);
    assert Parts(s, i, j);
  }

  /** Section 3.1 of W3C DID Core 1.0 lets percent-encodings stand anywhere; the regular expression matches exactly the
      identifiers over the same characters and encodings in which they form one run. */
  lemma RegexIsOneRunOfEscapes(s: string)
    ensures MatchesRegex(s) <==> GrammarCharacters(s) && WellEscaped(s) && OneRun(s)
  {
    hide Parts, IsPlain, WellEscaped, OneRun;
    if MatchesRegex(s) {
      forall k: nat | k < |s| ensures IsPlain(s[k]) || s[k] == '%' { RegexCharacters(s, k); }
      RegexIsWellEscaped(s);
      RegexIsOneRun(s);
    }
    if GrammarCharacters(s) && WellEscaped(s) && OneRun(s) { OneRunMatches(s); }
  }

  /** An identifier of that grammar: idchars and colons, of which the last is no colon. */
  ghost predicate W3cIdentifier(s: string) {
    s != "" && GrammarCharacters(s) && WellEscaped(s) && s[|s| - 1] != ':'
  }

  /** Which identifiers of the grammar are accepted: those with one run of percent-encodings, no empty middle segment, and
      nothing dangerous once decoded. */
  lemma AcceptedIdentifiers(s: string)
    requires W3cIdentifier(s)
    ensures Unescape(s).Some?
    ensures PassesChecks(s) <==> OneRun(s) && MiddlesFilled(Split(s, ':')) && !Dangerous(Unescape(s).value)
  {
    hide GrammarCharacters, WellEscaped, OneRun, MiddlesFilled, Dangerous, Split, Unescape, MatchesRegex;
    UnescapeSucceeds(s);
    RegexIsOneRunOfEscapes(s);
    if MatchesRegex(s) { ChecksComeTo(s); }
  }

  /** And what is accepted beyond the grammar ends in a colon. */
  lemma AcceptedBeyondGrammar(s: string)
    requires PassesChecks(s)
    ensures W3cIdentifier(s) <==> s[|s| - 1] != ':'
  {
    hide GrammarCharacters, WellEscaped, OneRun, MiddlesFilled, Split, MatchesRegex;
    RegexIsOneRunOfEscapes(s);
  }

  lemma {:induction false} UnescapePlain(s: string)
    requires AllPlain(s)
    ensures Unescape(s) == Some(s)
  {
    if s != "" {
      UnescapePlain(s[1..]);
      assert s == [s[0]] + s[1..];
    }
  }

  /** Such an identifier. */
  lemma ColonAtEndAccepted()
    ensures PassesChecks("a:") && !W3cIdentifier("a:")
  {
    var s := "a:";
    UnescapePlain(s);
    assert !Contains(s, "..") by {
      forall i | 0 <= i <= |s| - 2 ensures !HasPrefix(s[i..], "..") { MatchStarts(s[i..], ".."); }
    }
    assert forall i :: 0 <= i < |s| ==> s[i] !in Banned();
    assert Parts(s, 2, 2) by { assert s[..2] == s && s[2..] == "" && s[2..2] == ""; }
    hide Contains, Banned, Parts;
    SplitFirst("a", "");
    SplitWhole("");
    assert s == "a" + ":" + "";
    ChecksComeTo(s);
  }

  /** An identifier of the grammar with two encoded colons apart is refused. */
  lemma TwoRunsRefused()
    ensures W3cIdentifier("a%3Ab%3Ac") && !PassesChecks("a%3Ab%3Ac")
  {
    var s := "a%3Ab%3Ac";
    assert s[1..] == "%3Ab%3Ac" && s[4..] == "b%3Ac" && s[5..] == "%3Ac" && s[8..] == "c";
    assert WellEscaped("c");
    assert WellEscaped("%3Ac") by { assert "%3Ac"[3..] == "c"; }
    assert WellEscaped("b%3Ac") by { assert "b%3Ac"[1..] == "%3Ac"; }
    assert WellEscaped("%3Ab%3Ac") by { assert "%3Ab%3Ac"[3..] == "b%3Ac"; }
    assert !OneRun(s) by { assert s[1] == s[5] == '%' && s[4] == 'b'; }
    hide OneRun, MatchesRegex;
    RegexIsOneRunOfEscapes(s);
  }

  lemma AcceptedHasNo(msid: string, c: char)
    requires PassesChecks(msid) && !IsPlain(c) && c != '%'
    ensures Without(msid, c)
  {
    hide MatchesRegex, IsPlain;
    forall k | 0 <= k < |msid| ensures msid[k] != c { RegexCharacters(msid, k); }
  }
}
