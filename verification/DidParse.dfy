/** DIDs and DID URLs: parsing and printing. A string is its bytes; a byte below 128 is an ASCII character. */
module DidParse {
  import opened Options
  import opened Strings
  import opened DidSegments
  import opened DidSyntax

  datatype Did = Did(raw: string, name: string, msid: string, fragment: string, query: string, path: string,
                     segments: seq<string>)

  const MAX_DID_LENGTH := 2048

  // ---------------------------------------------------------------- the code

  /** What comes before the first c, and what comes after it; all of s, and nothing, when there is no c. */
  function Cut(s: string, c: char): (string, string) {
    var i := Index(s, c);
    if i == |s| then (s, "") else (s[..i], s[i + 1..])
  }

  predicate MethodNameOk(name: string) {
    name != "" && forall i :: 0 <= i < |name| ==> IsLower(name[i]) || '0' <= name[i] <= '9'
  }

  predicate IsFragmentChar(c: char) {
    IsAlphanumeric(c) || c in ".-_/?%:@!$&'()*+,;="
  }

  /** lettersOk says whether the characters of the fragment beyond ASCII are letters and digits. */
  predicate FragmentOk(lettersOk: string -> bool, fragment: string) {
    lettersOk(fragment) && forall i :: 0 <= i < |fragment| && fragment[i] < 128 as char ==> IsFragmentChar(fragment[i])
  }

  /** The segments as ParseSegments computes them. */
  ghost function Segments(msid: string): seq<string> {
    RestoreAll(Split(Hidden(msid), ':'))
  }

  ghost function Parse(lettersOk: string -> bool, s: string): Option<Did> {
    if s == "" || |s| > MAX_DID_LENGTH then None
    else
      var (beforeFragment, fragment) := Cut(s, '#');
      var (beforeQuery, query) := Cut(beforeFragment, '?');
      var (raw, path) := Cut(beforeQuery, '/');
      if !HasPrefix(raw, "did:") then None
      else
        var parts := SplitN(raw, ':', 3);
        if |parts| < 3 then None
        else if !MethodNameOk(parts[1]) || !PassesChecks(parts[2]) then None
        else if fragment != "" && !FragmentOk(lettersOk, fragment) then None
        else Some(Did(raw, parts[1], parts[2], fragment, query, path, Segments(parts[2])))
  }

  method ParseDid(lettersOk: string -> bool, s: string) returns (r: Option<Did>)
    ensures r == Parse(lettersOk, s)
  {
    hide PassesChecks, SplitN, Cut, FragmentOk, MethodNameOk, RestoreAll;
    if s == "" || |s| > MAX_DID_LENGTH { return None; }
    var (beforeFragment, fragment) := Cut(s, '#');
    var (beforeQuery, query) := Cut(beforeFragment, '?');
    var (raw, path) := Cut(beforeQuery, '/');
    if !HasPrefix(raw, "did:") { return None; }
    var parts := SplitN(raw, ':', 3);
    if |parts| < 3 { return None; }
    if !MethodNameOk(parts[1]) { return None; }
    var ok := ValidateMethodSpecificId(parts[2]);
    if !ok { return None; }
    if fragment != "" && !FragmentOk(lettersOk, fragment) { return None; }
    var segments := ParseSegments(parts[2]);
    return Some(Did(raw, parts[1], parts[2], fragment, query, path, segments));
  }

  /** String. */
  function Print(d: Did): string {
    "did:" + d.name + ":" + d.msid
  }

  function Append(s: string, c: char, part: string): string {
    if part == "" then s else s + [c] + part
  }

  /** FullString. */
  function PrintFull(d: Did): string {
    Append(Append(Append(Print(d), '/', d.path), '?', d.query), '#', d.fragment)
  }

  // ---------------------------------------------------------------- printing undoes parsing

  lemma CutMeaning(s: string, c: char)
    ensures var (before, after) := Cut(s, c);
            Without(before, c) && |Append(before, c, after)| <= |s| && forall d :: Without(s, d) ==> Without(before, d) && Without(after, d)
  {
  }

  lemma CutAppend(s: string, c: char, part: string)
    requires Without(s, c)
    ensures Cut(Append(s, c, part), c) == (s, part)
  {
    var t := Append(s, c, part);
    assert forall j :: 0 <= j < |s| ==> t[j] == s[j];
    if part != "" {
      assert t[|s|] == c;
      assert Index(t, c) == |s|;
      assert t[..|s|] == s && t[|s| + 1..] == part;
    }
  }

  lemma AppendWithout(s: string, c: char, part: string, d: char)
    requires Without(s, d) && Without(part, d) && c != d
    ensures Without(Append(s, c, part), d)
  {
  }

  lemma AppendLength(s: string, t: string, c: char, part: string)
    requires |s| <= |t|
    ensures |Append(s, c, part)| <= |Append(t, c, part)|
  {
  }

  /** The three cuts undo the three appendages, and only a separator with nothing behind it is lost. */
  lemma CutsUndoAppends(s: string)
    ensures var (beforeFragment, fragment) := Cut(s, '#');
            var (beforeQuery, query) := Cut(beforeFragment, '?');
            var (raw, path) := Cut(beforeQuery, '/');
            var full := Append(Append(Append(raw, '/', path), '?', query), '#', fragment);
            && |full| <= |s|
            && Cut(full, '#') == (Append(Append(raw, '/', path), '?', query), fragment)
            && Cut(Append(Append(raw, '/', path), '?', query), '?') == (Append(raw, '/', path), query)
            && Cut(Append(raw, '/', path), '/') == (raw, path)
  {
    hide Cut, Append, Without;
    var (beforeFragment, fragment) := Cut(s, '#');
    var (beforeQuery, query) := Cut(beforeFragment, '?');
    var (raw, path) := Cut(beforeQuery, '/');
    CutMeaning(s, '#');
    CutMeaning(beforeFragment, '?');
    CutMeaning(beforeQuery, '/');
    var withPath := Append(raw, '/', path);
    var withQuery := Append(withPath, '?', query);
    AppendWithout(raw, '/', path, '?');
    AppendWithout(raw, '/', path, '#');
    AppendWithout(withPath, '?', query, '#');
    CutAppend(raw, '/', path);
    CutAppend(withPath, '?', query);
    CutAppend(withQuery, '#', fragment);
    AppendLength(withPath, beforeQuery, '?', query);
    AppendLength(withQuery, beforeFragment, '#', fragment);
  }

  lemma SplitNInTwo(s: string)
    ensures var parts := SplitN(s, ':', 2);
            |parts| <= 2 && (|parts| == 2 ==> s == parts[0] + ":" + parts[1])
  {
    var i := Index(s, ':');
    if i < |s| { assert SplitN(s[i + 1..], ':', 1) == [s[i + 1..]]; }
  }

  lemma DidComesFirst(raw: string)
    requires HasPrefix(raw, "did:")
    ensures SplitN(raw, ':', 3) == [raw[..3]] + SplitN(raw[4..], ':', 2) && raw == "did:" + raw[4..]
  {
    assert raw[..4][0] == 'd' && raw[..4][1] == 'i' && raw[..4][2] == 'd' && raw[..4][3] == ':';
    assert Index(raw, ':') == 3;
  }

  /** A DID without appendages is printed as it was read. */
  lemma SplitNPrints(raw: string)
    requires HasPrefix(raw, "did:") && |SplitN(raw, ':', 3)| >= 3
    ensures var parts := SplitN(raw, ':', 3); raw == "did:" + parts[1] + ":" + parts[2]
  {
    DidComesFirst(raw);
    SplitNInTwo(raw[4..]);
    hide SplitN, HasPrefix;
    var two := SplitN(raw[4..], ':', 2);
    assert "did:" + (two[0] + ":" + two[1]) == "did:" + two[0] + ":" + two[1];
  }

  /** Printing what was parsed and parsing it again gives the same DID, for every accepted string. */
  lemma ParsePrintParse(lettersOk: string -> bool, s: string)
    requires Parse(lettersOk, s).Some?
    ensures Parse(lettersOk, PrintFull(Parse(lettersOk, s).value)) == Parse(lettersOk, s)
  {
    hide Cut, Append, SplitN, PassesChecks, MethodNameOk, FragmentOk, Segments;
    var d := Parse(lettersOk, s).value;
    CutsUndoAppends(s);
    SplitNPrints(d.raw);
    assert Print(d) == d.raw;
    assert PrintFull(d) != "" by { PrintedIsNotEmpty(d); }
  }

  lemma PrintedIsNotEmpty(d: Did)
    ensures PrintFull(d) != ""
  {
  }

  /** A parsed DID prints, without path, query and fragment, as what was left of the string when those were cut off, and its
      segments are those of the direct way of splitting and decoding. */
  lemma ParsedMeaning(lettersOk: string -> bool, s: string)
    requires Parse(lettersOk, s).Some?
    ensures var d := Parse(lettersOk, s).value;
            Print(d) == d.raw && d.segments == DecodeAll(Split(d.msid, ':'))
  {
    var d := Parse(lettersOk, s).value;
    hide SplitN, PassesChecks, MethodNameOk, FragmentOk, RestoreAll, DecodeAll, Split, Hidden, Cut;
    SplitNPrints(d.raw);
    AcceptedHasNo(d.msid, '\0');
    SegmentsAreDecoded(d.msid);
  }
}
