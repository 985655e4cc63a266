/** What DID parsing accepts and what it returns, character by character. */
module DidMeaning {
  import opened Options
  import opened Strings
  import opened DidSegments
  import opened DidSyntax
  import opened DidParse

  // ---------------------------------------------------------------- characters

  ghost predicate LetterOrDigit(c: char) {
    c in "abcdefghijklm" || c in "nopqrstuvwxyz" || c in "ABCDEFGHIJKLM" || c in "NOPQRSTUVWXYZ" || c in "0123456789"
  }

  lemma AlphanumericMeaning(c: char)
    ensures IsAlphanumeric(c) <==> LetterOrDigit(c)
  {
  }

  ghost predicate IdCharacter(c: char) {
    LetterOrDigit(c) || c in "._-:"
  }

  lemma PlainMeaning(c: char)
    ensures IsPlain(c) <==> IdCharacter(c)
  {
    hide LetterOrDigit, IsAlphanumeric;
    AlphanumericMeaning(c);
  }

  ghost predicate HexDigit(c: char) {
    c in "0123456789" || c in "abcdef" || c in "ABCDEF"
  }

  lemma HexMeaning(c: char)
    ensures IsHex(c) <==> HexDigit(c)
  {
  }

  // ---------------------------------------------------------------- percent-encodings

  /** Two hexadecimal digits follow every percent sign. */
  ghost predicate Escaped(s: string) {
    forall k :: 0 <= k < |s| && s[k] == '%' ==> k + 2 < |s| && HexDigit(s[k + 1]) && HexDigit(s[k + 2])
  }

  /** What stands before an encoding, or one that is complete, can be left off. */
  lemma EscapedStep(s: string, n: nat)
    requires n <= |s| && n == (if s == "" then 0 else if s[0] == '%' then 3 else 1)
    requires n == 3 ==> HexDigit(s[1]) && HexDigit(s[2])
    ensures Escaped(s) <==> Escaped(s[n..])
  {
    PercentIsNoHex();
    hide HexDigit;
    var rest := s[n..];
    assert forall k :: n <= k < |s| ==> s[k] == rest[k - n];
    assert forall k :: 0 <= k < |rest| ==> rest[k] == s[k + n];
    if Escaped(s) {
      forall k | 0 <= k < |rest| && rest[k] == '%' ensures k + 2 < |rest| && HexDigit(rest[k + 1]) && HexDigit(rest[k + 2]) {
        assert s[k + n] == '%';
      }
    }
    if Escaped(rest) {
      forall k | 0 <= k < |s| && s[k] == '%' ensures k + 2 < |s| && HexDigit(s[k + 1]) && HexDigit(s[k + 2]) {
        if k >= n { assert rest[k - n] == '%'; }
      }
    }
  }

  lemma {:induction false} EscapedMeaning(s: string)
    ensures WellEscaped(s) <==> Escaped(s)
  {
    hide HexDigit, IsHex;
    forall c ensures IsHex(c) <==> HexDigit(c) { HexMeaning(c); }
    if s != "" && (s[0] == '%' ==> StartsEscape(s)) {
      var n := if s[0] == '%' then 3 else 1;
      EscapedStep(s, n);
      EscapedMeaning(s[n..]);
    }
  }

  lemma PercentIsNoHex()
    ensures !HexDigit('%')
  {
  }

  /** The percent-encoding of a byte, with capital or small hexadecimal digits. */
  ghost function Escape(b: nat, capital: bool): string
    requires b < 256
  {
    var digits := if capital then "0123456789ABCDEF" else "0123456789abcdef";
    "%" + [digits[b / 16]] + [digits[b % 16]]
  }

  lemma HexDigits(d: nat)
    requires d < 16
    ensures IsHex("0123456789ABCDEF"[d]) && HexValue("0123456789ABCDEF"[d]) == d
    ensures IsHex("0123456789abcdef"[d]) && HexValue("0123456789abcdef"[d]) == d
  {
  }

  /** Decoding undoes encoding. */
  lemma UnescapeEscape(b: nat, capital: bool)
    requires b < 256
    ensures Unescape(Escape(b, capital)) == Some([b as char])
  {
    HexDigits(b / 16);
    HexDigits(b % 16);
    var s := Escape(b, capital);
    assert StartsEscape(s) && 16 * HexValue(s[1]) + HexValue(s[2]) == b;
    hide HexValue, IsHex;
    assert s[3..] == "" && [b as char] + "" == [b as char];
  }

  /** It leaves other characters alone, except that plus signs stand for spaces. */
  lemma UnescapeOther(c: char)
    requires c != '%'
    ensures Unescape([c]) == Some(if c == '+' then " " else [c])
  {
    assert [c][1..] == "" && [c] + "" == [c] && [' '] + "" == " ";
  }

  lemma ConsConcat(c: char, s: string, t: string)
    ensures [c] + (s + t) == ([c] + s) + t
  {
  }

  /** And it goes from left to right. */
  lemma {:induction false} UnescapeConcat(s: string, t: string)
    requires Unescape(s).Some? && Unescape(t).Some?
    ensures Unescape(s + t) == Some(Unescape(s).value + Unescape(t).value)
  {
    hide HexValue;
    if s == "" {
      assert s + t == t && "" + Unescape(t).value == Unescape(t).value;
    } else {
      var n := if s[0] == '%' then 3 else 1;
      UnescapeConcat(s[n..], t);
      assert (s + t)[n..] == s[n..] + t;
      assert StartsEscape(s) ==> StartsEscape(s + t) && (s + t)[1] == s[1] && (s + t)[2] == s[2];
      ConsConcat(Unescape(s).value[0], Unescape(s[n..]).value, Unescape(t).value);
    }
  }

  // ---------------------------------------------------------------- the method-specific identifier

  ghost predicate NoTwoColons(s: string) {
    forall k :: 0 <= k < |s| - 1 ==> !(s[k] == ':' && s[k + 1] == ':')
  }

  lemma MiddlesStep(first: string, more: seq<string>)
    ensures MiddlesFilled([first] + more) <==> MiddlesFilled(more) && (|more| > 1 ==> more[0] != "")
  {
    var parts := [first] + more;
    assert forall k :: 0 < k < |parts| ==> parts[k] == more[k - 1];
    assert forall k :: 0 <= k < |more| ==> more[k] == parts[k + 1];
  }

  lemma NoTwoColonsStep(s: string, i: nat)
    requires i < |s| && s[i] == ':' && Without(s[..i], ':')
    ensures NoTwoColons(s) <==> NoTwoColons(s[i + 1..]) && (i + 1 < |s| ==> s[i + 1] != ':')
  {
    var rest := s[i + 1..];
    assert forall k :: 0 <= k < i ==> s[k] == s[..i][k];
    assert forall k :: i < k < |s| ==> s[k] == rest[k - i - 1];
    assert forall k :: 0 <= k < |rest| ==> rest[k] == s[k + i + 1];
    if NoTwoColons(rest) && (i + 1 < |s| ==> s[i + 1] != ':') {
      forall k | 0 <= k < |s| - 1 ensures !(s[k] == ':' && s[k + 1] == ':') {
        if k > i { assert !(rest[k - i - 1] == ':' && rest[k - i - 1 + 1] == ':'); }
      }
    }
    if NoTwoColons(s) {
      forall k | 0 <= k < |rest| - 1 ensures !(rest[k] == ':' && rest[k + 1] == ':') {
        assert !(s[k + i + 1] == ':' && s[k + i + 1 + 1] == ':');
      }
    }
  }

  /** An empty segment between two others is a colon after a colon. */
  lemma {:induction false} MiddlesMeaning(s: string)
    ensures MiddlesFilled(Split(s, ':')) <==> NoTwoColons(s)
  {
    var i := Index(s, ':');
    SplitSteps(s);
    if i < |s| {
      MiddlesMeaning(s[i + 1..]);
      FirstSegment(s[i + 1..]);
      hide Split, MiddlesFilled, NoTwoColons;
      MiddlesStep(s[..i], Split(s[i + 1..], ':'));
      NoTwoColonsStep(s, i);
    } else {
      SplitWhole(s);
    }
  }

  lemma FirstSegment(s: string)
    ensures |Split(s, ':')| > 1 && Split(s, ':')[0] == "" <==> s != "" && s[0] == ':'
  {
  }

  ghost predicate DotsAt(t: string, k: nat) {
    k + 1 < |t| && t[k] == '.' && t[k + 1] == '.'
  }

  /** Means something to a shell or to a line-based protocol. */
  ghost predicate Harmful(c: char) {
    c in {'\0', '\r', '\n', '`', '$', '|', ';', '&', '<', '>'}
  }

  /** What the decoded identifier may not hold: two dots in a row, and such characters. */
  ghost predicate Harmless(t: string) {
    (forall k: nat :: !DotsAt(t, k)) && forall k :: 0 <= k < |t| ==> !Harmful(t[k])
  }

  lemma DotsMeaning(t: string)
    ensures Contains(t, "..") <==> exists k: nat :: DotsAt(t, k)
  {
    forall i: nat | i + 2 <= |t| ensures HasPrefix(t[i..], "..") <==> DotsAt(t, i) {
      if HasPrefix(t[i..], "..") { assert t[i..][..2][0] == '.' && t[i..][..2][1] == '.'; }
      if DotsAt(t, i) { assert t[i..][..2] == ".."; }
    }
    hide HasPrefix;
    if k: nat :| DotsAt(t, k) { assert HasPrefix(t[k..], ".."); }
  }

  lemma BannedMeaning(c: char)
    ensures c in Banned() <==> Harmful(c)
  {
  }

  lemma HarmlessMeaning(t: string)
    ensures !Dangerous(t) <==> Harmless(t)
  {
    DotsMeaning(t);
    forall c ensures c in Banned() <==> Harmful(c) { BannedMeaning(c); }
    hide Banned, Harmful, Contains, DotsAt;
  }

  /** The identifiers that pass all checks. */
  ghost predicate GoodIdentifier(s: string) {
    && s != ""
    && (forall k :: 0 <= k < |s| ==> IdCharacter(s[k]) || s[k] == '%')
    && Escaped(s) && OneRun(s) && NoTwoColons(s)
    && Unescape(s).Some? && Harmless(Unescape(s).value)
  }

  lemma IdentifierMeaning(s: string)
    ensures PassesChecks(s) <==> GoodIdentifier(s)
  {
    hide IsPlain, IdCharacter, Escaped, WellEscaped, OneRun, NoTwoColons, Harmless, Dangerous, MatchesRegex, Split, MiddlesFilled,
         Unescape;
    forall c ensures IsPlain(c) <==> IdCharacter(c) { PlainMeaning(c); }
    EscapedMeaning(s);
    RegexIsOneRunOfEscapes(s);
    MiddlesMeaning(s);
    if MatchesRegex(s) {
      ChecksComeTo(s);
      HarmlessMeaning(Unescape(s).value);
    }
  }

  // ---------------------------------------------------------------- the parts of a DID URL

  /** t is the separator and the part, or nothing at all. */
  ghost predicate IsTail(t: string, c: char, part: string) {
    t == [c] + part || (t == "" && part == "")
  }

  /** s is raw, then perhaps '/' and a path, perhaps '?' and a query, perhaps '#' and a fragment. */
  ghost predicate Splits(s: string, raw: string, path: string, query: string, fragment: string) {
    && Without(raw, '/') && Without(raw, '?') && Without(raw, '#')
    && Without(path, '?') && Without(path, '#') && Without(query, '#')
    && exists p, q, f :: s == raw + p + q + f && IsTail(p, '/', path) && IsTail(q, '?', query) && IsTail(f, '#', fragment)
  }

  lemma CutMeans(s: string, c: char, before: string, after: string)
    ensures Cut(s, c) == (before, after) <==> Without(before, c) && exists t :: s == before + t && IsTail(t, c, after)
  {
    var i := Index(s, c);
    if Cut(s, c) == (before, after) {
      if i < |s| {
        assert s == before + ([c] + after);
      } else {
        assert s == before + "";
      }
    }
    if t :| Without(before, c) && s == before + t && IsTail(t, c, after) {
      assert forall k :: 0 <= k < |before| ==> s[k] == before[k];
      if t == "" {
        assert s == before;
      } else {
        assert t[0] == c && s[|before|] == c && t[1..] == after;
        assert i == |before|;
        assert s[..i] == before && s[i + 1..] == after;
      }
    }
  }
  lemma ConcatWithout(a: string, b: string, c: char)
    ensures Without(a + b, c) <==> Without(a, c) && Without(b, c)
  {
    assert forall k :: 0 <= k < |a| ==> (a + b)[k] == a[k];
    assert forall k :: 0 <= k < |b| ==> (a + b)[|a| + k] == b[k];
  }

  lemma TailWithout(t: string, c: char, part: string, d: char)
    requires IsTail(t, c, part) && c != d
    ensures Without(t, d) <==> Without(part, d)
  {
    ConcatWithout([c], part, d);
  }

  ghost predicate CutsTo(s: string, raw: string, path: string, query: string, fragment: string) {
    var (beforeFragment, f) := Cut(s, '#');
    var (beforeQuery, q) := Cut(beforeFragment, '?');
    Cut(beforeQuery, '/') == (raw, path) && q == query && f == fragment
  }

  lemma SplitsCuts(s: string, raw: string, path: string, query: string, fragment: string)
    requires Splits(s, raw, path, query, fragment)
    ensures CutsTo(s, raw, path, query, fragment)
  {
    hide Cut, Without, IsTail;
    var p, q, f :| s == raw + p + q + f && IsTail(p, '/', path) && IsTail(q, '?', query) && IsTail(f, '#', fragment);
    TailWithout(p, '/', path, '?');
    TailWithout(p, '/', path, '#');
    TailWithout(q, '?', query, '#');
    ConcatWithout(raw, p, '?');
    ConcatWithout(raw, p, '#');
    ConcatWithout(raw + p, q, '#');
    CutMeans(raw + p, '/', raw, path);
    CutMeans(raw + p + q, '?', raw + p, query);
    CutMeans(s, '#', raw + p + q, fragment);
  }

  lemma CutsSplit(s: string, raw: string, path: string, query: string, fragment: string)
    requires CutsTo(s, raw, path, query, fragment)
    ensures Splits(s, raw, path, query, fragment)
  {
    hide Cut, Without, IsTail;
    var beforeFragment := Cut(s, '#').0;
    var beforeQuery := Cut(beforeFragment, '?').0;
    CutMeans(s, '#', beforeFragment, fragment);
    CutMeans(beforeFragment, '?', beforeQuery, query);
    CutMeans(beforeQuery, '/', raw, path);
    var f :| s == beforeFragment + f && IsTail(f, '#', fragment);
    var q :| beforeFragment == beforeQuery + q && IsTail(q, '?', query);
    var p :| beforeQuery == raw + p && IsTail(p, '/', path);
    ConcatWithout(beforeQuery, q, '#');
    ConcatWithout(raw, p, '#');
    ConcatWithout(raw, p, '?');
    TailWithout(q, '?', query, '#');
    TailWithout(p, '/', path, '#');
    TailWithout(p, '/', path, '?');
    assert s == raw + p + q + f;
  }

  // ---------------------------------------------------------------- the scheme, the method, the identifier

  ghost predicate GoodName(name: string) {
    name != "" && forall k :: 0 <= k < |name| ==> name[k] in "abcdefghijklm" || name[k] in "nopqrstuvwxyz" || name[k] in "0123456789"
  }

  lemma NameMeaning(name: string)
    ensures MethodNameOk(name) <==> GoodName(name)
    ensures GoodName(name) ==> Without(name, ':')
  {
  }

  /** Characters of a fragment below 128; what the others must be is for lettersOk to say. */
  ghost predicate GoodFragment(lettersOk: string -> bool, fragment: string) {
    && lettersOk(fragment)
    && forall k :: 0 <= k < |fragment| && fragment[k] as int < 128 ==>
         LetterOrDigit(fragment[k]) || fragment[k] in ".-_/?%:@!$" || fragment[k] in "&'()*+,;="
  }

  lemma FragmentMeaning(lettersOk: string -> bool, fragment: string)
    ensures FragmentOk(lettersOk, fragment) <==> GoodFragment(lettersOk, fragment)
  {
    forall c: char ensures IsFragmentChar(c) <==> LetterOrDigit(c) || c in ".-_/?%:@!$" || c in "&'()*+,;=" {
      hide LetterOrDigit, IsAlphanumeric;
      AlphanumericMeaning(c);
    }
    hide IsFragmentChar, LetterOrDigit;
  }

  lemma SplitNFirst(u: string, t: string, n: nat)
    requires n > 1 && Without(u, ':')
    ensures SplitN(u + ":" + t, ':', n) == [u] + SplitN(t, ':', n - 1)
  {
    var s := u + ":" + t;
    assert s[..|u|] == u && s[|u| + 1..] == t;
    assert forall j :: 0 <= j < |u| ==> s[j] == u[j];
    assert s[|u|] == ':';
    assert Index(s, ':') == |u|;
  }

  lemma InThreeParts(raw: string, name: string, msid: string)
    requires raw == "did:" + name + ":" + msid && Without(name, ':')
    ensures HasPrefix(raw, "did:") && SplitN(raw, ':', 3) == ["did", name, msid]
  {
    assert raw[..4] == "did:";
    SplitNFirst("did", name + ":" + msid, 3);
    SplitNFirst(name, msid, 2);
    assert SplitN(msid, ':', 1) == [msid];
    hide SplitN;
    assert raw == "did" + ":" + (name + ":" + msid);
    assert ["did"] + ([name] + [msid]) == ["did", name, msid];
  }

  // ---------------------------------------------------------------- what parsing returns

  /** What a DID that was read from s is. */
  ghost predicate IsReading(lettersOk: string -> bool, s: string, d: Did) {
    && |s| <= 2048
    && Splits(s, d.raw, d.path, d.query, d.fragment)
    && d.raw == "did:" + d.name + ":" + d.msid
    && GoodName(d.name) && GoodIdentifier(d.msid) && (d.fragment != "" ==> GoodFragment(lettersOk, d.fragment))
    && d.segments == DecodeAll(Split(d.msid, ':'))
  }

  lemma SegmentsMeaning(msid: string)
    requires PassesChecks(msid)
    ensures Segments(msid) == DecodeAll(Split(msid, ':'))
  {
    hide PassesChecks, IsPlain, RestoreAll, DecodeAll, Split, Hidden;
    assert !IsPlain('\0') by { NulIsNotPlain(); }
    AcceptedHasNo(msid, '\0');
    SegmentsAreDecoded(msid);
  }

  lemma NulIsNotPlain()
    ensures !IsPlain('\0')
  {
  }

  lemma ParsedIsReading(lettersOk: string -> bool, s: string)
    requires Parse(lettersOk, s).Some?
    ensures IsReading(lettersOk, s, Parse(lettersOk, s).value)
  {
    hide PassesChecks, GoodIdentifier, MethodNameOk, GoodName, FragmentOk, GoodFragment, Segments, DecodeAll, Split, SplitN, Splits, Cut;
    var d := Parse(lettersOk, s).value;
    CutsSplit(s, d.raw, d.path, d.query, d.fragment);
    SplitNPrints(d.raw);
    NameMeaning(d.name);
    IdentifierMeaning(d.msid);
    FragmentMeaning(lettersOk, d.fragment);
    SegmentsMeaning(d.msid);
  }

  lemma ReadingIsParsed(lettersOk: string -> bool, s: string, d: Did)
    requires IsReading(lettersOk, s, d)
    ensures Parse(lettersOk, s) == Some(d)
  {
    hide PassesChecks, GoodIdentifier, MethodNameOk, GoodName, FragmentOk, GoodFragment, Segments, DecodeAll, Split, SplitN, Cut, Without;
    SplitsCuts(s, d.raw, d.path, d.query, d.fragment);
    NameMeaning(d.name);
    InThreeParts(d.raw, d.name, d.msid);
    IdentifierMeaning(d.msid);
    FragmentMeaning(lettersOk, d.fragment);
    SegmentsMeaning(d.msid);
    assert s != "";
  }

  /** Parsing gives exactly the DID that the string reads as, or refuses it when it reads as none. */
  lemma ParseMeaning(lettersOk: string -> bool, s: string, d: Did)
    ensures Parse(lettersOk, s) == Some(d) <==> IsReading(lettersOk, s, d)
  {
    hide Parse, IsReading;
    if Parse(lettersOk, s) == Some(d) { ParsedIsReading(lettersOk, s); }
    if IsReading(lettersOk, s, d) { ReadingIsParsed(lettersOk, s, d); }
  }

  // ---------------------------------------------------------------- what printing restores

  /** s ends at its first c. */
  ghost predicate EmptyTail(s: string, c: char) {
    exists before :: s == before + [c] && Without(before, c)
  }

  lemma AppendRestores(s: string, c: char)
    ensures Append(Cut(s, c).0, c, Cut(s, c).1) == s <==> !EmptyTail(s, c)
  {
    var i := Index(s, c);
    if i < |s| { assert s == s[..i] + [c] + s[i + 1..]; }
    if before :| s == before + [c] && Without(before, c) {
      assert forall k :: 0 <= k < |before| ==> s[k] == before[k];
      assert s[|before|] == c && i == |before|;
    }
    if i + 1 == |s| { assert s == s[..i] + [c]; }
  }

  lemma AppendInjective(a: string, b: string, c: char, part: string)
    ensures Append(a, c, part) == Append(b, c, part) <==> a == b
  {
    if Append(a, c, part) == Append(b, c, part) {
      var t := Append(a, c, part);
      assert t[..|a|] == a && t[..|b|] == b;
    }
  }

  /** Printing in full gives back what was read, unless something was cut off with nothing behind its separator. */
  lemma PrintRestores(lettersOk: string -> bool, s: string)
    requires Parse(lettersOk, s).Some?
    ensures var beforeFragment := Cut(s, '#').0;
            var beforeQuery := Cut(beforeFragment, '?').0;
            var lost := EmptyTail(s, '#') || EmptyTail(beforeFragment, '?') || EmptyTail(beforeQuery, '/');
            PrintFull(Parse(lettersOk, s).value) == s <==> !lost
  {
    hide EmptyTail, PassesChecks, MethodNameOk, FragmentOk, Segments, SplitN;
    var d := Parse(lettersOk, s).value;
    SplitNPrints(d.raw);
    var (beforeFragment, fragment) := Cut(s, '#');
    var (beforeQuery, query) := Cut(beforeFragment, '?');
    AppendRestores(s, '#');
    AppendRestores(beforeFragment, '?');
    AppendRestores(beforeQuery, '/');
    var withPath := Append(d.raw, '/', d.path);
    var withQuery := Append(withPath, '?', query);
    CutMeaning(s, '#');
    CutMeaning(beforeFragment, '?');
    CutMeaning(beforeQuery, '/');
    hide Cut, Append;
    AppendInjective(withQuery, beforeFragment, '#', fragment);
    AppendInjective(withPath, beforeQuery, '?', query);
    AppendLength(withPath, beforeQuery, '?', query);
    AppendLength(withQuery, beforeFragment, '#', fragment);
  }

  // ---------------------------------------------------------------- segments

  /** The parts with the separator between them. */
  ghost function Joined(parts: seq<string>, c: char): string {
    if parts == [] then "" else if |parts| == 1 then parts[0] else parts[0] + [c] + Joined(parts[1..], c)
  }

  /** Splitting gives the parts between the separators. */
  lemma {:induction false} SplitMeaning(s: string, c: char)
    ensures Joined(Split(s, c), c) == s
    ensures forall k :: 0 <= k < |Split(s, c)| ==> Without(Split(s, c)[k], c)
  {
    var i := Index(s, c);
    if i < |s| {
      SplitMeaning(s[i + 1..], c);
      assert Split(s, c)[1..] == Split(s[i + 1..], c);
      assert s == s[..i] + [c] + s[i + 1..];
    }
  }

  /** Text with its colons percent-encoded, each in either spelling. */
  ghost predicate ColonsEncoded(t: string, s: string) {
    if t == "" then s == ""
    else if t[0] == ':' then exists rest :: (s == "%3A" + rest || s == "%3a" + rest) && ColonsEncoded(t[1..], rest)
    else exists rest :: s == [t[0]] + rest && ColonsEncoded(t[1..], rest)
  }

  /** Decoding a segment undoes that, for text that has no percent sign of its own. */
  lemma {:induction false} DecodeMeaning(t: string, s: string)
    requires ColonsEncoded(t, s) && Without(t, '%')
    ensures Decode(s) == t
  {
    if t != "" {
      if t[0] == ':' {
        var rest :| (s == "%3A" + rest || s == "%3a" + rest) && ColonsEncoded(t[1..], rest);
        DecodeMeaning(t[1..], rest);
        assert s[3..] == rest && IsEncodedColon(s);
      } else {
        var rest :| s == [t[0]] + rest && ColonsEncoded(t[1..], rest);
        DecodeMeaning(t[1..], rest);
        assert s[1..] == rest && !IsEncodedColon(s);
      }
      assert t == [t[0]] + t[1..];
    }
  }
}
