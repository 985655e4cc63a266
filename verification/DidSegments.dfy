/** Splitting a method-specific identifier into segments, by way of placeholders for its encoded colons. */
module DidSegments {
  import opened Strings

  /** Stands for an encoded colon while the identifier is split. */
  function Placeholder(): string {
    "\0PORT\0"
  }

  predicate IsEncodedColon(s: string) {
    |s| >= 3 && s[0] == '%' && s[1] == '3' && (s[2] == 'A' || s[2] == 'a')
  }

  // ---------------------------------------------------------------- the code

  function Hidden(msid: string): string {
    ReplaceAll(ReplaceAll(msid, "%3A", Placeholder()), "%3a", Placeholder())
  }

  function Restore(segment: string): string {
    ReplaceAll(segment, Placeholder(), ":")
  }

  ghost function RestoreAll(segments: seq<string>): seq<string> {
    seq(|segments|, i requires 0 <= i < |segments| => Restore(segments[i]))
  }

  /** parseMethodSpecificSegments: splits on the colons that remain, then puts the encoded ones back segment by segment. */
  method ParseSegments(msid: string) returns (segments: seq<string>)
    ensures segments == RestoreAll(Split(Hidden(msid), ':'))
  {
    segments := Split(Hidden(msid), ':');
    ghost var before := segments;
    for i := 0 to |segments|
      invariant |segments| == |before|
      invariant forall k :: 0 <= k < i ==> segments[k] == Restore(before[k])
      invariant forall k :: i <= k < |segments| ==> segments[k] == before[k]
    {
      segments := segments[i := Restore(segments[i])];
    }
  }

  // ---------------------------------------------------------------- what it is for

  /** A segment with its encoded colons decoded, in one pass. */
  function Decode(s: string): string {
    if s == "" then ""
    else if IsEncodedColon(s) then ":" + Decode(s[3..])
    else [s[0]] + Decode(s[1..])
  }

  ghost function DecodeAll(segments: seq<string>): seq<string> {
    seq(|segments|, i requires 0 <= i < |segments| => Decode(segments[i]))
  }

  /** The identifier with its encoded colons replaced by placeholders, in one pass. */
  ghost function Encode(s: string): string {
    if s == "" then ""
    else if IsEncodedColon(s) then Placeholder() + Encode(s[3..])
    else [s[0]] + Encode(s[1..])
  }

  ghost predicate Without(s: string, c: char) {
    forall i :: 0 <= i < |s| ==> s[i] != c
  }

  /** Text without the first character of what is sought is passed over. */
  lemma {:induction false} PassOver(u: string, t: string, sought: string, put: string)
    requires sought != "" && Without(u, sought[0])
    ensures ReplaceAll(u + t, sought, put) == u + ReplaceAll(t, sought, put)
  {
    if u == "" {
      assert u + t == t;
    } else {
      PassOver(u[1..], t, sought, put);
      assert (u + t)[1..] == u[1..] + t;
      MatchStarts(u + t, sought);
      assert u == [u[0]] + u[1..];
    }
  }

  lemma MatchStarts(s: string, sought: string)
    requires s != "" && sought != ""
    ensures HasPrefix(s, sought) ==> s[0] == sought[0]
  {
    if HasPrefix(s, sought) { assert s[..|sought|][0] == s[0]; }
  }

  lemma Match(s: string, t: string, put: string)
    requires s != ""
    ensures ReplaceAll(s + t, s, put) == put + ReplaceAll(t, s, put)
  {
    assert (s + t)[..|s|] == s && (s + t)[|s|..] == t;
  }

  lemma UpperMatches(s: string)
    ensures HasPrefix(s, "%3A") <==> |s| >= 3 && s[0] == '%' && s[1] == '3' && s[2] == 'A'
  {
    if HasPrefix(s, "%3A") { assert s[..3][0] == '%' && s[..3][1] == '3' && s[..3][2] == 'A'; }
  }

  lemma LowerMatches(s: string)
    ensures HasPrefix(s, "%3a") <==> |s| >= 3 && s[0] == '%' && s[1] == '3' && s[2] == 'a'
  {
    if HasPrefix(s, "%3a") { assert s[..3][0] == '%' && s[..3][1] == '3' && s[..3][2] == 'a'; }
  }

  /** The first pass over "%3A", and the second over "%3a". */
  ghost function Upper(s: string): string {
    ReplaceAll(s, "%3A", Placeholder())
  }

  ghost function Lower(s: string): string {
    ReplaceAll(s, "%3a", Placeholder())
  }

  /** A character that the first pass left in front is the original one, unless a placeholder was put there. */
  lemma UpperStarts(s: string)
    requires s != ""
    ensures Upper(s) != ""
    ensures HasPrefix(s, "%3A") ==> Upper(s) == Placeholder() + Upper(s[3..])
    ensures !HasPrefix(s, "%3A") ==> Upper(s) == [s[0]] + Upper(s[1..])
  {
  }

  /** The first pass makes no "%3a" that was not there. */
  lemma UpperMakesNone(s: string)
    requires |s| >= 1 && !IsEncodedColon(s)
    ensures !HasPrefix(Upper(s), "%3a")
  {
    hide ReplaceAll, HasPrefix, Upper;
    UpperMatches(s);
    UpperStarts(s);
    LowerMatches(Upper(s));
    if |s| > 1 {
      UpperMatches(s[1..]);
      UpperStarts(s[1..]);
      if |s| > 2 {
        UpperMatches(s[2..]);
        UpperStarts(s[2..]);
      } else {
        UpperOfNothing();
      }
    } else {
      UpperOfNothing();
    }
  }

  lemma UpperOfNothing()
    ensures Upper("") == "" && Lower("") == ""
  {
  }

  /** The two passes together replace every encoded colon, of either spelling, and nothing else. */
  lemma {:induction false} HiddenIsEncode(s: string)
    ensures Lower(Upper(s)) == Encode(s)
  {
    hide ReplaceAll, HasPrefix, Upper, Lower;
    if s == "" {
      UpperOfNothing();
    } else if IsEncodedColon(s) {
      HiddenIsEncode(s[3..]);
      if s[2] == 'A' { UpperThenLower(s); } else { LowerThenRest(s); }
    } else {
      HiddenIsEncode(s[1..]);
      UpperMatches(s);
      UpperStarts(s);
      UpperMakesNone(s);
      LowerSteps(s[0], Upper(s[1..]));
    }
  }

  lemma LowerSteps(c: char, t: string)
    requires !HasPrefix([c] + t, "%3a")
    ensures Lower([c] + t) == [c] + Lower(t)
  {
    assert ([c] + t)[1..] == t;
  }

  lemma UpperThenLower(s: string)
    requires IsEncodedColon(s) && s[2] == 'A'
    ensures Lower(Upper(s)) == Placeholder() + Lower(Upper(s[3..]))
  {
    hide ReplaceAll, HasPrefix, Upper;
    UpperMatches(s);
    UpperStarts(s);
    PassOver(Placeholder(), Upper(s[3..]), "%3a", Placeholder());
  }

  lemma LowerThenRest(s: string)
    requires IsEncodedColon(s) && s[2] == 'a'
    ensures Lower(Upper(s)) == Placeholder() + Lower(Upper(s[3..]))
  {
    hide ReplaceAll, HasPrefix, Upper;
    UpperMatches(s);
    UpperMatches(s[1..]);
    UpperMatches(s[2..]);
    UpperStarts(s);
    UpperStarts(s[1..]);
    UpperStarts(s[2..]);
    assert Upper(s) == "%3a" + Upper(s[3..]);
    Match("%3a", Upper(s[3..]), Placeholder());
  }

  // ---------------------------------------------------------------- splitting what is encoded

  /** How many characters the first step of an encoding takes, and what it makes of them. */
  ghost function StepLength(s: string): (n: nat)
    ensures n > 0
  {
    if IsEncodedColon(s) then 3 else 1
  }

  ghost function StepText(s: string): string
    requires s != ""
  {
    if IsEncodedColon(s) then Placeholder() else [s[0]]
  }

  lemma EncodeStep(s: string)
    requires s != ""
    ensures StepLength(s) <= |s| && Encode(s) == StepText(s) + Encode(s[StepLength(s)..])
  {
  }

  /** A colon is no part of an encoded colon, so what comes before it steps alike. */
  lemma StepBeforeColon(s: string, i: nat)
    requires 0 < i < |s| && s[i] == ':' && Without(s[..i], ':')
    ensures StepLength(s[..i]) == StepLength(s) <= i && StepText(s[..i]) == StepText(s)
  {
    assert forall j :: 0 <= j < i ==> s[j] == s[..i][j];
  }

  lemma {:induction false} EncodeCut(s: string, i: nat)
    requires i < |s| && s[i] == ':' && Without(s[..i], ':')
    ensures Encode(s) == Encode(s[..i]) + ":" + Encode(s[i + 1..])
  {
    hide Encode, StepLength, StepText, Without;
    EncodeStep(s);
    if i == 0 {
      ColonSteps(s);
    } else {
      StepBeforeColon(s, i);
      EncodeStep(s[..i]);
      var n := StepLength(s);
      WithoutDrop(s[..i], n, ':');
      assert s[n..][..i - n] == s[..i][n..] && s[n..][i - n + 1..] == s[i + 1..];
      EncodeCut(s[n..], i - n);
      Associate(StepText(s), Encode(s[..i][n..]), ":" + Encode(s[i + 1..]));
    }
  }

  lemma ColonSteps(s: string)
    requires s != "" && s[0] == ':'
    ensures Encode(s) == Encode(s[..0]) + ":" + Encode(s[1..])
  {
  }

  lemma WithoutDrop(s: string, n: nat, c: char)
    requires Without(s, c) && n <= |s|
    ensures Without(s[n..], c)
  {
  }

  lemma Associate(a: string, b: string, c: string)
    ensures a + (b + c) == (a + b) + c
  {
  }

  lemma {:induction false} EncodeAddsNoColon(s: string)
    requires Without(s, ':')
    ensures Without(Encode(s), ':')
  {
    if s != "" { EncodeAddsNoColon(s[if IsEncodedColon(s) then 3 else 1..]); }
  }

  lemma SplitWhole(s: string)
    requires Without(s, ':')
    ensures Split(s, ':') == [s]
  {
  }

  lemma SplitFirst(u: string, t: string)
    requires Without(u, ':')
    ensures Split(u + ":" + t, ':') == [u] + Split(t, ':')
  {
    var s := u + ":" + t;
    assert s[..|u|] == u && s[|u| + 1..] == t;
    assert forall j :: 0 <= j < |u| ==> s[j] == u[j];
    assert s[|u|] == ':';
    assert Index(s, ':') == |u|;
  }

  /** A string is what comes before its first colon, and the rest. */
  lemma SplitSteps(s: string)
    ensures var i := Index(s, ':');
            Without(s[..i], ':') && if i == |s| then s[..i] == s else Split(s, ':') == [s[..i]] + Split(s[i + 1..], ':')
  {
  }

  ghost function EncodeAll(segments: seq<string>): seq<string> {
    seq(|segments|, i requires 0 <= i < |segments| => Encode(segments[i]))
  }

  lemma EncodeAllCons(first: string, rest: seq<string>)
    ensures EncodeAll([first] + rest) == [Encode(first)] + EncodeAll(rest)
  {
    hide Encode;
  }

  lemma {:induction false} SplitEncode(s: string)
    ensures Split(Encode(s), ':') == EncodeAll(Split(s, ':'))
  {
    hide Encode, Split, EncodeAll, Without;
    var i := Index(s, ':');
    SplitSteps(s);
    EncodeAddsNoColon(s[..i]);
    if i == |s| {
      SplitWhole(s);
      SplitWhole(Encode(s));
      EncodeAllOne(s);
    } else {
      EncodeCut(s, i);
      SplitFirst(Encode(s[..i]), Encode(s[i + 1..]));
      SplitEncode(s[i + 1..]);
      EncodeAllCons(s[..i], Split(s[i + 1..], ':'));
    }
  }

  lemma EncodeAllOne(s: string)
    ensures EncodeAll([s]) == [Encode(s)]
  {
    hide Encode;
  }

  lemma {:induction false} SplitWithout(s: string, c: char)
    requires Without(s, c)
    ensures forall k :: 0 <= k < |Split(s, ':')| ==> Without(Split(s, ':')[k], c)
  {
    var i := Index(s, ':');
    if i < |s| {
      SplitWithout(s[i + 1..], c);
      var rest := Split(s[i + 1..], ':');
      forall k | 0 <= k < |Split(s, ':')| ensures Without(Split(s, ':')[k], c) {
        if k > 0 { assert Split(s, ':')[k] == rest[k - 1]; }
      }
    }
  }

  lemma {:induction false} RestoreEncode(s: string)
    requires Without(s, '\0')
    ensures Restore(Encode(s)) == Decode(s)
  {
    if s != "" {
      if IsEncodedColon(s) {
        RestoreEncode(s[3..]);
        Match(Placeholder(), Encode(s[3..]), ":");
      } else {
        RestoreEncode(s[1..]);
        PassOver([s[0]], Encode(s[1..]), Placeholder(), ":");
      }
    }
  }

  /** Adjacent and overlapping-looking placeholders included, an identifier without NUL characters is split as if its
      segments had been split off first and then decoded one by one. */
  lemma SegmentsAreDecoded(msid: string)
    requires Without(msid, '\0')
    ensures RestoreAll(Split(Hidden(msid), ':')) == DecodeAll(Split(msid, ':'))
  {
    HiddenIsEncode(msid);
    hide ReplaceAll, Encode, Decode, Restore, Split;
    assert Hidden(msid) == Encode(msid);
    SplitEncode(msid);
    SplitWithout(msid, '\0');
    var parts := Split(msid, ':');
    forall k | 0 <= k < |parts| ensures Restore(Encode(parts[k])) == Decode(parts[k]) {
      RestoreEncode(parts[k]);
    }
  }

  /** With NUL characters it need not be: a placeholder in the text reads as a colon. */
  lemma PlaceholderInText()
    ensures RestoreAll(Split(Hidden(Placeholder()), ':')) == [":"] && DecodeAll(Split(Placeholder(), ':')) == [Placeholder()]
  {
    var p := Placeholder();
    PlaceholderStays();
    hide ReplaceAll, Split, Decode;
    SplitWhole(p);
  }

  lemma PlaceholderStays()
    ensures Hidden(Placeholder()) == Placeholder() && Restore(Placeholder()) == ":" && Decode(Placeholder()) == Placeholder()
  {
    var p := Placeholder();
    PassOver(p, "", "%3A", p);
    PassOver(p, "", "%3a", p);
    Match(p, "", ":");
    assert p + "" == p;
    DecodePlain(p);
  }

  lemma {:induction false} DecodePlain(s: string)
    requires Without(s, '%')
    ensures Decode(s) == s
  {
    if s != "" { DecodePlain(s[1..]); }
  }
}
