/** The string operations of Go's strings package that the model needs. */
module Strings {

  predicate HasPrefix(s: string, prefix: string) {
    |prefix| <= |s| && s[..|prefix|] == prefix
  }

  function TrimPrefix(s: string, prefix: string): (t: string)
    ensures HasPrefix(s, prefix) ==> s == prefix + t
  {
    if HasPrefix(s, prefix) then s[|prefix|..] else s
  }

  predicate Contains(s: string, sub: string) {
    exists i :: 0 <= i <= |s| - |sub| && HasPrefix(s[i..], sub)
  }

  /** Where the character first occurs, or the length when it does not. */
  function Index(s: string, c: char): (i: nat)
    ensures i <= |s| && (i < |s| ==> s[i] == c) && forall j :: 0 <= j < i ==> s[j] != c
  {
    if s == "" || s[0] == c then 0 else 1 + Index(s[1..], c)
  }

  function Split(s: string, c: char): (parts: seq<string>)
    ensures parts != []
  {
    var i := Index(s, c);
    if i == |s| then [s] else [s[..i]] + Split(s[i + 1..], c)
  }

  /** At most n parts, the last of which is not split further. */
  function SplitN(s: string, c: char, n: nat): seq<string>
    requires n > 0
  {
    var i := Index(s, c);
    if n == 1 || i == |s| then [s] else [s[..i]] + SplitN(s[i + 1..], c, n - 1)
  }

  /** Replaces what is sought wherever it occurs, from the left, without overlaps. */
  function ReplaceAll(s: string, sought: string, put: string): string
    requires sought != ""
  {
    if s == "" then ""
    else if HasPrefix(s, sought) then put + ReplaceAll(s[|sought|..], sought, put)
    else [s[0]] + ReplaceAll(s[1..], sought, put)
  }
}
