/** Decimal numerals, as Go prints them with %d or big.Int.String. */
module Decimals {

  function Digit(d: nat): char
    requires d < 10
  {
    ('0' as int + d) as char
  }

  function Decimal(n: nat): string
  {
    if n < 10 then [Digit(n)] else Decimal(n / 10) + [Digit(n % 10)]
  }

  /** The form of big.Int.String: a minus sign precedes the numeral of a negative number. */
  function Signed(n: int): string
  {
    if n < 0 then "-" + Decimal(-n) else Decimal(n)
  }

  predicate IsDigit(c: char) {
    '0' <= c <= '9'
  }

  lemma DecimalIsDigits(n: nat)
    ensures |Decimal(n)| > 0
    ensures forall i :: 0 <= i < |Decimal(n)| ==> IsDigit(Decimal(n)[i])
  {
    if n >= 10 {
      DecimalIsDigits(n / 10);
    }
  }

  /** A numeral determines its number. */
  lemma {:induction false} DecimalInjective(m: nat, n: nat)
    requires Decimal(m) == Decimal(n)
    ensures m == n
  {
    DecimalIsDigits(m / 10);
    DecimalIsDigits(n / 10);
    var s, t := Decimal(m), Decimal(n);
    assert s[|s| - 1] == t[|t| - 1];
    if m >= 10 && n >= 10 {
      assert s[..|s| - 1] == Decimal(m / 10);
      assert t[..|t| - 1] == Decimal(n / 10);
      DecimalInjective(m / 10, n / 10);
    } else {
      assert |s| == 1 <==> m < 10;
      assert |t| == 1 <==> n < 10;
    }
  }

  lemma SignedInjective(m: int, n: int)
    requires Signed(m) == Signed(n)
    ensures m == n
  {
    DecimalIsDigits(if m < 0 then -m else m);
    DecimalIsDigits(if n < 0 then -n else n);
    assert Signed(m)[0] == '-' <==> m < 0;
    assert Signed(n)[0] == '-' <==> n < 0;
    if m < 0 && n < 0 {
      assert Signed(m)[1..] == Decimal(-m);
      assert Signed(n)[1..] == Decimal(-n);
      DecimalInjective(-m, -n);
    } else if m >= 0 && n >= 0 {
      DecimalInjective(m, n);
    }
  }

  lemma DashAfterNumeral(n: nat, s: string)
    requires Decimal(n) + "-" <= s
    ensures |Decimal(n)| < |s| && s[|Decimal(n)|] == '-' && s[..|Decimal(n)|] == Decimal(n)
    ensures forall i :: 0 <= i < |Decimal(n)| ==> s[i] != '-'
  {
    DecimalIsDigits(n);
    var a := Decimal(n) + "-";
    assert s[..|a|] == a;
    assert a[|a| - 1] == '-';
    assert forall i :: 0 <= i < |Decimal(n)| ==> s[i] == a[i] == Decimal(n)[i];
  }

  /** "n-rest" determines n: a numeral holds no dash. */
  lemma DashedPrefixDeterminesNumber(m: nat, n: nat, s: string)
    requires Decimal(m) + "-" <= s
    requires Decimal(n) + "-" <= s
    ensures m == n
  {
    DashAfterNumeral(m, s);
    DashAfterNumeral(n, s);
    assert |Decimal(m)| == |Decimal(n)|;
    DecimalInjective(m, n);
  }
  // ---------------------------------------------------------------- the numeral read back

  /** The number that a string of digits denotes. */
  ghost function Value(s: string): int {
    if s == "" then 0 else 10 * Value(s[..|s| - 1]) + (s[|s| - 1] as int - '0' as int)
  }

  /** A string of digits that denotes n, without leading zeros. */
  ghost predicate IsNumeral(s: string, n: nat) {
    && s != "" && (forall i :: 0 <= i < |s| ==> IsDigit(s[i]))
    && Value(s) == n
    && (|s| > 1 ==> s[0] != '0')
  }

  lemma ValueStep(s: string, c: char)
    ensures Value(s + [c]) == 10 * Value(s) + (c as int - '0' as int)
  {
    assert (s + [c])[..|s|] == s;
  }

  lemma {:induction false} ValueBounds(s: string)
    requires s != "" && (forall i :: 0 <= i < |s| ==> IsDigit(s[i]))
    ensures Value(s) >= 0 && (s[0] != '0' ==> Value(s) >= 1) && (|s| == 1 ==> Value(s) < 10)
  {
    var before, last := s[..|s| - 1], s[|s| - 1];
    assert s == before + [last];
    ValueStep(before, last);
    if before != "" { ValueBounds(before); }
  }

  lemma {:induction false} DecimalIsNumeral(n: nat)
    ensures IsNumeral(Decimal(n), n)
  {
    DecimalIsDigits(n);
    if n < 10 {
      ValueStep("", Digit(n));
      assert "" + [Digit(n)] == [Digit(n)];
    } else {
      var q, r := n / 10, n % 10;
      DecimalIsNumeral(q);
      ValueStep(Decimal(q), Digit(r));
      ValueStep("", '0');
      assert "" + ['0'] == "0";
      assert Decimal(n)[0] == Decimal(q)[0] != '0';
    }
  }

  /** Decimal gives the one numeral. */
  lemma {:induction false} NumeralIsDecimal(s: string, n: nat)
    requires IsNumeral(s, n)
    ensures s == Decimal(n)
  {
    var before, last := s[..|s| - 1], s[|s| - 1];
    assert s == before + [last];
    ValueStep(before, last);
    var d := last as int - '0' as int;
    assert Digit(d) == last;
    if before != "" {
      assert before[0] == s[0];
      ValueBounds(before);
      assert n == 10 * Value(before) + d && n / 10 == Value(before) && n % 10 == d;
      NumeralIsDecimal(before, n / 10);
    }
  }
}
