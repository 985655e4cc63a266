/** Numerals in a base, and the conversion between bases that keeps leading zeros. */
module Numerals {
  import opened Powers

  type Digits = seq<nat>

  // ---------------------------------------------------------------- numerals

  ghost predicate InBase(s: Digits, base: nat) {
    forall i :: 0 <= i < |s| ==> s[i] < base
  }

  /** The value of a numeral, most significant digit first. */
  function Be(s: Digits, base: nat): nat {
    if s == [] then 0 else Be(s[..|s| - 1], base) * base + s[|s| - 1]
  }

  /** The value of a numeral, least significant digit first. */
  function Le(s: Digits, base: nat): nat {
    if s == [] then 0 else s[0] + base * Le(s[1..], base)
  }

  /** The shortest numeral of n, most significant digit first. */
  function BeDigits(n: nat, base: nat): Digits
    requires base >= 2
  {
    if n == 0 then [] else BeDigits(n / base, base) + [n % base]
  }

  ghost predicate Shortest(s: Digits) {
    s == [] || s[0] != 0
  }

  function Zeros(n: nat): (z: Digits)
    ensures |z| == n && forall i :: 0 <= i < n ==> z[i] == 0
  {
    if n == 0 then [] else Zeros(n - 1) + [0]
  }

  function Leading(s: Digits): (n: nat)
    ensures n <= |s| && (forall i :: 0 <= i < n ==> s[i] == 0) && (n < |s| ==> s[n] != 0)
  {
    if s == [] || s[0] != 0 then 0 else 1 + Leading(s[1..])
  }

  /** Re-expresses a numeral in another base, keeping one zero digit per leading zero digit. */
  function Convert(s: Digits, from: nat, to: nat): Digits
    requires to >= 2
  {
    Zeros(Leading(s)) + BeDigits(Be(s, from), to)
  }

  lemma BeSnoc(s: Digits, d: nat, base: nat)
    ensures Be(s + [d], base) == Be(s, base) * base + d
  {
    assert (s + [d])[..|s|] == s;
  }

  lemma {:induction false} BeConcat(a: Digits, b: Digits, base: nat)
    ensures Be(a + b, base) == Be(a, base) * Pow(base, |b|) + Be(b, base)
  {
    if b == [] {
      assert a + b == a;
    } else {
      var b', d := b[..|b| - 1], b[|b| - 1];
      assert a + b == (a + b') + [d];
      BeSnoc(a + b', d, base);
      BeConcat(a, b', base);
      calc {
        (Be(a, base) * Pow(base, |b'|) + Be(b', base)) * base + d;
        Be(a, base) * Pow(base, |b'|) * base + Be(b', base) * base + d;
        { MulAssoc(Be(a, base), Pow(base, |b'|), base); }
        Be(a, base) * Pow(base, |b|) + Be(b, base);
      }
    }
  }

  lemma {:induction false} LeSnoc(s: Digits, d: nat, base: nat)
    ensures Le(s + [d], base) == Le(s, base) + Pow(base, |s|) * d
  {
    if s == [] {
      assert s + [d] == [d];
      assert Le([d], base) == d + base * Le([], base);
    } else {
      assert (s + [d])[1..] == s[1..] + [d];
      LeSnoc(s[1..], d, base);
      calc {
        Le(s + [d], base);
        s[0] + base * (Le(s[1..], base) + Pow(base, |s| - 1) * d);
        s[0] + base * Le(s[1..], base) + base * (Pow(base, |s| - 1) * d);
        { MulAssoc(base, Pow(base, |s| - 1), d); }
        Le(s, base) + Pow(base, |s|) * d;
      }
    }
  }

  function Reverse(s: Digits): (r: Digits)
    ensures |r| == |s| && forall i :: 0 <= i < |s| ==> r[i] == s[|s| - 1 - i]
  {
    if s == [] then [] else Reverse(s[1..]) + [s[0]]
  }

  lemma BeEmpty(base: nat)
    ensures Be([], base) == 0
  {
  }

  lemma {:induction false} ReverseSwapsEnds(s: Digits, base: nat)
    ensures Be(Reverse(s), base) == Le(s, base)
  {
    hide Be;
    if s == [] {
      BeEmpty(base);
    } else {
      ReverseSwapsEnds(s[1..], base);
      BeSnoc(Reverse(s[1..]), s[0], base);
    }
  }

  lemma DivMod(n: nat, base: nat)
    requires base > 0
    ensures n == n / base * base + n % base
  {
  }

  lemma {:induction false} DigitsValue(n: nat, base: nat)
    requires base >= 2
    ensures Be(BeDigits(n, base), base) == n
  {
    hide Be;
    if n > 0 {
      DigitsValue(n / base, base);
      DivMod(n, base);
      BeSnoc(BeDigits(n / base, base), n % base, base);
    } else {
      BeEmpty(base);
    }
  }

  lemma {:induction false} DigitsShape(n: nat, base: nat)
    requires base >= 2
    ensures InBase(BeDigits(n, base), base) && Shortest(BeDigits(n, base))
    ensures BeDigits(n, base) == [] <==> n == 0
  {
    if n > 0 {
      DigitsShape(n / base, base);
    }
  }

  lemma {:induction false} ValuePositive(s: Digits, base: nat)
    requires base >= 2 && Shortest(s) && s != []
    ensures Be(s, base) > 0
  {
    if |s| > 1 {
      ValuePositive(s[..|s| - 1], base);
      MulPositive(Be(s[..|s| - 1], base), base);
    }
  }

  lemma SmallMultiple(e: int, base: int)
    requires base > 0 && -base < e * base < base
    ensures e == 0
  {
    if e > 0 {
      MulMono(base, 1, e);
    } else if e < 0 {
      MulMono(base, e, -1);
    }
  }

  lemma DivideStep(q: nat, d: nat, base: nat)
    requires d < base
    ensures (q * base + d) / base == q && (q * base + d) % base == d
  {
    var n := q * base + d;
    DivMod(n, base);
    assert (n / base - q) * base == d - n % base;
    SmallMultiple(n / base - q, base);
  }

  /** The shortest numeral of a value is unique. */
  lemma {:induction false} DigitsUnique(s: Digits, base: nat)
    requires base >= 2 && InBase(s, base) && Shortest(s)
    ensures BeDigits(Be(s, base), base) == s
  {
    if s != [] {
      ValuePositive(s, base);
      DivideStep(Be(s[..|s| - 1], base), s[|s| - 1], base);
      DigitsUnique(s[..|s| - 1], base);
    }
  }

  lemma {:induction false} ZerosWorthNothing(n: nat, s: Digits, base: nat)
    ensures Be(Zeros(n) + s, base) == Be(s, base)
  {
    ZerosAlone(n, base);
    BeConcat(Zeros(n), s, base);
  }

  lemma ZerosAlone(n: nat, base: nat)
    ensures Be(Zeros(n), base) == 0
  {
    if n > 0 {
      BeSnoc(Zeros(n - 1), 0, base);
    }
  }

  lemma LeadingOfPadded(n: nat, s: Digits)
    requires Shortest(s)
    ensures Leading(Zeros(n) + s) == n
  {
    var t := Zeros(n) + s;
    assert forall i :: 0 <= i < n ==> t[i] == Zeros(n)[i] == 0;
    if s != [] {
      assert t[n] == s[0] != 0;
    }
  }

  lemma StripLeading(s: Digits)
    ensures s == Zeros(Leading(s)) + s[Leading(s)..] && Shortest(s[Leading(s)..])
  {
  }

  /** Converting to another base and back gives the numeral again, leading zeros included. */
  lemma ConvertRoundTrip(s: Digits, a: nat, b: nat)
    requires a >= 2 && b >= 2 && InBase(s, a)
    ensures InBase(Convert(s, a, b), b)
    ensures Convert(Convert(s, a, b), b, a) == s
  {
    hide Be, BeDigits;
    var z, n := Leading(s), Be(s, a);
    DigitsValue(n, b);
    DigitsShape(n, b);
    LeadingOfPadded(z, BeDigits(n, b));
    ZerosWorthNothing(z, BeDigits(n, b), b);
    StripLeading(s);
    ZerosWorthNothing(z, s[z..], a);
    DigitsUnique(s[z..], a);
  }
}
