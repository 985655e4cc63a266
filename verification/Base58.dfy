/** The base58btc encoder of did:webvh and the decoder of the DID resolver, which work digit by digit in place. */
module Base58 {
  import opened Options
  import opened Powers
  import opened Numerals

  // ---------------------------------------------------------------- the size estimate

  /** 256^8 <= 58^11, so eight bytes never need more than eleven base-58 digits. */
  lemma EightBytesInElevenDigits()
    ensures Pow(256, 8) <= Pow(58, 11)
  {
    assert Pow(256, 4) == 0x1_0000_0000;
    PowAdd(256, 4, 4);
    assert Pow(58, 5) == 656356768;
    assert Pow(58, 6) == 38068692544;
    PowAdd(58, 5, 6);
  }

  /** A value of k bytes that reaches 58^i leaves room for index i in a buffer of n*138/100 + 1 digits. */
  lemma EstimateSuffices(i: nat, k: nat, n: nat, v: nat)
    requires Pow(58, i) <= v < Pow(256, k) && k <= n
    ensures i < n * 138 / 100 + 1
  {
    calc {
      Pow(58, i * 8);
      { PowMul(58, i, 8); }
      Pow(Pow(58, i), 8);
    <= { PowMonoBase(Pow(58, i), v, 8); }
      Pow(v, 8);
    <  { PowStrictBase(v, Pow(256, k), 8); }
      Pow(Pow(256, k), 8);
      { PowMul(256, k, 8); PowMul(256, 8, k); }
      Pow(Pow(256, 8), k);
    <= { EightBytesInElevenDigits(); PowMonoBase(Pow(256, 8), Pow(58, 11), k); }
      Pow(Pow(58, 11), k);
      { PowMul(58, 11, k); }
      Pow(58, 11 * k);
    }
    PowReflectsExp(58, i * 8, 11 * k);
  }

  lemma {:induction false} BytesBound(s: Digits)
    requires InBase(s, 256)
    ensures Be(s, 256) < Pow(256, |s|)
  {
    if s != [] {
      BytesBound(s[..|s| - 1]);
      MulMono(256, Be(s[..|s| - 1], 256), Pow(256, |s| - 1) - 1);
    }
  }

  // ---------------------------------------------------------------- the alphabet

  function Numbers(): string {
    "123456789"
  }

  function Capitals(): string {
    "ABCDEFGHJKLMNPQRSTUVWXYZ"
  }

  function Smalls(): string {
    "abcdefghijkmnopqrstuvwxyz"
  }

  function Alphabet(): (s: string)
    ensures |s| == 58
  {
    Numbers() + Capitals() + Smalls()
  }

  /** The alphabet is six runs of consecutive characters: it leaves out 0, O, I and l. */
  function Rank(c: char): int {
    if c <= '9' then c as int - '1' as int
    else if c <= 'H' then c as int - 'A' as int + 9
    else if c <= 'N' then c as int - 'J' as int + 17
    else if c <= 'Z' then c as int - 'P' as int + 22
    else if c <= 'k' then c as int - 'a' as int + 33
    else c as int - 'm' as int + 44
  }

  lemma NumeralRank(d: nat)
    requires d < |Numbers()|
    ensures Rank(Numbers()[d]) == d
  {
  }

  lemma CapitalRank(d: nat)
    requires d < |Capitals()|
    ensures Rank(Capitals()[d]) == d + 9
  {
  }

  lemma SmallRank(d: nat)
    requires d < |Smalls()|
    ensures Rank(Smalls()[d]) == d + 33
  {
  }

  lemma AlphabetRank(d: nat)
    requires d < |Alphabet()|
    ensures Rank(Alphabet()[d]) == d
  {
    hide Rank;
    if d < 9 {
      NumeralRank(d);
      assert Alphabet()[d] == Numbers()[d];
    } else if d < 33 {
      CapitalRank(d - 9);
      assert Alphabet()[d] == Capitals()[d - 9];
    } else {
      SmallRank(d - 33);
      assert Alphabet()[d] == Smalls()[d - 33];
    }
  }

  /** No character stands for two digits. */
  lemma AlphabetIsInjective(i: nat, j: nat)
    requires i < |Alphabet()| && j < |Alphabet()| && Alphabet()[i] == Alphabet()[j]
    ensures i == j
  {
    AlphabetRank(i);
    AlphabetRank(j);
  }

  predicate Spellable(s: string) {
    forall i :: 0 <= i < |s| ==> s[i] in Alphabet()
  }

  /** Where a string first holds a character. */
  function IndexOf(c: char, s: string): (d: nat)
    requires c in s
    ensures d < |s| && s[d] == c
  {
    if s[0] == c then 0 else 1 + IndexOf(c, s[1..])
  }

  /** The alphabetMap of the decoder. */
  function DigitOf(c: char): (d: nat)
    requires c in Alphabet()
    ensures d < |Alphabet()| && Alphabet()[d] == c
  {
    IndexOf(c, Alphabet())
  }

  function Symbol(d: nat): char
    requires d < 58
  {
    Alphabet()[d]
  }

  lemma SymbolFacts(d: nat)
    requires d < 58
    ensures Symbol(d) in Alphabet() && DigitOf(Symbol(d)) == d && (Symbol(d) == '1' <==> d == 0)
  {
    assert Alphabet()[0] == '1';
    AlphabetIsInjective(DigitOf(Alphabet()[d]), d);
    if Alphabet()[d] == '1' {
      AlphabetIsInjective(d, 0);
    }
  }

  function Spell(s: Digits): (t: string)
    requires InBase(s, 58)
    ensures |t| == |s| && forall i :: 0 <= i < |s| ==> t[i] == Symbol(s[i])
  {
    hide Symbol, Alphabet;
    if s == [] then [] else [Symbol(s[0])] + Spell(s[1..])
  }

  function Read(t: string): (s: Digits)
    requires Spellable(t)
    ensures |s| == |t| && forall i :: 0 <= i < |t| ==> s[i] == DigitOf(t[i])
    ensures InBase(s, 58)
  {
    if t == [] then [] else [DigitOf(t[0])] + Read(t[1..])
  }

  lemma ReadSpell(s: Digits)
    requires InBase(s, 58)
    ensures Spellable(Spell(s)) && Read(Spell(s)) == s
  {
    hide Symbol, DigitOf, Alphabet;
    var t := Spell(s);
    forall i | 0 <= i < |s|
      ensures t[i] in Alphabet() && DigitOf(t[i]) == s[i]
    {
      SymbolFacts(s[i]);
    }
  }

  lemma DigitSymbol(c: char)
    requires c in Alphabet()
    ensures DigitOf(c) < 58 && Symbol(DigitOf(c)) == c && (c == '1' <==> DigitOf(c) == 0)
  {
    SymbolFacts(DigitOf(c));
  }

  lemma SpellRead(t: string)
    requires Spellable(t)
    ensures Spell(Read(t)) == t
  {
    hide Symbol, DigitOf, Alphabet;
    forall i | 0 <= i < |t|
      ensures Spell(Read(t))[i] == t[i]
    {
      DigitSymbol(t[i]);
    }
  }

  // ---------------------------------------------------------------- what the two functions compute

  type Byte = b: nat | b < 256

  ghost function Encoded(data: seq<Byte>): string {
    ConvertRoundTrip(data, 256, 58);
    Spell(Convert(data, 256, 58))
  }

  /** None is the decoder's error: some character is not in the alphabet. */
  ghost function Decoded(text: string): Option<Digits> {
    if Spellable(text) then Some(Convert(Read(text), 58, 256)) else None
  }

  /** Decoding undoes encoding, for every byte string. */
  lemma DecodeEncode(data: seq<Byte>)
    ensures Decoded(Encoded(data)) == Some(data)
  {
    ConvertRoundTrip(data, 256, 58);
    ReadSpell(Convert(data, 256, 58));
  }

  /** Encoding undoes decoding, for every string the decoder accepts. */
  lemma EncodeDecode(text: string)
    requires Decoded(text).Some?
    ensures InBase(Decoded(text).value, 256)
    ensures Encoded(Decoded(text).value) == text
  {
    ConvertRoundTrip(Read(text), 58, 256);
    SpellRead(text);
  }

  /** Only the empty byte string encodes to the empty text. */
  lemma NonEmptyText(data: seq<Byte>)
    requires data != []
    ensures Encoded(data) != ""
  {
    hide Encoded, Decoded;
    DecodeEncode(data);
    EmptyText();
  }

  lemma EmptyText()
    ensures Decoded("") == Some([])
  {
    hide Alphabet, DigitOf;
    var none: Digits := [];
    assert Read("") == none;
    assert Zeros(Leading(none)) == none && BeDigits(Be(none, 58), 256) == none;
    assert Convert(none, 58, 256) == none;
  }

  // ---------------------------------------------------------------- the encoder

  /** One digit of a pass that multiplies a number by m, adds a carry and writes it back in base n:
      low is the value of the p-weighted digits done, d the next digit and rest the value of those above it. */
  lemma CarryStep(low: nat, p: nat, carry: nat, d: nat, rest: nat, m: nat, n: nat)
    requires n > 0
    ensures low + p * (carry + m * (d + n * rest))
            == (low + p * ((carry + m * d) % n)) + n * p * ((carry + m * d) / n + m * rest)
  {
    var x := carry + m * d;
    var q, c := x % n, x / n;
    DivMod(x, n);
    assert x == c * n + q;
    assert carry + m * (d + n * rest) == q + n * (c + m * rest) by {
      assert m * (d + n * rest) == m * d + n * (m * rest) by {
        MulAssoc(m, n, rest);
        MulAssoc(n, m, rest);
      }
    }
    assert p * (q + n * (c + m * rest)) == p * q + n * p * (c + m * rest) by {
      MulAssoc(p, n, c + m * rest);
    }
  }

  lemma CarryBound(carry: nat, d: nat)
    requires carry < 256 && d < 58
    ensures (carry + 256 * d) / 58 < 256
    ensures d > 0 ==> (carry + 256 * d) / 58 > 0
  {
  }

  /** The digits from index i up, none past the end. */
  ghost function Rest(s: Digits, i: nat): Digits {
    if i <= |s| then s[i..] else []
  }

  lemma PassStep(done: Digits, old_: Digits, carry: nat, total: nat, m: nat, n: nat)
    requires n > 0
    requires Le(done, n) + Pow(n, |done|) * (carry + m * Le(Rest(old_, |done|), n)) == total
    ensures var x := carry + m * if |done| < |old_| then old_[|done|] else 0;
            Le(done + [x % n], n) + Pow(n, |done| + 1) * (x / n + m * Le(Rest(old_, |done| + 1), n)) == total
  {
    var i := |done|;
    var d := if i < |old_| then old_[i] else 0;
    var x := carry + m * d;
    assert Le(Rest(old_, i), n) == d + n * Le(Rest(old_, i + 1), n) by {
      if i < |old_| {
        assert old_[i..][1..] == old_[i + 1..];
      }
    }
    CarryStep(Le(done, n), Pow(n, i), carry, d, Le(Rest(old_, i + 1), n), m, n);
    LeSnoc(done, x % n, n);
  }

  /** The inner loop of the encoder: buf[..length] is multiplied by 256 and b added, in place, in base 58. */
  method PushByte(buf: array<nat>, length: nat, b: Byte) returns (newLength: nat)
    requires length <= buf.Length && InBase(buf[..length], 58)
    requires length > 0 ==> buf[length - 1] != 0
    requires forall i: nat :: Pow(58, i) <= 256 * Le(buf[..length], 58) + b ==> i < buf.Length
    modifies buf
    ensures newLength <= buf.Length && InBase(buf[..newLength], 58)
    ensures newLength > 0 ==> buf[newLength - 1] != 0
    ensures Le(buf[..newLength], 58) == 256 * old(Le(buf[..length], 58)) + b
  {
    hide Le, Pow, Rest;
    ghost var D := buf[..length];
    ghost var total := 256 * Le(D, 58) + b;
    newLength := length;
    var carry: nat := b;
    var i := 0;
    PassStart(D, b);
    ghost var done: Digits := [];
    while i < newLength || carry != 0
      invariant i <= newLength <= buf.Length && carry < 256
      invariant newLength == if i <= |D| then |D| else i
      invariant forall k :: 0 <= k < i ==> buf[k] < 58
      invariant forall k :: i <= k < |D| ==> buf[k] == D[k]
      invariant done == buf[..i]
      invariant Le(done, 58) + Pow(58, i) * (carry + 256 * Le(Rest(D, i), 58)) == total
      invariant i == |D| && i > 0 ==> carry != 0
      invariant i > |D| && carry == 0 ==> buf[i - 1] != 0
      decreases if i < |D| then |D| - i else 0, carry
    {
      ghost var c0 := carry;
      PassStep(done, D, c0, total, 256, 58);
      if i < newLength {
        CarryBound(c0, D[i]);
        carry := carry + 256 * buf[i];
      } else {
        FitsHere(i, D, c0, Le(done, 58), total);
      }
      buf[i] := carry % 58;
      done := done + [carry % 58];
      carry := carry / 58;
      if i >= newLength {
        newLength := i + 1;
      }
      i := i + 1;
    }
    PassEnd(done, i, D, total);
  }

  lemma PassStart(s: Digits, b: nat)
    ensures Le([], 58) + Pow(58, 0) * (b + 256 * Le(Rest(s, 0), 58)) == 256 * Le(s, 58) + b
  {
  }

  lemma PassEnd(s: Digits, i: nat, old_: Digits, total: nat)
    requires i >= |old_| && Le(s, 58) + Pow(58, i) * (0 + 256 * Le(Rest(old_, i), 58)) == total
    ensures Le(s, 58) == total
  {
  }

  lemma FitsHere(i: nat, old_: Digits, carry: nat, low: nat, total: nat)
    requires i >= |old_| && carry > 0 && low + Pow(58, i) * (carry + 256 * Le(Rest(old_, i), 58)) == total
    ensures Pow(58, i) <= total
  {
    MulMono(Pow(58, i), 1, carry);
  }

  lemma EncoderRoom(data: seq<Byte>, k: nat, v: nat)
    requires k < |data| && v == Be(data[..k + 1], 256)
    ensures forall i: nat :: Pow(58, i) <= v ==> i < |data| * 138 / 100 + 1
  {
    BytesBound(data[..k + 1]);
    forall i: nat | Pow(58, i) <= v
      ensures i < |data| * 138 / 100 + 1
    {
      EstimateSuffices(i, k + 1, |data|, v);
    }
  }

  /** The digits of a buffer, read backwards, are the shortest numeral of its value. */
  lemma BufferIsNumeral(s: Digits, base: nat)
    requires base >= 2 && InBase(s, base)
    requires s != [] ==> s[|s| - 1] != 0
    ensures Reverse(s) == BeDigits(Le(s, base), base)
  {
    ReverseSwapsEnds(s, base);
    DigitsUnique(Reverse(s), base);
  }

  method Encode(data: seq<Byte>) returns (text: string)
    ensures text == Encoded(data)
  {
    hide Le, Be, Pow, BeDigits, Symbol;
    var zeros := 0;
    while zeros < |data| && data[zeros] == 0
      invariant zeros <= |data| && forall i :: 0 <= i < zeros ==> data[i] == 0
    {
      zeros := zeros + 1;
    }
    var buf := new nat[|data| * 138 / 100 + 1];
    var length: nat := 0;
    EmptyBuffer();
    assert data[..0] == [] && buf[..0] == [];
    for k := 0 to |data|
      invariant length <= buf.Length && InBase(buf[..length], 58)
      invariant length > 0 ==> buf[length - 1] != 0
      invariant Le(buf[..length], 58) == Be(data[..k], 256)
    {
      BeSnoc(data[..k], data[k], 256);
      assert data[..k + 1] == data[..k] + [data[k]];
      EncoderRoom(data, k, 256 * Le(buf[..length], 58) + data[k]);
      length := PushByte(buf, length, data[k]);
    }
    assert data[..|data|] == data;
    BufferIsNumeral(buf[..length], 58);
    text := BuildText(zeros, buf, length);
    ghost var numeral := BeDigits(Be(data, 256), 58);
    assert Leading(data) == zeros;
    ConvertRoundTrip(data, 256, 58);
    DigitsShape(Be(data, 256), 58);
    SpellPadded(text, zeros, numeral);
  }

  lemma EmptyBuffer()
    ensures Le([], 58) == Be([], 256)
  {
  }

  lemma SymbolOfZero()
    ensures Symbol(0) == '1'
  {
  }

  lemma SpellPadded(text: string, zeros: nat, numeral: Digits)
    requires InBase(numeral, 58) && |text| == zeros + |numeral|
    requires forall k :: 0 <= k < |text| ==> text[k] == if k < zeros then '1' else Symbol(numeral[k - zeros])
    ensures InBase(Zeros(zeros) + numeral, 58) && text == Spell(Zeros(zeros) + numeral)
  {
    hide Symbol, Spell, Zeros;
    SymbolOfZero();
    var all := Zeros(zeros) + numeral;
    forall k | 0 <= k < |all|
      ensures all[k] < 58 && text[k] == Symbol(all[k])
    {
      if k < zeros {
        assert all[k] == Zeros(zeros)[k] == 0;
      } else {
        assert all[k] == numeral[k - zeros];
      }
    }
  }

  /** The result loops of the encoder. */
  method BuildText(zeros: nat, buf: array<nat>, length: nat) returns (text: string)
    requires length <= buf.Length && InBase(buf[..length], 58)
    ensures |text| == zeros + length && InBase(Reverse(buf[..length]), 58)
    ensures forall k :: 0 <= k < |text| ==> text[k] == if k < zeros then '1' else Symbol(Reverse(buf[..length])[k - zeros])
  {
    hide Symbol, Reverse;
    assert forall i :: 0 <= i < length ==> buf[i] == buf[..length][i] < 58;
    var result := new char[zeros + length];
    for i := 0 to zeros
      invariant forall k :: 0 <= k < i ==> result[k] == '1'
    {
      result[i] := '1';
    }
    for i := 0 to length
      invariant forall k :: 0 <= k < zeros + i ==> result[k] == if k < zeros then '1' else Symbol(buf[length - 1 - (k - zeros)])
    {
      result[zeros + i] := Symbol(buf[length - 1 - i]);
    }
    text := result[..];
  }

  // ---------------------------------------------------------------- the decoder

  /** The inner loops of the decoder: a byte string is multiplied by 58 and a digit added, in base 256. */
  method PushDigit(bytes: Digits, digit: nat) returns (result: Digits)
    requires InBase(bytes, 256) && Shortest(bytes) && digit < 58
    ensures InBase(result, 256) && Shortest(result)
    ensures Be(result, 256) == Be(bytes, 256) * 58 + digit
  {
    hide Be, Pow;
    ghost var total := Be(bytes, 256) * 58 + digit;
    result := bytes;
    var carry: nat := digit;
    var i := |result|;
    DecodeStart(bytes, digit);
    while i > 0
      invariant 0 <= i <= |result| == |bytes| && carry < 58
      invariant InBase(result, 256)
      invariant forall k :: 0 <= k < i ==> result[k] == bytes[k]
      invariant Be(result[i..], 256) + Pow(256, |bytes| - i) * (carry + 58 * Be(bytes[..i], 256)) == total
      invariant i == 0 && bytes != [] && carry == 0 ==> result[0] != 0
    {
      i := i - 1;
      DecodeStep(result[i + 1..], bytes, i, carry, total);
      DecodeBound(carry, bytes[i]);
      carry := carry + result[i] * 58;
      result := result[i := carry % 256];
      carry := carry / 256;
      assert result[i..] == [result[i]] + result[i + 1..];
    }
    assert result[0..] == result && bytes[..0] == [];
    BeEmpty(256);
    while carry > 0
      invariant InBase(result, 256) && (carry == 0 ==> Shortest(result))
      invariant Be(result, 256) + Pow(256, |result|) * carry == total
    {
      PrependStep(result, carry, total);
      result := [carry % 256] + result;
      carry := carry / 256;
    }
  }

  lemma DecodeBound(carry: nat, d: nat)
    requires carry < 58 && d < 256
    ensures (carry + d * 58) / 256 < 58
    ensures d > 0 && (carry + d * 58) / 256 == 0 ==> (carry + d * 58) % 256 != 0
  {
  }

  lemma DecodeStart(bytes: Digits, digit: nat)
    ensures Be(bytes[|bytes|..], 256) + Pow(256, 0) * (digit + 58 * Be(bytes[..|bytes|], 256)) == Be(bytes, 256) * 58 + digit
  {
    assert bytes[..|bytes|] == bytes && bytes[|bytes|..] == [];
  }

  lemma DecodeStep(done: Digits, bytes: Digits, i: nat, carry: nat, total: nat)
    requires i < |bytes| && |done| == |bytes| - i - 1
    requires Be(done, 256) + Pow(256, |done|) * (carry + 58 * Be(bytes[..i + 1], 256)) == total
    ensures var x := carry + bytes[i] * 58;
            Be([x % 256] + done, 256) + Pow(256, |done| + 1) * (x / 256 + 58 * Be(bytes[..i], 256)) == total
  {
    var x := carry + bytes[i] * 58;
    assert bytes[..i + 1] == bytes[..i] + [bytes[i]];
    BeSnoc(bytes[..i], bytes[i], 256);
    CarryStep(Be(done, 256), Pow(256, |done|), carry, bytes[i], Be(bytes[..i], 256), 58, 256);
    BePrepend(x % 256, done);
  }

  lemma BeSingle(d: nat, base: nat)
    ensures Be([d], base) == d
  {
    assert Be([], base) == 0;
  }

  lemma BePrepend(d: nat, s: Digits)
    ensures Be([d] + s, 256) == Be(s, 256) + Pow(256, |s|) * d
  {
    hide Be, Pow;
    BeConcat([d], s, 256);
    BeSingle(d, 256);
  }

  lemma PrependStep(s: Digits, carry: nat, total: nat)
    requires Be(s, 256) + Pow(256, |s|) * carry == total
    ensures Be([carry % 256] + s, 256) + Pow(256, |s| + 1) * (carry / 256) == total
  {
    CarryStep(Be(s, 256), Pow(256, |s|), carry, 0, 0, 0, 256);
    BePrepend(carry % 256, s);
  }

  method Decode(text: string) returns (bytes: Option<Digits>)
    ensures bytes == Decoded(text)
  {
    hide Be, BeDigits, Alphabet, Zeros, Leading;
    var result: Digits := [];
    BeEmpty(256);
    BeEmpty(58);
    ghost var read: Digits := [];
    for k := 0 to |text|
      invariant forall i :: 0 <= i < k ==> text[i] in Alphabet()
      invariant |read| == k && forall i :: 0 <= i < k ==> read[i] == DigitOf(text[i])
      invariant InBase(result, 256) && Shortest(result)
      invariant Be(result, 256) == Be(read, 58)
    {
      if text[k] !in Alphabet() {
        return None;
      }
      BeSnoc(read, DigitOf(text[k]), 58);
      DigitSymbol(text[k]);
      result := PushDigit(result, DigitOf(text[k]));
      read := read + [DigitOf(text[k])];
    }
    assert read == Read(text);
    DigitsUnique(result, 256);
    var i := 0;
    ghost var numeral := result;
    while i < |text| && text[i] == '1'
      invariant i <= |text| && result == Zeros(i) + numeral
      invariant forall j :: 0 <= j < i ==> text[j] == '1'
    {
      ZerosCons(i, numeral);
      result := [0] + result;
      i := i + 1;
    }
    LeadingOnes(text, read, i);
    return Some(result);
  }

  lemma ZerosCons(n: nat, s: Digits)
    ensures [0] + (Zeros(n) + s) == Zeros(n + 1) + s
  {
    assert [0] + Zeros(n) == Zeros(n + 1);
  }

  lemma LeadingOnes(text: string, read: Digits, n: nat)
    requires Spellable(text) && read == Read(text) && n <= |text|
    requires forall j :: 0 <= j < n ==> text[j] == '1'
    requires n < |text| ==> text[n] != '1'
    ensures Leading(read) == n
  {
    forall j | 0 <= j < |text|
      ensures read[j] == 0 <==> text[j] == '1'
    {
      DigitSymbol(text[j]);
    }
  }
}
