/** Decompression of secp256k1 public keys: square roots modulo a prime p = 3 (mod 4). */
module Secp256k1 {
  import opened Options
  import opened Powers
  import opened Numerals
  import opened NumberTheory

  /** The field prime of SEC 2. */
  const P: nat := 0xFFFFFFFF_FFFFFFFF_FFFFFFFF_FFFFFFFF_FFFFFFFF_FFFFFFFF_FFFFFFFE_FFFFFC2F

  // ---------------------------------------------------------------- the curve

  /** x^3 + 7, computed as Exp and Add then Mod do. */
  function Rhs(x: nat, p: nat): nat
    requires p > 0
  {
    (Pow(x, 3) % p + 7) % p
  }

  predicate OnCurve(x: nat, y: nat, p: nat)
    requires p > 0
  {
    Pow(y, 2) % p == Rhs(x, p)
  }

  /** decompressSecp256k1 on numbers: None is the "not on the curve" error. */
  function SolveY(odd: nat, x: nat, p: nat): Option<nat>
    requires p > 0
  {
    var rhs := Rhs(x, p);
    var y := Pow(rhs, (p + 1) / 4) % p;
    if Pow(y, 2) % p != rhs then None
    else Some(if y % 2 != odd then p - y else y)
  }

  // ---------------------------------------------------------------- square roots

  lemma Square(n: nat)
    ensures Pow(n, 2) == n * n
  {
    assert Pow(n, 1) == n * Pow(n, 0);
  }

  /** z^(p+1) = z^2 modulo a prime p, by Fermat's little theorem. */
  lemma FermatSquared(z: nat, p: nat)
    requires Prime(p)
    ensures Pow(z, 2 + (p - 1)) % p == Pow(z, 2) % p
  {
    assert p >= 2;
    hide Pow, Prime;
    PowAdd(z, 2, p - 1);
    if z % p == 0 {
      PowMod(z, 2, p);
      Square(0);
      ModUnique(0, 0, 0, p);
      MulMod2(Pow(z, 2), Pow(z, p - 1), p);
    } else {
      Fermat(p, z);
      MulMod2(Pow(z, 2), Pow(z, p - 1), p);
      ModMod(Pow(z, 2), p);
    }
  }

  lemma Exponents(p: nat)
    requires p % 4 == 3
    ensures 2 * ((p + 1) / 4 * 2) == 2 + (p - 1)
  {
  }

  /** For p = 3 (mod 4) the candidate root of a square is a root. */
  lemma RootOfSquare(r: nat, z: nat, p: nat)
    requires Prime(p) && p % 4 == 3 && r < p && Pow(z, 2) % p == r
    ensures Pow(Pow(r, (p + 1) / 4) % p, 2) % p == r
  {
    hide Pow, Prime;
    var e := (p + 1) / 4;
    Exponents(p);
    PowMod(Pow(r, e), 2, p);
    PowMul(r, e, 2);
    PowMod(Pow(z, 2), e * 2, p);
    PowMul(z, 2, e * 2);
    FermatSquared(z, p);
  }

  /** Two roots below p are equal or add up to p. */
  lemma TwoRoots(y: nat, z: nat, p: nat)
    requires Prime(p) && y < p && z < p && Pow(y, 2) % p == Pow(z, 2) % p
    ensures y == z || y + z == p
  {
    Square(y);
    Square(z);
    CongruentMod(p, y * y, z * z);
    DividesMod(p, y * y - z * z);
    assert y * y - z * z == (y - z) * (y + z);
    Euclid(p, y - z, y + z);
    DividesMod(p, y - z);
    DividesMod(p, y + z);
    if k: int :| y - z == k * p {
      SmallMultiple(k, p);
    } else {
      var k: int :| y + z == k * p;
      if k >= 2 {
        MulMono(p, 2, k);
      } else if k <= 0 {
        MulMono(p, k, 0);
      }
    }
  }

  lemma NegatedRoot(y: nat, p: nat)
    requires 0 < p && y <= p
    ensures Pow(p - y, 2) % p == Pow(y, 2) % p
  {
    Square(p - y);
    Square(y);
    assert (p - y) * (p - y) == y * y + (p - 2 * y) * p;
    AddMultiple(y * y, p - 2 * y, p);
  }

  // ---------------------------------------------------------------- what decompression computes

  /** It refuses x exactly when x^3 + 7 has no square root. */
  lemma RefusesNonResidues(odd: nat, x: nat, p: nat)
    requires Prime(p) && p % 4 == 3
    ensures SolveY(odd, x, p).Some? <==> exists z: nat :: z < p && OnCurve(x, z, p)
  {
    var y := Pow(Rhs(x, p), (p + 1) / 4) % p;
    if z: nat :| z < p && OnCurve(x, z, p) {
      RootOfSquare(Rhs(x, p), z, p);
    }
    if SolveY(odd, x, p).Some? {
      assert OnCurve(x, y, p);
    }
  }

  /** Where it succeeds the answer is on the curve, has the parity asked for and is at most p. */
  lemma AnswerOnCurve(odd: nat, x: nat, p: nat)
    requires p % 2 == 1 && odd < 2 && SolveY(odd, x, p).Some?
    ensures var y := SolveY(odd, x, p).value; y <= p && OnCurve(x, y, p) && y % 2 == odd
  {
    hide Pow, Rhs;
    var y := Pow(Rhs(x, p), (p + 1) / 4) % p;
    NegatedRoot(y, p);
    OtherParity(y, p);
  }

  lemma OtherParity(y: nat, p: nat)
    requires p % 2 == 1 && y <= p
    ensures (p - y) % 2 == 1 - y % 2
  {
  }

  /** The answer is a field element exactly unless the root is zero and the odd one is asked for: then it is p itself. */
  lemma AnswerIsReduced(odd: nat, x: nat, p: nat)
    requires Prime(p) && p % 4 == 3 && odd < 2
    ensures SolveY(odd, x, p).Some? ==> (SolveY(odd, x, p).value < p <==> !(Rhs(x, p) == 0 && odd == 1))
  {
    var y := Pow(Rhs(x, p), (p + 1) / 4) % p;
    Square(y);
    if y == 0 {
      ModUnique(0, 0, 0, p);
    } else {
      ModUnique(y, 0, y, p);
      NonZeroProduct(p, y, y);
    }
  }

  /** No other field element of that parity lies on the curve at x. */
  lemma AnswerIsUnique(odd: nat, x: nat, z: nat, p: nat)
    requires Prime(p) && p % 4 == 3 && odd < 2
    requires z < p && OnCurve(x, z, p) && z % 2 == odd
    ensures SolveY(odd, x, p) == Some(z)
  {
    hide Pow, Rhs, Prime;
    RootOfSquare(Rhs(x, p), z, p);
    var y := Pow(Rhs(x, p), (p + 1) / 4) % p;
    TwoRoots(y, z, p);
    OtherParity(y, p);
  }

  // ---------------------------------------------------------------- keys as bytes

  /** FillBytes: exactly w bytes, most significant first. */
  function FixedBytes(n: nat, w: nat): Digits {
    if w == 0 then [] else FixedBytes(n / 256, w - 1) + [n % 256]
  }

  lemma {:induction false} FixedBytesValue(n: nat, w: nat)
    requires n < Pow(256, w)
    ensures |FixedBytes(n, w)| == w && InBase(FixedBytes(n, w), 256) && Be(FixedBytes(n, w), 256) == n
  {
    if w > 0 {
      DivMod(n, 256);
      FixedBytesValue(n / 256, w - 1);
      BeSnoc(FixedBytes(n / 256, w - 1), n % 256, 256);
    }
  }

  lemma {:induction false} FixedBytesUnique(b: Digits)
    requires InBase(b, 256)
    ensures FixedBytes(Be(b, 256), |b|) == b
  {
    if b != [] {
      DivideStep(Be(b[..|b| - 1], 256), b[|b| - 1], 256);
      FixedBytesUnique(b[..|b| - 1]);
    }
  }

  datatype Outcome = Key(x: Digits, y: Digits) | BadLength | BadPrefix | NotAFieldElement | NotOnTheCurve

  function Decompress(compressed: Digits): Outcome {
    if |compressed| != 33 then BadLength
    else if compressed[0] != 2 && compressed[0] != 3 then BadPrefix
    else
      var x := Be(compressed[1..], 256);
      if x >= P then NotAFieldElement
      else
        match SolveY(compressed[0] % 2, x, P)
        case None => NotOnTheCurve
        case Some(y) => Key(FixedBytes(x, 32), FixedBytes(y, 32))
  }

  /** Point compression, section 2.3.3 of SEC 1. */
  function Compress(x: nat, y: nat): Digits {
    [2 + y % 2] + FixedBytes(x, 32)
  }

  lemma PFits()
    ensures P < Pow(256, 32) && P % 4 == 3
  {
    assert Pow(256, 4) == 0x1_0000_0000;
    PowAdd(256, 4, 4);
    PowAdd(256, 8, 8);
    PowAdd(256, 16, 16);
  }

  /** Decompression undoes compression of every point of the curve (section 2.3.4 of SEC 1). */
  lemma DecompressCompress(x: nat, y: nat)
    requires Prime(P) && x < P && y < P && OnCurve(x, y, P)
    ensures Decompress(Compress(x, y)) == Key(FixedBytes(x, 32), FixedBytes(y, 32))
  {
    hide Pow, Rhs, SolveY, OnCurve, Be, FixedBytes, Prime;
    PFits();
    FixedBytesValue(x, 32);
    var c := Compress(x, y);
    assert c[1..] == FixedBytes(x, 32);
    ParityBit(y);
    AnswerIsUnique(y % 2, x, y, P);
  }

  lemma ParityBit(y: nat)
    ensures (2 + y % 2) % 2 == y % 2
  {
  }

  /** Compressing what was decompressed gives the key's bytes again. */
  lemma CompressDecompress(c: Digits)
    requires InBase(c, 256)
    ensures Decompress(c).Key? ==> Compress(Be(Decompress(c).x, 256), Be(Decompress(c).y, 256)) == c
  {
    hide Pow, Rhs, OnCurve, Be, FixedBytes, SolveY;
    PFits();
    if !Decompress(c).Key? { return; }
    var x := Be(c[1..], 256);
    var y := SolveY(c[0] % 2, x, P).value;
    AnswerOnCurve(c[0] % 2, x, P);
    FixedBytesValue(x, 32);
    FixedBytesValue(y, 32);
    FixedBytesUnique(c[1..]);
    assert c == [c[0]] + c[1..];
  }

  /** A key is accepted exactly when it is well formed and its x is the coordinate of some point. */
  lemma AcceptsExactlyPoints(c: Digits)
    requires Prime(P)
    ensures Decompress(c).Key? <==>
            && |c| == 33 && (c[0] == 2 || c[0] == 3)
            && Be(c[1..], 256) < P
            && exists z: nat :: z < P && OnCurve(Be(c[1..], 256), z, P)
  {
    hide Pow, Rhs, OnCurve, Be, FixedBytes, SolveY;
    PFits();
    if |c| == 33 {
      RefusesNonResidues(c[0] % 2, Be(c[1..], 256), P);
    }
  }
}
