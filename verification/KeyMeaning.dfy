/** Decompression of secp256k1 keys as an equation between integers, and all its refusals. */
module KeyMeaning {
  import opened Options
  import opened Powers
  import opened Numerals
  import opened NumberTheory
  import opened Secp256k1
  import opened CubeRoots

  lemma AddMod(a: int, b: int, p: int)
    requires p > 0
    ensures (a % p + b) % p == (a + b) % p
  {
    ModMod(a, p);
    CongruentMod(p, a % p, a);
    assert a % p + b - (a + b) == a % p - a;
    CongruentMod(p, a % p + b, a + b);
  }

  /** The curve is y^2 = x^3 + 7 modulo p. */
  lemma CurveMeaning(x: nat, y: nat, p: nat)
    requires p > 0
    ensures OnCurve(x, y, p) <==> (y * y) % p == (x * x * x + 7) % p
  {
    Square(y);
    assert Pow(x, 3) == x * x * x by {
      Square(x);
      assert Pow(x, 3) == x * Pow(x, 2);
      MulAssoc(x, x, x);
    }
    AddMod(x * x * x, 7, p);
  }

  /** The equation of the curve. */
  ghost predicate IsPoint(x: nat, y: nat) {
    (y * y) % P == (x * x * x + 7) % P
  }

  /** There is a y to this x. */
  ghost predicate HasPoint(x: nat) {
    exists y: nat :: y < P && IsPoint(x, y)
  }

  lemma PointMeaning(x: nat, y: nat)
    ensures OnCurve(x, y, P) <==> IsPoint(x, y)
  {
    CurveMeaning(x, y, P);
  }

  lemma FieldPrime()
    ensures P == Pow(2, 256) - Pow(2, 32) - 977
  {
    assert Pow(2, 8) == 256;
    PowAdd(2, 8, 8);
    PowAdd(2, 16, 16);
    assert Pow(2, 32) == 0x1_0000_0000;
    PowAdd(2, 32, 32);
    PowAdd(2, 64, 64);
    PowAdd(2, 128, 128);
  }

  /** A key of 33 bytes is the parity of y, as 2 or 3, and x below the field prime, most significant byte first. It is refused for
      the first reason that applies, and otherwise gives both coordinates of the one point with that x and parity. */
  lemma DecompressMeaning(c: Digits)
    requires Prime(P) && InBase(c, 256)
    ensures var sized := |c| == 33;
            var marked := sized && c[0] in {2, 3};
            var inField := marked && Be(c[1..], 256) < P;
            && (Decompress(c) == BadLength <==> !sized)
            && (Decompress(c) == BadPrefix <==> sized && !marked)
            && (Decompress(c) == NotAFieldElement <==> marked && !inField)
            && (Decompress(c) == NotOnTheCurve <==> inField && !HasPoint(Be(c[1..], 256)))
    ensures Decompress(c).Key? ==>
              var x, y := Be(c[1..], 256), Be(Decompress(c).y, 256);
              && Decompress(c).x == c[1..] && |Decompress(c).y| == 32
              && 0 < y < P && IsPoint(x, y) && y % 2 == c[0] - 2
  {
    hide Pow, Rhs, OnCurve, Be, FixedBytes, SolveY, Prime, IsPoint, InBase;
    PFits();
    AcceptsExactlyPoints(c);
    DecompressedIsPoint(c);
    if |c| == 33 && c[0] in {2, 3} && Be(c[1..], 256) < P {
      var x := Be(c[1..], 256);
      forall y: nat ensures OnCurve(x, y, P) <==> IsPoint(x, y) { PointMeaning(x, y); }
      RestIsBytes(c);
      FixedBytesUnique(c[1..]);
      FixedBytesValue(x, 32);
      if Decompress(c).Key? { KeyIsFixed(c); }
    }
  }

  lemma RestIsBytes(c: Digits)
    requires InBase(c, 256) && c != []
    ensures InBase(c[1..], 256)
  {
  }

  lemma KeyIsFixed(c: Digits)
    requires Decompress(c).Key?
    ensures |c| == 33 && Decompress(c).x == FixedBytes(Be(c[1..], 256), 32) && |Decompress(c).y| == 32
  {
    hide Pow, SolveY, Be;
    FixedLength(SolveY(c[0] % 2, Be(c[1..], 256), P).value, 32);
  }

  lemma {:induction false} FixedLength(n: nat, w: nat)
    ensures |FixedBytes(n, w)| == w
  {
    if w > 0 { FixedLength(n / 256, w - 1); }
  }
}
