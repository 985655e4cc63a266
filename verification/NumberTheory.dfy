/** Arithmetic modulo a prime: Euclid's lemma, Fermat's little theorem, square roots for p = 3 (mod 4). */
module NumberTheory {
  import opened Sets
  import opened Powers

  ghost predicate Prime(p: nat) {
    p >= 2 && forall d :: 1 < d < p ==> p % d != 0
  }

  // ---------------------------------------------------------------- residues

  lemma ModUnique(n: int, q: int, r: int, p: int)
    requires p > 0 && n == q * p + r && 0 <= r < p
    ensures n % p == r
  {
    var e := n / p - q;
    assert n == p * (n / p) + n % p;
    assert e * p == r - n % p by {
      assert (n / p - q) * p == p * (n / p) - q * p;
    }
    if e > 0 {
      MulMono(p, 1, e);
    } else if e < 0 {
      MulMono(p, e, -1);
    }
  }

  lemma AddMultiple(n: int, k: int, p: int)
    requires p > 0
    ensures (n + k * p) % p == n % p
  {
    assert n == p * (n / p) + n % p;
    assert n + k * p == (n / p + k) * p + n % p;
    ModUnique(n + k * p, n / p + k, n % p, p);
  }

  /** A multiple of p, with its cofactor. */
  ghost predicate Divides(p: int, n: int) {
    exists k: int :: n == k * p
  }

  lemma DividesMod(p: int, n: int)
    requires p > 0
    ensures Divides(p, n) <==> n % p == 0
  {
    if k: int :| n == k * p {
      ModUnique(n, k, 0, p);
    }
    if n % p == 0 {
      assert n == (n / p) * p;
    }
  }

  lemma CongruentMod(p: int, m: int, n: int)
    requires p > 0
    ensures Divides(p, m - n) <==> m % p == n % p
  {
    if k: int :| m - n == k * p {
      AddMultiple(n, k, p);
    }
    if m % p == n % p {
      assert m == (m / p) * p + m % p && n == (n / p) * p + n % p;
      assert m - n == (m / p - n / p) * p;
    }
  }

  /** Residues multiply. */
  lemma MulMod(a: int, b: int, p: int)
    requires p > 0
    ensures (a * b) % p == ((a % p) * b) % p
  {
    assert a == (a / p) * p + a % p;
    assert a * b == (a % p) * b + (a / p * b) * p by {
      MulAssoc(a / p, p, b);
      MulAssoc(a / p, b, p);
      assert ((a / p) * p + a % p) * b == (a / p) * p * b + (a % p) * b;
    }
    AddMultiple((a % p) * b, a / p * b, p);
  }

  lemma MulMod2(a: int, b: int, p: int)
    requires p > 0
    ensures (a * b) % p == ((a % p) * (b % p)) % p
  {
    var r := a % p;
    MulMod(a, b, p);
    MulMod(b, r, p);
    assert r * b == b * r && (b % p) * r == r * (b % p);
  }

  lemma ModMod(a: int, p: int)
    requires p > 0
    ensures (a % p) % p == a % p
  {
    ModUnique(a % p, 0, a % p, p);
  }

  lemma MulCongruent(a: int, b: int, x: int, y: int, p: int)
    requires p > 0 && a % p == b % p && x % p == y % p
    ensures (a * x) % p == (b * y) % p
  {
    MulMod2(a, x, p);
    MulMod2(b, y, p);
  }

  lemma {:induction false} PowMod(a: nat, e: nat, p: nat)
    requires p > 0
    ensures Pow(a, e) % p == Pow(a % p, e) % p
  {
    if e > 0 {
      PowMod(a, e - 1, p);
      ModMod(a, p);
      MulCongruent(a, a % p, Pow(a, e - 1), Pow(a % p, e - 1), p);
    }
  }

  // ---------------------------------------------------------------- Euclid's lemma

  /** A prime that divides a product divides a factor. */
  lemma {:induction false} EuclidSmall(p: nat, a: nat, b: int)
    requires Prime(p) && 0 < a < p && (a * b) % p == 0
    ensures b % p == 0
    decreases a
  {
    if a > 1 {
      var q, r := p / a, p % a;
      assert p == q * a + r && 0 < r < a;
      assert r * b == p * b - q * (a * b) by {
        MulAssoc(q, a, b);
        assert (p - q * a) * b == p * b - q * a * b;
      }
      DividesMod(p, a * b);
      var k: int :| a * b == k * p;
      assert r * b == (b - q * k) * p by {
        MulAssoc(q, k, p);
        assert (b - q * k) * p == b * p - q * k * p;
      }
      ModUnique(r * b, b - q * k, 0, p);
      EuclidSmall(p, r, b);
    }
  }

  lemma Euclid(p: nat, a: int, b: int)
    requires Prime(p) && (a * b) % p == 0
    ensures a % p == 0 || b % p == 0
  {
    if a % p != 0 {
      MulMod(a, b, p);
      EuclidSmall(p, a % p, b);
    }
  }

  // ---------------------------------------------------------------- Fermat's little theorem

  lemma EmptyOrNot(s: set<int>)
    ensures s == {} || exists x :: x in s
  {
    if forall x :: x !in s {
      assert s == {};
    }
  }

  ghost function Pick(s: set<int>): (x: int)
    requires s != {}
    ensures x in s
  {
    EmptyOrNot(s);
    var y :| y in s;
    y
  }

  ghost function Prod(s: set<int>): int {
    if s == {} then 1 else Pick(s) * Prod(s - {Pick(s)})
  }

  lemma {:induction false} ProdRemove(s: set<int>, x: int)
    requires x in s
    ensures Prod(s) == x * Prod(s - {x})
    decreases |s|
  {
    var y := Pick(s);
    if y != x {
      ProdRemove(s - {y}, x);
      ProdRemove(s - {x}, y);
      assert s - {x} - {y} == s - {y} - {x};
      MulAssoc(x, y, Prod(s - {x} - {y}));
      MulAssoc(y, x, Prod(s - {x} - {y}));
    }
  }

  /** The numbers 1 to p-1. */
  ghost function Units(p: nat): (s: set<int>)
    ensures forall i :: i in s <==> 1 <= i < p
    ensures |s| == if p == 0 then 0 else p - 1
  {
    if p <= 1 then {} else Units(p - 1) + {p - 1}
  }

  ghost function Times(a: int, p: int, s: set<int>): set<int>
    requires p > 0
  {
    set i | i in s :: Residue(a, p, i)
  }

  function Residue(a: int, p: int, i: int): int
    requires p > 0
  {
    (a * i) % p
  }

  lemma TimesInjective(a: int, p: nat, i: int, j: int)
    requires Prime(p) && a % p != 0 && 1 <= i < p && 1 <= j < p && (a * i) % p == (a * j) % p
    ensures i == j
  {
    CongruentMod(p, a * i, a * j);
    DividesMod(p, a * i - a * j);
    assert a * i - a * j == a * (i - j);
    Euclid(p, a, i - j);
    DividesMod(p, i - j);
    var k: int :| i - j == k * p;
    if k > 0 {
      MulMono(p, 1, k);
    } else if k < 0 {
      MulMono(p, k, -1);
    }
  }

  lemma TimesRemove(a: int, p: nat, s: set<int>, x: int)
    requires Prime(p) && a % p != 0 && x in s && s <= Units(p)
    ensures Residue(a, p, x) in Times(a, p, s)
    ensures Times(a, p, s) - {Residue(a, p, x)} == Times(a, p, s - {x})
    ensures |Times(a, p, s)| == |Times(a, p, s - {x})| + 1
  {
    hide Residue;
    forall i | i in s - {x}
      ensures Residue(a, p, i) != Residue(a, p, x)
    {
      ResidueValue(a, p, i);
      ResidueValue(a, p, x);
      if Residue(a, p, i) == Residue(a, p, x) {
        TimesInjective(a, p, i, x);
      }
    }
  }

  lemma ResidueValue(a: int, p: int, i: int)
    requires p > 0
    ensures Residue(a, p, i) == (a * i) % p
  {
  }

  lemma {:induction false} TimesProduct(a: nat, p: nat, s: set<int>)
    requires Prime(p) && a % p != 0 && s <= Units(p)
    ensures |Times(a, p, s)| == |s|
    ensures Prod(Times(a, p, s)) % p == (Pow(a, |s|) * Prod(s)) % p
    decreases |s|
  {
    hide Residue;
    if s == {} {
      assert Times(a, p, s) == {};
    } else {
      hide Times, Prod;
      var x :| x in s;
      var t := s - {x};
      var fx := Residue(a, p, x);
      TimesProduct(a, p, t);
      TimesRemove(a, p, s, x);
      ProdRemove(Times(a, p, s), fx);
      ProdRemove(s, x);
      ProductStep(a, x, p, Prod(Times(a, p, t)), Pow(a, |t|), Prod(t));
    }
  }

  lemma ProductStep(a: int, x: int, p: int, image: int, power: int, rest: int)
    requires p > 0 && image % p == (power * rest) % p
    ensures (Residue(a, p, x) * image) % p == (a * power * (x * rest)) % p
  {
    ModMod(a * x, p);
    MulCongruent(Residue(a, p, x), a * x, image, power * rest, p);
    Shuffle(a, x, power, rest);
  }

  lemma Shuffle(a: int, x: int, u: int, v: int)
    ensures a * x * (u * v) == a * u * (x * v)
  {
    MulAssoc(a, x, u * v);
    MulAssoc(x, u, v);
    MulAssoc(u, x, v);
    MulAssoc(a, u, x * v);
  }

  lemma {:induction false} ProdOfUnits(p: nat, s: set<int>)
    requires Prime(p) && s <= Units(p)
    ensures Prod(s) % p != 0
    decreases |s|
  {
    if s == {} {
      ModUnique(1, 0, 1, p);
    } else {
      var x :| x in s;
      ProdRemove(s, x);
      ProdOfUnits(p, s - {x});
      ModUnique(x, 0, x, p);
      NonZeroProduct(p, x, Prod(s - {x}));
    }
  }

  lemma NonZeroProduct(p: nat, a: int, b: int)
    requires Prime(p) && a % p != 0 && b % p != 0
    ensures (a * b) % p != 0
  {
    if (a * b) % p == 0 {
      Euclid(p, a, b);
    }
  }

  lemma UnitsPermuted(p: nat, a: nat)
    requires Prime(p) && a % p != 0
    ensures Times(a, p, Units(p)) == Units(p)
  {
    var u := Units(p);
    TimesProduct(a, p, u);
    forall i | i in u
      ensures Residue(a, p, i) in u
    {
      ModUnique(i, 0, i, p);
      NonZeroProduct(p, a, i);
    }
    SubsetOfSameSize(Times(a, p, u), u);
  }

  /** A factor that does not divide p cancels. */
  lemma Cancel(p: nat, a: int, c: int)
    requires Prime(p) && c % p != 0 && c % p == (a * c) % p
    ensures a % p == 1
  {
    CongruentMod(p, a * c, c);
    DividesMod(p, a * c - c);
    assert a * c - c == (a - 1) * c;
    Euclid(p, a - 1, c);
    DividesMod(p, a - 1);
    CongruentMod(p, a, 1);
    ModUnique(1, 0, 1, p);
  }

  lemma Fermat(p: nat, a: nat)
    requires Prime(p) && a % p != 0
    ensures Pow(a, p - 1) % p == 1
  {
    UnitsPermuted(p, a);
    TimesProduct(a, p, Units(p));
    ProdOfUnits(p, Units(p));
    Cancel(p, Pow(a, p - 1), Prod(Units(p)));
  }
}
