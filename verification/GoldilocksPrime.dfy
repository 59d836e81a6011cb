/**
 The field modulus is prime. A number whose 2^31st power is -1 has order 2^32 modulo every divisor,
 so every divisor above 1 exceeds 2^32, and two such divisors would multiply to more than the modulus.
 */
module GoldilocksPrime {
  import opened Arith
  import opened Goldilocks

  function Pow(a: int, n: nat): int {
    if n == 0 then 1 else a * Pow(a, n - 1)
  }

  lemma {:induction false} PowAdd(a: int, m: nat, n: nat)
    ensures Pow(a, m + n) == Pow(a, m) * Pow(a, n)
  {
    if m > 0 {
      PowAdd(a, m - 1, n);
      MulAssociates(a, Pow(a, m - 1), Pow(a, n));
    }
  }

  lemma {:induction false} PowOfSquare(a: int, n: nat)
    ensures Pow(a * a, n) == Pow(a, 2 * n)
  {
    if n > 0 {
      PowOfSquare(a, n - 1);
      assert Pow(a, 2 * n) == a * (a * Pow(a, 2 * n - 2));
      MulAssociates(a, a, Pow(a, 2 * n - 2));
    }
  }

  /** Products of numbers with the same remainders have the same remainder. */
  lemma MulMod(a: int, b: int, c: int, e: int, d: nat)
    requires d > 0 && a % d == b % d && c % d == e % d
    ensures (a * c) % d == (b * e) % d
  {
    ProductRemainder(a, c, d);
    ProductRemainder(b, e, d);
  }

  lemma ProductRemainder(a: int, c: int, d: nat)
    requires d > 0
    ensures (a * c) % d == ((a % d) * (c % d)) % d
  {
    var q, r, s, t := a / d, a % d, c / d, c % d;
    DivMod(a, d);
    DivMod(c, d);
    DivMod(r * t, d);
    Expand(d, q, r, s, t);
    var k := d * q * s + q * t + s * r;
    assert a * c == d * (k + r * t / d) + (r * t) % d by {
      assert d * (k + r * t / d) == d * k + d * (r * t / d);
    }
    DivModUnique(a * c, d, k + r * t / d, (r * t) % d);
  }

  lemma Expand(d: int, q: int, r: int, s: int, t: int)
    ensures (d * q + r) * (d * s + t) == d * (d * q * s + q * t + s * r) + r * t
  {
  }

  /** Powers of something that is 1, and odd powers of something that is -1. */
  lemma {:induction false} PowOfOne(a: int, n: nat, d: nat)
    requires d > 1 && a % d == 1
    ensures Pow(a, n) % d == 1
  {
    if n > 0 {
      PowOfOne(a, n - 1, d);
      DivModUnique(1, d, 0, 1);
      MulMod(a, 1, Pow(a, n - 1), 1, d);
    } else {
      DivModUnique(1, d, 0, 1);
    }
  }

  lemma {:induction false} PowOfMinusOne(a: int, n: nat, d: nat)
    requires d > 2 && a % d == d - 1
    ensures Pow(a, n) % d == if n % 2 == 0 then 1 else d - 1
  {
    if n > 0 {
      PowOfMinusOne(a, n - 1, d);
      MinusOne(d);
      MulMod(a, -1, Pow(a, n - 1), if n % 2 == 1 then 1 else -1, d);
    }
  }

  lemma MinusOne(d: nat)
    requires d > 2
    ensures (-1) % d == d - 1 && 1 % d == 1
  {
    DivModUnique(-1, d, -1, d - 1);
    DivModUnique(1, d, 0, 1);
  }

  lemma {:induction false} PowTwice(a: int, m: nat, n: nat)
    ensures Pow(Pow(a, m), n) == Pow(a, m * n)
  {
    if n > 0 {
      PowTwice(a, m, n - 1);
      PowAdd(a, m, m * (n - 1));
      assert m * n == m + m * (n - 1);
    } else {
      assert m * 0 == 0;
    }
  }

  /** When the 2^s-th power is -1, no smaller positive power than the 2^(s+1)-th is 1. */
  lemma {:induction false} NoEarlyOne(g: int, s: nat, d: nat, m: nat)
    requires d > 2 && Pow(g, Pow2(s)) % d == d - 1 && 0 < m < Pow2(s + 1)
    ensures Pow(g, m) % d != 1
    decreases s
  {
    if Pow(g, m) % d == 1 {
      assert Pow2(s) * m == m * Pow2(s);
      if m % 2 == 1 {
        PowOfMinusOne(Pow(g, Pow2(s)), m, d);
        PowOfOne(Pow(g, m), Pow2(s), d);
        PowTwice(g, Pow2(s), m);
        PowTwice(g, m, Pow2(s));
      } else {
        PowOfSquare(g, m / 2);
        PowOfSquare(g, Pow2(s - 1));
        NoEarlyOne(g * g, s - 1, d, m / 2);
      }
    }
  }

  lemma FullTurn(g: int, s: nat, d: nat)
    requires d > 2 && Pow(g, Pow2(s)) % d == d - 1
    ensures Pow(g, Pow2(s + 1)) % d == 1
  {
    PowTwice(g, Pow2(s), 2);
    PowOfMinusOne(Pow(g, Pow2(s)), 2, d);
  }

  /** All powers below the 2^(s+1)-th are different modulo d. */
  lemma PowersDiffer(g: int, s: nat, d: nat, i: nat, j: nat)
    requires d > 2 && Pow(g, Pow2(s)) % d == d - 1 && i < j < Pow2(s + 1)
    ensures Pow(g, i) % d != Pow(g, j) % d
  {
    if Pow(g, i) % d == Pow(g, j) % d {
      var turn := Pow2(s + 1);
      FullTurn(g, s, d);
      PowAdd(g, turn - i, i);
      PowAdd(g, turn - i, j);
      MulMod(Pow(g, turn - i), Pow(g, turn - i), Pow(g, i), Pow(g, j), d);
      PowAdd(g, turn, j - i);
      assert turn - i + j == turn + (j - i);
      MinusOne(d);
      MulMod(Pow(g, turn), 1, Pow(g, j - i), Pow(g, j - i), d);
      NoEarlyOne(g, s, d, j - i);
    }
  }

  lemma PowerNotZero(g: int, s: nat, d: nat, i: nat)
    requires d > 2 && Pow(g, Pow2(s)) % d == d - 1 && i < Pow2(s + 1)
    ensures Pow(g, i) % d != 0
  {
    if Pow(g, i) % d == 0 {
      FullTurn(g, s, d);
      PowAdd(g, i, Pow2(s + 1) - i);
      DivModUnique(0, d, 0, 0);
      MulMod(Pow(g, i), 0, Pow(g, Pow2(s + 1) - i), Pow(g, Pow2(s + 1) - i), d);
    }
  }

  ghost function Powers(g: int, d: nat, n: nat): set<int>
    requires d > 0
  {
    if n == 0 then {} else Powers(g, d, n - 1) + {Pow(g, n - 1) % d}
  }

  lemma {:induction false} PowersMember(g: int, d: nat, n: nat, x: int) returns (i: nat)
    requires d > 0 && x in Powers(g, d, n)
    ensures i < n && x == Pow(g, i) % d
  {
    if x == Pow(g, n - 1) % d {
      i := n - 1;
    } else {
      i := PowersMember(g, d, n - 1, x);
    }
  }

  lemma {:induction false} PowersCount(g: int, s: nat, d: nat, n: nat)
    requires d > 2 && Pow(g, Pow2(s)) % d == d - 1 && n <= Pow2(s + 1)
    ensures |Powers(g, d, n)| == n
  {
    if n > 0 {
      PowersCount(g, s, d, n - 1);
      var last := Pow(g, n - 1) % d;
      if last in Powers(g, d, n - 1) {
        var i := PowersMember(g, d, n - 1, last);
        PowersDiffer(g, s, d, i, n - 1);
      }
    }
  }

  ghost function Residues(d: nat): set<int>
    requires d > 0
  {
    if d == 1 then {} else Residues(d - 1) + {d - 1}
  }

  lemma {:induction false} ResiduesMember(d: nat, x: int)
    requires 1 <= x < d
    ensures x in Residues(d)
  {
    if x < d - 1 {
      ResiduesMember(d - 1, x);
    }
  }

  lemma {:induction false} CountBelow(s: set<int>, d: nat)
    requires d > 0 && s <= Residues(d)
    ensures |s| <= d - 1
  {
    if d == 1 {
      assert s == {};
    } else {
      CountBelow(s - {d - 1}, d - 1);
    }
  }

  /** A modulus with such a root is large. */
  lemma {:induction false} ModulusIsLarge(g: int, s: nat, d: nat)
    requires d > 2 && Pow(g, Pow2(s)) % d == d - 1
    ensures d > Pow2(s + 1)
  {
    var n := Pow2(s + 1);
    PowersCount(g, s, d, n);
    forall x | x in Powers(g, d, n) ensures x in Residues(d) {
      var i := PowersMember(g, d, n, x);
      PowerNotZero(g, s, d, i);
      DivMod(Pow(g, i), d);
      ResiduesMember(d, x);
    }
    CountBelow(Powers(g, d, Pow2(s + 1)), d);
  }

  // ---------- a root of order 2^32 ----------

  /** A number and its squarings modulo P: thirty-one of them reach -1. */
  const SQUARES: seq<int> := [
    1753635133440165772, 4614640910117430873, 9123114210336311365, 16116352524544190054, 6414415596519834757,
    1213594585890690845, 17096174751763063430, 5456943929260765144, 9713644485405565297,
    16905767614792059275, 5416168637041100469, 17654865857378133588, 3511170319078647661,
    18146160046829613826, 9306717745644682924, 12380578893860276750, 6115771955107415310,
    17776499369601055404, 16207902636198568418, 1532612707718625687, 17492915097719143606,
    455906449640507599, 11353340290879379826, 1803076106186727246, 13797081185216407910,
    17870292113338400769, 549755813888, 70368744161280, 17293822564807737345, 18446744069397807105,
    281474976710656, 18446744069414584320
  ]

  lemma Squared(k: nat)
    requires k < 31
    ensures |SQUARES| == 32 && (SQUARES[k] * SQUARES[k]) % P == SQUARES[k + 1]
  {
  }

  lemma RootStep(g: int, k: nat, a: int, b: int)
    requires Pow(g, Pow2(k)) % P == a && (a * a) % P == b
    ensures Pow(g, Pow2(k + 1)) % P == b
  {
    PowAdd(g, Pow2(k), Pow2(k));
    ProductRemainder(Pow(g, Pow2(k)), Pow(g, Pow2(k)), P);
  }

  lemma {:induction false} RootPowers(g: int, k: nat)
    requires k <= 31 && g == SQUARES[0]
    ensures Pow(g, Pow2(k)) % P == SQUARES[k]
  {
    if k == 0 {
      assert Pow(g, 1) == g;
    } else {
      RootPowers(g, k - 1);
      Squared(k - 1);
      RootStep(g, k - 1, SQUARES[k - 1], SQUARES[k]);
    }
  }

  /** A multiple's remainder determines the divisor's. */
  lemma RemainderOfDivisor(a: int, d: nat, e: nat)
    requires d > 2 && d * e == P && a % P == P - 1
    ensures a % d == d - 1
  {
    DivMod(a, P);
    var q := e * (a / P + 1) - 1;
    assert a == P * (a / P + 1) - 1;
    assert d * e * (a / P + 1) == d * (e * (a / P + 1));
    DivModUnique(a, d, q, d - 1);
  }

  lemma DivisorIsLarge(d: nat, e: nat)
    requires d > 1 && d * e == P
    ensures d > TWO_32
  {
    assert d != 2;
    var g, half := SQUARES[0], 31;
    RootPowers(g, half);
    RemainderOfDivisor(Pow(g, Pow2(half)), d, e);
    ModulusIsLarge(g, half, d);
    Pow2Of32();
  }

  lemma Pow2Of32()
    ensures Pow2(32) == TWO_32
  {
    assert Pow2(4) == 16;
    Pow2Doubles(4, 16);
    Pow2Doubles(8, 0x100);
    Pow2Doubles(16, 0x1_0000);
  }

  /** P is prime. */
  lemma PrimeModulus(d: nat, e: nat)
    requires d > 1 && d * e == P
    ensures d == P
  {
    DivisorIsLarge(d, e);
    if e > 1 {
      DivisorIsLarge(e, d);
      MulMonotone(TWO_32 + 1, d, e);
      MulMonotone(TWO_32 + 1, e, TWO_32 + 1);
    } else {
      assert e == 1 || d * e <= 0;
    }
  }
}
