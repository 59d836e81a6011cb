/** Inversion in the field by the binary extended Euclidean algorithm. */
module FieldInverse {
  import opened Arith
  import opened Goldilocks
  import opened GoldilocksPrime

  const MAX_U64: nat := 0xffff_ffff_ffff_ffff

  predicate Divides(d: nat, n: nat) {
    d > 0 && n % d == 0
  }

  ghost predicate Coprime(u: nat, v: nat) {
    forall d: nat {:trigger Divides(d, u)} :: d > 1 && Divides(d, u) ==> !Divides(d, v)
  }

  /** value is coefficient times x, up to turns of the modulus. */
  predicate Tracks(value: nat, coefficient: nat, x: nat, turns: int) {
    coefficient < P && coefficient * x == value + turns * P
  }

  lemma DividesMultiple(d: nat, n: nat, k: nat)
    requires Divides(d, n)
    ensures Divides(d, n * k)
  {
    DivMod(n, d);
    assert d * (n / d) * k == d * (n / d * k);
    DivModUnique(n * k, d, n / d * k, 0);
  }

  lemma DividesSum(d: nat, m: nat, n: nat)
    requires Divides(d, m) && Divides(d, n)
    ensures Divides(d, m + n)
  {
    DivMod(m, d);
    DivMod(n, d);
    assert d * (m / d) + d * (n / d) == d * (m / d + n / d);
    DivModUnique(m + n, d, m / d + n / d, 0);
  }

  /** A nonzero field element shares no divisor with the modulus. */
  lemma StartsCoprime(x: nat)
    requires 0 < x < P
    ensures Coprime(x, P)
  {
    forall d: nat | d > 1 && Divides(d, x) ensures !Divides(d, P) {
      if Divides(d, P) {
        DivMod(P, d);
        PrimeModulus(d, P / d);
        DivModUnique(x, P, 0, x);
      }
    }
  }

  lemma HalvingKeepsCoprime(u: nat, v: nat)
    requires Coprime(u, v) && u % 2 == 0
    ensures Coprime(u / 2, v)
  {
    forall d: nat | d > 1 && Divides(d, u / 2) ensures !Divides(d, v) {
      DividesMultiple(d, u / 2, 2);
      assert u / 2 * 2 == u;
    }
  }

  lemma CoprimeSymmetric(u: nat, v: nat)
    requires Coprime(u, v)
    ensures Coprime(v, u)
  {
    forall d: nat | d > 1 && Divides(d, v) ensures !Divides(d, u) {
    }
  }

  lemma SubtractingKeepsCoprime(u: nat, v: nat)
    requires Coprime(u, v) && u >= v
    ensures Coprime(u - v, v)
  {
    forall d: nat | d > 1 && Divides(d, u - v) ensures !Divides(d, v) {
      if Divides(d, v) {
        DividesSum(d, u - v, v);
      }
    }
  }

  /** Zero is coprime to one only. */
  lemma ZeroMeansOne(v: nat)
    requires Coprime(0, v) && v > 0
    ensures v == 1
  {
    if v > 1 {
      DivModUnique(0, v, 0, 0);
      DivModUnique(v, v, 1, 0);
      assert Divides(v, 0);
    }
  }

  lemma HalveEven(value: nat, b: nat, x: nat, turns: int)
    requires Tracks(value, b, x, turns) && value % 2 == 0 && b % 2 == 0
    ensures Tracks(value / 2, b / 2, x, turns / 2)
  {
    assert b * x == 2 * (b / 2 * x) by {
      assert b == 2 * (b / 2);
      assert 2 * (b / 2) * x == 2 * (b / 2 * x);
    }
  }

  lemma HalveOdd(value: nat, b: nat, x: nat, turns: int)
    requires Tracks(value, b, x, turns) && value % 2 == 0 && b % 2 == 1
    ensures Tracks(value / 2, (b + P) / 2, x, (turns + x) / 2)
  {
    var s := (b + P) / 2;
    assert 2 * s == b + P;
    assert 2 * (s * x) == b * x + P * x by {
      assert 2 * (s * x) == 2 * s * x;
      assert (b + P) * x == b * x + P * x;
    }
  }

  /** Divides out twos, halving the coefficient with it. */
  method StripTwos(value: nat, b: nat, x: nat, ghost turns: int, ghost other: nat)
      returns (value': nat, b': nat, ghost turns': int)
    requires value > 0 && Tracks(value, b, x, turns) && Coprime(value, other)
    ensures 0 < value' <= value && value' % 2 == 1
    ensures Tracks(value', b', x, turns') && Coprime(value', other)
  {
    value', b', turns' := value, b, turns;
    while value' % 2 == 0
      invariant 0 < value' <= value
      invariant Tracks(value', b', x, turns') && Coprime(value', other)
      decreases value'
    {
      HalvingKeepsCoprime(value', other);
      if b' % 2 == 0 {
        HalveEven(value', b', x, turns');
        b', turns' := b' / 2, turns' / 2;
      } else {
        HalveOdd(value', b', x, turns');
        b', turns' := (b' + P) / 2, (turns' + x) / 2;
      }
      value' := value' / 2;
    }
  }

  lemma Difference(u: nat, v: nat, b: nat, c: nat, x: nat, kb: int, kc: int)
    requires Tracks(u, b, x, kb) && Tracks(v, c, x, kc) && u >= v
    ensures b >= c ==> Tracks(u - v, b - c, x, kb - kc)
    ensures b < c ==> Tracks(u - v, b + (P - c), x, kb - kc + x)
  {
    if b >= c {
      assert (b - c) * x == b * x - c * x;
    } else {
      assert (b + (P - c)) * x == b * x - c * x + P * x;
    }
  }

  /** Subtracts with the coefficients modulo P; no step leaves the range of a 64-bit word. */
  method SubtractTracked(u: nat, v: nat, b: nat, c: nat, ghost x: nat, ghost kb: int, ghost kc: int)
      returns (u': nat, b': nat, ghost kb': int)
    requires Tracks(u, b, x, kb) && Tracks(v, c, x, kc) && u >= v
    ensures u' == u - v && Tracks(u', b', x, kb')
  {
    Difference(u, v, b, c, x, kb, kc);
    u' := u - v;
    if b >= c {
      b', kb' := b - c, kb - kc;
    } else {
      assert P - c <= MAX_U64 && b + (P - c) <= MAX_U64;
      b', kb' := b + (P - c), kb - kc + x;
    }
  }

  lemma InverseFromOne(b: nat, x: nat, turns: int)
    requires Tracks(1, b, x, turns)
    ensures (b * x) % P == 1
  {
    DivModUnique(b * x, P, turns, 1);
  }

  /** The inverse of every nonzero field element. */
  method BinaryXgcdInverse(x: nat) returns (r: nat)
    requires 0 < x < P
    ensures r < P && (r * x) % P == 1
  {
    var u: nat, v: nat, b: nat, c: nat := x, P, 1, 0;
    ghost var kb, kc := 0, -1;
    StartsCoprime(x);
    while u != 1 && v != 1
      invariant v > 0 && Coprime(u, v)
      invariant Tracks(u, b, x, kb) && Tracks(v, c, x, kc)
      decreases u + v
    {
      if u == 0 {
        ZeroMeansOne(v);
      }
      ghost var before := u + v;
      u, b, kb := StripTwos(u, b, x, kb, v);
      CoprimeSymmetric(u, v);
      v, c, kc := StripTwos(v, c, x, kc, u);
      CoprimeSymmetric(v, u);
      if u >= v {
        SubtractingKeepsCoprime(u, v);
        u, b, kb := SubtractTracked(u, v, b, c, x, kb, kc);
      } else {
        CoprimeSymmetric(u, v);
        SubtractingKeepsCoprime(v, u);
        v, c, kc := SubtractTracked(v, u, c, b, x, kc, kb);
        CoprimeSymmetric(v, u);
      }
    }
    if u == 1 {
      InverseFromOne(b, x, kb);
    } else {
      InverseFromOne(c, x, kc);
    }
    r := if u == 1 then b else c;
  }

  /** There is only one inverse, so inverting twice gives the element back. */
  lemma InverseUnique(x: nat, r: nat, s: nat)
    requires r < P && s < P && (r * x) % P == 1 && (s * x) % P == 1
    ensures r == s
  {
    MulMod(r * x, s * x, s, s, P);
    MulMod(s * x, 1, r, r, P);
    MulMod(r * x, 1, s, s, P);
    assert r * x * s == s * x * r;
    DivModUnique(r, P, 0, r);
    DivModUnique(s, P, 0, s);
  }
}
