/**
 Powers modulo primes: Euclid's lemma, the binomial theorem, Fermat's little theorem, and
 the correctness of RSA exponents (section 5.1 of RFC 8017).
 */
module Primes {
  import opened FiniteSums
  import opened NumberTheory

  // ---------------------------------------------------------------- powers

  function Pow(b: int, e: nat): int {
    if e == 0 then 1 else b * Pow(b, e - 1)
  }

  lemma {:induction false} PowAdd(b: int, d: nat, e: nat)
    ensures Pow(b, d + e) == Pow(b, d) * Pow(b, e)
  {
    if d > 0 {
      PowAdd(b, d - 1, e);
      assert b * (Pow(b, d - 1) * Pow(b, e)) == b * Pow(b, d - 1) * Pow(b, e);
    }
  }

  lemma {:induction false} PowMonotone(b: int, m: nat, n: nat)
    requires b >= 1 && m <= n
    ensures 0 < Pow(b, m) <= Pow(b, n)
  {
    if m > 0 {
      PowMonotone(b, m - 1, n - 1);
      MulAtLeast(b, Pow(b, m - 1), Pow(b, n - 1));
    } else if n > 0 {
      PowMonotone(b, 0, n - 1);
      MulAtLeast(b, 1, Pow(b, n - 1));
    }
  }

  lemma MulAtLeast(b: int, x: int, y: int)
    requires b >= 1 && 0 < x <= y
    ensures 0 < b * x <= b * y && x <= b * x
  {
    assert b * (y - x) >= 0;
    assert (b - 1) * x >= 0;
  }

  lemma {:induction false} PowPow(b: int, d: nat, e: nat)
    ensures d * e >= 0 && Pow(b, d * e) == Pow(Pow(b, d), e)
  {
    if e > 0 {
      PowPow(b, d, e - 1);
      assert d * e == d + d * (e - 1);
      PowAdd(b, d, d * (e - 1));
    }
  }

  lemma {:induction false} PowCongruent(a: int, b: int, e: nat, m: int)
    requires m > 0 && a % m == b % m
    ensures Pow(a, e) % m == Pow(b, e) % m
  {
    if e > 0 {
      PowCongruent(a, b, e - 1, m);
      CongMul(Pow(a, e - 1), Pow(b, e - 1), a, m);
      CongMul(a, b, Pow(b, e - 1), m);
    }
  }

  lemma {:induction false} PowOne(e: nat)
    ensures Pow(1, e) == 1
  {
    if e > 0 { PowOne(e - 1); }
  }

  // ---------------------------------------------------------------- primes

  ghost predicate IsPrime(p: int) {
    p >= 2 && forall d :: 2 <= d < p ==> !Divides(d, p)
  }

  lemma PrimeCoprime(p: int, a: nat)
    requires IsPrime(p) && !Divides(p, a)
    ensures Gcd(a, p) == 1
  {
    GcdIsGreatest(a, p);
    var g := Gcd(a, p);
    if g > p { ModSmall(p, g); }
  }

  /** Euclid's lemma. */
  lemma PrimeDividesProduct(p: int, a: nat, b: int)
    requires IsPrime(p) && Divides(p, a * b) && !Divides(p, a)
    ensures Divides(p, b)
  {
    PrimeCoprime(p, a);
    var x, y := Bezout(a, p);
    DividesProduct(p, a * b, x);
    DividesMultiple(p, y * b);
    DividesSum(p, a * b * x, p * (y * b));
    assert a * b * x + p * (y * b) == (a * x + p * y) * b == b;
  }

  // ---------------------------------------------------------------- binomial coefficients

  function Choose(n: nat, k: nat): nat {
    if k == 0 then 1 else if n == 0 then 0 else Choose(n - 1, k - 1) + Choose(n - 1, k)
  }

  lemma {:induction false} ChooseEdges(n: nat)
    ensures Choose(n, n) == 1 && forall k :: k > n ==> Choose(n, k) == 0
  {
    if n > 0 { ChooseEdges(n - 1); }
  }

  lemma AbsorptionStep(n: int, k: int, x: int, y: int, u: int, v: int)
    requires k * y == (n - 1) * v && (k - 1) * x == (n - 1) * u && x == u + v
    ensures k * (x + y) == n * x
  {
    assert k * (x + y) == x + (k - 1) * x + k * y;
    assert (n - 1) * u + (n - 1) * v == (n - 1) * x;
  }

  /** The absorption identity. */
  lemma {:induction false} Absorption(n: nat, k: nat)
    requires n > 0 && k > 0
    ensures k * Choose(n, k) == n * Choose(n - 1, k - 1)
  {
    if n == 1 {
      ChooseEdges(1);
      ChooseEdges(0);
    } else {
      Absorption(n - 1, k);
      if k == 1 {
        AbsorptionStep(n, k, Choose(n - 1, 0), Choose(n - 1, 1), 0, Choose(n - 2, 0));
      } else {
        Absorption(n - 1, k - 1);
        AbsorptionStep(n, k, Choose(n - 1, k - 1), Choose(n - 1, k), Choose(n - 2, k - 2), Choose(n - 2, k - 1));
      }
    }
  }

  function BinomialTerm(a: int, n: nat, k: int): int {
    if k < 0 then 0 else Choose(n, k) * Pow(a, k)
  }

  lemma BinomialStep(a: int, n: nat, k: nat)
    ensures BinomialTerm(a, n + 1, k + 1) == a * BinomialTerm(a, n, k) + BinomialTerm(a, n, k + 1)
  {
    var x, y, z := Choose(n, k), Choose(n, k + 1), Pow(a, k);
    assert (x + y) * (a * z) == a * (x * z) + y * (a * z);
  }

  /** The binomial theorem for a + 1. */
  lemma {:induction false} Binomial(a: int, n: nat)
    ensures Pow(a + 1, n) == Sum(n + 1, k => BinomialTerm(a, n, k))
  {
    if n == 0 {
      assert Sum(1, k => BinomialTerm(a, 0, k)) == BinomialTerm(a, 0, 0);
    } else {
      Binomial(a, n - 1);
      BinomialRecurrence(a, n - 1);
    }
  }

  lemma BinomialRecurrence(a: int, n: nat)
    ensures Sum(n + 2, k => BinomialTerm(a, n + 1, k)) == (a + 1) * Sum(n + 1, k => BinomialTerm(a, n, k))
  {
    hide BinomialTerm;
    var f, g := k => BinomialTerm(a, n, k), k => BinomialTerm(a, n + 1, k);
    BinomialEnds(a, n);
    BinomialEnds(a, n + 1);
    forall k | 0 <= k < n + 1 ensures g(k + 1) == a * f(k) + f(k + 1) { BinomialStep(a, n, k); }
    PascalSum(a, n + 1, f, g);
    AddOneFactor(a, Sum(n + 1, f));
  }

  lemma {:induction false} PascalSum(a: int, n: nat, f: int -> int, g: int -> int)
    requires f(0) == g(0) && forall k :: 0 <= k < n ==> g(k + 1) == a * f(k) + f(k + 1)
    ensures Sum(n + 1, g) == a * Sum(n, f) + Sum(n + 1, f)
  {
    if n > 0 {
      PascalSum(a, n - 1, f, g);
      MulSum(a, Sum(n - 1, f), f(n - 1));
    }
  }

  lemma MulSum(a: int, x: int, y: int)
    ensures a * (x + y) == a * x + a * y
  {
  }

  lemma AddOneFactor(a: int, s: int)
    ensures (a + 1) * s == a * s + s
  {
  }

  lemma BinomialEnds(a: int, n: nat)
    ensures BinomialTerm(a, n, 0) == 1 && BinomialTerm(a, n, n) == Pow(a, n) && BinomialTerm(a, n, n + 1) == 0
  {
    ChooseEdges(n);
    assert Choose(n, 0) == 1 && Pow(a, 0) == 1;
    hide Choose, Pow;
    MulUnits(Choose(n, 0), Pow(a, n), Pow(a, n + 1));
  }

  lemma MulUnits(x: nat, y: int, z: int)
    requires x == 1
    ensures x * 1 == 1 && 1 * y == y && 0 * z == 0
  {
  }

  // ---------------------------------------------------------------- Fermat's little theorem

  lemma PrimeDividesChoose(p: int, k: nat)
    requires IsPrime(p) && 0 < k < p
    ensures Divides(p, Choose(p, k))
  {
    Absorption(p, k);
    DividesMultiple(p, Choose(p - 1, k - 1));
    ModSmall(k, p);
    PrimeDividesProduct(p, k, Choose(p, k));
  }

  /** Raising to a prime power is additive modulo the prime. */
  lemma FreshmansDream(a: int, p: int)
    requires IsPrime(p)
    ensures Pow(a + 1, p) % p == (Pow(a, p) + 1) % p
  {
    hide BinomialTerm;
    var f := k => BinomialTerm(a, p, k);
    Binomial(a, p);
    SumCong(p + 1, k => BinomialTerm(a, p, k), f);
    SumShift(p, f);
    var inner := i => f(i + 1);
    forall k | 0 <= k < p - 1 ensures inner(k) % p == 0 {
      InnerTerm(a, p, k + 1);
    }
    var zero := i => 0;
    SumCongruent(p - 1, p, inner, zero);
    SumZero(p - 1, zero);
    BinomialEnds(a, p);
    CongAdd(Sum(p - 1, inner), 0, 1 + Pow(a, p), p);
  }

  lemma InnerTerm(a: int, p: int, k: int)
    requires IsPrime(p) && 0 < k < p
    ensures BinomialTerm(a, p, k) % p == 0
  {
    PrimeDividesChoose(p, k);
    DividesProduct(p, Choose(p, k), Pow(a, k));
  }

  lemma {:induction false} FermatPower(a: nat, p: int)
    requires IsPrime(p)
    ensures Pow(a, p) % p == a % p
  {
    if a > 0 {
      FermatPower(a - 1, p);
      FreshmansDream(a - 1, p);
      CongAdd(Pow(a - 1, p), a - 1, 1, p);
    }
  }

  /** Fermat's little theorem. */
  lemma Fermat(a: nat, p: int)
    requires IsPrime(p) && !Divides(p, a)
    ensures Pow(a, p - 1) % p == 1
  {
    FermatPower(a, p);
    CongDifference(Pow(a, p), a, p);
    assert Pow(a, p) - a == a * (Pow(a, p - 1) - 1);
    PrimeDividesProduct(p, a, Pow(a, p - 1) - 1);
    CongDifference(Pow(a, p - 1), 1, p);
    ModSmall(1, p);
  }

  // ---------------------------------------------------------------- RSA exponents

  /** Exponents that are 1 modulo a multiple of p - 1 fix every residue modulo p. */
  lemma ExponentFixes(m: nat, p: int, k: nat)
    requires IsPrime(p)
    ensures (p - 1) * k >= 0 && Pow(m, 1 + (p - 1) * k) % p == m % p
  {
    PowPow(m, p - 1, k);
    if Divides(p, m) {
      DividesProduct(p, m, Pow(m, (p - 1) * k));
    } else {
      Fermat(m, p);
      ModSmall(1, p);
      PowCongruent(Pow(m, p - 1), 1, k, p);
      PowOne(k);
      CongMul(Pow(m, (p - 1) * k), 1, m, p);
      assert Pow(m, (p - 1) * k) * m == m * Pow(m, (p - 1) * k);
    }
  }

  /** Agreement modulo two distinct primes is agreement modulo their product. */
  lemma CombinePrimes(x: int, y: int, p: int, q: int)
    requires IsPrime(p) && IsPrime(q) && p != q
    requires x % p == y % p && x % q == y % q
    ensures p * q > 0 && x % (p * q) == y % (p * q)
  {
    CongDifference(x, y, p);
    CongDifference(x, y, q);
    var k := (x - y) / p;
    assert x - y == p * k;
    DistinctPrimes(p, q);
    PrimeDividesProduct(q, p, k);
    var j := k / q;
    assert x - y == p * (q * j) == p * q * j;
    DividesMultiple(p * q, j);
    CongDifference(x, y, p * q);
  }

  lemma DistinctPrimes(p: int, q: int)
    requires IsPrime(p) && IsPrime(q) && p != q
    ensures !Divides(q, p)
  {
    if p < q { ModSmall(p, q); }
  }

  lemma MulRotate(x: nat, y: nat, z: nat)
    ensures x * y * z == x * (y * z) == y * (x * z)
    ensures x * z >= 0 && y * z >= 0
  {
  }

  /** An exponent that is 1 modulo (p - 1) * (q - 1) fixes every residue modulo p * q. */
  lemma ExponentFixesProduct(p: int, q: int, k: nat, t: nat, m: nat)
    requires p >= 2 && q >= 2 && IsPrime(p) && IsPrime(q) && p != q && t == 1 + (p - 1) * (q - 1) * k
    ensures p * q > 0 && Pow(m, t) % (p * q) == m % (p * q)
  {
    hide Pow, IsPrime;
    MulRotate(p - 1, q - 1, k);
    PhiPositive(p - 1, q - 1);
    ExponentFixes(m, p, (q - 1) * k);
    ExponentFixes(m, q, (p - 1) * k);
    CombinePrimes(Pow(m, t), m, p, q);
  }

  /** RSA decryption inverts encryption on every residue. */
  lemma RsaExponents(p: int, q: int, e: nat, d: nat, m: nat)
    requires IsPrime(p) && IsPrime(q) && p != q && m < p * q
    requires e * d % ((p - 1) * (q - 1)) == 1
    ensures Pow(Pow(m, e) % (p * q), d) % (p * q) == m
  {
    hide Pow;
    PhiPositive(p - 1, q - 1);
    var n := p * q;
    PowPow(m, e, d);
    QuotientNat(e * d, (p - 1) * (q - 1));
    ExponentFixesProduct(p, q, e * d / ((p - 1) * (q - 1)), e * d, m);
    ModIdem(Pow(m, e), n);
    PowCongruent(Pow(m, e) % n, Pow(m, e), d, n);
    ModSmall(m, n);
  }

  lemma PhiPositive(x: int, y: int)
    requires x > 0 && y > 0
    ensures x * y > 0
  {
  }

  lemma QuotientNat(x: nat, y: int)
    requires y > 0
    ensures x / y >= 0 && x == x % y + y * (x / y)
  {
  }
}
