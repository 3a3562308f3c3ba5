/**
 Elementary number theory behind the modular ciphers: remainders, greatest common
 divisors with their Bezout coefficients, and modular inverses.
 */
module NumberTheory {
  import opened FiniteSums

  // ---------------------------------------------------------------- remainders

  lemma MultipleIsFar(d: int, e: int)
    requires d > 0
    ensures e == 0 || d * e >= d || d * e <= -d
  {
    if e >= 1 { assert d * e >= d; } else if e <= -1 { assert d * e <= -d; }
  }

  lemma ModUnique(n: int, d: int, q: int, r: int)
    requires 0 <= r < d && n == d * q + r
    ensures n / d == q && n % d == r
  {
    var e := q - n / d;
    assert d * e == n % d - r;
    MultipleIsFar(d, e);
  }

  lemma ModShift(n: int, k: int, d: int)
    requires d > 0
    ensures (n + d * k) % d == n % d
  {
    ModUnique(n + d * k, d, n / d + k, n % d);
  }

  lemma CongAdd(a: int, b: int, c: int, m: int)
    requires m > 0 && a % m == b % m
    ensures (a + c) % m == (b + c) % m
  {
    assert a + c == (b + c) + m * (a / m - b / m);
    ModShift(b + c, a / m - b / m, m);
  }

  lemma CongSum(a: int, b: int, c: int, d: int, m: int)
    requires m > 0 && a % m == b % m && c % m == d % m
    ensures (a + c) % m == (b + d) % m
  {
    CongAdd(a, b, c, m);
    CongAdd(c, d, b, m);
  }

  /** Sums of congruent terms are congruent. */
  lemma {:induction false} SumCongruent(n: nat, m: int, f: int -> int, g: int -> int)
    requires m > 0 && forall i :: 0 <= i < n ==> f(i) % m == g(i) % m
    ensures Sum(n, f) % m == Sum(n, g) % m
  {
    if n > 0 {
      SumCongruent(n - 1, m, f, g);
      CongSum(Sum(n - 1, f), Sum(n - 1, g), f(n - 1), g(n - 1), m);
    }
  }

  lemma CongMul(a: int, b: int, c: int, m: int)
    requires m > 0 && a % m == b % m
    ensures (a * c) % m == (b * c) % m
  {
    var k := a / m - b / m;
    assert a == b + m * k;
    assert a * c == b * c + m * (k * c);
    ModShift(b * c, k * c, m);
  }

  lemma ModIdem(a: int, m: int)
    requires m > 0
    ensures a % m % m == a % m
  {
    ModUnique(a % m, m, 0, a % m);
  }

  lemma ModSmall(a: int, m: int)
    requires 0 <= a < m
    ensures a % m == a
  {
    ModUnique(a, m, 0, a);
  }

  // ---------------------------------------------------------------- divisibility

  predicate Divides(d: int, n: int)
    requires d > 0
  {
    n % d == 0
  }

  lemma DividesMultiple(d: int, k: int)
    requires d > 0
    ensures Divides(d, d * k)
  {
    ModUnique(d * k, d, k, 0);
  }

  lemma DividesSum(d: int, a: int, b: int)
    requires d > 0 && Divides(d, a) && Divides(d, b)
    ensures Divides(d, a + b)
  {
    assert a + b == d * (a / d + b / d);
    DividesMultiple(d, a / d + b / d);
  }

  lemma DividesProduct(d: int, a: int, k: int)
    requires d > 0 && Divides(d, a)
    ensures Divides(d, a * k)
  {
    assert a * k == d * (a / d * k);
    DividesMultiple(d, a / d * k);
  }

  lemma CongDifference(a: int, b: int, m: int)
    requires m > 0
    ensures a % m == b % m <==> Divides(m, a - b)
  {
    if Divides(m, a - b) {
      assert a == b + m * ((a - b) / m);
      ModShift(b, (a - b) / m, m);
    }
    if a % m == b % m {
      CongAdd(a, b, -b, m);
    }
  }

  // ---------------------------------------------------------------- greatest common divisors

  function Gcd(a: nat, b: nat): nat
    decreases b
  {
    if b == 0 then a else Gcd(b, a % b)
  }

  /** Every common divisor divides the gcd, which is itself a common divisor. */
  lemma {:induction false} GcdIsGreatest(a: nat, b: nat)
    requires a > 0 || b > 0
    ensures Gcd(a, b) > 0 && Divides(Gcd(a, b), a) && Divides(Gcd(a, b), b)
    ensures forall d :: d > 0 && Divides(d, a) && Divides(d, b) ==> Divides(d, Gcd(a, b))
    decreases b
  {
    if b == 0 {
      ModUnique(a, a, 1, 0);
      ModSmall(0, a);
    } else {
      GcdIsGreatest(b, a % b);
      var g := Gcd(b, a % b);
      DividesProduct(g, b, a / b);
      DividesSum(g, b * (a / b), a % b);
      assert b * (a / b) + a % b == a;
      forall d | d > 0 && Divides(d, a) && Divides(d, b) ensures Divides(d, g) {
        DividesProduct(d, b, -(a / b));
        DividesSum(d, a, b * -(a / b));
        assert a + b * -(a / b) == a % b;
      }
    }
  }

  /** Bezout coefficients. */
  lemma {:induction false} Bezout(a: nat, b: nat) returns (x: int, y: int)
    ensures a * x + b * y == Gcd(a, b)
    decreases b
  {
    if b == 0 {
      x, y := 1, 0;
    } else {
      var u, v := Bezout(b, a % b);
      x, y := v, u - a / b * v;
      BezoutStep(a, b, u, v);
    }
  }

  lemma BezoutStep(a: nat, b: nat, u: int, v: int)
    requires b > 0
    ensures a * v + b * (u - a / b * v) == b * u + a % b * v
  {
    var q := a / b;
    assert a == b * q + a % b;
    assert a * v == b * q * v + a % b * v;
    assert b * (u - q * v) == b * u - b * (q * v);
    assert b * (q * v) == b * q * v;
  }

  /** An inverse of a modulo m in the range 1 to m - 1. */
  predicate IsInverse(a: int, x: int, m: int)
    requires m > 1
  {
    1 <= x < m && a * x % m == 1
  }

  lemma CoprimeHasInverse(a: nat, m: int) returns (x: int)
    requires m > 1 && Gcd(a, m) == 1
    ensures IsInverse(a, x, m)
  {
    var u, v := Bezout(a, m);
    x := u % m;
    assert a * u == 1 + m * -v;
    ModShift(1, -v, m);
    ModSmall(1, m);
    ModIdem(u, m);
    CongMul(u, x, a, m);
    assert a * x == x * a && a * u == u * a;
    if x == 0 { ModSmall(0, m); }
  }

  lemma InverseMeansCoprime(a: nat, x: int, m: int)
    requires m > 1 && a * x % m == 1
    ensures Gcd(a, m) == 1
  {
    GcdIsGreatest(a, m);
    var g := Gcd(a, m);
    DividesProduct(g, a, x);
    DividesProduct(g, m, -(a * x / m));
    DividesSum(g, a * x, m * -(a * x / m));
    assert a * x + m * -(a * x / m) == 1;
    if g > 1 { ModSmall(1, g); }
  }

  /** There is at most one inverse in the range. */
  lemma InverseUnique(a: int, x: int, y: int, m: int)
    requires m > 1 && IsInverse(a, x, m) && IsInverse(a, y, m)
    ensures x == y
  {
    ModSmall(1, m);
    CongMul(a * x, 1, y, m);
    CongMul(a * y, 1, x, m);
    assert a * x * y == a * y * x by {
      assert a * x * y == a * (x * y) == a * (y * x);
    }
    ModSmall(x, m);
    ModSmall(y, m);
  }

  /** Coprimality only depends on the residue. */
  lemma GcdOfResidue(a: nat, m: nat)
    requires m > 0
    ensures Gcd(a % m, m) == Gcd(a, m)
  {
    ModSmall(a % m, m);
    assert Gcd(a, m) == Gcd(m, a % m);
  }
}
