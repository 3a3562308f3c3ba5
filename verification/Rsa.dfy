/**
 The RSA demonstration of src/crypto/modern/asymmetric/RSA.cpp, with its uint64_t
 arithmetic: every sum, doubling and square that the code forms wraps modulo 2^64.
 */
module Rsa {
  import opened NumberTheory
  import opened Primes
  import opened CoreUtils
  import opened Words
  import opened Results

  /** The largest modulus for which doubling a residue never wraps. */
  const SAFE_MODULUS := 0x8000_0000_0000_0000

  // ---------------------------------------------------------------- trial division

  /** A square root of -7 modulo 2^64: its wrapped square is almost the largest word. */
  const ROOT_OF_MINUS_7 := 0x19b4_bb63_9c98_c0b5

  /**
   Trial division up to the square root.  The square of the counter wraps for the largest
   words, and still the answer is right for every n.
   */
  method CheckPrime(n: U64) returns (prime: bool)
    ensures prime <==> IsPrime(n)
  {
    if n < 2 { return false; }
    var i := 2;
    while Wrap(i * i) <= n
      invariant 2 <= i <= n
      invariant forall k :: 2 <= k < i ==> !Divides(k, n) && Wrap(k * k) <= n
      decreases n - i
    {
      if n % i == 0 {
        if i == n {
          var k := EarlyStop(n);
          assert false;
        }
        assert Divides(i, n);
        return false;
      }
      if i == n { ModUnique(n, n, 1, 0); }
      i := i + 1;
    }
    WrapBelow(i * i);
    NoFactorBelowRoot(n, i);
    return true;
  }

  lemma NoFactorBelowRoot(n: nat, i: nat)
    requires n >= 2 && i * i > n && forall k :: 2 <= k < i ==> !Divides(k, n)
    ensures IsPrime(n)
  {
    forall d | 2 <= d < n ensures !Divides(d, n) {
      if Divides(d, n) && d >= i {
        var e := n / d;
        assert n == d * e;
        DividesMultiple(e, d);
        CofactorIsSmall(d, e, i);
      }
    }
  }

  lemma MulMonotone(x: nat, y: nat, u: nat, v: nat)
    requires x <= u && y <= v
    ensures x * y <= u * v
  {
    assert x * y <= u * y <= u * v;
  }

  lemma CofactorIsSmall(d: nat, e: nat, i: nat)
    requires i <= d && d * e < i * i && d < d * e
    ensures 2 <= e < i
  {
    if e > i || e == i { MulMonotone(i, i, d, e); }
  }

  /** Some value of the counter below n is a factor, or some value up to n ends the loop. */
  lemma EarlyStop(n: U64) returns (k: nat)
    requires n >= 2
    ensures 2 <= k <= n && ((k < n && Divides(k, n)) || Wrap(k * k) > n)
  {
    if n < 4 {
      k := n;
    } else if n <= 0x1_0000_0000 {
      k := n - 1;
      SmallSquare(k);
    } else if n <= ROOT_OF_MINUS_7 {
      k := 0xffff_ffff;
    } else if n < WORD - 7 {
      k := ROOT_OF_MINUS_7;
      assert k * k % WORD == WORD - 7;
    } else {
      k := if n % 2 == 0 then 2 else if n == WORD - 7 || n == WORD - 1 then 3 else if n == WORD - 5 then 11 else 13;
    }
  }

  lemma SmallSquare(k: nat)
    requires 3 <= k <= 0xffff_ffff
    ensures Wrap(k * k) > k + 1
  {
    MulMonotone(3, k, k, k);
    MulMonotone(k, k, 0xffff_ffff, 0xffff_ffff);
    ModSmall(k * k, WORD);
  }

  // ---------------------------------------------------------------- modular multiplication

  /** The state of the double-and-add loop, with the wrapping sums of the code. */
  function AddLoop(res: U64, a: U64, b: U64, m: U64): U64
    requires m > 0
    decreases b
  {
    if b == 0 then res
    else AddLoop(if b % 2 == 1 then Wrap(res + a) % m else res, Wrap(a * 2) % m, b / 2, m)
  }

  function Product(a: U64, b: U64, m: U64): U64
    requires m > 0
  {
    AddLoop(0, a % m, b, m)
  }

  method MulMod(a: U64, b: U64, m: U64) returns (res: U64)
    requires m > 0
    ensures res == Product(a, b, m)
  {
    res := 0;
    var x: U64, y: U64 := a % m, b;
    while y > 0
      invariant AddLoop(res, x, y, m) == Product(a, b, m)
      decreases y
    {
      if y % 2 == 1 { res := Wrap(res + x) % m; }
      x := Wrap(x * 2) % m;
      y := y / 2;
    }
  }

  /** One round of the loop keeps res + a * b, as long as nothing wraps. */
  lemma AddLoopStep(res: nat, a: nat, b: nat, m: int)
    requires b > 0 && 0 < m
    ensures ((if b % 2 == 1 then (res + a) % m else res) + a * 2 % m * (b / 2)) % m == (res + a * b) % m
  {
    var half := b / 2;
    var next := if b % 2 == 1 then res + a else res;
    ModIdem(next, m);
    ModIdem(a * 2, m);
    CongMul(a * 2 % m, a * 2, half, m);
    CongSum(if b % 2 == 1 then next % m else next, next, a * 2 % m * half, a * 2 * half, m);
    assert b == 2 * half + b % 2;
    assert a * b == a * 2 * half + a * (b % 2) by { assert a * (2 * half) == a * 2 * half; }
  }

  lemma {:induction false} AddLoopExact(res: U64, a: U64, b: U64, m: U64)
    requires 0 < m <= SAFE_MODULUS && res < m && a < m
    ensures AddLoop(res, a, b, m) == (res + a * b) % m
    decreases b
  {
    if b == 0 {
      ModSmall(res, m);
    } else {
      WrapBelow(res + a);
      WrapBelow(a * 2);
      AddLoopStep(res, a, b, m);
      AddLoopExact(if b % 2 == 1 then Wrap(res + a) % m else res, Wrap(a * 2) % m, b / 2, m);
    }
  }

  /** Up to 2^63 the product is exact, with no wrap-around. */
  lemma ProductExact(a: U64, b: U64, m: U64)
    requires 0 < m <= SAFE_MODULUS
    ensures Product(a, b, m) == a * b % m
  {
    AddLoopExact(0, a % m, b, m);
    ModIdem(a, m);
    CongMul(a % m, a, b, m);
  }

  /** The bound on the modulus is sharp: above 2^63 doubling m - 1 wraps. */
  lemma ProductExactIff(m: U64)
    requires m > 0
    ensures (forall a: U64, b: U64 :: Product(a, b, m) == a * b % m) <==> m <= SAFE_MODULUS
  {
    if m <= SAFE_MODULUS {
      forall a: U64, b: U64 ensures Product(a, b, m) == a * b % m {
        ProductExact(a, b, m);
      }
    } else {
      DoublingWraps(m);
    }
  }

  lemma DoublingWraps(m: U64)
    requires m > SAFE_MODULUS
    ensures Product(m - 1, 2, m) == 2 * m - 2 - WORD && (m - 1) * 2 % m == m - 2
  {
    var wrapped := 2 * m - 2 - WORD;
    ModUnique((m - 1) * 2, m, 1, m - 2);
    ModSmall(m - 1, m);
    ModUnique((m - 1) * 2, WORD, 1, wrapped);
    ModSmall(wrapped, m);
    assert AddLoop(0, m - 1, 2, m) == AddLoop(0, wrapped, 1, m);
    ModSmall(wrapped, WORD);
    assert AddLoop(0, wrapped, 1, m) == AddLoop(wrapped, Wrap(wrapped * 2) % m, 0, m);
  }

  // ---------------------------------------------------------------- modular powers

  /** The state of the square-and-multiply loop. */
  function PowerLoop(result: U64, base: U64, exp: U64, mod: U64): U64
    requires mod > 0
    decreases exp
  {
    if exp == 0 then result
    else PowerLoop(if exp % 2 == 1 then Product(result, base, mod) else result, Product(base, base, mod), exp / 2, mod)
  }

  function Power(base: U64, exp: U64, mod: U64): U64
    requires mod > 0
  {
    PowerLoop(1, base % mod, exp, mod)
  }

  method ModPow(base: U64, exp: U64, mod: U64) returns (result: U64)
    requires mod > 0
    ensures result == Power(base, exp, mod)
  {
    result := 1;
    var b: U64, e: U64 := base % mod, exp;
    while e > 0
      invariant PowerLoop(result, b, e, mod) == Power(base, exp, mod)
      decreases e
    {
      if e % 2 == 1 { result := MulMod(result, b, mod); }
      b := MulMod(b, b, mod);
      e := e / 2;
    }
  }

  lemma PowerLoopStep(result: nat, base: nat, exp: nat, m: int)
    requires m > 0 && exp > 0
    ensures ((if exp % 2 == 1 then result * base % m else result) * Pow(base * base % m, exp / 2)) % m
         == (result * Pow(base, exp)) % m
  {
    var half := exp / 2;
    var next := if exp % 2 == 1 then result * base else result;
    ModIdem(next, m);
    ModIdem(base * base, m);
    PowCongruent(base * base % m, base * base, half, m);
    var reduced := if exp % 2 == 1 then next % m else next;
    CongMul(reduced, next, Pow(base * base % m, half), m);
    CongMul(Pow(base * base % m, half), Pow(base * base, half), next, m);
    SquareHalf(result, base, exp);
  }

  lemma SquareHalf(result: int, base: int, exp: nat)
    requires exp > 0
    ensures (if exp % 2 == 1 then result * base else result) * Pow(base * base, exp / 2) == result * Pow(base, exp)
  {
    var half := exp / 2;
    PowPow(base, 2, half);
    assert Pow(base, 2) == base * Pow(base, 1) == base * base;
    PowAdd(base, exp % 2, 2 * half);
    assert exp == exp % 2 + 2 * half;
    if exp % 2 == 1 {
      assert Pow(base, 1) == base;
      assert result * base * Pow(base * base, half) == result * (base * Pow(base * base, half));
    }
  }

  lemma {:induction false} PowerLoopExact(result: U64, base: U64, exp: U64, m: U64)
    requires 0 < m <= SAFE_MODULUS && (result < m || exp > 0)
    ensures PowerLoop(result, base, exp, m) == (result * Pow(base, exp)) % m
    decreases exp
  {
    if exp == 0 {
      ModSmall(result, m);
    } else {
      PowerLoopStep(result, base, exp, m);
      ProductExact(result, base, m);
      ProductExact(base, base, m);
      PowerLoopExact(if exp % 2 == 1 then Product(result, base, m) else result, Product(base, base, m), exp / 2, m);
    }
  }

  /** Up to 2^63 the power is exact, except that a zeroth power modulo 1 comes out as 1 instead of 0. */
  lemma PowerExactBelow(base: U64, exp: U64, m: U64)
    requires 0 < m <= SAFE_MODULUS
    ensures Power(base, exp, m) == Pow(base, exp) % m <==> m >= 2 || exp > 0
  {
    if m >= 2 || exp > 0 {
      PowerLoopExact(1, base % m, exp, m);
      ModIdem(base, m);
      PowCongruent(base % m, base, exp, m);
    }
  }

  /** The power is exact for every base and every exponent if and only if the modulus is from 2 to 2^63. */
  lemma PowerExactIff(m: U64)
    requires m > 0
    ensures (forall base: U64, exp: U64 :: Power(base, exp, m) == Pow(base, exp) % m) <==> 2 <= m <= SAFE_MODULUS
  {
    hide Power, Pow;
    if m == 1 {
      PowerExactBelow(0, 0, m);
    } else if m <= SAFE_MODULUS {
      forall base: U64, exp: U64 ensures Power(base, exp, m) == Pow(base, exp) % m {
        PowerExactBelow(base, exp, m);
      }
    } else {
      SquareWraps(m);
      SquareIsNotZero(m);
      assert Power(SAFE_MODULUS, 2, m) != Pow(SAFE_MODULUS, 2) % m;
    }
  }

  lemma {:induction false} AddLoopOfZero(b: U64, m: U64)
    requires m > 0
    ensures AddLoop(0, 0, b, m) == 0
    decreases b
  {
    ModSmall(0, m);
    if b > 0 { AddLoopOfZero(b / 2, m); }
  }

  /** Above 2^63 the square of 2^63 is lost in the first doubling. */
  lemma SquareWraps(m: U64)
    requires m > SAFE_MODULUS
    ensures Power(SAFE_MODULUS, 2, m) == 0
  {
    ModSmall(SAFE_MODULUS, m);
    DoubledToZero(m);
    assert Product(1, 0, m) == 0;
    hide Product;
    var squared: U64 := Product(SAFE_MODULUS, SAFE_MODULUS, m);
    assert PowerLoop(1, SAFE_MODULUS, 2, m) == PowerLoop(1, squared, 1, m);
    assert PowerLoop(1, 0, 1, m) == PowerLoop(0, Product(0, 0, m), 0, m) == 0;
  }

  lemma DoubledToZero(m: U64)
    requires m > SAFE_MODULUS
    ensures Product(SAFE_MODULUS, SAFE_MODULUS, m) == 0
  {
    ModSmall(SAFE_MODULUS, m);
    ModSmall(0, m);
    assert Wrap(SAFE_MODULUS * 2) == 0;
    AddLoopOfZero(SAFE_MODULUS / 2, m);
  }

  /** No number strictly between two neighbouring powers of 2 divides a power of 2. */
  lemma {:induction false} NoDivisorBetween(m: nat, n: nat, j: nat)
    requires Pow(2, j) < m < Pow(2, j + 1)
    ensures Pow(2, n) % m != 0
  {
    if Pow(2, n) % m == 0 {
      PowMonotone(2, 0, n);
      var q: nat := Pow(2, n) / m;
      assert Pow(2, n) == m * q;
      CofactorOfPower(m, q, n, j);
    }
  }

  lemma {:induction false} CofactorOfPower(m: nat, q: nat, n: nat, j: nat)
    requires Pow(2, j) < m < Pow(2, j + 1)
    ensures m * q != Pow(2, n)
    decreases n
  {
    PowMonotone(2, 0, j);
    if n == 0 {
      MultipleIsNotOne(m, q);
    } else if m % 2 == 0 {
      assert j > 0;
      CofactorOfPower(m / 2, q, n - 1, j - 1);
      HalvesDiffer(m, q, Pow(2, n - 1));
    } else {
      CofactorOfPower(m, q / 2, n - 1, j);
      OddDiffers(m, q, Pow(2, n - 1));
    }
  }

  lemma MultipleIsNotOne(m: nat, q: nat)
    requires m > 1
    ensures m * q != 1
  {
    if q > 0 { MulAtLeast(m, 1, q); }
  }

  lemma HalvesDiffer(m: nat, q: nat, p: int)
    requires m % 2 == 0 && m / 2 * q != p
    ensures m * q != 2 * p
  {
    assert m * q == 2 * (m / 2 * q);
  }

  lemma OddDiffers(m: nat, q: nat, p: int)
    requires m % 2 == 1 && m * (q / 2) != p
    ensures m * q != 2 * p
  {
    if q % 2 == 0 {
      assert m * q == 2 * (m * (q / 2));
    } else {
      OddTimes(m, q);
    }
  }

  lemma OddTimes(m: nat, q: nat)
    requires m % 2 == 1 && q % 2 == 1
    ensures m * q % 2 == 1
  {
    assert m * q == 2 * (m / 2 * q) + q;
  }

  lemma SquareIsNotZero(m: U64)
    requires m > SAFE_MODULUS
    ensures Pow(SAFE_MODULUS, 2) % m != 0
  {
    assert Pow(2, 9) == 512;
    PowPow(2, 9, 7);
    assert Pow(512, 7) == SAFE_MODULUS;
    PowPow(2, 63, 2);
    NoDivisorBetween(m, 126, 63);
  }

  // ---------------------------------------------------------------- big-endian encoding

  datatype RsaError = MessageNotOneByte | InvalidKeyFormat | MessageTooLarge | DivisionByZero

  method DecodeUint64(b: seq<Byte>, offset: nat) returns (r: Result<U64, RsaError>)
    ensures r == Decoded(b, offset)
  {
    if |b| < offset + 8 { return Failure(InvalidKeyFormat); }
    var v: U64 := 0;
    for i := 0 to 8
      invariant v == BigEndian(b[offset..offset + i])
    {
      var part := b[offset..offset + i + 1];
      assert part[..i] == b[offset..offset + i];
      EightBytesFit(part);
      v := Wrap(v * 256) + b[offset + i] as int;
    }
    return Success(v);
  }

  function Decoded(b: seq<Byte>, offset: nat): Result<U64, RsaError> {
    if |b| < offset + 8 then Failure(InvalidKeyFormat)
    else
      EightBytesFit(b[offset..offset + 8]);
      Success(BigEndian(b[offset..offset + 8]))
  }

  // ---------------------------------------------------------------- keys, encryption, decryption

  datatype KeyPair = KeyPair(publicKey: seq<Byte>, privateKey: seq<Byte>)

  function KeyOf(n: U64, exponent: U64): seq<Byte> {
    LowBytes(n, 8) + LowBytes(exponent, 8)
  }

  /** Reading a key gives back the modulus and the exponent. */
  lemma KeyRoundTrip(n: U64, exponent: U64)
    ensures Decoded(KeyOf(n, exponent), 0) == Success(n)
    ensures Decoded(KeyOf(n, exponent), 8) == Success(exponent)
  {
    assert Pow(256, 8) == WORD;
    BigEndianLowBytes(n, 8);
    BigEndianLowBytes(exponent, 8);
    assert KeyOf(n, exponent)[0..8] == LowBytes(n, 8);
    assert KeyOf(n, exponent)[8..16] == LowBytes(exponent, 8);
  }

  lemma DemoExponentCoprime()
    ensures Gcd(17, 3120) == 1
  {
    assert Gcd(17, 3120) == Gcd(3120, 17) == Gcd(17, 9) == Gcd(9, 8) == Gcd(8, 1) == Gcd(1, 0);
  }

  /**
   Key generation with the fixed primes 61 and 53.  Neither failure of the original can occur:
   17 is coprime to phi and the search finds its inverse.
   */
  method GenerateKeyPair() returns (kp: KeyPair)
    ensures kp.publicKey == KeyOf(61 * 53, 17)
    ensures exists d: U64 :: IsInverse(17, d, 60 * 52) && kp.privateKey == KeyOf(61 * 53, d)
  {
    hide LowBytes, Gcd, TruncatedGcd;
    var p, q := 61, 53;
    var n, phi := p * q, (p - 1) * (q - 1);
    var e := 17;
    DemoExponentCoprime();
    var g := EuclidGcd(e, phi);
    TruncatedGcdIsGcd(e, phi);
    assert g == 1;
    var d := ModInverse(e, phi);
    assert d != -1;
    var encodedN := EncodeUint64(n);
    var encodedE := EncodeUint64(e);
    var encodedD := EncodeUint64(d);
    kp := KeyPair(encodedN + encodedE, encodedN + encodedD);
  }

  function Encrypted(plaintext: seq<Byte>, publicKey: seq<Byte>): Result<seq<Byte>, RsaError> {
    if |plaintext| != 1 then Failure(MessageNotOneByte)
    else match (Decoded(publicKey, 0), Decoded(publicKey, 8))
      case (Success(n), Success(e)) =>
        var m := plaintext[0] as int;
        if m >= n then Failure(MessageTooLarge) else Success(LowBytes(Power(m, e, n), 8))
      case _ => Failure(InvalidKeyFormat)
  }

  /** A zero modulus, which makes the original divide by zero, is an outcome of its own. */
  function Decrypted(ciphertext: seq<Byte>, privateKey: seq<Byte>): Result<seq<Byte>, RsaError> {
    match (Decoded(privateKey, 0), Decoded(privateKey, 8), Decoded(ciphertext, 0))
    case (Success(n), Success(d), Success(c)) =>
      if n == 0 then Failure(DivisionByZero) else Success([Narrow(Power(c, d, n))])
    case _ => Failure(InvalidKeyFormat)
  }

  method Encrypt(plaintext: seq<Byte>, publicKey: seq<Byte>) returns (r: Result<seq<Byte>, RsaError>)
    ensures r == Encrypted(plaintext, publicKey)
  {
    if |plaintext| != 1 { return Failure(MessageNotOneByte); }
    var n := DecodeUint64(publicKey, 0);
    if n.Failure? { return Failure(n.error); }
    var e := DecodeUint64(publicKey, 8);
    if e.Failure? { return Failure(e.error); }
    var m := plaintext[0] as int;
    if m >= n.value { return Failure(MessageTooLarge); }
    var c := ModPow(m, e.value, n.value);
    var bytes := EncodeUint64(c);
    return Success(bytes);
  }

  method Decrypt(ciphertext: seq<Byte>, privateKey: seq<Byte>) returns (r: Result<seq<Byte>, RsaError>)
    ensures r == Decrypted(ciphertext, privateKey)
  {
    var n := DecodeUint64(privateKey, 0);
    if n.Failure? { return Failure(n.error); }
    var d := DecodeUint64(privateKey, 8);
    if d.Failure? { return Failure(d.error); }
    var c := DecodeUint64(ciphertext, 0);
    if c.Failure? { return Failure(c.error); }
    if n.value == 0 { return Failure(DivisionByZero); }
    var m := ModPow(c.value, d.value, n.value);
    return Success([Narrow(m)]);
  }

  // ---------------------------------------------------------------- correctness

  /** The code inverts RSA encryption for every pair of distinct primes with a product of at most 2^63. */
  lemma ModPowInverts(p: int, q: int, e: U64, d: U64, m: U64)
    requires IsPrime(p) && IsPrime(q) && p != q && p * q <= SAFE_MODULUS && m < p * q
    requires e * d % ((p - 1) * (q - 1)) == 1
    ensures Power(Power(m, e, p * q), d, p * q) == m
  {
    hide Power;
    MulMonotone(2, 2, p, q);
    PowerExactBelow(m, e, p * q);
    PowerExactBelow(Power(m, e, p * q), d, p * q);
    RsaExponents(p, q, e, d, m);
  }

  lemma WordRoundTrip(v: U64)
    ensures Decoded(LowBytes(v, 8), 0) == Success(v)
  {
    assert Pow(256, 8) == WORD;
    BigEndianLowBytes(v, 8);
    assert LowBytes(v, 8)[0..8] == LowBytes(v, 8);
  }

  /** What is encrypted and decrypted: up to the modulus 2^63 the ciphertext of a byte is its power in eight bytes, the
   highest first, and a ciphertext decrypts to the low byte of its power. */
  lemma CipherValues(n: U64, e: U64, b: Byte, c: U64)
    requires 2 <= n <= SAFE_MODULUS
    ensures Encrypted([b], KeyOf(n, e)) ==
      if b as int >= n then Failure(MessageTooLarge) else Success(LowBytes(Pow(b as int, e) % n, 8))
    ensures Decrypted(LowBytes(c, 8), KeyOf(n, e)) == Success([Narrow(Pow(c, e) % n)])
  {
    ByteOfInt(b);
    KeyRoundTrip(n, e);
    WordRoundTrip(c);
    hide Power, KeyOf, Decoded, LowBytes, Narrow;
    PowerExactBelow(b as int, e, n);
    PowerExactBelow(c, e, n);
  }

  /** Every byte below the modulus survives encryption and decryption with such keys. */
  lemma RsaRoundTrip(p: int, q: int, e: U64, d: U64, b: Byte)
    requires IsPrime(p) && IsPrime(q) && p != q && 0 < p * q <= SAFE_MODULUS && b as int < p * q
    requires e * d % ((p - 1) * (q - 1)) == 1
    ensures var c := Encrypted([b], KeyOf(p * q, e));
            c.Success? && Decrypted(c.value, KeyOf(p * q, d)) == Success([b])
  {
    ByteOfInt(b);
    ModPowInverts(p, q, e, d, b as int);
    RoundTripBytes(p * q, e, d, b);
  }

  lemma RoundTripBytes(n: U64, e: U64, d: U64, b: Byte)
    requires 0 <= b as int < n && Power(Power(b as int, e, n), d, n) == b as int
    ensures var c := Encrypted([b], KeyOf(n, e));
            c.Success? && Decrypted(c.value, KeyOf(n, d)) == Success([b])
  {
    hide Power, KeyOf, Decoded, LowBytes, Narrow;
    KeyRoundTrip(n, e);
    KeyRoundTrip(n, d);
    WordRoundTrip(Power(b as int, e, n));
    ByteOfInt(b);
  }

  lemma DemoPrimes()
    ensures IsPrime(61) && IsPrime(53)
  {
    NoFactorBelowRoot(61, 8);
    NoFactorBelowRoot(53, 8);
  }

  /** With the generated key pair every byte survives encryption and decryption. */
  lemma GeneratedKeyRoundTrip(d: U64, b: Byte)
    requires IsInverse(17, d, 60 * 52)
    ensures var c := Encrypted([b], KeyOf(61 * 53, 17));
            c.Success? && Decrypted(c.value, KeyOf(61 * 53, d)) == Success([b])
  {
    DemoPrimes();
    ByteOfInt(b);
    RsaRoundTrip(61, 53, 17, d, b);
  }
}
