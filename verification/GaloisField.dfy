/**
 Arithmetic in GF(2^8) as coded in src/crypto/modern/symmetric/block/AES.cpp, and its
 algebra: section 4.2 of FIPS 197.
 */
module GaloisField {
  import opened CoreUtils

  function Xor(x: Byte, y: Byte): Byte {
    x ^ y
  }

  function Xtime(x: Byte): Byte {
    (x << 1) ^ (((x >> 7) & 1) * 0x1b)
  }

  /** x multiplied i times by the polynomial x. */
  function XtimePower(x: Byte, i: nat): Byte {
    if i == 0 then x else Xtime(XtimePower(x, i - 1))
  }

  predicate Bit(y: Byte, i: nat)
    requires i < 8
  {
    (y >> i) & 1 == 1
  }

  /** v if bit i of y is set, and 0 otherwise. */
  function Selected(y: Byte, i: nat, v: Byte): Byte
    requires i < 8
  {
    if Bit(y, i) then v else 0
  }

  /** The contributions of the n low bits of y to the product. */
  function PartialProduct(x: Byte, y: Byte, n: nat): Byte
    requires n <= 8
  {
    if n == 0 then 0 else Xor(PartialProduct(x, y, n - 1), Selected(y, n - 1, XtimePower(x, n - 1)))
  }

  function Times(x: Byte, y: Byte): Byte {
    PartialProduct(x, y, 8)
  }

  /** The shift-and-add loop. */
  method Multiply(x: Byte, y: Byte) returns (res: Byte)
    ensures res == Times(x, y)
  {
    hide Xtime;
    res := 0;
    var power := x;
    for i := 0 to 8
      invariant res == PartialProduct(x, y, i) && power == XtimePower(x, i)
    {
      XorZero(res);
      if (y >> i) & 1 == 1 { res := res ^ power; }
      power := Xtime(power);
    }
  }

  // ---------------------------------------------------------------- xor

  lemma XorMeaning(x: Byte, y: Byte)
    ensures x ^ y == Xor(x, y)
  {
  }

  lemma XorZero(a: Byte)
    ensures Xor(a, 0) == a == Xor(0, a) && Xor(a, a) == 0
  {
  }

  lemma XorCancels(a: Byte, b: Byte)
    ensures Xor(Xor(a, b), b) == a
  {
  }

  lemma RawShuffle(a: Byte, b: Byte, c: Byte, d: Byte)
    ensures (a ^ b) ^ (c ^ d) == (a ^ c) ^ (b ^ d)
  {
  }

  lemma XorShuffle(a: Byte, b: Byte, c: Byte, d: Byte)
    ensures Xor(Xor(a, b), Xor(c, d)) == Xor(Xor(a, c), Xor(b, d))
  {
    calc {
      Xor(Xor(a, b), Xor(c, d));
      (a ^ b) ^ (c ^ d);
      { RawShuffle(a, b, c, d); }
      (a ^ c) ^ (b ^ d);
      Xor(Xor(a, c), Xor(b, d));
    }
  }

  // ---------------------------------------------------------------- linearity

  lemma XtimeLinear(x: Byte, y: Byte)
    ensures Xtime(Xor(x, y)) == Xor(Xtime(x), Xtime(y))
  {
  }

  lemma XtimeZero()
    ensures Xtime(0) == 0
  {
  }

  lemma {:induction false} XtimePowerLinear(x: Byte, y: Byte, i: nat)
    ensures XtimePower(Xor(x, y), i) == Xor(XtimePower(x, i), XtimePower(y, i))
  {
    hide Xtime, Xor;
    if i > 0 {
      XtimePowerLinear(x, y, i - 1);
      XtimeLinear(XtimePower(x, i - 1), XtimePower(y, i - 1));
    }
  }

  lemma {:induction false} XtimePowerCommutes(x: Byte, i: nat)
    ensures XtimePower(Xtime(x), i) == Xtime(XtimePower(x, i))
  {
    hide Xtime;
    if i > 0 { XtimePowerCommutes(x, i - 1); }
  }

  lemma RawBitXor(y: Byte, z: Byte, i: nat)
    requires i < 8
    ensures ((y ^ z) >> i) & 1 == 1 <==> ((y >> i) & 1 == 1) != ((z >> i) & 1 == 1)
  {
  }

  lemma BitXor(y: Byte, z: Byte, i: nat)
    requires i < 8
    ensures Bit(Xor(y, z), i) <==> Bit(y, i) != Bit(z, i)
  {
    calc {
      Bit(Xor(y, z), i);
      ((y ^ z) >> i) & 1 == 1;
      { RawBitXor(y, z, i); }
      ((y >> i) & 1 == 1) != ((z >> i) & 1 == 1);
      Bit(y, i) != Bit(z, i);
    }
  }

  lemma SelectedXor(y: Byte, i: nat, u: Byte, v: Byte)
    requires i < 8
    ensures Selected(y, i, Xor(u, v)) == Xor(Selected(y, i, u), Selected(y, i, v))
  {
    hide Bit, Xor;
    XorZero(0);
  }

  lemma SelectedBy(y: Byte, z: Byte, i: nat, v: Byte)
    requires i < 8
    ensures Selected(Xor(y, z), i, v) == Xor(Selected(y, i, v), Selected(z, i, v))
  {
    hide Bit, Xor;
    BitXor(y, z, i);
    XorZero(v);
    XorZero(0);
  }

  lemma {:induction false} PartialLeft(x: Byte, y: Byte, z: Byte, n: nat)
    requires n <= 8
    ensures PartialProduct(Xor(x, y), z, n) == Xor(PartialProduct(x, z, n), PartialProduct(y, z, n))
  {
    hide Selected, Xor, XtimePower;
    if n == 0 {
      XorZero(0);
    } else {
      PartialLeft(x, y, z, n - 1);
      XtimePowerLinear(x, y, n - 1);
      var p, q := XtimePower(x, n - 1), XtimePower(y, n - 1);
      SelectedXor(z, n - 1, p, q);
      XorShuffle(PartialProduct(x, z, n - 1), PartialProduct(y, z, n - 1), Selected(z, n - 1, p), Selected(z, n - 1, q));
    }
  }

  lemma {:induction false} PartialRight(x: Byte, y: Byte, z: Byte, n: nat)
    requires n <= 8
    ensures PartialProduct(x, Xor(y, z), n) == Xor(PartialProduct(x, y, n), PartialProduct(x, z, n))
  {
    hide Selected, Xor, XtimePower;
    if n == 0 {
      XorZero(0);
    } else {
      PartialRight(x, y, z, n - 1);
      var p := XtimePower(x, n - 1);
      SelectedBy(y, z, n - 1, p);
      XorShuffle(PartialProduct(x, y, n - 1), PartialProduct(x, z, n - 1), Selected(y, n - 1, p), Selected(z, n - 1, p));
    }
  }

  lemma {:induction false} PartialXtime(x: Byte, y: Byte, n: nat)
    requires n <= 8
    ensures PartialProduct(Xtime(x), y, n) == Xtime(PartialProduct(x, y, n))
  {
    hide Bit, Xor, Xtime, XtimePower;
    XtimeZero();
    if n > 0 {
      PartialXtime(x, y, n - 1);
      XtimePowerCommutes(x, n - 1);
      XtimeLinear(PartialProduct(x, y, n - 1), Selected(y, n - 1, XtimePower(x, n - 1)));
    }
  }

  /** Multiplication distributes over xor on both sides. */
  lemma Distributive(x: Byte, y: Byte, z: Byte)
    ensures Times(Xor(x, y), z) == Xor(Times(x, z), Times(y, z))
    ensures Times(x, Xor(y, z)) == Xor(Times(x, y), Times(x, z))
  {
    hide PartialProduct, Xor;
    PartialLeft(x, y, z, 8);
    PartialRight(x, y, z, 8);
  }

  // ---------------------------------------------------------------- the ring laws

  /** The n low bits of a byte. */
  function LowBits(y: Byte, n: nat): Byte
    requires n <= 8
  {
    y & [0, 1, 3, 7, 15, 31, 63, 127, 255][n]
  }

  lemma PowerOfOne(n: nat)
    requires n < 8
    ensures XtimePower(1, n) == [1, 2, 4, 8, 16, 32, 64, 128][n]
  {
    assert XtimePower(1, 0) == 1;
    assert n >= 1 ==> XtimePower(1, 1) == 2;
    assert n >= 2 ==> XtimePower(1, 2) == 4;
    assert n >= 3 ==> XtimePower(1, 3) == 8;
    assert n >= 4 ==> XtimePower(1, 4) == 16;
    assert n >= 5 ==> XtimePower(1, 5) == 32;
    assert n >= 6 ==> XtimePower(1, 6) == 64;
    assert n >= 7 ==> XtimePower(1, 7) == 128;
  }

  lemma NextLowBit(y: Byte, n: nat)
    requires n < 4
    ensures LowBits(y, n + 1) == Xor(LowBits(y, n), Selected(y, n, [1, 2, 4, 8, 16, 32, 64, 128][n]))
  {
    if n == 0 {} else if n == 1 {} else if n == 2 {} else {}
  }

  lemma NextHighBit(y: Byte, n: nat)
    requires 4 <= n < 8
    ensures LowBits(y, n + 1) == Xor(LowBits(y, n), Selected(y, n, [1, 2, 4, 8, 16, 32, 64, 128][n]))
  {
    if n == 4 {} else if n == 5 {} else if n == 6 {} else {}
  }

  lemma {:induction false} PartialOne(y: Byte, n: nat)
    requires n <= 8
    ensures PartialProduct(1, y, n) == LowBits(y, n)
  {
    hide Xor, Selected, XtimePower;
    if n == 0 {
    } else {
      PartialOne(y, n - 1);
      PowerOfOne(n - 1);
      if n <= 4 { NextLowBit(y, n - 1); } else { NextHighBit(y, n - 1); }
    }
  }

  lemma OneTimes(y: Byte)
    ensures Times(1, y) == y
  {
    hide PartialProduct;
    PartialOne(y, 8);
  }

  lemma {:induction false} PowerTimes(x: Byte, y: Byte, i: nat)
    ensures Times(XtimePower(x, i), y) == XtimePower(Times(x, y), i)
  {
    hide Xtime, PartialProduct;
    if i > 0 {
      PowerTimes(x, y, i - 1);
      PartialXtime(XtimePower(x, i - 1), y, 8);
    }
  }

  lemma ZeroTimes(y: Byte)
    ensures Times(0, y) == 0 && Times(y, 0) == 0
  {
    hide Times, Xor;
    XorZero(0);
    XorZero(Times(0, y));
    XorZero(Times(y, 0));
    Distributive(0, 0, y);
    Distributive(y, 0, 0);
  }

  /** Summing the powers selected by the bits of y is multiplying y itself by x. */
  lemma {:induction false} PartialSwapped(x: Byte, y: Byte, n: nat)
    requires n <= 8
    ensures Times(PartialProduct(1, y, n), x) == PartialProduct(x, y, n)
  {
    hide Xor, Times, XtimePower, Bit;
    ZeroTimes(x);
    if n > 0 {
      PartialSwapped(x, y, n - 1);
      OneTimes(x);
      PowerTimes(1, x, n - 1);
      Distributive(PartialProduct(1, y, n - 1), Selected(y, n - 1, XtimePower(1, n - 1)), x);
    }
  }

  lemma Commutative(x: Byte, y: Byte)
    ensures Times(x, y) == Times(y, x)
  {
    hide PartialProduct;
    PartialSwapped(x, y, 8);
    OneTimes(y);
  }

  lemma TimesPower(x: Byte, y: Byte, i: nat)
    ensures Times(x, XtimePower(y, i)) == XtimePower(Times(x, y), i)
  {
    hide Times, XtimePower;
    Commutative(x, XtimePower(y, i));
    Commutative(x, y);
    PowerTimes(y, x, i);
  }

  lemma {:induction false} PartialAssociative(x: Byte, y: Byte, z: Byte, n: nat)
    requires n <= 8
    ensures PartialProduct(Times(x, y), z, n) == Times(x, PartialProduct(y, z, n))
  {
    hide Xor, Times, XtimePower, Bit;
    ZeroTimes(x);
    if n > 0 {
      PartialAssociative(x, y, z, n - 1);
      TimesPower(x, y, n - 1);
      Distributive(x, PartialProduct(y, z, n - 1), Selected(z, n - 1, XtimePower(y, n - 1)));
    }
  }

  lemma Associative(x: Byte, y: Byte, z: Byte)
    ensures Times(Times(x, y), z) == Times(x, Times(y, z))
  {
    hide PartialProduct;
    PartialAssociative(x, y, z, 8);
  }

  // ---------------------------------------------------------------- polynomials modulo x^8 + x^4 + x^3 + x + 1

  function Xor16(p: bv16, q: bv16): bv16 {
    p ^ q
  }

  /** The n low bits of y times x as polynomials over GF(2), without any reduction. */
  function Carryless(x: Byte, y: Byte, n: nat): bv16
    requires n <= 8
  {
    if n == 0 then 0 else Xor16(Carryless(x, y, n - 1), if Bit(y, n - 1) then Shifted(x, n - 1) else 0)
  }

  function Shifted(x: Byte, k: nat): bv16
    requires k < 8
  {
    x as bv16 << k
  }

  /** One step of polynomial long division: subtracts the modulus, shifted, if bit k + 8 is set. */
  function ClearBit(p: bv16, k: nat): bv16
    requires k < 8
  {
    Xor16(p, if HighBit(p, k) then Modulus(k) else 0)
  }

  predicate HighBit(p: bv16, k: nat)
    requires k < 8
  {
    (p >> (k + 8)) & 1 == 1
  }

  function Modulus(k: nat): bv16
    requires k < 8
  {
    (0x11b as bv16) << k
  }

  /** The remainder of a polynomial, after the steps below k, on division by the modulus. */
  function Remainder(p: bv16, k: nat): bv16
    requires k <= 8
    decreases k
  {
    if k == 0 then p else Remainder(ClearBit(p, k - 1), k - 1)
  }

  lemma RawShift(p: bv16, q: bv16, k: nat)
    requires k < 16
    ensures (p ^ q) >> k == (p >> k) ^ (q >> k)
  {
  }

  lemma RawHighBit(p: bv16, q: bv16, k: nat)
    requires k < 8
    ensures ((p ^ q) >> (k + 8)) & 1 == 1 <==> ((p >> (k + 8)) & 1 == 1) != ((q >> (k + 8)) & 1 == 1)
  {
    RawShift(p, q, k + 8);
  }

  lemma Xor16Meaning(p: bv16, q: bv16)
    ensures Xor16(p, q) == p ^ q
  {
  }

  lemma HighBitMeaning(p: bv16, k: nat)
    requires k < 8
    ensures HighBit(p, k) <==> (p >> (k + 8)) & 1 == 1
  {
  }

  lemma HighBitOfXor(p: bv16, q: bv16, k: nat)
    requires k < 8
    ensures HighBit(Xor16(p, q), k) <==> ((p ^ q) >> (k + 8)) & 1 == 1
  {
    hide HighBit, Xor16;
    Xor16Meaning(p, q);
    HighBitMeaning(p ^ q, k);
  }

  lemma HighBitXor(p: bv16, q: bv16, k: nat)
    requires k < 8
    ensures HighBit(Xor16(p, q), k) <==> HighBit(p, k) != HighBit(q, k)
  {
    hide HighBit, Xor16;
    calc {
      HighBit(Xor16(p, q), k);
      { HighBitOfXor(p, q, k); }
      ((p ^ q) >> (k + 8)) & 1 == 1;
      { RawHighBit(p, q, k); }
      ((p >> (k + 8)) & 1 == 1) != ((q >> (k + 8)) & 1 == 1);
      { HighBitMeaning(p, k); HighBitMeaning(q, k); }
      HighBit(p, k) != HighBit(q, k);
    }
  }

  lemma RawShuffle16(a: bv16, b: bv16, c: bv16, d: bv16)
    ensures (a ^ b) ^ (c ^ d) == (a ^ c) ^ (b ^ d)
  {
  }

  lemma Xor16Shuffle(a: bv16, b: bv16, c: bv16, d: bv16)
    ensures Xor16(Xor16(a, b), Xor16(c, d)) == Xor16(Xor16(a, c), Xor16(b, d))
  {
    calc {
      Xor16(Xor16(a, b), Xor16(c, d));
      (a ^ b) ^ (c ^ d);
      { RawShuffle16(a, b, c, d); }
      (a ^ c) ^ (b ^ d);
      Xor16(Xor16(a, c), Xor16(b, d));
    }
  }

  lemma Xor16Zero(a: bv16)
    ensures Xor16(a, 0) == a == Xor16(0, a) && Xor16(a, a) == 0
  {
  }

  lemma ClearBitLinear(p: bv16, q: bv16, k: nat)
    requires k < 8
    ensures ClearBit(Xor16(p, q), k) == Xor16(ClearBit(p, k), ClearBit(q, k))
  {
    hide HighBit, Xor16, Modulus;
    HighBitXor(p, q, k);
    Xor16Zero(Modulus(k));
    Xor16Zero(0);
    Xor16Shuffle(p, q, if HighBit(p, k) then Modulus(k) else 0, if HighBit(q, k) then Modulus(k) else 0);
  }

  lemma {:induction false} RemainderLinear(p: bv16, q: bv16, k: nat)
    requires k <= 8
    ensures Remainder(Xor16(p, q), k) == Xor16(Remainder(p, k), Remainder(q, k))
    decreases k
  {
    hide ClearBit, Xor16;
    if k > 0 {
      ClearBitLinear(p, q, k - 1);
      RemainderLinear(ClearBit(p, k - 1), ClearBit(q, k - 1), k - 1);
    }
  }

  lemma ClearTopLow(x: Byte)
    ensures ClearBit(Shifted(x, 1), 0) == Shifted(Xtime(x), 0)
    ensures ClearBit(Shifted(x, 2), 1) == Shifted(Xtime(x), 1)
    ensures ClearBit(Shifted(x, 3), 2) == Shifted(Xtime(x), 2)
  {
  }

  lemma ClearTopHigh(x: Byte)
    ensures ClearBit(Shifted(x, 4), 3) == Shifted(Xtime(x), 3)
    ensures ClearBit(Shifted(x, 5), 4) == Shifted(Xtime(x), 4)
    ensures ClearBit(Shifted(x, 6), 5) == Shifted(Xtime(x), 5)
    ensures ClearBit(Shifted(x, 7), 6) == Shifted(Xtime(x), 6)
  {
  }

  /** Clearing the top bit of x shifted by k doubles x in the field instead. */
  lemma ClearTop(x: Byte, k: nat)
    requires 1 <= k <= 7
    ensures ClearBit(Shifted(x, k), k - 1) == Shifted(Xtime(x), k - 1)
  {
    hide ClearBit, Shifted, Xtime;
    if k <= 3 { ClearTopLow(x); } else { ClearTopHigh(x); }
  }

  lemma RawNoHighBit(x: Byte, k: nat, j: nat)
    requires k <= j < 8
    ensures ((x as bv16 << k) >> (j + 8)) & 1 == 0
  {
  }

  lemma {:induction false} NothingToClear(x: Byte, k: nat, j: nat)
    requires k <= j <= 8 && k < 8
    ensures Remainder(Shifted(x, k), j) == Remainder(Shifted(x, k), k)
  {
    hide HighBit, Xor16;
    if j > k {
      RawNoHighBit(x, k, j - 1);
      HighBitMeaning(x as bv16 << k, j - 1);
      Xor16Zero(Shifted(x, k));
      NothingToClear(x, k, j - 1);
    }
  }

  lemma {:induction false} RemainderOfShift(x: Byte, k: nat)
    requires k < 8
    ensures Remainder(Shifted(x, k), k) == XtimePower(x, k) as bv16
    decreases k
  {
    hide ClearBit, Xtime;
    if k > 0 {
      ClearTop(x, k);
      RemainderOfShift(Xtime(x), k - 1);
      XtimePowerCommutes(x, k - 1);
    } else {
      assert Shifted(x, 0) == x as bv16;
    }
  }

  lemma XorWidens(x: Byte, y: Byte)
    ensures Xor(x, y) as bv16 == Xor16(x as bv16, y as bv16)
  {
  }

  lemma {:induction false} RemainderOfZero(k: nat)
    requires k <= 8
    ensures Remainder(0, k) == 0
  {
    hide HighBit, Xor16;
    if k > 0 {
      HighBitMeaning(0, k - 1);
      Xor16Zero(0);
      RemainderOfZero(k - 1);
    }
  }

  lemma {:induction false} RemainderOfProduct(x: Byte, y: Byte, n: nat)
    requires n <= 8
    ensures Remainder(Carryless(x, y, n), 8) == PartialProduct(x, y, n) as bv16
  {
    hide Xor, Xor16, Bit, XtimePower, Remainder, Shifted;
    RemainderOfZero(8);
    if n > 0 {
      RemainderOfProduct(x, y, n - 1);
      RemainderLinear(Carryless(x, y, n - 1), if Bit(y, n - 1) then Shifted(x, n - 1) else 0, 8);
      NothingToClear(x, n - 1, 8);
      RemainderOfShift(x, n - 1);
      XorWidens(PartialProduct(x, y, n - 1), Selected(y, n - 1, XtimePower(x, n - 1)));
    }
  }

  /** The loop computes the product of polynomials modulo x^8 + x^4 + x^3 + x + 1. */
  lemma TimesIsPolynomialProduct(x: Byte, y: Byte)
    ensures Times(x, y) as bv16 == Remainder(Carryless(x, y, 8), 8)
  {
    hide PartialProduct, Remainder, Carryless;
    RemainderOfProduct(x, y, 8);
  }
}
