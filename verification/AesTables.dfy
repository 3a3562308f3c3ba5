/**
 The substitution tables of src/crypto/modern/symmetric/block/AES.cpp, in the sixteen rows of
 sixteen in which the source lays them out, and what section 5.1.1 of FIPS 197 says of them.
 */
module AesTables {
  import opened CoreUtils
  import opened GaloisField

  /** The entry of a row that the four low bits of i select. */
  function Entry(i: Byte, e0: Byte, e1: Byte, e2: Byte, e3: Byte, e4: Byte, e5: Byte, e6: Byte, e7: Byte,
                 e8: Byte, e9: Byte, e10: Byte, e11: Byte, e12: Byte, e13: Byte, e14: Byte, e15: Byte): Byte
  {
    if i & 8 == 0 then
      if i & 4 == 0 then
        if i & 2 == 0 then (if i & 1 == 0 then e0 else e1) else (if i & 1 == 0 then e2 else e3)
      else
        if i & 2 == 0 then (if i & 1 == 0 then e4 else e5) else (if i & 1 == 0 then e6 else e7)
    else
      if i & 4 == 0 then
        if i & 2 == 0 then (if i & 1 == 0 then e8 else e9) else (if i & 1 == 0 then e10 else e11)
      else
        if i & 2 == 0 then (if i & 1 == 0 then e12 else e13) else (if i & 1 == 0 then e14 else e15)
  }

  function SBox(x: Byte): Byte {
    var column := x & 0x0f;
    Entry(x >> 4,
      Entry(column, 0x63, 0x7c, 0x77, 0x7b, 0xf2, 0x6b, 0x6f, 0xc5, 0x30, 0x01, 0x67, 0x2b, 0xfe, 0xd7, 0xab, 0x76),
      Entry(column, 0xca, 0x82, 0xc9, 0x7d, 0xfa, 0x59, 0x47, 0xf0, 0xad, 0xd4, 0xa2, 0xaf, 0x9c, 0xa4, 0x72, 0xc0),
      Entry(column, 0xb7, 0xfd, 0x93, 0x26, 0x36, 0x3f, 0xf7, 0xcc, 0x34, 0xa5, 0xe5, 0xf1, 0x71, 0xd8, 0x31, 0x15),
      Entry(column, 0x04, 0xc7, 0x23, 0xc3, 0x18, 0x96, 0x05, 0x9a, 0x07, 0x12, 0x80, 0xe2, 0xeb, 0x27, 0xb2, 0x75),
      Entry(column, 0x09, 0x83, 0x2c, 0x1a, 0x1b, 0x6e, 0x5a, 0xa0, 0x52, 0x3b, 0xd6, 0xb3, 0x29, 0xe3, 0x2f, 0x84),
      Entry(column, 0x53, 0xd1, 0x00, 0xed, 0x20, 0xfc, 0xb1, 0x5b, 0x6a, 0xcb, 0xbe, 0x39, 0x4a, 0x4c, 0x58, 0xcf),
      Entry(column, 0xd0, 0xef, 0xaa, 0xfb, 0x43, 0x4d, 0x33, 0x85, 0x45, 0xf9, 0x02, 0x7f, 0x50, 0x3c, 0x9f, 0xa8),
      Entry(column, 0x51, 0xa3, 0x40, 0x8f, 0x92, 0x9d, 0x38, 0xf5, 0xbc, 0xb6, 0xda, 0x21, 0x10, 0xff, 0xf3, 0xd2),
      Entry(column, 0xcd, 0x0c, 0x13, 0xec, 0x5f, 0x97, 0x44, 0x17, 0xc4, 0xa7, 0x7e, 0x3d, 0x64, 0x5d, 0x19, 0x73),
      Entry(column, 0x60, 0x81, 0x4f, 0xdc, 0x22, 0x2a, 0x90, 0x88, 0x46, 0xee, 0xb8, 0x14, 0xde, 0x5e, 0x0b, 0xdb),
      Entry(column, 0xe0, 0x32, 0x3a, 0x0a, 0x49, 0x06, 0x24, 0x5c, 0xc2, 0xd3, 0xac, 0x62, 0x91, 0x95, 0xe4, 0x79),
      Entry(column, 0xe7, 0xc8, 0x37, 0x6d, 0x8d, 0xd5, 0x4e, 0xa9, 0x6c, 0x56, 0xf4, 0xea, 0x65, 0x7a, 0xae, 0x08),
      Entry(column, 0xba, 0x78, 0x25, 0x2e, 0x1c, 0xa6, 0xb4, 0xc6, 0xe8, 0xdd, 0x74, 0x1f, 0x4b, 0xbd, 0x8b, 0x8a),
      Entry(column, 0x70, 0x3e, 0xb5, 0x66, 0x48, 0x03, 0xf6, 0x0e, 0x61, 0x35, 0x57, 0xb9, 0x86, 0xc1, 0x1d, 0x9e),
      Entry(column, 0xe1, 0xf8, 0x98, 0x11, 0x69, 0xd9, 0x8e, 0x94, 0x9b, 0x1e, 0x87, 0xe9, 0xce, 0x55, 0x28, 0xdf),
      Entry(column, 0x8c, 0xa1, 0x89, 0x0d, 0xbf, 0xe6, 0x42, 0x68, 0x41, 0x99, 0x2d, 0x0f, 0xb0, 0x54, 0xbb, 0x16))
  }

  function InvSBox(x: Byte): Byte {
    var column := x & 0x0f;
    Entry(x >> 4,
      Entry(column, 0x52, 0x09, 0x6a, 0xd5, 0x30, 0x36, 0xa5, 0x38, 0xbf, 0x40, 0xa3, 0x9e, 0x81, 0xf3, 0xd7, 0xfb),
      Entry(column, 0x7c, 0xe3, 0x39, 0x82, 0x9b, 0x2f, 0xff, 0x87, 0x34, 0x8e, 0x43, 0x44, 0xc4, 0xde, 0xe9, 0xcb),
      Entry(column, 0x54, 0x7b, 0x94, 0x32, 0xa6, 0xc2, 0x23, 0x3d, 0xee, 0x4c, 0x95, 0x0b, 0x42, 0xfa, 0xc3, 0x4e),
      Entry(column, 0x08, 0x2e, 0xa1, 0x66, 0x28, 0xd9, 0x24, 0xb2, 0x76, 0x5b, 0xa2, 0x49, 0x6d, 0x8b, 0xd1, 0x25),
      Entry(column, 0x72, 0xf8, 0xf6, 0x64, 0x86, 0x68, 0x98, 0x16, 0xd4, 0xa4, 0x5c, 0xcc, 0x5d, 0x65, 0xb6, 0x92),
      Entry(column, 0x6c, 0x70, 0x48, 0x50, 0xfd, 0xed, 0xb9, 0xda, 0x5e, 0x15, 0x46, 0x57, 0xa7, 0x8d, 0x9d, 0x84),
      Entry(column, 0x90, 0xd8, 0xab, 0x00, 0x8c, 0xbc, 0xd3, 0x0a, 0xf7, 0xe4, 0x58, 0x05, 0xb8, 0xb3, 0x45, 0x06),
      Entry(column, 0xd0, 0x2c, 0x1e, 0x8f, 0xca, 0x3f, 0x0f, 0x02, 0xc1, 0xaf, 0xbd, 0x03, 0x01, 0x13, 0x8a, 0x6b),
      Entry(column, 0x3a, 0x91, 0x11, 0x41, 0x4f, 0x67, 0xdc, 0xea, 0x97, 0xf2, 0xcf, 0xce, 0xf0, 0xb4, 0xe6, 0x73),
      Entry(column, 0x96, 0xac, 0x74, 0x22, 0xe7, 0xad, 0x35, 0x85, 0xe2, 0xf9, 0x37, 0xe8, 0x1c, 0x75, 0xdf, 0x6e),
      Entry(column, 0x47, 0xf1, 0x1a, 0x71, 0x1d, 0x29, 0xc5, 0x89, 0x6f, 0xb7, 0x62, 0x0e, 0xaa, 0x18, 0xbe, 0x1b),
      Entry(column, 0xfc, 0x56, 0x3e, 0x4b, 0xc6, 0xd2, 0x79, 0x20, 0x9a, 0xdb, 0xc0, 0xfe, 0x78, 0xcd, 0x5a, 0xf4),
      Entry(column, 0x1f, 0xdd, 0xa8, 0x33, 0x88, 0x07, 0xc7, 0x31, 0xb1, 0x12, 0x10, 0x59, 0x27, 0x80, 0xec, 0x5f),
      Entry(column, 0x60, 0x51, 0x7f, 0xa9, 0x19, 0xb5, 0x4a, 0x0d, 0x2d, 0xe5, 0x7a, 0x9f, 0x93, 0xc9, 0x9c, 0xef),
      Entry(column, 0xa0, 0xe0, 0x3b, 0x4d, 0xae, 0x2a, 0xf5, 0xb0, 0xc8, 0xeb, 0xbb, 0x3c, 0x83, 0x53, 0x99, 0x61),
      Entry(column, 0x17, 0x2b, 0x04, 0x7e, 0xba, 0x77, 0xd6, 0x26, 0xe1, 0x69, 0x14, 0x63, 0x55, 0x21, 0x0c, 0x7d))
  }

  const RCON: seq<Byte> := [0x8d, 0x01, 0x02, 0x04, 0x08, 0x10, 0x20, 0x40, 0x80, 0x1b, 0x36]

  // ---------------------------------------------------------------- multiplication without recursion

  /** The product written out bit by bit. */
  function Unrolled(x: Byte, y: Byte): Byte {
    var x1 := Xtime(x);
    var x2 := Xtime(x1);
    var x3 := Xtime(x2);
    var x4 := Xtime(x3);
    var x5 := Xtime(x4);
    var x6 := Xtime(x5);
    var x7 := Xtime(x6);
    var low := Xor(Xor(Xor(Xor(0, Selected(y, 0, x)), Selected(y, 1, x1)), Selected(y, 2, x2)), Selected(y, 3, x3));
    Xor(Xor(Xor(Xor(low, Selected(y, 4, x4)), Selected(y, 5, x5)), Selected(y, 6, x6)), Selected(y, 7, x7))
  }

  lemma NextFactor(x: Byte, y: Byte, n: nat, power: Byte)
    requires n < 8 && power == XtimePower(x, n)
    ensures PartialProduct(x, y, n + 1) == Xor(PartialProduct(x, y, n), Selected(y, n, power))
    ensures Xtime(power) == XtimePower(x, n + 1)
  {
    hide Xor, Selected, Xtime;
  }

  lemma TimesIsUnrolled(x: Byte, y: Byte)
    ensures Times(x, y) == Unrolled(x, y)
  {
    hide Xor, Xtime, Selected, XtimePower, PartialProduct;
    var x1 := Xtime(x);
    var x2 := Xtime(x1);
    var x3 := Xtime(x2);
    var x4 := Xtime(x3);
    var x5 := Xtime(x4);
    var x6 := Xtime(x5);
    NoFactor(x, y);
    NextFactor(x, y, 0, x);
    NextFactor(x, y, 1, x1);
    NextFactor(x, y, 2, x2);
    NextFactor(x, y, 3, x3);
    NextFactor(x, y, 4, x4);
    NextFactor(x, y, 5, x5);
    NextFactor(x, y, 6, x6);
    NextFactor(x, y, 7, Xtime(x6));
  }

  lemma NoFactor(x: Byte, y: Byte)
    ensures PartialProduct(x, y, 0) == 0 && XtimePower(x, 0) == x
  {
  }

  // ---------------------------------------------------------------- the table as an affine map of inverses

  /** The affine transformation of the standard: each bit is the sum of five bits and a bit of 0x63. */
  function Affine(b: Byte): Byte {
    b ^ b.RotateLeft(1) ^ b.RotateLeft(2) ^ b.RotateLeft(3) ^ b.RotateLeft(4) ^ 0x63
  }

  /** Bit i of the transformation as the standard defines it. */
  predicate AffineAt(b: Byte, i: nat)
    requires i < 8
  {
    Bit(Affine(b), i) <==>
      (Bit(b, i) != (Bit(b, (i + 4) % 8) != (Bit(b, (i + 5) % 8) != (Bit(b, (i + 6) % 8) != (Bit(b, (i + 7) % 8) != Bit(0x63, i))))))
  }

  lemma AffineBits0And1(b: Byte)
    ensures AffineAt(b, 0) && AffineAt(b, 1)
  {
  }

  lemma AffineBits2And3(b: Byte)
    ensures AffineAt(b, 2) && AffineAt(b, 3)
  {
  }

  lemma AffineBits4And5(b: Byte)
    ensures AffineAt(b, 4) && AffineAt(b, 5)
  {
  }

  lemma AffineBits6And7(b: Byte)
    ensures AffineAt(b, 6) && AffineAt(b, 7)
  {
  }

  lemma AffineMeaning(b: Byte, i: nat)
    requires i < 8
    ensures AffineAt(b, i)
  {
    AffineBits0And1(b);
    AffineBits2And3(b);
    AffineBits4And5(b);
    AffineBits6And7(b);
    hide AffineAt;
  }

  function InvAffine(s: Byte): Byte {
    s.RotateLeft(1) ^ s.RotateLeft(3) ^ s.RotateLeft(6) ^ 0x05
  }

  lemma AffineInverse(s: Byte)
    ensures Affine(InvAffine(s)) == s && InvAffine(Affine(s)) == s
  {
  }

  /** The multiplicative inverse, read off the table; 0 for 0. */
  function Reciprocal(x: Byte): Byte {
    InvAffine(SBox(x))
  }

  lemma InverseInRows0And1(x: Byte)
    requires x >> 5 == 0
    ensures x == 0 || Unrolled(x, Reciprocal(x)) == 1
  {
  }

  lemma InverseInRows2And3(x: Byte)
    requires x >> 5 == 1
    ensures x == 0 || Unrolled(x, Reciprocal(x)) == 1
  {
  }

  lemma InverseInRows4And5(x: Byte)
    requires x >> 5 == 2
    ensures x == 0 || Unrolled(x, Reciprocal(x)) == 1
  {
  }

  lemma InverseInRows6And7(x: Byte)
    requires x >> 5 == 3
    ensures x == 0 || Unrolled(x, Reciprocal(x)) == 1
  {
  }

  lemma InverseInRows8And9(x: Byte)
    requires x >> 5 == 4
    ensures x == 0 || Unrolled(x, Reciprocal(x)) == 1
  {
  }

  lemma InverseInRows10And11(x: Byte)
    requires x >> 5 == 5
    ensures x == 0 || Unrolled(x, Reciprocal(x)) == 1
  {
  }

  lemma InverseInRows12And13(x: Byte)
    requires x >> 5 == 6
    ensures x == 0 || Unrolled(x, Reciprocal(x)) == 1
  {
  }

  lemma InverseInRows14And15(x: Byte)
    requires x >> 5 == 7
    ensures x == 0 || Unrolled(x, Reciprocal(x)) == 1
  {
  }

  /** Every byte but 0 has a multiplicative inverse, and the table is the affine image of it. */
  lemma SBoxIsAffineOfInverse(x: Byte)
    ensures x != 0 ==> Times(x, Reciprocal(x)) == 1
    ensures Reciprocal(0) == 0
    ensures SBox(x) == Affine(Reciprocal(x))
  {
    TimesIsUnrolled(x, Reciprocal(x));
    AffineInverse(SBox(x));
    assert SBox(x) == Affine(Reciprocal(x));
    ReciprocalOfZero();
    RowPairs(x);
    hide SBox, Reciprocal, Affine, Times, Unrolled;
    if x >> 5 == 0 { InverseInRows0And1(x); }
    else if x >> 5 == 1 { InverseInRows2And3(x); }
    else if x >> 5 == 2 { InverseInRows4And5(x); }
    else if x >> 5 == 3 { InverseInRows6And7(x); }
    else if x >> 5 == 4 { InverseInRows8And9(x); }
    else if x >> 5 == 5 { InverseInRows10And11(x); }
    else if x >> 5 == 6 { InverseInRows12And13(x); }
    else { InverseInRows14And15(x); }
  }

  lemma RowPairs(x: Byte)
    ensures x >> 5 == 0 || x >> 5 == 1 || x >> 5 == 2 || x >> 5 == 3 || x >> 5 == 4 || x >> 5 == 5 || x >> 5 == 6 || x >> 5 == 7
  {
  }

  lemma ReciprocalOfZero()
    ensures Reciprocal(0) == 0
  {
  }

  /** There is no other inverse: two numbers with the same one are the same. */
  lemma InverseIsUnique(x: Byte, y: Byte, z: Byte)
    requires Times(x, y) == 1 && Times(z, y) == 1
    ensures x == z
  {
    hide Times;
    OneTimes(x);
    OneTimes(z);
    Commutative(x, y);
    Commutative(x, 1);
    Associative(x, y, z);
    Commutative(y, z);
  }

  // ---------------------------------------------------------------- the two tables

  lemma LowHalf(y: Byte)
    requires y < 0x80
    ensures SBox(InvSBox(y)) == y
  {
  }

  lemma HighHalf(y: Byte)
    requires y >= 0x80
    ensures SBox(InvSBox(y)) == y
  {
  }

  lemma SBoxOfInverse(y: Byte)
    ensures SBox(InvSBox(y)) == y
  {
    hide SBox, InvSBox;
    if y < 0x80 { LowHalf(y); } else { HighHalf(y); }
  }

  lemma ReciprocalOfNonZero(x: Byte)
    requires Reciprocal(x) == 0
    ensures x == 0
  {
    hide Reciprocal, Times;
    SBoxIsAffineOfInverse(x);
    ZeroTimes(x);
  }

  /** Different bytes are substituted differently. */
  lemma SBoxInjective(x: Byte, z: Byte)
    requires SBox(x) == SBox(z)
    ensures x == z
  {
    SBoxIsAffineOfInverse(x);
    SBoxIsAffineOfInverse(z);
    assert Reciprocal(x) == Reciprocal(z);
    hide SBox, Reciprocal, Times, Affine;
    if x == 0 {
      ReciprocalOfNonZero(z);
    } else if z == 0 {
      ReciprocalOfNonZero(x);
    } else {
      InverseIsUnique(x, Reciprocal(x), z);
    }
  }

  lemma InverseOfSBox(x: Byte)
    ensures InvSBox(SBox(x)) == x
  {
    hide SBox, InvSBox;
    SBoxOfInverse(SBox(x));
    SBoxInjective(InvSBox(SBox(x)), x);
  }
}
