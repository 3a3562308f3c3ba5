/**
 Unsigned 64-bit words and their big-endian bytes.
 */
module Words {
  import opened NumberTheory
  import opened Primes
  import opened CoreUtils

  const WORD := 0x1_0000_0000_0000_0000

  type U64 = x: int | 0 <= x < WORD

  function Wrap(x: nat): U64 {
    x % WORD
  }

  lemma WrapBelow(x: nat)
    ensures Wrap(x) <= x && (x < WORD ==> Wrap(x) == x)
  {
  }

  function BigEndian(bytes: seq<Byte>): nat {
    if bytes == [] then 0 else BigEndian(bytes[..|bytes| - 1]) * 256 + bytes[|bytes| - 1] as int
  }

  /** The n low bytes of v, most significant first. */
  function LowBytes(v: nat, n: nat): (b: seq<Byte>)
    ensures |b| == n
  {
    if n == 0 then [] else LowBytes(v / 256, n - 1) + [Narrow(v)]
  }

  /** v shifted right by i bytes. */
  function ShiftBytes(v: nat, i: nat): nat {
    if i == 0 then v else ShiftBytes(v, i - 1) / 256
  }

  lemma {:induction false} BigEndianBound(b: seq<Byte>)
    ensures BigEndian(b) < Pow(256, |b|)
  {
    if b != [] {
      BigEndianBound(b[..|b| - 1]);
      ByteOfInt(b[|b| - 1]);
    }
  }

  lemma {:induction false} BigEndianLowBytes(v: nat, n: nat)
    requires v < Pow(256, n)
    ensures BigEndian(LowBytes(v, n)) == v
  {
    if n > 0 {
      var b := LowBytes(v, n);
      assert b[..n - 1] == LowBytes(v / 256, n - 1);
      BigEndianLowBytes(v / 256, n - 1);
      NarrowInRange(v % 256);
      assert Narrow(v) == Narrow(v % 256);
    }
  }

  /** A byte string is determined by its length and its value. */
  lemma {:induction false} LowBytesBigEndian(b: seq<Byte>)
    ensures LowBytes(BigEndian(b), |b|) == b
  {
    if b != [] {
      var n := |b|;
      var high, low := BigEndian(b[..n - 1]), b[n - 1];
      LowBytesBigEndian(b[..n - 1]);
      ByteOfInt(low);
      ModUnique(BigEndian(b), 256, high, low as int);
      assert b == b[..n - 1] + [low];
    }
  }

  /** Byte i of n is the one that counts 256^(n - 1 - i): the most significant comes first. */
  lemma {:induction false} ByteOfWord(v: nat, n: nat, i: nat)
    requires i < n
    ensures Pow(256, n - 1 - i) > 0 && LowBytes(v, n)[i] as int == v / Pow(256, n - 1 - i) % 256
  {
    PowMonotone(256, 0, n - 1 - i);
    if i == n - 1 {
      NarrowInRange(v % 256);
    } else {
      ByteOfWord(v / 256, n - 1, i);
      QuotientOfQuotient(v, 256, Pow(256, n - 2 - i));
    }
  }

  lemma QuotientOfQuotient(v: nat, a: int, b: int)
    requires a > 0 && b > 0
    ensures a * b > 0 && v / a / b == v / (a * b)
  {
    var q, r := v / a / b, v / a % b;
    assert v == a * (b * q + r) + v % a;
    assert a * (b * q + r) == a * b * q + a * r;
    assert 0 <= a * r <= a * (b - 1);
    ModUnique(v, a * b, q, a * r + v % a);
  }

  lemma EightBytesFit(b: seq<Byte>)
    requires |b| <= 8
    ensures BigEndian(b) < WORD
    ensures b != [] ==> Wrap(BigEndian(b[..|b| - 1]) * 256) == BigEndian(b[..|b| - 1]) * 256
  {
    BigEndianBound(b);
    PowMonotone(256, |b|, 8);
    assert Pow(256, 8) == WORD;
    if b != [] {
      ByteOfInt(b[|b| - 1]);
      ModSmall(BigEndian(b[..|b| - 1]) * 256, WORD);
    }
  }

  /** Writes a word to eight bytes, the lowest byte last. */
  method EncodeUint64(v: U64) returns (b: seq<Byte>)
    ensures b == LowBytes(v, 8)
  {
    b := seq(8, _ => 0);
    for i := 0 to 8
      invariant |b| == 8
      invariant LowBytes(ShiftBytes(v, i), 8 - i) + b[8 - i..] == LowBytes(v, 8)
    {
      var tail := b[8 - i..];
      b := b[7 - i := Narrow(ShiftBytes(v, i))];
      assert b[7 - i..] == [Narrow(ShiftBytes(v, i))] + tail;
    }
    assert b[0..] == b;
  }
}
