/**
 The helpers of src/crypto/core/utils.cpp: gcd, modular inverse, hexadecimal text and
 PKCS#7 padding (section 6.3 of RFC 5652).
 */
module CoreUtils {
  import opened NumberTheory

  type Byte = bv8

  // ---------------------------------------------------------------- integer arithmetic

  /** The remainder operator of C++, which truncates toward zero. */
  function Rem(x: int, m: int): (r: int)
    requires m != 0
    ensures x >= 0 && m > 0 ==> r == x % m
    ensures x <= 0 ==> r <= 0
  {
    if x >= 0 then x % Abs(m) else -((-x) % Abs(m))
  }

  /** The truncated remainder is less than the modulus either way, and congruent. */
  lemma RemMeaning(x: int, m: int)
    requires m > 0
    ensures -m < Rem(x, m) < m && Rem(x, m) % m == x % m
    ensures x >= 0 ==> Rem(x, m) == x % m
    ensures x <= 0 ==> Rem(x, m) <= 0
  {
    if x >= 0 {
      ModIdem(x, m);
    } else {
      var q, r := -x / m, -x % m;
      assert x == -r + m * -q;
      ModShift(-r, -q, m);
    }
  }

  function Abs(x: int): nat {
    if x >= 0 then x else -x
  }

  /** Euclid's algorithm on truncating remainders; the sign of the result follows from theirs. */
  function TruncatedGcd(a: int, b: int): int
    decreases Abs(b)
  {
    if b == 0 then a else TruncatedGcd(b, Rem(a, b))
  }

  /** Up to sign it is the greatest common divisor. */
  lemma {:induction false} TruncatedGcdIsGcd(a: int, b: int)
    ensures Abs(TruncatedGcd(a, b)) == Gcd(Abs(a), Abs(b))
    ensures a >= 0 && b >= 0 ==> TruncatedGcd(a, b) == Gcd(a, b)
    decreases Abs(b)
  {
    if b != 0 { TruncatedGcdIsGcd(b, Rem(a, b)); }
  }

  method EuclidGcd(a: int, b: int) returns (g: int)
    ensures g == TruncatedGcd(a, b)
  {
    var x, y := a, b;
    while y != 0
      invariant TruncatedGcd(x, y) == TruncatedGcd(a, b)
      decreases Abs(y)
    {
      x, y := y, Rem(x, y);
    }
    g := x;
  }

  /** Searches for an inverse of a modulo m; -1 means that there is none. */
  method ModInverse(a: int, m: int) returns (r: int)
    requires m != 0
    ensures r != -1 <==> m > 1 && a >= 0 && Gcd(a, m) == 1
    ensures r != -1 ==> IsInverse(a, r, m) && forall y :: IsInverse(a, y, m) ==> r <= y
  {
    var residue := Rem(a, m);
    var x := 1;
    while x < m
      invariant 1 <= x && (m >= 1 ==> x <= m)
      invariant forall y :: 1 <= y < x ==> Rem(residue * y, m) != 1
    {
      if Rem(residue * x, m) == 1 {
        ResidueInverse(a, x, m);
        forall y | IsInverse(a, y, m) ensures x <= y { InverseUnique(a, x, y, m); }
        InverseMeansCoprime(a, x, m);
        return x;
      }
      x := x + 1;
    }
    if m > 1 && a >= 0 && Gcd(a, m) == 1 {
      var inverse := CoprimeHasInverse(a, m);
      ResidueInverse(a, inverse, m);
      assert false;
    }
    return -1;
  }

  /** The search on the truncated residue finds exactly the inverses of a. */
  lemma ResidueInverse(a: int, x: int, m: int)
    requires 1 <= x < m
    ensures Rem(Rem(a, m) * x, m) == 1 <==> a >= 0 && a * x % m == 1
  {
    if a >= 0 {
      ModIdem(a, m);
      CongMul(a, a % m, x, m);
    } else {
      assert Rem(a, m) * x <= 0;
    }
  }

  // ---------------------------------------------------------------- hexadecimal text

  function HexDigit(n: int): char
    requires 0 <= n < 16
  {
    "0123456789abcdef"[n]
  }

  /** The value of a hexadecimal digit of either case, or -1. */
  function HexValue(c: char): int {
    if '0' <= c <= '9' then c as int - '0' as int
    else if 'a' <= c <= 'f' then c as int - 'a' as int + 10
    else if 'A' <= c <= 'F' then c as int - 'A' as int + 10
    else -1
  }

  function Lower(c: char): char {
    if 'A' <= c <= 'Z' then (c as int + 32) as char else c
  }

  predicate IsSpace(c: char) {
    c == ' ' || '\t' <= c <= '\r'
  }

  /** What strtol in base 16 makes of a two-character string. */
  function StrtolPair(c: char, d: char): int {
    var v, w := HexValue(c), HexValue(d);
    if v >= 0 then (if w >= 0 then 16 * v + w else v)
    else if w < 0 then 0
    else if IsSpace(c) || c == '+' then w
    else if c == '-' then -w
    else 0
  }

  /** The conversion of an int to uint8_t. */
  function Narrow(x: int): Byte {
    (x % 256) as Byte
  }

  function HexPair(n: int): string
    requires 0 <= n < 256
  {
    [HexDigit(n / 16), HexDigit(n % 16)]
  }

  function HexOf(bytes: seq<Byte>): string {
    if bytes == [] then [] else HexPair(bytes[0] as int) + HexOf(bytes[1..])
  }

  function BytesOf(hex: string): seq<Byte> {
    if |hex| < 2 then [] else [Narrow(StrtolPair(hex[0], hex[1]))] + BytesOf(hex[2..])
  }

  method ToHex(bytes: seq<Byte>) returns (hex: string)
    ensures hex == HexOf(bytes)
  {
    hex := [];
    for i := 0 to |bytes|
      invariant hex + HexOf(bytes[i..]) == HexOf(bytes)
    {
      hex := hex + HexPair(bytes[i] as int);
    }
  }

  method FromHex(hex: string) returns (bytes: seq<Byte>)
    ensures bytes == BytesOf(hex)
  {
    bytes := [];
    var i := 0;
    while i < |hex|
      invariant 0 <= i <= |hex| + 1
      invariant bytes + (if i <= |hex| then BytesOf(hex[i..]) else []) == BytesOf(hex)
    {
      if i + 1 >= |hex| { break; }
      assert hex[i..][2..] == hex[i + 2..];
      bytes := bytes + [Narrow(StrtolPair(hex[i], hex[i + 1]))];
      i := i + 2;
    }
  }

  lemma ByteOfInt(b: Byte)
    ensures 0 <= b as int < 256 && Narrow(b as int) == b
  {
    NarrowInRange(b as int);
  }

  lemma NarrowInRange(x: int)
    requires 0 <= x < 256
    ensures Narrow(x) == x as Byte && Narrow(x) as int == x
  {
    ByteRoundTrip(x);
  }

  lemma ByteRoundTrip(x: int)
    requires 0 <= x < 256
    ensures (x as Byte) as int == x
  {
    if x < 64 { QuarterRoundTrip(x, 0); }
    else if x < 128 { QuarterRoundTrip(x, 64); }
    else if x < 192 { QuarterRoundTrip(x, 128); }
    else { QuarterRoundTrip(x, 192); }
  }

  lemma QuarterRoundTrip(x: int, low: int)
    requires low == 0 || low == 64 || low == 128 || low == 192
    requires low <= x < low + 64
    ensures (x as Byte) as int == x
  {
    if x < low + 32 { if x < low + 16 {} else {} } else { if x < low + 48 {} else {} }
  }

  lemma HexPairValue(n: int)
    requires 0 <= n < 256
    ensures StrtolPair(HexPair(n)[0], HexPair(n)[1]) == n
  {
    assert HexValue(HexDigit(n / 16)) == n / 16 && HexValue(HexDigit(n % 16)) == n % 16;
  }

  /** Reading back the hexadecimal text of a byte string gives the byte string. */
  lemma {:induction false} HexRoundTrip(bytes: seq<Byte>)
    ensures BytesOf(HexOf(bytes)) == bytes
    ensures |HexOf(bytes)| == 2 * |bytes|
  {
    if bytes != [] {
      HexRoundTrip(bytes[1..]);
      ByteOfInt(bytes[0]);
      HexPairValue(bytes[0] as int);
      assert HexOf(bytes)[2..] == HexOf(bytes[1..]);
    }
  }

  /** Two characters for each byte, the first for its high four bits and the second for its low four. */
  lemma {:induction false} HexPlaces(bytes: seq<Byte>, i: nat)
    requires i < |bytes|
    ensures |HexOf(bytes)| == 2 * |bytes|
    ensures HexOf(bytes)[2 * i] == HexDigit(bytes[i] as int / 16) && HexOf(bytes)[2 * i + 1] == HexDigit(bytes[i] as int % 16)
  {
    HexRoundTrip(bytes);
    if i > 0 {
      HexPlaces(bytes[1..], i - 1);
      assert HexOf(bytes)[2..] == HexOf(bytes[1..]);
    }
  }

  predicate IsHexText(s: string) {
    |s| % 2 == 0 && forall c :: c in s ==> HexValue(c) >= 0
  }

  lemma PairValue(c: char, d: char)
    requires HexValue(c) >= 0 && HexValue(d) >= 0
    ensures StrtolPair(c, d) == 16 * HexValue(c) + HexValue(d) && HexValue(c) < 16 && HexValue(d) < 16
  {
  }

  lemma HexPairOfText(c: char, d: char)
    requires HexValue(c) >= 0 && HexValue(d) >= 0
    ensures 0 <= StrtolPair(c, d) < 256
    ensures HexPair(StrtolPair(c, d)) == [Lower(c), Lower(d)]
  {
    PairValue(c, d);
    HexDigitOfText(c);
    HexDigitOfText(d);
    hide HexValue, HexDigit, HexPair, Lower, StrtolPair;
    HexPairOfDigits(HexValue(c), HexValue(d));
  }

  lemma HexPairOfDigits(v: int, w: int)
    requires 0 <= v < 16 && 0 <= w < 16
    ensures HexPair(16 * v + w) == [HexDigit(v), HexDigit(w)]
  {
    hide HexDigit;
  }

  lemma HexDigitOfText(c: char)
    requires HexValue(c) >= 0
    ensures HexValue(c) < 16 && HexDigit(HexValue(c)) == Lower(c)
  {
  }

  /** Conversely, text of hexadecimal digits survives up to letter case. */
  lemma {:induction false} HexTextRoundTrip(s: string)
    requires IsHexText(s)
    ensures HexOf(BytesOf(s)) == seq(|s|, i requires 0 <= i < |s| => Lower(s[i]))
  {
    if |s| >= 2 {
      HexTextRoundTrip(s[2..]);
      HexPairOfText(s[0], s[1]);
      NarrowInRange(StrtolPair(s[0], s[1]));
      assert BytesOf(s)[1..] == BytesOf(s[2..]);
    }
  }

  // ---------------------------------------------------------------- padding

  /** The padding value as stored in a byte. */
  function PadValue(length: nat, blockSize: nat): int
    requires blockSize > 0
  {
    (blockSize - length % blockSize) % 256
  }

  function Padded(data: seq<Byte>, blockSize: nat): seq<Byte>
    requires blockSize > 0
  {
    var v := PadValue(|data|, blockSize);
    data + seq(v, _ => Narrow(v))
  }

  /** For block sizes up to 255 padding goes on to the next whole block, always by at least one byte, and every byte
   added tells how many there are. */
  lemma PaddedMeaning(data: seq<Byte>, blockSize: nat)
    requires 0 < blockSize < 256
    ensures var p := Padded(data, blockSize);
            && |data| < |p| <= |data| + blockSize && |p| % blockSize == 0 && p[..|data|] == data
            && forall k :: |data| <= k < |p| ==> p[k] as int == |p| - |data|
  {
    var n := |data|;
    var v := blockSize - n % blockSize;
    ModSmall(v, 256);
    NarrowInRange(v);
    NextMultiple(n, blockSize);
    hide Narrow;
  }

  lemma NextMultiple(n: nat, blockSize: nat)
    requires blockSize > 0
    ensures (n + (blockSize - n % blockSize)) % blockSize == 0
  {
    var q := n / blockSize;
    assert n == blockSize * q + n % blockSize;
    assert blockSize * (q + 1) == blockSize * q + blockSize;
    ModUnique(n + (blockSize - n % blockSize), blockSize, q + 1, 0);
  }

  lemma PadByte(length: nat, blockSize: nat)
    requires blockSize > 0
    ensures Narrow(blockSize - length % blockSize) == Narrow(PadValue(length, blockSize))
    ensures 0 <= PadValue(length, blockSize) == Narrow(blockSize - length % blockSize) as int
  {
    var v := PadValue(length, blockSize);
    NarrowInRange(v);
    ModSmall(v, 256);
  }

  lemma OneMoreCopy(v: Byte, n: nat)
    ensures seq(n + 1, _ => v) == seq(n, _ => v) + [v]
  {
  }

  method Pad(data: seq<Byte>, blockSize: nat) returns (r: seq<Byte>)
    requires blockSize > 0
    ensures r == Padded(data, blockSize)
  {
    PadByte(|data|, blockSize);
    hide Narrow;
    var v := Narrow(blockSize - |data| % blockSize);
    r := data;
    for i := 0 to v as int
      invariant r == data + seq(i, _ => v)
    {
      OneMoreCopy(v, i);
      r := r + [v];
    }
    assert seq(v as int, _ => v) == seq(PadValue(|data|, blockSize), _ => Narrow(PadValue(|data|, blockSize)));
  }

  /** The last p bytes all hold p. */
  predicate EndsInPadding(data: seq<Byte>, p: int) {
    1 <= p <= 16 && p <= |data| && forall k :: |data| - p <= k < |data| ==> data[k] as int == p
  }

  /** The backward scan leaves the vector only if all of it is filled with a larger padding value. */
  predicate ScanInBounds(data: seq<Byte>) {
    data == [] || (var p := data[|data| - 1] as int;
                   p <= |data| || p > 16 || exists k :: 0 <= k < |data| && data[k] as int != p)
  }

  /** Padding is removed exactly when the whole of it is present. */
  function Unpadded(data: seq<Byte>): (bool, seq<Byte>) {
    if data != [] && EndsInPadding(data, data[|data| - 1] as int)
    then (true, data[..|data| - data[|data| - 1] as int])
    else (false, data)
  }

  method Unpad(data: seq<Byte>) returns (ok: bool, r: seq<Byte>)
    requires ScanInBounds(data)
    ensures (ok, r) == Unpadded(data)
  {
    if data == [] { return false, data; }
    var v := data[|data| - 1];
    if v == 0 || v > 16 { return false, data; }
    var i := 0;
    while i < v as int
      invariant 0 <= i <= v as int && i <= |data|
      invariant forall k :: |data| - i <= k < |data| ==> data[k] == v
    {
      if data[|data| - 1 - i] != v { return false, data; }
      i := i + 1;
    }
    return true, data[..|data| - v as int];
  }

  lemma UnpadPadded(data: seq<Byte>, blockSize: nat)
    requires blockSize > 0 && 1 <= PadValue(|data|, blockSize) <= 16
    ensures Unpadded(Padded(data, blockSize)) == (true, data)
    ensures ScanInBounds(Padded(data, blockSize))
  {
    var v, p := PadValue(|data|, blockSize), Padded(data, blockSize);
    NarrowInRange(v);
    assert p[|p| - 1] == Narrow(v);
    assert p[..|data|] == data;
  }

  /** Of a text of whole blocks padding is removed exactly if it is some padded text. */
  lemma UnpaddedIff(data: seq<Byte>)
    requires |data| % 16 == 0
    ensures Unpadded(data).0 <==> exists text :: data == Padded(text, 16)
    ensures Unpadded(data).0 ==> data == Padded(Unpadded(data).1, 16)
  {
    if Unpadded(data).0 {
      UnpaddedIsPadded(data);
    } else {
      hide Unpadded, Padded;
      forall text ensures data != Padded(text, 16) {
        UnpadPadded(text, 16);
      }
    }
  }

  lemma UnpaddedIsPadded(data: seq<Byte>)
    requires |data| % 16 == 0 && Unpadded(data).0
    ensures data == Padded(Unpadded(data).1, 16)
  {
    StrippedIsPadded(data, data[|data| - 1] as int);
    hide Padded, EndsInPadding;
  }

  lemma StrippedIsPadded(data: seq<Byte>, p: int)
    requires |data| % 16 == 0 && EndsInPadding(data, p)
    ensures data == Padded(data[..|data| - p], 16)
  {
    var text := data[..|data| - p];
    ModShift(-p, |data| / 16, 16);
    assert |text| % 16 == if p == 16 then 0 else 16 - p;
    ModSmall(p, 256);
    assert PadValue(|text|, 16) == p;
    hide PadValue;
    forall k | |text| <= k < |data| ensures data[k] == Narrow(p) {
      ByteOfInt(data[k]);
    }
  }

  /** Unpadding undoes padding for every byte string exactly when the block size is at most 16. */
  lemma UnpadUndoesPadIff(blockSize: nat)
    requires blockSize > 0
    ensures (forall data :: Unpadded(Padded(data, blockSize)) == (true, data)) <==> blockSize <= 16
  {
    if blockSize <= 16 {
      forall data ensures Unpadded(Padded(data, blockSize)) == (true, data) {
        UnpadPadded(data, blockSize);
      }
    } else {
      PadFailsAbove16(blockSize);
    }
  }

  /** A text long enough to need a padding value of 17 stays padded, or comes back wrong. */
  lemma PadFailsAbove16(blockSize: nat)
    requires blockSize > 16
    ensures exists data :: Unpadded(Padded(data, blockSize)) != (true, data)
  {
    var data: seq<Byte> := seq(blockSize - 17, _ => 0);
    ModSmall(|data|, blockSize);
    var p := Padded(data, blockSize);
    NarrowInRange(17);
    assert PadValue(|data|, blockSize) == 17;
    assert p[|p| - 1] == Narrow(17);
    assert Unpadded(p) == (false, p);
  }
}
