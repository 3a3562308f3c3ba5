/**
 The DES key schedule of src/crypto/modern/symmetric/block/DES.cpp, compared bit by bit with the one
 of FIPS 46-3.
 */
module DesSchedule {
  import opened NumberTheory
  import opened Primes
  import opened Words
  import opened DesTables
  import opened Des

  // ---------------------------------------------------------------- bits of numbers

  /** A number below 2^n has no bits from n on. */
  lemma {:induction false} HighBitZero(x: nat, n: nat, k: nat)
    requires x < Pow(2, n) && n <= k
    ensures Bit(x, k) == 0
  {
    if k > 0 { HighBitZero(x / 2, if n > 0 then n - 1 else 0, k - 1); }
  }

  lemma {:induction false} SmallestWithBits(x: nat, n: nat)
    requires x < Pow(2, n) && forall k: nat :: k < n ==> Bit(x, k) == 0
    ensures x == 0
  {
    PowMonotone(2, 0, n);
    forall k: nat | k < n ensures Bit(0, k) == 0 { ZeroBit(k); }
    SameBits(x, 0, n);
  }

  lemma {:induction false} ZeroBit(k: nat)
    ensures Bit(0, k) == 0
  {
    if k > 0 { ZeroBit(k - 1); }
  }

  lemma QuarterIsPow()
    ensures Pow(2, 28) == QUARTER
  {
    assert Pow(2, 7) == 128;
    PowPow(2, 7, 4);
    assert Pow(128, 4) == QUARTER;
  }

  lemma {:induction false} CombinedBit(high: nat, low: nat, n: nat, k: nat)
    requires low < Pow(2, n)
    ensures Bit(high * Pow(2, n) + low, k) == if k < n then Bit(low, k) else Bit(high, k - n)
  {
    if n == 0 {
    } else {
      var p := Pow(2, n - 1);
      assert high * Pow(2, n) == 2 * (high * p);
      assert (high * Pow(2, n) + low) % 2 == low % 2 && (high * Pow(2, n) + low) / 2 == high * p + low / 2;
      if k > 0 { CombinedBit(high, low / 2, n - 1, k - 1); }
    }
  }

  /** A shift to the right splits a number. */
  lemma {:induction false} ShiftSplits(x: nat, n: nat) returns (low: nat)
    ensures x == ShiftRight(x, n) * Pow(2, n) + low && low < Pow(2, n)
  {
    if n == 0 {
      low := 0;
    } else {
      var half := ShiftSplits(x / 2, n - 1);
      low := 2 * half + x % 2;
      var p, high := Pow(2, n - 1), ShiftRight(x, n);
      assert high * Pow(2, n) == 2 * (high * p);
    }
  }

  // ---------------------------------------------------------------- rotations

  /** Rotating to the left by s moves bit k to place k + s, around 28. */
  lemma RotatedBit(x: nat, s: nat, k: nat)
    requires x < QUARTER && 1 <= s <= 2 && k < 28
    ensures Bit(Rotated(x, s), k) == Bit(x, (k - s) % 28)
  {
    var low := ShiftSplits(x, 28 - s);
    var high := ShiftRight(x, 28 - s);
    HighIsSmall(x, s, high, low);
    RotationSwaps(x, s, high, low);
    var j := if k < s then k - s + 28 else k - s;
    ModUnique(k - s, 28, if k < s then -1 else 0, j);
    hide Rotated, ShiftRight, Bit, Pow;
    CombinedBit(low, high, s, k);
    CombinedBit(high, low, 28 - s, j);
  }

  lemma MulMonotone(a: nat, b: nat, p: nat)
    requires a <= b
    ensures a * p <= b * p
  {
    assert (b - a) * p >= 0;
  }

  lemma HighIsSmall(x: nat, s: nat, high: nat, low: nat)
    requires x < QUARTER && s <= 28 && x == high * Pow(2, 28 - s) + low
    ensures high < Pow(2, s)
  {
    QuarterIsPow();
    PowAdd(2, s, 28 - s);
    if high >= Pow(2, s) {
      MulMonotone(Pow(2, s), high, Pow(2, 28 - s));
      assert false;
    }
  }

  lemma RotationSwaps(x: nat, s: nat, high: nat, low: nat)
    requires x < QUARTER && s <= 28 && high == ShiftRight(x, 28 - s) < Pow(2, s)
    requires x == high * Pow(2, 28 - s) + low && low < Pow(2, 28 - s)
    ensures Rotated(x, s) == low * Pow(2, s) + high
  {
    QuarterIsPow();
    PowAdd(2, 28 - s, s);
    SwapByDivision(high, Pow(2, 28 - s), low, Pow(2, s));
  }

  lemma SwapByDivision(high: nat, p: nat, low: nat, q: nat)
    requires low < p && high < q && p * q == QUARTER
    ensures ((high * p + low) * q + high) % QUARTER == low * q + high
  {
    SplitTimes(high, p, low, q);
    LowFits(low, p, q);
    var lifted, whole := low * q, (high * p + low) * q;
    ModUnique(whole + high, QUARTER, high, lifted + high);
  }

  lemma LowFits(low: nat, p: nat, q: nat)
    requires low < p
    ensures low * q + q <= p * q
  {
    MulMonotone(low + 1, p, q);
    assert (low + 1) * q == low * q + q;
  }

  lemma SplitTimes(high: nat, p: nat, low: nat, q: nat)
    ensures (high * p + low) * q == p * q * high + low * q
  {
    assert (high * p + low) * q == high * p * q + low * q;
    assert high * p * q == high * (p * q);
  }

  /** How far the halves have been rotated after n rounds. */
  function Turns(n: nat): nat
    requires n <= 16
  {
    if n == 0 then 0 else Turns(n - 1) + SHIFTS[n - 1]
  }

  /** A bit of the halves in any round is a bit of the halves before the first, rotated. */
  lemma {:induction false} KeyHalvesBit(key: U64, n: nat, k: nat)
    requires n <= 16 && k < 28
    ensures Bit(KeyHalves(key, n).0, k) == Bit(KeyHalves(key, 0).0, (k - Turns(n)) % 28)
    ensures Bit(KeyHalves(key, n).1, k) == Bit(KeyHalves(key, 0).1, (k - Turns(n)) % 28)
  {
    hide Bit, Rotated, KeyHalves, SHIFTS;
    if n == 0 {
      assert Turns(0) == 0;
    } else {
      var h, t := KeyHalves(key, n - 1), Turns(n - 1);
      var s := OneMoreRound(key, n);
      hide Turns;
      RotatedBit(h.0, s, k);
      RotatedBit(h.1, s, k);
      KeyHalvesBit(key, n - 1, (k - s) % 28);
      TurnTwice(k, s, t);
    }
  }

  lemma OneMoreRound(key: U64, n: nat) returns (s: nat)
    requires 1 <= n <= 16
    ensures 1 <= s <= 2 && Turns(n) == Turns(n - 1) + s
    ensures KeyHalves(key, n) == (Rotated(KeyHalves(key, n - 1).0, s), Rotated(KeyHalves(key, n - 1).1, s))
  {
    s := SHIFTS[n - 1];
    ShiftsAreOneOrTwo(n - 1);
    hide SHIFTS;
  }

  lemma TurnTwice(k: int, s: int, t: int)
    ensures ((k - s) % 28 - t) % 28 == (k - (t + s)) % 28
  {
    ModIdem(k - s, 28);
    CongAdd((k - s) % 28, k - s, -t, 28);
  }

  lemma ShiftsAreOneOrTwo(i: nat)
    requires i < 16
    ensures 1 <= SHIFTS[i] <= 2
  {
  }

  lemma SomeTurns()
    ensures Turns(1) == 1 && Turns(4) == 6 && Turns(5) == 8 && Turns(7) == 12
    ensures Turns(9) == 15 && Turns(10) == 17 && Turns(12) == 21 && Turns(13) == 23
  {
    assert Turns(2) == 2 && Turns(3) == 4 && Turns(4) == 6 && Turns(5) == 8;
    assert Turns(6) == 10 && Turns(7) == 12 && Turns(8) == 14 && Turns(9) == 15;
    assert Turns(10) == 17 && Turns(11) == 19 && Turns(12) == 21 && Turns(13) == 23;
  }

  /** The halves turn by one place in the rounds 1, 2, 9 and 16 and by two in every other, once around in all. */
  lemma TurnsRule(n: nat)
    requires n <= 16
    ensures Turns(n) == 2 * n - (if n >= 1 then 1 else 0) - (if n >= 2 then 1 else 0) - (if n >= 9 then 1 else 0) - (if n >= 16 then 1 else 0)
  {
    SomeTurns();
    assert Turns(14) == 25 && Turns(15) == 27 && Turns(16) == 28;
    assert Turns(2) == 2 && Turns(3) == 4 && Turns(6) == 10 && Turns(8) == 14 && Turns(11) == 19;
  }


  // ---------------------------------------------------------------- what a subkey takes

  /** PC2 counts its positions from the top of a 64-bit word, of which the 56 bits of the key halves
   fill the low end.  So the subkey bits taken from the positions 1 to 8 are zero for every key, and
   those taken from a position p above 8 are bit p - 8 of the halves, where the standard has bit p. */
  lemma SubkeyBits(key: U64, n: nat, i: nat)
    requires 1 <= n <= 16 && i < 48
    ensures |PC2| == 48
    ensures var h := KeyHalves(key, n);
            var bit := Bit(Subkey(key, n), 47 - i);
            if PC2[i] <= 8 then bit == 0
            else if PC2[i] <= 36 then bit == Bit(h.0, 36 - PC2[i] as int)
            else bit == Bit(h.1, 64 - PC2[i] as int)
  {
    var h := KeyHalves(key, n);
    PC2Range(i);
    hide PC2;
    PermutedBit(h.0 * QUARTER + h.1, PC2, i);
    hide Permuted, KeyHalves, Bit;
    HalvesBit(h.0, h.1, 64 - PC2[i] as int);
  }

  lemma HalvesBit(high: nat, low: nat, k: nat)
    requires high < QUARTER && low < QUARTER
    ensures Bit(high * QUARTER + low, k) == if k < 28 then Bit(low, k) else if k < 56 then Bit(high, k - 28) else 0
  {
    QuarterIsPow();
    CombinedBit(high, low, 28, k);
    if k >= 56 { HighBitZero(high, 28, k - 28); }
  }

  /** The subkey of the standard: PC2 counts its positions from the top of the 56 bits of the halves. */
  function FipsSubkey(key: U64, n: nat): U64
    requires 1 <= n <= 16
  {
    var h := KeyHalves(key, n);
    Permuted64((h.0 * QUARTER + h.1) * 256, PC2)
  }

  lemma FipsSubkeyBits(key: U64, n: nat, i: nat)
    requires 1 <= n <= 16 && i < 48
    ensures |PC2| == 48 && PC2[i] <= 56
    ensures var h := KeyHalves(key, n);
            Bit(FipsSubkey(key, n), 47 - i) ==
            if PC2[i] <= 28 then Bit(h.0, 28 - PC2[i] as int) else Bit(h.1, 56 - PC2[i] as int)
  {
    var h := KeyHalves(key, n);
    var combined := h.0 * QUARTER + h.1;
    PC2Range(i);
    hide PC2;
    PermutedBit(combined * 256, PC2, i);
    var k := 64 - PC2[i] as int;
    hide Permuted, KeyHalves, Bit;
    assert Pow(2, 8) == 256;
    CombinedBit(combined, 0, 8, k);
    HalvesBit(h.0, h.1, k - 8);
  }

  lemma PC2Range(i: nat)
    requires i < 48
    ensures |PC2| == 48 && PC2[i] <= 56
  {
    var r, c := i / 8, i % 8;
    PC2Rows(r, c);
    hide PC2;
    assert PC2Row(r)[c] <= 56;
  }

  /** The flat table holds the rows one after the other. */
  lemma PC2Rows(r: nat, c: nat)
    requires r < 6 && c < 8
    ensures |PC2| == 48
    ensures PC2[8 * r + c] == PC2Row(r)[c]
  {
    assert forall k: nat :: k < 6 ==> |PC2Row(k)| == 8;
    hide PC2Row;
    assert r == 0 || r == 1 || r == 2 || r == 3 || r == 4 || r == 5;
  }

  /** The first 24 positions of PC2 are of the left half and the others of the right, and eight it never takes. */
  lemma PC2Sides(i: nat)
    requires i < 48
    ensures |PC2| == 48 && (PC2[i] <= 28 <==> i < 24)
    ensures PC2[i] != 9 && PC2[i] != 18 && PC2[i] != 22 && PC2[i] != 25
    ensures PC2[i] != 35 && PC2[i] != 38 && PC2[i] != 43 && PC2[i] != 54
  {
    PC2Rows(i / 8, i % 8);
    hide PC2;
    PC2RowSides(i / 8, i % 8);
    hide PC2Row;
  }

  lemma PC2RowSides(r: nat, c: nat)
    requires r < 6 && c < 8
    ensures |PC2Row(r)| == 8 && (PC2Row(r)[c] <= 28 <==> r < 3)
    ensures PC2Row(r)[c] != 9 && PC2Row(r)[c] != 18 && PC2Row(r)[c] != 22 && PC2Row(r)[c] != 25
    ensures PC2Row(r)[c] != 35 && PC2Row(r)[c] != 38 && PC2Row(r)[c] != 43 && PC2Row(r)[c] != 54
  {
  }


  // ---------------------------------------------------------------- when the two schedules agree

  ghost predicate SameSchedule(key: U64) {
    forall n :: 1 <= n <= 16 ==> Subkey(key, n) == FipsSubkey(key, n)
  }

  /** Where PC2 names the positions 1 to 8 and 29 to 34. */
  function PC2Index(p: int): int {
    match p
    case 1 => 4
    case 2 => 23
    case 3 => 6
    case 4 => 15
    case 5 => 5
    case 6 => 9
    case 7 => 19
    case 8 => 17
    case 29 => 46
    case 30 => 30
    case 31 => 26
    case 32 => 47
    case 33 => 34
    case _ => 40
  }

  lemma PC2Names(p: int)
    requires 1 <= p <= 8 || 29 <= p <= 34
    ensures |PC2| == 48 && 0 <= PC2Index(p) < 48 && PC2[PC2Index(p)] == p
  {
    var i := PC2Index(p);
    PC2Rows(i / 8, i % 8);
    hide PC2;
    assert PC2Row(i / 8)[i % 8] == p;
  }

  /** Where the schedules agree, the first eight bits of the left half are zero in every round. */
  lemma AgreeingLeft(key: U64, n: nat, p: int)
    requires 1 <= n <= 16 && 1 <= p <= 8 && Subkey(key, n) == FipsSubkey(key, n)
    ensures Bit(KeyHalves(key, 0).0, (28 - p - Turns(n)) % 28) == 0
  {
    hide PC2, Subkey, FipsSubkey, KeyHalves, PC2Index, Turns;
    PC2Names(p);
    SubkeyBits(key, n, PC2Index(p));
    FipsSubkeyBits(key, n, PC2Index(p));
    KeyHalvesBit(key, n, 28 - p);
  }

  /** If the left half is zero as well, so are the first six bits of the right half in every round. */
  lemma AgreeingRight(key: U64, n: nat, p: int)
    requires 1 <= n <= 16 && 29 <= p <= 34 && Subkey(key, n) == FipsSubkey(key, n) && KeyHalves(key, n).0 == 0
    ensures Bit(KeyHalves(key, 0).1, (56 - p - Turns(n)) % 28) == 0
  {
    hide PC2, Subkey, FipsSubkey, KeyHalves, PC2Index, Turns;
    PC2Names(p);
    SubkeyBits(key, n, PC2Index(p));
    FipsSubkeyBits(key, n, PC2Index(p));
    KeyHalvesBit(key, n, 56 - p);
    ZeroBit(36 - p);
  }

  lemma LeftAt(key: U64, n: nat, p: int, k: nat)
    requires SameSchedule(key) && 1 <= n <= 16 && 1 <= p <= 8 && k < 28
    requires 28 - p - Turns(n) == k || 28 - p - Turns(n) == k - 28
    ensures Bit(KeyHalves(key, 0).0, k) == 0
  {
    hide KeyHalves, Subkey, FipsSubkey, Bit, Turns;
    AgreeingLeft(key, n, p);
    ModUnique(28 - p - Turns(n), 28, if 28 - p - Turns(n) == k then 0 else -1, k);
  }

  lemma RightAt(key: U64, n: nat, p: int, k: nat)
    requires SameSchedule(key) && 1 <= n <= 16 && 29 <= p <= 34 && k < 28 && KeyHalves(key, n).0 == 0
    requires 56 - p - Turns(n) == k || 56 - p - Turns(n) == k - 28
    ensures Bit(KeyHalves(key, 0).1, k) == 0
  {
    hide KeyHalves, Subkey, FipsSubkey, Bit, Turns;
    AgreeingRight(key, n, p);
    ModUnique(56 - p - Turns(n), 28, if 56 - p - Turns(n) == k then 0 else -1, k);
  }

  /** The rounds 1, 5, 9 and 12 turn the first eight places over all 28. */
  lemma LeftCovered(key: U64, k: nat)
    requires SameSchedule(key) && k < 28
    ensures Bit(KeyHalves(key, 0).0, k) == 0
  {
    SomeTurns();
    hide KeyHalves, SameSchedule, Bit, Turns;
    var o := 27 - k;
    if o == 0 { LeftAt(key, 12, 8, k); }
    else if o <= 8 { LeftAt(key, 1, o, k); }
    else if o <= 15 { LeftAt(key, 5, o - 7, k); }
    else if o <= 22 { LeftAt(key, 9, o - 14, k); }
    else { LeftAt(key, 12, o - 20, k); }
  }

  /** The rounds 1, 4, 7, 10 and 13 turn the first six places over all 28. */
  lemma RightCovered(key: U64, k: nat)
    requires SameSchedule(key) && k < 28 && forall n: nat :: n <= 16 ==> KeyHalves(key, n).0 == 0
    ensures Bit(KeyHalves(key, 0).1, k) == 0
  {
    SomeTurns();
    hide KeyHalves, SameSchedule, Bit, Turns;
    var o := 27 - k;
    if o == 0 { RightAt(key, 13, 34, k); }
    else if o <= 6 { RightAt(key, 1, 28 + o, k); }
    else if o <= 11 { RightAt(key, 4, 23 + o, k); }
    else if o <= 17 { RightAt(key, 7, 17 + o, k); }
    else if o <= 22 { RightAt(key, 10, 12 + o, k); }
    else { RightAt(key, 13, 6 + o, k); }
  }

  lemma {:induction false} ZeroStaysZero(key: U64, n: nat)
    requires n <= 16
    ensures KeyHalves(key, 0).0 == 0 ==> KeyHalves(key, n).0 == 0
    ensures KeyHalves(key, 0).1 == 0 ==> KeyHalves(key, n).1 == 0
  {
    if n > 0 {
      ZeroStaysZero(key, n - 1);
      var s := OneMoreRound(key, n);
      hide KeyHalves;
      RotatedZero(s);
    }
  }

  lemma RotatedZero(s: nat)
    requires s <= 28
    ensures Rotated(0, s) == 0
  {
    ShiftedZero(28 - s);
  }

  lemma {:induction false} ShiftedZero(n: nat)
    ensures ShiftRight(0, n) == 0
  {
    if n > 0 { ShiftedZero(n - 1); }
  }

  lemma {:induction false} PermutedZero(table: seq<Position>)
    ensures Permuted(0, table) == 0
  {
    if table != [] {
      PermutedZero(table[..|table| - 1]);
      ZeroBit(64 - table[|table| - 1] as int);
    }
  }

  lemma KeyBitsAreTheHalves(key: U64)
    ensures Permuted(key, PC1) == KeyHalves(key, 0).0 * QUARTER + KeyHalves(key, 0).1
  {
    PermutedBound(key, PC1);
    QuarterIsPow();
    PowAdd(2, 28, 28);
    assert |PC1| == 56;
  }

  /** The schedule of the code is that of FIPS 46-3 exactly for the keys whose 56 key bits are all zero. */
  lemma SameScheduleIff(key: U64)
    ensures SameSchedule(key) <==> Permuted(key, PC1) == 0
  {
    KeyBitsAreTheHalves(key);
    QuarterIsPow();
    hide PC1, PC2, KeyHalves, Permuted, Bit;
    if SameSchedule(key) {
      forall k: nat | k < 28 ensures Bit(KeyHalves(key, 0).0, k) == 0 { LeftCovered(key, k); }
      SmallestWithBits(KeyHalves(key, 0).0, 28);
      forall n: nat | n <= 16 ensures KeyHalves(key, n).0 == 0 { ZeroStaysZero(key, n); }
      forall k: nat | k < 28 ensures Bit(KeyHalves(key, 0).1, k) == 0 { RightCovered(key, k); }
      SmallestWithBits(KeyHalves(key, 0).1, 28);
    }
    if Permuted(key, PC1) == 0 {
      forall n | 1 <= n <= 16 ensures Subkey(key, n) == FipsSubkey(key, n) {
        ZeroStaysZero(key, n);
        PermutedZero(PC2);
      }
    }
  }

  // ---------------------------------------------------------------- the keys for which they agree

  /** All bits of the key are zero but those at the positions 8, 16, ... 64, its parity bits. */
  ghost predicate OnlyParityBits(key: U64) {
    forall p: Position :: p % 8 != 0 ==> BitAt(key, p) == 0
  }

  lemma PC1Rows(r: nat, c: nat)
    requires r < 7 && c < 8
    ensures |PC1| == 56
    ensures PC1[8 * r + c] == PC1Row(r)[c]
  {
    assert forall k: nat :: k < 7 ==> |PC1Row(k)| == 8;
    hide PC1Row;
    assert r == 0 || r == 1 || r == 2 || r == 3 || r == 4 || r == 5 || r == 6;
  }

  /** Where PC1 names a position: by the place r of the bit in its byte q. */
  function PC1Index(p: Position): (i: (nat, nat))
    requires p % 8 != 0
    ensures i.0 < 7 && i.1 < 8
  {
    var r: int, q: int := p as int % 8, p as int / 8;
    if r <= 3 then (r - 1, 7 - q)
    else if r == 4 then (if q >= 4 then 3 else 6, 7 - q)
    else if q >= 4 then (10 - r, 11 - q)
    else (11 - r, 3 - q)
  }

  lemma PC1Names(p: Position)
    requires p % 8 != 0
    ensures PC1Row(PC1Index(p).0)[PC1Index(p).1] == p
  {
  }

  lemma PC1SkipsParity(r: nat, c: nat)
    requires r < 7 && c < 8
    ensures PC1Row(r)[c] % 8 != 0
  {
  }

  lemma KeyBitTaken(key: U64, p: Position)
    requires p % 8 != 0 && Permuted(key, PC1) == 0
    ensures BitAt(key, p) == 0
  {
    var i := PC1Index(p);
    PC1Names(p);
    PC1Rows(i.0, i.1);
    hide PC1, PC1Row, PC1Index, Bit, Permuted;
    PermutedBit(key, PC1, 8 * i.0 + i.1);
    ZeroBit(55 - (8 * i.0 + i.1));
  }

  lemma ParityBitSkipped(key: U64, k: nat)
    requires k < 56 && OnlyParityBits(key)
    ensures Bit(Permuted(key, PC1), k) == 0
  {
    var i := 55 - k;
    PC1Rows(i / 8, i % 8);
    PC1SkipsParity(i / 8, i % 8);
    hide PC1, PC1Row, Bit, Permuted;
    PermutedBit(key, PC1, i);
  }

  /** PC1 takes every bit of the key except the parity bits. */
  lemma NoKeyBits(key: U64)
    ensures Permuted(key, PC1) == 0 <==> OnlyParityBits(key)
  {
    PC1Rows(0, 0);
    hide PC1, Bit, Permuted;
    if Permuted(key, PC1) == 0 {
      forall p: Position | p % 8 != 0 ensures BitAt(key, p) == 0 { KeyBitTaken(key, p); }
    }
    if OnlyParityBits(key) {
      forall k: nat | k < 56 ensures Bit(Permuted(key, PC1), k) == 0 { ParityBitSkipped(key, k); }
      PermutedBound(key, PC1);
      SmallestWithBits(Permuted(key, PC1), 56);
    }
  }

  /** So the schedules agree exactly for the keys that are all zero but for their parity bits. */
  lemma ConformsOnlyForParityKeys(key: U64)
    ensures SameSchedule(key) <==> OnlyParityBits(key)
  {
    SameScheduleIff(key);
    NoKeyBits(key);
  }

  /** A key for which they differ: only its first bit is set. */
  lemma SchedulesDiffer()
    ensures !SameSchedule(0x8000_0000_0000_0000)
  {
    var key := 0x8000_0000_0000_0000;
    assert Pow(2, 63) == key by {
      PowPow(2, 9, 7);
      assert Pow(2, 9) == 512;
      assert Pow(512, 7) == key;
    }
    CombinedBit(1, 0, 63, 63);
    assert Bit(1, 0) == 1;
    hide Bit;
    assert BitAt(key, 1) == 1;
    ConformsOnlyForParityKeys(key);
  }
}
