/**
 The round function of DES and the whole block cipher, bit by bit as FIPS 46-3 describes them.
 */
module DesFeistel {
  import opened NumberTheory
  import opened Primes
  import opened Words
  import opened DesTables
  import opened Des

  /** The bits of a half, from the most significant one. */
  type Bits = s: seq<nat> | |s| == 32 witness seq(32, _ => 0)

  function BitsOf(x: U32): Bits {
    seq(32, i requires 0 <= i < 32 => Bit(x, 31 - i))
  }

  // ---------------------------------------------------------------- the standard's round function

  /** Bit j of the six that S-box b is given: each box sees four bits of the half and their two neighbours, around the
   end, mixed with its six bits of the subkey. */
  function BoxBit(right: Bits, subkey: nat, b: nat, j: nat): (x: nat)
    requires b < 8 && j < 6
    ensures x < 2
  {
    (right[(4 * b + j + 31) % 32] + Bit(subkey, 47 - (6 * b + j))) % 2
  }

  /** The outer two bits choose the row. */
  function BoxRow(right: Bits, subkey: nat, b: nat): (r: nat)
    requires b < 8
    ensures r < 4
  {
    2 * BoxBit(right, subkey, b, 0) + BoxBit(right, subkey, b, 5)
  }

  /** The inner four choose the column. */
  function BoxColumn(right: Bits, subkey: nat, b: nat): (c: nat)
    requires b < 8
    ensures c < 16
  {
    8 * BoxBit(right, subkey, b, 1) + 4 * BoxBit(right, subkey, b, 2)
      + 2 * BoxBit(right, subkey, b, 3) + BoxBit(right, subkey, b, 4)
  }

  function BoxOutput(right: Bits, subkey: nat, b: nat): Nibble
    requires b < 8
  {
    SBoxAt(b, BoxRow(right, subkey, b), BoxColumn(right, subkey, b))
  }

  /** Bit i of the result is bit P[i] of the eight outputs, which are written one after the other. */
  function RoundBit(right: Bits, subkey: nat, i: nat): nat
    requires i < 32
  {
    var q := PEntry(i);
    Bit(BoxOutput(right, subkey, q / 4), 3 - q % 4)
  }

  /** The entries of P, counted from 0. */
  function PEntry(i: nat): (q: nat)
    requires i < 32
    ensures q < 32
  {
    PRange(i);
    P[i] as int - 1
  }

  lemma PRange(i: nat)
    requires i < 32
    ensures |P| == 32 && P[i] <= 32
  {
  }

  // ---------------------------------------------------------------- bits of numbers

  lemma {:induction false} ShiftedBits(x: nat, s: nat, k: nat)
    ensures Bit(ShiftRight(x, s), k) == Bit(x, s + k)
  {
    if s > 0 { ShiftedBits(x / 2, s - 1, k); }
  }

  lemma {:induction false} RaisedBits(x: nat, y: nat, s: nat, k: nat)
    requires y == x * Pow(2, s)
    ensures Bit(y, s + k) == Bit(x, k)
  {
    if s > 0 {
      assert x * Pow(2, s) == 2 * (x * Pow(2, s - 1));
      RaisedBits(x, y / 2, s - 1, k);
      BitStep(y, s + k);
    }
  }

  lemma HalvedResidue(x: nat, m: nat)
    requires m > 0
    ensures x % (2 * m) % 2 == x % 2 && x % (2 * m) / 2 == x / 2 % m
  {
    var q, r := x / (2 * m), x % (2 * m);
    assert x == 2 * (m * q) + r;
    assert x / 2 == m * q + r / 2;
    ModUnique(x / 2, m, q, r / 2);
  }

  /** The n low bits. */
  lemma {:induction false} LowBits(x: nat, m: nat, n: nat, k: nat)
    requires k < n && m == Pow(2, n)
    ensures m > 0 && Bit(x % m, k) == Bit(x, k)
  {
    PowMonotone(2, 0, n - 1);
    HalvedResidue(x, m / 2);
    BitStep(x, k);
    BitStep(x % m, k);
    if k > 0 { LowBits(x / 2, m / 2, n - 1, k - 1); }
  }

  lemma DropThree(x: nat, k: nat)
    ensures Bit(x, k + 3) == Bit(x / 8, k)
  {
    BitStep(x, k + 3);
    BitStep(x / 2, k + 2);
    BitStep(x / 4, k + 1);
    hide Bit;
    assert x / 2 / 2 == x / 4 && x / 4 / 2 == x / 8;
  }

  lemma ThreeBits(x: nat)
    ensures Bit(x, 0) == x % 2 && Bit(x, 1) == x / 2 % 2 && Bit(x, 2) == x / 4 % 2
  {
    BitStep(x, 1);
    BitStep(x, 2);
    BitStep(x / 2, 1);
    assert x / 2 / 2 == x / 4;
  }

  lemma LowThree(c: nat)
    ensures c == 8 * (c / 8) + 4 * Bit(c, 2) + 2 * Bit(c, 1) + Bit(c, 0)
  {
    ThreeBits(c);
    hide Bit;
    Halving(c);
    Halving(c / 2);
    Halving(c / 4);
    QuarterAndEighth(c);
  }

  lemma Halving(c: nat)
    ensures c == 2 * (c / 2) + c % 2
  {
  }

  lemma QuarterAndEighth(c: nat)
    ensures c / 2 / 2 == c / 4 && c / 4 / 2 == c / 8
  {
  }

  lemma ChunkValue(c: nat)
    requires c < 64
    ensures c == 32 * Bit(c, 5) + 16 * Bit(c, 4) + 8 * Bit(c, 3) + 4 * Bit(c, 2) + 2 * Bit(c, 1) + Bit(c, 0)
  {
    hide Bit;
    LowThree(c);
    LowThree(c / 8);
    DropThree(c, 0);
    DropThree(c, 1);
    DropThree(c, 2);
  }

  lemma AppendedNibble(x: nat, d: Nibble, k: nat)
    ensures Bit(x * 16 + d, k) == if k < 4 then Bit(d, k) else Bit(x, k - 4)
  {
    var y := x * 16 + d;
    assert y / 8 == x * 2 + d / 8;
    hide Bit;
    if k < 3 {
      LowBitsOfNibble(x, d, k);
    } else {
      DropThree(y, k - 3);
      DropThree(d, k - 3);
      BitStep(y / 8, k - 3);
      BitStep(d / 8, k - 3);
    }
  }

  lemma LowBitsOfNibble(x: nat, d: Nibble, k: nat)
    requires k < 3
    ensures Bit(x * 16 + d, k) == Bit(d, k)
  {
    var y := x * 16 + d;
    ThreeBits(d);
    ThreeBits(y);
    hide Bit;
    assert y / 2 == 2 * (x * 4) + d / 2 && y / 4 == 2 * (x * 2) + d / 4;
    EvenAdded(x * 8, d);
    EvenAdded(x * 4, d / 2);
    EvenAdded(x * 2, d / 4);
  }

  lemma EvenAdded(a: nat, b: nat)
    ensures (2 * a + b) % 2 == b % 2
  {
  }

  /** Complementing the n low bits. */
  lemma {:induction false} ComplementBit(x: nat, n: nat, k: nat)
    requires k < n && x < Pow(2, n)
    ensures Bit(Pow(2, n) - 1 - x, k) == 1 - Bit(x, k)
  {
    var y := Pow(2, n) - 1 - x;
    assert Pow(2, n) == 2 * Pow(2, n - 1);
    if k > 0 {
      assert y / 2 == Pow(2, n - 1) - 1 - x / 2;
      ComplementBit(x / 2, n - 1, k - 1);
    }
  }

  // ---------------------------------------------------------------- the round function is the standard's

  lemma ExpansionRule(b: nat, j: nat)
    requires b < 8 && j < 6
    ensures |E| == 48 && E[6 * b + j] == (4 * b + j + 31) % 32 + 1
  {
    assert forall k: nat :: k < 8 ==> |ERow(k)| == 6;
    ExpansionRow(b, j);
    hide ERow;
    assert b == 0 || b == 1 || b == 2 || b == 3 || b == 4 || b == 5 || b == 6 || b == 7;
  }

  lemma ExpansionRow(b: nat, j: nat)
    requires b < 8 && j < 6
    ensures ERow(b)[j] == (4 * b + j + 31) % 32 + 1
  {
  }

  lemma ExpandedBit(r: U32, b: nat, j: nat)
    requires b < 8 && j < 6
    ensures Bit(Permuted(r * HALF, E), 47 - (6 * b + j)) == Bit(r, 31 - (4 * b + j + 31) % 32)
  {
    var t, raised := 6 * b + j, r * HALF;
    HalfIsPow();
    hide E, Permuted, Bit, Pow;
    ExpansionRule(b, j);
    PermutedBit(raised, E, t);
    RaisedBits(r, raised, 32, 32 - E[t] as int);
  }

  /** Bit 6 * b + j of what goes into the S-boxes, counted from the most significant of 48. */
  lemma MixedBit(r: U32, subkey: U64, b: nat, j: nat)
    requires b < 8 && j < 6
    ensures Bit(Xor(Permuted(r * HALF, E), subkey), 47 - (6 * b + j)) == BoxBit(BitsOf(r), subkey, b, j)
  {
    hide E, Permuted, Xor, Bit;
    ExpandedBit(r, b, j);
    XorBit(Permuted(r * HALF, E), subkey, 47 - (6 * b + j));
  }

  /** The six bits that S-box b is given are a chunk of that number. */
  lemma ChunkOfBits(x: nat, b: nat, j: nat)
    requires b < 8 && j < 6
    ensures Bit(ShiftRight(x, 42 - 6 * b) % 64, 5 - j) == Bit(x, 47 - (6 * b + j))
  {
    assert Pow(2, 6) == 64;
    hide Bit, ShiftRight, Pow;
    LowBits(ShiftRight(x, 42 - 6 * b), 64, 6, 5 - j);
    ShiftedBits(x, 42 - 6 * b, 5 - j);
  }

  /** What S-box b is given. */
  function Chunk(r: U32, subkey: U64, b: nat): nat
    requires b < 8
  {
    ShiftRight(Xor(Permuted(r * HALF, E), subkey), 42 - 6 * b) % 64
  }

  lemma ChunkBit(r: U32, subkey: U64, b: nat, j: nat)
    requires b < 8 && j < 6
    ensures Bit(Chunk(r, subkey, b), 5 - j) == BoxBit(BitsOf(r), subkey, b, j)
  {
    var x := Xor(Permuted(r * HALF, E), subkey);
    hide E, Permuted, Xor, Bit, ShiftRight, BoxBit, BitsOf;
    ChunkOfBits(x, b, j);
    MixedBit(r, subkey, b, j);
  }

  lemma ChunkIsBoxBits(r: U32, subkey: U64, b: nat)
    requires b < 8
    ensures Chunk(r, subkey, b) == 32 * BoxBit(BitsOf(r), subkey, b, 0) + 16 * BoxBit(BitsOf(r), subkey, b, 1)
      + 8 * BoxBit(BitsOf(r), subkey, b, 2) + 4 * BoxBit(BitsOf(r), subkey, b, 3)
      + 2 * BoxBit(BitsOf(r), subkey, b, 4) + BoxBit(BitsOf(r), subkey, b, 5)
  {
    assert Chunk(r, subkey, b) < 64;
    hide Chunk, Bit, BoxBit, BitsOf;
    ChunkBit(r, subkey, b, 0);
    ChunkBit(r, subkey, b, 1);
    ChunkBit(r, subkey, b, 2);
    ChunkBit(r, subkey, b, 3);
    ChunkBit(r, subkey, b, 4);
    ChunkBit(r, subkey, b, 5);
    ChunkValue(Chunk(r, subkey, b));
  }

  lemma BoxOutputIsSubstituted(r: U32, subkey: U64, b: nat)
    requires b < 8
    ensures Chunk(r, subkey, b) < 64 && Substituted(b, Chunk(r, subkey, b)) == BoxOutput(BitsOf(r), subkey, b)
  {
    ChunkRowAndColumn(r, subkey, b);
    hide Chunk, BoxRow, BoxColumn, SBoxAt, BitsOf, Substituted;
    SubstitutedAt(b, Chunk(r, subkey, b), BoxRow(BitsOf(r), subkey, b), BoxColumn(BitsOf(r), subkey, b));
  }

  lemma ChunkRowAndColumn(r: U32, subkey: U64, b: nat)
    requires b < 8
    ensures Chunk(r, subkey, b) == BoxRow(BitsOf(r), subkey, b) / 2 * 32
      + BoxColumn(BitsOf(r), subkey, b) * 2 + BoxRow(BitsOf(r), subkey, b) % 2
  {
    ChunkIsBoxBits(r, subkey, b);
    hide Chunk, BoxBit, BitsOf;
    OuterBits(BoxBit(BitsOf(r), subkey, b, 0), BoxBit(BitsOf(r), subkey, b, 5), BoxRow(BitsOf(r), subkey, b));
  }

  lemma OuterBits(x: nat, y: nat, row: nat)
    requires y < 2 && row == 2 * x + y
    ensures row / 2 * 32 == 32 * x && row % 2 == y
  {
  }

  lemma SubstitutedAt(i: nat, chunk: nat, r: nat, c: nat)
    requires i < 8 && r < 4 && c < 16 && chunk == r / 2 * 32 + c * 2 + r % 2
    ensures chunk < 64 && Substituted(i, chunk) == SBoxAt(i, r, c)
  {
    hide SBoxAt;
    assert chunk / 32 == r / 2 && chunk % 2 == r % 2 && chunk % 32 / 2 == c;
  }

  /** What S-box b makes of its chunk of a number. */
  function BoxOf(x: nat, b: nat): Nibble
    requires b < 8
  {
    Substituted(b, ShiftRight(x, 42 - 6 * b) % 64)
  }

  lemma SBoxedStep(x: nat, n: nat)
    requires 0 < n <= 8
    ensures SBoxed(x, n) == SBoxed(x, n - 1) * 16 + BoxOf(x, n - 1)
  {
    assert 48 - 6 * n == 42 - 6 * (n - 1);
  }

  lemma SBoxedStepBit(x: nat, n: nat, place: nat)
    requires 0 < n <= 8
    ensures Bit(SBoxed(x, n), place) == if place < 4 then Bit(BoxOf(x, n - 1), place) else Bit(SBoxed(x, n - 1), place - 4)
  {
    SBoxedStep(x, n);
    hide Bit, BoxOf, SBoxed;
    AppendedNibble(SBoxed(x, n - 1), BoxOf(x, n - 1), place);
  }

  /** The outputs of the S-boxes stand one after the other. */
  lemma {:induction false} SBoxedBit(x: nat, n: nat, b: nat, t: nat, place: nat)
    requires b < n <= 8 && t < 4 && place == 4 * (n - 1 - b) + t
    ensures Bit(SBoxed(x, n), place) == Bit(BoxOf(x, b), t)
  {
    hide Bit, BoxOf, SBoxed;
    SBoxedStepBit(x, n, place);
    if b < n - 1 { SBoxedBit(x, n - 1, b, t, place - 4); }
  }

  lemma OutputPlace(q: nat)
    requires q < 32
    ensures q / 4 < 8 && 31 - q == 4 * (7 - q / 4) + (3 - q % 4)
  {
  }

  lemma OutputOfBoxes(x: nat, q: nat)
    requires q < 32
    ensures Bit(SBoxed(x, 8), 31 - q) == Bit(BoxOf(x, q / 4), 3 - q % 4)
  {
    hide Bit, BoxOf, SBoxed;
    OutputPlace(q);
    SBoxedBit(x, 8, q / 4, 3 - q % 4, 31 - q);
  }

  /** Bit i of the permuted outputs. */
  lemma PermutedOutput(output: U32, i: nat)
    requires i < 32
    ensures output * HALF >= 0 && Bit(Permuted(output * HALF, P), 31 - i) == Bit(output, 31 - PEntry(i))
  {
    var raised, q := output * HALF, PEntry(i);
    PRange(i);
    HalfIsPow();
    hide P, Permuted, Bit, Pow;
    PermutedBit(raised, P, i);
    RaisedBits(output, raised, 32, 31 - q);
  }

  /** What the S-boxes are given. */
  function Mixture(r: U32, subkey: U64): nat {
    Xor(Permuted(r * HALF, E), subkey)
  }

  lemma FeistelBit(r: U32, subkey: U64, i: nat)
    requires i < 32
    ensures Bit(Feistel(r, subkey), 31 - i) == Bit(SBoxed(Mixture(r, subkey), 8), 31 - PEntry(i))
  {
    var x := Mixture(r, subkey);
    hide E, P, Permuted, Xor, Bit, Pow, SBoxed, PEntry;
    SBoxedFits(x, 8);
    PermutedOutput(SBoxed(x, 8), i);
  }

  lemma BoxOutputIsBoxOf(r: U32, subkey: U64, b: nat)
    requires b < 8
    ensures BoxOf(Mixture(r, subkey), b) == BoxOutput(BitsOf(r), subkey, b)
  {
    hide E, Permuted, Xor, Substituted, ShiftRight, BitsOf, BoxOutput;
    BoxOutputIsSubstituted(r, subkey, b);
  }

  /** Every bit of the round function is the standard's, for every half and every subkey. */
  lemma FeistelIsStandard(r: U32, subkey: U64, i: nat)
    requires i < 32
    ensures Bit(Feistel(r, subkey), 31 - i) == RoundBit(BitsOf(r), subkey, i)
  {
    hide Mixture, Bit, SBoxed, BoxOutput, BoxOf, BitsOf, PEntry, Feistel;
    FeistelBit(r, subkey, i);
    OutputOfBoxes(Mixture(r, subkey), PEntry(i));
    BoxOutputIsBoxOf(r, subkey, PEntry(i) / 4);
  }

  // ---------------------------------------------------------------- one bit of the subkey matters

  lemma RowsOfS1(r: nat, c: nat, d: nat)
    requires r < 4 && c < d < 16
    ensures S1(r, c) != S1(r, d)
  {
  }

  lemma RowsOfS2(r: nat, c: nat, d: nat)
    requires r < 4 && c < d < 16
    ensures S2(r, c) != S2(r, d)
  {
  }

  lemma RowsOfS3(r: nat, c: nat, d: nat)
    requires r < 4 && c < d < 16
    ensures S3(r, c) != S3(r, d)
  {
  }

  lemma RowsOfS4(r: nat, c: nat, d: nat)
    requires r < 4 && c < d < 16
    ensures S4(r, c) != S4(r, d)
  {
  }

  lemma RowsOfS5(r: nat, c: nat, d: nat)
    requires r < 4 && c < d < 16
    ensures S5(r, c) != S5(r, d)
  {
  }

  lemma RowsOfS6(r: nat, c: nat, d: nat)
    requires r < 4 && c < d < 16
    ensures S6(r, c) != S6(r, d)
  {
  }

  lemma RowsOfS7(r: nat, c: nat, d: nat)
    requires r < 4 && c < d < 16
    ensures S7(r, c) != S7(r, d)
  {
  }

  lemma RowsOfS8(r: nat, c: nat, d: nat)
    requires r < 4 && c < d < 16
    ensures S8(r, c) != S8(r, d)
  {
  }

  /** Every row of every S-box is a permutation of 0 to 15. */
  lemma RowsArePermutations(i: nat, r: nat, c: nat, d: nat)
    requires i < 8 && r < 4 && c < 16 && d < 16 && c != d
    ensures SBoxAt(i, r, c) != SBoxAt(i, r, d)
  {
    var x, y := if c < d then c else d, if c < d then d else c;
    RowsOfS1(r, x, y);
    RowsOfS2(r, x, y);
    RowsOfS3(r, x, y);
    RowsOfS4(r, x, y);
    RowsOfS5(r, x, y);
    RowsOfS6(r, x, y);
    RowsOfS7(r, x, y);
    RowsOfS8(r, x, y);
    hide S1, S2, S3, S4, S5, S6, S7, S8;
  }

  /** Rows whose numbers differ in one bit hold different values in every column. */
  lemma ColumnsDiffer(i: nat, c: nat)
    requires i < 8 && c < 16
    ensures SBoxAt(i, 0, c) != SBoxAt(i, 1, c) && SBoxAt(i, 0, c) != SBoxAt(i, 2, c)
    ensures SBoxAt(i, 1, c) != SBoxAt(i, 3, c) && SBoxAt(i, 2, c) != SBoxAt(i, 3, c)
  {
  }

  /** Where P writes the bits 8 * r to 8 * r + 7, all counted from 0. */
  function PPlaceRow(r: nat): seq<nat>
    requires r < 4
  {
    match r
    case 0 => [8, 16, 22, 30, 12, 27, 1, 17]
    case 1 => [23, 15, 29, 5, 25, 19, 9, 0]
    case 2 => [7, 13, 24, 2, 3, 28, 10, 18]
    case _ => [31, 11, 21, 6, 4, 26, 14, 20]
  }

  function PPlace(q: nat): (i: nat)
    requires q < 32
    ensures i < 32
  {
    PPlaceRow(q / 8)[q % 8]
  }

  /** P takes every bit, so that it is a permutation. */
  lemma PTakesAll(q: nat)
    requires q < 32
    ensures PEntry(PPlace(q)) == q
  {
    PRowsTakeAll(q / 8, q % 8);
    PRows(PPlace(q) / 8, PPlace(q) % 8);
    hide P, PEntry, PPlaceRow, PRow;
  }

  lemma PRowsTakeAll(r: nat, c: nat)
    requires r < 4 && c < 8
    ensures |PPlaceRow(r)| == 8 && PPlaceRow(r)[c] < 32 && |PRow(PPlaceRow(r)[c] / 8)| == 8
    ensures PRow(PPlaceRow(r)[c] / 8)[PPlaceRow(r)[c] % 8] as int - 1 == 8 * r + c
  {
  }

  lemma PRows(r: nat, c: nat)
    requires r < 4 && c < 8
    ensures |PRow(r)| == 8 && PEntry(8 * r + c) == PRow(r)[c] as int - 1
  {
    assert forall k: nat :: k < 4 ==> |PRow(k)| == 8;
    hide PRow;
    assert r == 0 || r == 1 || r == 2 || r == 3;
  }

  /** Two subkeys that differ in bit `at` of their 48 and in no other. */
  predicate DifferAt(k: nat, other: nat, at: nat) {
    at < 48 && forall j: nat :: j < 48 ==> (Bit(k, j) == Bit(other, j) <==> j != at)
  }

  lemma MixedParity(x: nat, u: nat, v: nat)
    requires u < 2 && v < 2
    ensures (x + u) % 2 == (x + v) % 2 <==> u == v
  {
  }

  lemma BoxBitFlips(right: Bits, k: nat, other: nat, at: nat, j: nat)
    requires DifferAt(k, other, at) && j < 6
    ensures BoxBit(right, k, (47 - at) / 6, j) == BoxBit(right, other, (47 - at) / 6, j) <==> j != (47 - at) % 6
  {
    var b := (47 - at) / 6;
    var place := 47 - (6 * b + j);
    hide Bit;
    MixedParity(right[(4 * b + j + 31) % 32], Bit(k, place), Bit(other, place));
    assert place == at <==> j == (47 - at) % 6;
  }

  /** Flipping one bit of what an S-box is given changes what it answers: in one of the outer two places it changes one bit
   of the row, in another the column. */
  lemma BoxFlips(right: Bits, k: nat, other: nat, at: nat)
    requires DifferAt(k, other, at)
    ensures BoxOutput(right, k, (47 - at) / 6) != BoxOutput(right, other, (47 - at) / 6)
  {
    if (47 - at) % 6 == 0 || (47 - at) % 6 == 5 {
      OuterFlip(right, k, other, at);
    } else {
      InnerFlip(right, k, other, at);
    }
  }

  lemma OuterFlip(right: Bits, k: nat, other: nat, at: nat)
    requires DifferAt(k, other, at) && ((47 - at) % 6 == 0 || (47 - at) % 6 == 5)
    ensures BoxOutput(right, k, (47 - at) / 6) != BoxOutput(right, other, (47 - at) / 6)
  {
    var b := (47 - at) / 6;
    hide DifferAt, SBoxAt, BoxBit;
    BoxBitFlips(right, k, other, at, 0);
    BoxBitFlips(right, k, other, at, 1);
    BoxBitFlips(right, k, other, at, 2);
    BoxBitFlips(right, k, other, at, 3);
    BoxBitFlips(right, k, other, at, 4);
    BoxBitFlips(right, k, other, at, 5);
    ColumnsDiffer(b, BoxColumn(right, k, b));
  }

  lemma InnerFlip(right: Bits, k: nat, other: nat, at: nat)
    requires DifferAt(k, other, at) && 0 < (47 - at) % 6 < 5
    ensures BoxOutput(right, k, (47 - at) / 6) != BoxOutput(right, other, (47 - at) / 6)
  {
    var b := (47 - at) / 6;
    hide DifferAt, SBoxAt, BoxBit;
    BoxBitFlips(right, k, other, at, 0);
    BoxBitFlips(right, k, other, at, 1);
    BoxBitFlips(right, k, other, at, 2);
    BoxBitFlips(right, k, other, at, 3);
    BoxBitFlips(right, k, other, at, 4);
    BoxBitFlips(right, k, other, at, 5);
    RowsArePermutations(b, BoxRow(right, k, b), BoxColumn(right, k, b), BoxColumn(right, other, b));
  }

  lemma NibblesDiffer(u: Nibble, v: Nibble)
    requires forall t: nat :: t < 4 ==> Bit(u, t) == Bit(v, t)
    ensures u == v
  {
    assert Pow(2, 4) == 16;
    SameBits(u, v, 4);
  }

  /** Every output bit of every S-box is a bit of the result. */
  lemma OutputBit(r: U32, k: U64, b: nat, t: nat)
    requires b < 8 && t < 4
    ensures Bit(Feistel(r, k), 31 - PPlace(4 * b + 3 - t)) == Bit(BoxOutput(BitsOf(r), k, b), t)
  {
    hide Bit, BoxOutput, BitsOf, Feistel, PEntry, PPlace;
    PTakesAll(4 * b + 3 - t);
    FeistelIsStandard(r, k, PPlace(4 * b + 3 - t));
  }

  /** Every one of the 48 bits of a subkey matters: flipping it changes the result, on every half. */
  lemma SubkeyBitMatters(r: U32, k: U64, other: U64, at: nat)
    requires DifferAt(k, other, at)
    ensures Feistel(r, k) != Feistel(r, other)
  {
    var right, b := BitsOf(r), (47 - at) / 6;
    assert b < 8;
    BoxFlips(right, k, other, at);
    hide Bit, BoxOutput, BitsOf, Feistel, PPlace, DifferAt;
    if Feistel(r, k) == Feistel(r, other) {
      forall t: nat | t < 4 ensures Bit(BoxOutput(right, k, b), t) == Bit(BoxOutput(right, other, b), t) {
        OutputBit(r, k, b, t);
        OutputBit(r, other, b, t);
      }
      NibblesDiffer(BoxOutput(right, k, b), BoxOutput(right, other, b));
    }
  }

  // ---------------------------------------------------------------- complements

  const MASK48: int := 0xffff_ffff_ffff

  lemma MaskIsPow()
    ensures Pow(2, 48) == MASK48 + 1
  {
    assert Pow(2, 8) == 256;
    PowPow(2, 8, 6);
    assert Pow(256, 6) == MASK48 + 1;
  }

  lemma BothComplemented(x: nat, y: nat)
    requires x < 2 && y < 2
    ensures (1 - x + (1 - y)) % 2 == (x + y) % 2
  {
  }

  lemma BoxBitOfComplements(r: U32, k: nat, b: nat, j: nat)
    requires k <= MASK48 && b < 8 && j < 6
    ensures BoxBit(BitsOf(HALF - 1 - r), MASK48 - k, b, j) == BoxBit(BitsOf(r), k, b, j)
  {
    HalfIsPow();
    MaskIsPow();
    hide Bit, Pow;
    var i := (4 * b + j + 31) % 32;
    ComplementBit(r, 32, 31 - i);
    ComplementBit(k, 48, 47 - (6 * b + j));
    BothComplemented(Bit(r, 31 - i), Bit(k, 47 - (6 * b + j)));
  }

  lemma BoxOutputOfComplements(r: U32, k: nat, b: nat)
    requires k <= MASK48 && b < 8
    ensures BoxOutput(BitsOf(HALF - 1 - r), MASK48 - k, b) == BoxOutput(BitsOf(r), k, b)
  {
    BoxBitOfComplements(r, k, b, 0);
    BoxBitOfComplements(r, k, b, 1);
    BoxBitOfComplements(r, k, b, 2);
    BoxBitOfComplements(r, k, b, 3);
    BoxBitOfComplements(r, k, b, 4);
    BoxBitOfComplements(r, k, b, 5);
    hide BoxBit, SBoxAt, BitsOf;
  }

  /** The round function does not see the half and the subkey complemented together. */
  lemma FeistelOfComplements(r: U32, k: U64)
    requires k <= MASK48
    ensures Feistel(HALF - 1 - r, MASK48 - k) == Feistel(r, k)
  {
    hide Feistel, BitsOf, Bit, BoxOutput, PEntry;
    forall m: nat | m < 32 ensures Bit(Feistel(HALF - 1 - r, MASK48 - k), m) == Bit(Feistel(r, k), m) {
      FeistelIsStandard(HALF - 1 - r, MASK48 - k, 31 - m);
      FeistelIsStandard(r, k, 31 - m);
      BoxOutputOfComplements(r, k, PEntry(31 - m) / 4);
    }
    HalfIsPow();
    SameBits(Feistel(HALF - 1 - r, MASK48 - k), Feistel(r, k), 32);
  }

  lemma XorOfComplement(l: U32, x: U32)
    ensures Xor32(HALF - 1 - l, x) == HALF - 1 - Xor32(l, x)
  {
    HalfIsPow();
    var y, z := HALF - 1 - l, Xor32(l, x);
    hide Bit, Xor, Pow;
    forall m: nat | m < 32 ensures Bit(Xor(y, x), m) == Bit(HALF - 1 - z, m) {
      XorBit(y, x, m);
      XorBit(l, x, m);
      ComplementBit(l, 32, m);
      ComplementBit(z, 32, m);
      ParityOfComplement(Bit(l, m), Bit(x, m));
    }
    SameBits(Xor32(y, x), HALF - 1 - z, 32);
  }

  lemma ParityOfComplement(x: nat, y: nat)
    requires x < 2 && y < 2
    ensures (1 - x + y) % 2 == 1 - (x + y) % 2
  {
  }

  lemma PermutedComplement(x: U64, table: seq<Position>)
    requires |table| == 64
    ensures Permuted64(WORD - 1 - x, table) == WORD - 1 - Permuted64(x, table)
  {
    WordIsPow();
    var y, z := Permuted64(WORD - 1 - x, table), Permuted64(x, table);
    hide Bit, Permuted, Pow;
    forall m: nat | m < 64 ensures Bit(y, m) == Bit(WORD - 1 - z, m) {
      PermutedBit(WORD - 1 - x, table, 63 - m);
      PermutedBit(x, table, 63 - m);
      ComplementBit(x, 64, 64 - table[63 - m] as int);
      ComplementBit(z, 64, m);
    }
    SameBits(y, WORD - 1 - z, 64);
  }

  function ComplementHalves(h: Halves): Halves {
    Halves(HALF - 1 - h.l, HALF - 1 - h.r)
  }

  /** Subkeys of 48 bits with every bit the other way. */
  predicate ComplementKeys(keys: seq<U64>, others: seq<U64>) {
    |keys| == |others| && forall i :: 0 <= i < |keys| ==> keys[i] <= MASK48 && others[i] == MASK48 - keys[i]
  }

  lemma {:induction false} RoundsOfComplements(h: Halves, keys: seq<U64>, others: seq<U64>)
    requires ComplementKeys(keys, others)
    ensures Rounds(Feistel, ComplementHalves(h), others) == ComplementHalves(Rounds(Feistel, h, keys))
  {
    hide Feistel, Xor32;
    if keys != [] {
      var last := |keys| - 1;
      RoundsOfComplements(h, keys[..last], others[..last]);
      var before := Rounds(Feistel, h, keys[..last]);
      FeistelOfComplements(before.r, keys[last]);
      XorOfComplement(before.l, Feistel(before.r, keys[last]));
    }
  }

  lemma SplitComplement(block: U64)
    ensures Split(WORD - 1 - block) == ComplementHalves(Split(block))
  {
    JoinedSplit(block);
    SplitJoined(ComplementHalves(Split(block)));
  }

  /** The complementation property of DES, for every list of 48-bit subkeys and every block. */
  lemma CipherOfComplements(block: U64, keys: seq<U64>, others: seq<U64>)
    requires ComplementKeys(keys, others)
    ensures Enciphered(Feistel, WORD - 1 - block, others) == WORD - 1 - Enciphered(Feistel, block, keys)
  {
    var start := Permuted64(block, IP);
    hide Feistel, Permuted64, Rounds, IP, FP, Split, Joined, ComplementHalves, ComplementKeys;
    TablesInverse(0);
    PermutedComplement(block, IP);
    SplitComplement(start);
    RoundsOfComplements(Split(start), keys, others);
    EndOfComplements(Rounds(Feistel, Split(start), keys), FP);
  }

  lemma EndOfComplements(after: Halves, table: seq<Position>)
    requires |table| == 64
    ensures Permuted64(Joined(ComplementHalves(after).Swapped()), table) == WORD - 1 - Permuted64(Joined(after.Swapped()), table)
  {
    hide Permuted64, Joined;
    JoinedComplement(after);
    PermutedComplement(Joined(after.Swapped()), table);
  }

  lemma JoinedComplement(h: Halves)
    ensures Joined(ComplementHalves(h).Swapped()) == WORD - 1 - Joined(h.Swapped())
  {
  }

  // ---------------------------------------------------------------- the whole cipher

  /** The two halves after n rounds, bit by bit. */
  function Left(block: U64, keys: seq<U64>, n: nat): Bits
    requires n <= |keys|
  {
    if n == 0 then InitialBits(block, 0) else Right(block, keys, n - 1)
  }

  function Right(block: U64, keys: seq<U64>, n: nat): Bits
    requires n <= |keys|
  {
    if n == 0 then InitialBits(block, 1) else Mixed(Left(block, keys, n - 1), Right(block, keys, n - 1), keys[n - 1])
  }

  /** 32 bits of the block after the initial permutation, which reads one bit of every byte, the last byte first: the bits
   of even numbers (low = 0) for one half and of odd numbers for the other. */
  function InitialBits(block: U64, low: nat): Bits
    requires low < 2
  {
    seq(32, i requires 0 <= i < 32 => Bit(block, 8 * (i % 8) + 6 - 2 * (i / 8) + low))
  }

  function Mixed(left: Bits, right: Bits, subkey: nat): Bits {
    seq(32, i requires 0 <= i < 32 => (left[i] + RoundBit(right, subkey, i)) % 2)
  }

  lemma InitialHalves(block: U64)
    ensures BitsOf(Split(Permuted64(block, IP)).l) == InitialBits(block, 0)
    ensures BitsOf(Split(Permuted64(block, IP)).r) == InitialBits(block, 1)
  {
    var x := Permuted64(block, IP);
    hide Bit, IP, Permuted64;
    forall i: nat | i < 32
      ensures BitsOf(x / HALF)[i] == InitialBits(block, 0)[i] && BitsOf(x % HALF)[i] == InitialBits(block, 1)[i]
    {
      HalfBits(x, 31 - i);
      PermutedInitialBit(block, i, 0);
      PermutedInitialBit(block, i, 1);
    }
  }

  lemma PermutedInitialBit(block: U64, i: nat, low: nat)
    requires i < 32 && low < 2
    ensures |IP| == 64 && Bit(Permuted64(block, IP), 63 - (32 * low + i)) == InitialBits(block, low)[i]
  {
    hide Bit, IP, Permuted;
    InitialEntry(i / 8, i % 8, low);
    assert 8 * (i / 8) + i % 8 == i;
    PermutedBit(block, IP, 32 * low + i);
  }

  lemma InitialEntry(r: nat, c: nat, low: nat)
    requires r < 4 && c < 8 && low < 2
    ensures |IP| == 64 && 64 - IP[32 * low + (8 * r + c)] as int == 8 * c + 6 - 2 * r + low
  {
    hide IP;
    var row := r + 4 * low;
    InitialRule(row, c);
    assert 8 * row + c == 32 * low + (8 * r + c);
  }

  /** The bits of the two halves of a word. */
  lemma HalfBits(x: U64, k: nat)
    requires k < 32
    ensures Bit(x / HALF, k) == Bit(x, 32 + k) && Bit(x % HALF, k) == Bit(x, k)
  {
    HalfIsPow();
    hide Bit, Pow;
    LowBits(x, HALF, 32, k);
    ShiftedBits(x, 32, k);
    HalfIsShift(x, 32, HALF);
  }

  lemma {:induction false} HalfIsShift(x: nat, n: nat, m: nat)
    requires m == Pow(2, n)
    ensures m > 0 && ShiftRight(x, n) == x / m
  {
    PowMonotone(2, 0, n);
    if n > 0 {
      PowMonotone(2, 0, n - 1);
      HalfIsShift(x / 2, n - 1, m / 2);
      assert x / 2 / (m / 2) == x / m by { HalvedQuotient(x, m / 2); }
    }
  }

  lemma HalvedQuotient(x: nat, m: nat)
    requires m > 0
    ensures x / 2 / m == x / (2 * m)
  {
    var q, r := x / (2 * m), x % (2 * m);
    assert x == 2 * (m * q) + r;
    assert x / 2 == m * q + r / 2;
    ModUnique(x / 2, m, q, r / 2);
  }

  lemma MixedIsXor(l: U32, r: U32, subkey: U64)
    ensures BitsOf(Xor32(l, Feistel(r, subkey))) == Mixed(BitsOf(l), BitsOf(r), subkey)
  {
    hide Feistel, Bit, Xor, RoundBit;
    forall i: nat | i < 32
      ensures Bit(Xor32(l, Feistel(r, subkey)), 31 - i) == (Bit(l, 31 - i) + RoundBit(BitsOf(r), subkey, i)) % 2
    {
      XorBit(l, Feistel(r, subkey), 31 - i);
      FeistelIsStandard(r, subkey, i);
    }
  }

  /** After every round the halves hold the standard's bits. */
  lemma {:induction false} RoundsAreStandard(block: U64, keys: seq<U64>, n: nat)
    requires n <= |keys|
    ensures BitsOf(Rounds(Feistel, Split(Permuted64(block, IP)), keys[..n]).l) == Left(block, keys, n)
    ensures BitsOf(Rounds(Feistel, Split(Permuted64(block, IP)), keys[..n]).r) == Right(block, keys, n)
  {
    if n == 0 {
      InitialHalves(block);
    } else {
      RoundsAreStandard(block, keys, n - 1);
      var start := Split(Permuted64(block, IP));
      var before := Rounds(Feistel, start, keys[..n - 1]);
      hide IP, Permuted64, Split, Feistel, BitsOf, Mixed;
      assert keys[..n][..n - 1] == keys[..n - 1];
      MixedIsXor(before.l, before.r, keys[n - 1]);
    }
  }

  /** Bit 8 * r + c of the ciphertext, for every block and every list of subkeys: the halves after the last round stand in
   the other order, and the final permutation takes column 7 - r of them, the right half and the left in turn. */
  lemma CipherIsStandard(block: U64, keys: seq<U64>, r: nat, c: nat)
    requires r < 8 && c < 8
    ensures Bit(Enciphered(Feistel, block, keys), 63 - (8 * r + c))
      == (if c % 2 == 0 then Left(block, keys, |keys|) else Right(block, keys, |keys|))[8 * (c / 2) + 7 - r]
  {
    assert keys[..|keys|] == keys;
    RoundsAreStandard(block, keys, |keys|);
    hide IP, FP, Bit, Permuted64, Rounds, Left, Right, Feistel, Joined, Split;
    FinalBit(Rounds(Feistel, Split(Permuted64(block, IP)), keys), r, c);
  }

  lemma FinalBit(h: Halves, r: nat, c: nat)
    requires r < 8 && c < 8
    ensures |FP| == 64
    ensures Bit(Permuted64(Joined(h.Swapped()), FP), 63 - (8 * r + c)) == Bit(if c % 2 == 0 then h.l else h.r, 31 - (8 * (c / 2) + 7 - r))
  {
    var joined, k := Joined(h.Swapped()), 31 - (8 * (c / 2) + 7 - r);
    JoinedHalves(h);
    hide FP, Bit, Permuted64, Joined, Split;
    FinalPlace(joined, r, c, k);
    HalfBits(joined, k);
  }

  lemma FinalPlace(x: U64, r: nat, c: nat, k: nat)
    requires r < 8 && c < 8 && k == 31 - (8 * (c / 2) + 7 - r)
    ensures |FP| == 64
    ensures Bit(Permuted64(x, FP), 63 - (8 * r + c)) == Bit(x, if c % 2 == 0 then k else 32 + k)
  {
    hide FP, Bit, Permuted;
    FinalEntry(r, c, k);
    PermutedBit(x, FP, 8 * r + c);
  }

  lemma JoinedHalves(h: Halves)
    ensures Joined(h.Swapped()) / HALF == h.r && Joined(h.Swapped()) % HALF == h.l
  {
    SplitJoined(h.Swapped());
  }

  lemma FinalEntry(r: nat, c: nat, k: nat)
    requires r < 8 && c < 8 && k == 31 - (8 * (c / 2) + 7 - r)
    ensures |FP| == 64 && 64 - FP[8 * r + c] as int == if c % 2 == 0 then k else 32 + k
  {
    hide FP;
    FinalRule(r, c);
  }
}
