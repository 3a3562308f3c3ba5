/**
 The DES block cipher of src/crypto/modern/symmetric/block/DES.cpp.  Words are numbers below
 2^64, of which a shift to the left drops what passes 2^64.
 */
module Des {
  import opened NumberTheory
  import opened Primes
  import opened Words
  import opened DesTables

  const HALF := 0x1_0000_0000

  type U32 = x: int | 0 <= x < HALF

  // ---------------------------------------------------------------- bits

  /** Bit k of a number, from the least significant one. */
  function Bit(x: nat, k: nat): (b: nat)
    ensures b < 2
  {
    if k == 0 then x % 2 else Bit(x / 2, k - 1)
  }

  /** The bit of a word at a position of a table. */
  function BitAt(x: nat, p: Position): nat {
    Bit(x, 64 - p as int)
  }

  function ShiftRight(x: nat, k: nat): nat {
    if k == 0 then x else ShiftRight(x / 2, k - 1)
  }

  lemma {:induction false} ShiftedBit(x: nat, k: nat)
    ensures ShiftRight(x, k) % 2 == Bit(x, k)
  {
    if k > 0 { ShiftedBit(x / 2, k - 1); }
  }

  /** A number below 2^n is determined by its n low bits. */
  lemma {:induction false} SameBits(x: nat, y: nat, n: nat)
    requires x < Pow(2, n) && y < Pow(2, n)
    requires forall k: nat :: k < n ==> Bit(x, k) == Bit(y, k)
    ensures x == y
  {
    if n > 0 {
      forall k: nat | k < n - 1 ensures Bit(x / 2, k) == Bit(y / 2, k) {
        assert Bit(x, k + 1) == Bit(y, k + 1);
      }
      SameBits(x / 2, y / 2, n - 1);
      assert Bit(x, 0) == Bit(y, 0);
    }
  }

  /** Bitwise exclusive or. */
  function Xor(a: nat, b: nat): nat {
    if a == 0 && b == 0 then 0 else 2 * Xor(a / 2, b / 2) + (a + b) % 2
  }

  lemma {:induction false} XorBound(a: nat, b: nat, n: nat)
    requires a < Pow(2, n) && b < Pow(2, n)
    ensures Xor(a, b) < Pow(2, n)
  {
    if n > 0 && (a != 0 || b != 0) { XorBound(a / 2, b / 2, n - 1); }
  }

  lemma XorStep(a: nat, b: nat)
    ensures Xor(a, b) / 2 == Xor(a / 2, b / 2) && Xor(a, b) % 2 == (a + b) % 2
  {
  }

  lemma BitStep(x: nat, k: nat)
    ensures Bit(x, k) == if k == 0 then x % 2 else Bit(x / 2, k - 1)
  {
  }

  lemma {:induction false} XorBit(a: nat, b: nat, k: nat)
    ensures Bit(Xor(a, b), k) == (Bit(a, k) + Bit(b, k)) % 2
  {
    XorStep(a, b);
    BitStep(a, k);
    BitStep(b, k);
    BitStep(Xor(a, b), k);
    hide Xor, Bit;
    if k > 0 { XorBit(a / 2, b / 2, k - 1); } else { SumOfParities(a, b); }
  }

  lemma SumOfParities(a: nat, b: nat)
    ensures (a + b) % 2 == (a % 2 + b % 2) % 2
  {
  }

  /** Mixing the same number in twice changes nothing. */
  lemma {:induction false} XorCancels(a: nat, b: nat)
    ensures Xor(Xor(a, b), b) == a
    decreases a + b
  {
    hide Xor;
    if a == 0 && b == 0 {
      XorOfZeros();
    } else {
      XorStep(a, b);
      XorStep(Xor(a, b), b);
      XorCancels(a / 2, b / 2);
      SameHalves(Xor(Xor(a, b), b), a);
    }
  }

  lemma XorOfZeros()
    ensures Xor(0, 0) == 0
  {
  }

  lemma SameHalves(x: nat, y: nat)
    requires x / 2 == y / 2 && x % 2 == y % 2
    ensures x == y
  {
  }

  lemma HalfIsPow()
    ensures Pow(2, 32) == HALF
  {
    assert Pow(2, 8) == 256;
    PowPow(2, 8, 4);
    assert Pow(256, 4) == HALF;
  }

  function Xor32(a: U32, b: U32): U32 {
    HalfIsPow();
    XorBound(a, b, 32);
    Xor(a, b)
  }

  // ---------------------------------------------------------------- permutations

  /** The word whose bits are those of x at the positions of a table, first to last. */
  function Permuted(x: nat, table: seq<Position>): nat {
    if table == [] then 0 else Permuted(x, table[..|table| - 1]) * 2 + BitAt(x, table[|table| - 1])
  }

  lemma {:induction false} PermutedBound(x: nat, table: seq<Position>)
    ensures Permuted(x, table) < Pow(2, |table|)
  {
    if table != [] { PermutedBound(x, table[..|table| - 1]); }
  }

  lemma {:induction false} PermutedBit(x: nat, table: seq<Position>, i: nat)
    requires i < |table|
    ensures Bit(Permuted(x, table), |table| - 1 - i) == BitAt(x, table[i])
  {
    var n := |table| - 1;
    var before, bit := Permuted(x, table[..n]), BitAt(x, table[n]);
    assert Permuted(x, table) == before * 2 + bit && bit < 2;
    BitStep(before * 2 + bit, n - i);
    hide Bit, Permuted, BitAt;
    if i < n {
      PermutedBit(x, table[..n], i);
      assert table[..n][i] == table[i];
    }
  }

  lemma WordIsPow()
    ensures Pow(2, 64) == WORD
  {
    assert Pow(2, 8) == 256;
    PowPow(2, 8, 8);
    assert Pow(256, 8) == WORD;
  }

  function Permuted64(x: nat, table: seq<Position>): U64
    requires |table| <= 64
  {
    WordIsPow();
    PermutedBound(x, table);
    PowMonotone(2, |table|, 64);
    Permuted(x, table)
  }

  method Permute(input: U64, table: seq<Position>) returns (result: U64)
    requires |table| <= 64
    ensures result == Permuted(input, table)
  {
    result := 0;
    for i := 0 to |table|
      invariant result == Permuted(input, table[..i])
    {
      assert table[..i + 1][..i] == table[..i];
      ShiftedBit(input, 64 - table[i] as int);
      WordFits(input, table, i + 1);
      result := Wrap(result * 2) + ShiftRight(input, 64 - table[i] as int) % 2;
    }
    assert table[..|table|] == table;
  }

  /** The result never outgrows the word. */
  lemma WordFits(input: nat, table: seq<Position>, n: nat)
    requires 0 < n <= |table| <= 64
    ensures Permuted(input, table[..n]) < WORD
    ensures Wrap(Permuted(input, table[..n - 1]) * 2) == Permuted(input, table[..n - 1]) * 2
  {
    WordIsPow();
    PermutedBound(input, table[..n]);
    PowMonotone(2, n, 64);
    assert table[..n][..n - 1] == table[..n - 1];
    ModSmall(Permuted(input, table[..n - 1]) * 2, WORD);
  }

  /** The flat tables hold the rows one after the other. */
  lemma TableRows(r: nat, c: nat)
    requires r < 8 && c < 8
    ensures |IP| == 64 && |FP| == 64
    ensures IP[8 * r + c] == IPRow(r)[c] && FP[8 * r + c] == FPRow(r)[c]
  {
    assert forall k: nat :: k < 8 ==> |IPRow(k)| == 8 && |FPRow(k)| == 8;
    hide IPRow, FPRow;
    assert r == 0 || r == 1 || r == 2 || r == 3 || r == 4 || r == 5 || r == 6 || r == 7;
  }

  /** Row and column that the initial permutation takes a bit from. */
  lemma InitialRule(r: nat, c: nat)
    requires r < 8 && c < 8
    ensures |IP| == 64
    ensures IP[8 * r + c] as int - 1 == 8 * (7 - c) + if r < 4 then 2 * r + 1 else 2 * r - 8
  {
    InitialRow(r, c);
    TableRows(r, c);
    hide IP, FP, IPRow;
  }

  lemma InitialRow(r: nat, c: nat)
    requires r < 8 && c < 8
    ensures IPRow(r)[c] as int - 1 == 8 * (7 - c) + if r < 4 then 2 * r + 1 else 2 * r - 8
  {
  }

  /** Row and column that the final permutation takes a bit from. */
  lemma FinalRule(r: nat, c: nat)
    requires r < 8 && c < 8
    ensures |FP| == 64
    ensures FP[8 * r + c] as int - 1 == 8 * (if c % 2 == 0 then 4 + c / 2 else c / 2) + (7 - r)
  {
    FinalRow(r, c);
    TableRows(r, c);
    hide IP, FP, FPRow;
  }

  lemma FinalRow(r: nat, c: nat)
    requires r < 8 && c < 8
    ensures FPRow(r)[c] as int - 1 == 8 * (if c % 2 == 0 then 4 + c / 2 else c / 2) + (7 - r)
  {
  }

  lemma FinalOfInitial(r: nat, c: nat)
    requires r < 8 && c < 8
    ensures |IP| == 64 && |FP| == 64
    ensures FP[IP[8 * r + c] as int - 1] == 8 * r + c + 1
  {
    hide IP, FP;
    InitialRule(r, c);
    FinalRule(7 - c, if r < 4 then 2 * r + 1 else 2 * r - 8);
  }

  lemma InitialOfFinal(r: nat, c: nat)
    requires r < 8 && c < 8
    ensures |IP| == 64 && |FP| == 64
    ensures IP[FP[8 * r + c] as int - 1] == 8 * r + c + 1
  {
    hide IP, FP;
    FinalRule(r, c);
    InitialRule(if c % 2 == 0 then 4 + c / 2 else c / 2, 7 - r);
  }

  lemma TablesInverse(i: nat)
    requires i < 64
    ensures |IP| == 64 && |FP| == 64
    ensures IP[FP[i] as int - 1] == i + 1 && FP[IP[i] as int - 1] == i + 1
  {
    hide IP, FP;
    FinalOfInitial(i / 8, i % 8);
    InitialOfFinal(i / 8, i % 8);
  }

  lemma PermutationUndone(x: U64, there: seq<Position>, back: seq<Position>)
    requires |there| == |back| == 64 && forall i :: 0 <= i < 64 ==> there[back[i] as int - 1] == i + 1
    ensures Permuted(Permuted(x, there), back) == x
  {
    WordIsPow();
    var y := Permuted(x, there);
    PermutedBound(y, back);
    forall k: nat | k < 64 ensures Bit(Permuted(y, back), k) == Bit(x, k) {
      var i := 63 - k;
      PermutedBit(y, back, i);
      PermutedBit(x, there, back[i] as int - 1);
    }
    SameBits(Permuted(y, back), x, 64);
  }

  /** The initial and the final permutation undo each other on every word. */
  lemma InitialAndFinalPermutation(x: U64)
    ensures Permuted(Permuted(x, IP), FP) == x
    ensures Permuted(Permuted(x, FP), IP) == x
  {
    forall i: nat | i < 64 ensures IP[FP[i] as int - 1] == i + 1 && FP[IP[i] as int - 1] == i + 1 {
      TablesInverse(i);
    }
    PermutationUndone(x, IP, FP);
    PermutationUndone(x, FP, IP);
  }

  // ---------------------------------------------------------------- the Feistel network

  /** What a round mixes into the other half. */
  type Mixer = (U32, U64) -> U32

  datatype Halves = Halves(l: U32, r: U32) {
    function Swapped(): Halves { Halves(r, l) }
  }

  function Round(f: Mixer, h: Halves, key: U64): Halves {
    Halves(h.r, Xor32(h.l, f(h.r, key)))
  }

  /** The rounds with the keys first to last. */
  function Rounds(f: Mixer, h: Halves, keys: seq<U64>): Halves {
    if keys == [] then h else Round(f, Rounds(f, h, keys[..|keys| - 1]), keys[|keys| - 1])
  }

  /** The rounds with the keys last to first. */
  function RoundsBack(f: Mixer, h: Halves, keys: seq<U64>): Halves
    decreases |keys|
  {
    if keys == [] then h else Round(f, RoundsBack(f, h, keys[1..]), keys[0])
  }

  /** A round undoes itself between two swaps, whatever is mixed in. */
  lemma RoundUndoesItself(f: Mixer, h: Halves, key: U64)
    ensures Round(f, Round(f, h, key).Swapped(), key).Swapped() == h
  {
    XorCancels(h.l, f(h.r, key));
  }

  /** The rounds taken backwards undo the rounds, between two swaps. */
  lemma {:induction false} RoundsUndone(f: Mixer, h: Halves, keys: seq<U64>)
    ensures RoundsBack(f, Rounds(f, h, keys).Swapped(), keys).Swapped() == h
  {
    if keys != [] {
      var last := |keys| - 1;
      var before := Rounds(f, h, keys[..last]);
      var after := Round(f, before, keys[last]);
      RoundsBackFromTheEnd(f, after.Swapped(), keys);
      RoundUndoesItself(f, before, keys[last]);
      RoundsUndone(f, h, keys[..last]);
    }
  }

  /** The other end of the loop: the last key is used first. */
  lemma {:induction false} RoundsBackFromTheEnd(f: Mixer, h: Halves, keys: seq<U64>)
    requires keys != []
    ensures RoundsBack(f, h, keys) == RoundsBack(f, Round(f, h, keys[|keys| - 1]), keys[..|keys| - 1])
    decreases |keys|
  {
    var last := |keys| - 1;
    if last > 0 {
      RoundsBackFromTheEnd(f, h, keys[1..]);
      assert keys[1..][..last - 1] == keys[..last][1..];
    }
  }

  function Reversed(keys: seq<U64>): seq<U64> {
    if keys == [] then [] else Reversed(keys[1..]) + [keys[0]]
  }

  lemma {:induction false} ReversedTwice(keys: seq<U64>)
    ensures Reversed(Reversed(keys)) == keys
  {
    if keys != [] {
      ReversedTwice(keys[1..]);
      ReversedAppend(Reversed(keys[1..]), keys[0]);
    }
  }

  lemma {:induction false} ReversedAppend(keys: seq<U64>, key: U64)
    ensures Reversed(keys + [key]) == [key] + Reversed(keys)
  {
    if keys != [] {
      ReversedAppend(keys[1..], key);
      assert (keys + [key])[1..] == keys[1..] + [key];
    }
  }

  lemma {:induction false} RoundsBackIsRoundsReversed(f: Mixer, h: Halves, keys: seq<U64>)
    ensures RoundsBack(f, h, keys) == Rounds(f, h, Reversed(keys))
  {
    if keys != [] {
      RoundsBackIsRoundsReversed(f, h, keys[1..]);
      var r := Reversed(keys);
      assert r[..|r| - 1] == Reversed(keys[1..]) && r[|r| - 1] == keys[0];
    }
  }

  // ---------------------------------------------------------------- blocks

  function Split(block: U64): Halves {
    Halves(block / HALF, block % HALF)
  }

  function Joined(h: Halves): U64 {
    h.l * HALF + h.r
  }

  lemma SplitJoined(h: Halves)
    ensures Split(Joined(h)) == h
  {
  }

  lemma JoinedSplit(block: U64)
    ensures Joined(Split(block)) == block
  {
  }

  function Enciphered(f: Mixer, block: U64, keys: seq<U64>): U64 {
    Permuted64(Joined(Rounds(f, Split(Permuted64(block, IP)), keys).Swapped()), FP)
  }

  function Deciphered(f: Mixer, block: U64, keys: seq<U64>): U64 {
    Permuted64(Joined(RoundsBack(f, Split(Permuted64(block, IP)), keys).Swapped()), FP)
  }

  /** Decryption is encryption with the subkeys in reverse order. */
  lemma DecipheringReversesTheKeys(f: Mixer, block: U64, keys: seq<U64>)
    ensures Deciphered(f, block, keys) == Enciphered(f, block, Reversed(keys))
    ensures Enciphered(f, block, keys) == Deciphered(f, block, Reversed(keys))
  {
    var h := Split(Permuted64(block, IP));
    RoundsBackIsRoundsReversed(f, h, keys);
    RoundsBackIsRoundsReversed(f, h, Reversed(keys));
    ReversedTwice(keys);
  }

  /** Decryption undoes encryption, for every round function, every list of subkeys and every block. */
  lemma DecipherUndoesEncipher(f: Mixer, block: U64, keys: seq<U64>)
    ensures Deciphered(f, Enciphered(f, block, keys), keys) == block
  {
    hide Permuted64, Split, Joined, Rounds, RoundsBack;
    var start := Permuted64(block, IP);
    var mixed := Rounds(f, Split(start), keys).Swapped();
    Undone64(Joined(mixed));
    SplitJoined(mixed);
    RoundsUndone(f, Split(start), keys);
    JoinedSplit(start);
    Undone64(block);
  }

  lemma Undone64(x: U64)
    ensures Permuted64(Permuted64(x, IP), FP) == x && Permuted64(Permuted64(x, FP), IP) == x
  {
    InitialAndFinalPermutation(x);
  }

  /** And encryption undoes decryption. */
  lemma EncipherUndoesDecipher(f: Mixer, block: U64, keys: seq<U64>)
    ensures Enciphered(f, Deciphered(f, block, keys), keys) == block
  {
    DecipheringReversesTheKeys(f, block, keys);
    DecipheringReversesTheKeys(f, Enciphered(f, block, Reversed(keys)), keys);
    DecipherUndoesEncipher(f, block, Reversed(keys));
  }

  // ---------------------------------------------------------------- the round function

  /** The result of the S-box i on six bits: the outer two choose the row, the inner four the column. */
  function Substituted(i: nat, chunk: nat): Nibble
    requires i < 8 && chunk < 64
  {
    SBox(i)[(chunk / 32 * 2 + chunk % 2) * 16 + chunk % 32 / 2]
  }

  /** The results of the first n S-boxes, four bits each; the chunks of six bits start at bit 47. */
  function SBoxed(x: nat, n: nat): nat
    requires n <= 8
  {
    if n == 0 then 0 else SBoxed(x, n - 1) * 16 + Substituted(n - 1, ShiftRight(x, 48 - 6 * n) % 64)
  }

  lemma {:induction false} SBoxedBound(x: nat, n: nat)
    requires n <= 8
    ensures SBoxed(x, n) < Pow(16, n)
  {
    hide Substituted, ShiftRight;
    if n > 0 { SBoxedBound(x, n - 1); }
  }

  lemma SBoxedFits(x: nat, n: nat)
    requires n <= 8
    ensures SBoxed(x, n) < HALF
  {
    SBoxedBound(x, n);
    PowMonotone(16, n, 8);
    assert Pow(16, 8) == HALF;
  }

  /** The round function: expand to 48 bits, mix the subkey in, substitute, permute. */
  function Feistel(r: U32, subkey: U64): U32 {
    var mixed := Xor(Permuted(r * HALF, E), subkey);
    SBoxedFits(mixed, 8);
    var output: U32 := SBoxed(mixed, 8);
    PermutedBound(output * HALF, P);
    HalfIsPow();
    Permuted(output * HALF, P)
  }

  // ---------------------------------------------------------------- the key schedule

  const QUARTER := 0x1000_0000  // 2^28

  /** A left rotation of 28 bits. */
  function Rotated(x: nat, shift: nat): (y: nat)
    requires shift <= 28
    ensures y < QUARTER
  {
    (x * Pow(2, shift) + ShiftRight(x, 28 - shift)) % QUARTER
  }

  /** The two halves of the key after n rounds. */
  function KeyHalves(key: U64, n: nat): (h: (nat, nat))
    requires n <= 16
    ensures h.0 < QUARTER && h.1 < QUARTER
  {
    if n == 0 then
      var permuted := Permuted(key, PC1);
      (permuted / QUARTER % QUARTER, permuted % QUARTER)
    else
      var h := KeyHalves(key, n - 1);
      (Rotated(h.0, SHIFTS[n - 1]), Rotated(h.1, SHIFTS[n - 1]))
  }

  /** The subkey of round n, counted from 1: PC2 applied to the right-aligned pair of halves. */
  function Subkey(key: U64, n: nat): U64
    requires 1 <= n <= 16
  {
    var h := KeyHalves(key, n);
    Permuted64(h.0 * QUARTER + h.1, PC2)
  }

  function Subkeys(key: U64): seq<U64> {
    seq(16, i requires 0 <= i < 16 => Subkey(key, i + 1))
  }
}
