/**
 AES as FIPS 197 defines it, byte by byte, and the model of the code against it: the key schedule of section 5.2,
 and the cipher of section 5.1.
 */
module AesStandard {
  import opened CoreUtils
  import opened GaloisField
  import opened AesTables
  import opened AesRounds
  import opened Aes
  import opened AesCipher

  // ---------------------------------------------------------------- the key schedule

  /** Byte k of what is added to word i - Nk: it comes from word i - 1, of which same is byte k and next the byte
   after it, around the word. */
  function TempByte(i: nat, nk: nat, k: nat, same: Byte, next: Byte): Byte
    requires 0 < nk <= i
  {
    if i % nk == 0 then
      FirstMultiple(i, nk);
      Xor(SBox(next), if k == 0 then XtimePower(1, i / nk - 1) else 0)
    else if nk == 8 && i % 8 == 4 then SBox(same)
    else same
  }

  /** Byte k of word i of the expanded key. */
  ghost function KeyByte(key: seq<Byte>, i: nat, k: nat): Byte
    requires IsKeySize(|key|) && k < 4
    decreases i
  {
    var nk := |key| / 4;
    if i < nk then key[4 * i + k]
    else Xor(KeyByte(key, i - nk, k), TempByte(i, nk, k, KeyByte(key, i - 1, k), KeyByte(key, i - 1, (k + 1) % 4)))
  }

  lemma NthOfSum(v: Quad, w: Quad, k: int)
    requires 0 <= k < 4
    ensures Nth(AddWords(v, w), k) == Xor(Nth(v, k), Nth(w, k))
  {
    hide Xor;
  }

  lemma NthOfTemp(previous: Quad, i: nat, nk: nat, k: nat)
    requires (nk == 4 || nk == 6 || nk == 8) && nk <= i < 4 * (nk + 7) && k < 4
    ensures Nth(Temp(previous, i, nk), k) == TempByte(i, nk, k, Nth(previous, k), Nth(previous, (k + 1) % 4))
  {
    hide Xor, SBox, XtimePower;
    if i % nk == 0 {
      ScheduleIndexInRange(i, nk);
      FirstMultiple(i, nk);
      RoundConstants(i / nk);
      hide RCON;
    }
  }

  lemma FirstMultiple(i: nat, nk: nat)
    requires 0 < nk <= i
    ensures i / nk >= 1
  {
  }

  /** The schedule of the code is that of the standard, for the three key sizes. */
  lemma {:induction false} ScheduleIsStandard(key: seq<Byte>, i: nat, k: nat)
    requires IsKeySize(|key|) && i < WordCount(|key|) && k < 4
    ensures Nth(ScheduleWord(key, i), k) == KeyByte(key, i, k)
    decreases i
  {
    hide Xor, TempByte, Temp, AddWords, Nth;
    var nk := |key| / 4;
    if i < nk {
      NthOfQuadAt(key, i, k);
    } else {
      ScheduleIsStandard(key, i - nk, k);
      ScheduleIsStandard(key, i - 1, k);
      ScheduleIsStandard(key, i - 1, (k + 1) % 4);
      NthOfTemp(ScheduleWord(key, i - 1), i, nk, k);
      NthOfSum(ScheduleWord(key, i - nk), Temp(ScheduleWord(key, i - 1), i, nk), k);
    }
  }

  /** The bytes hold the whole schedule of the key. */
  ghost predicate HoldsSchedule(w: seq<Byte>, key: seq<Byte>) {
    IsKeySize(|key|) && |w| == SCHEDULE_SIZE && forall j :: 0 <= j < WordCount(|key|) ==> WordIs(w, j, ScheduleWord(key, j))
  }

  /** Byte k of word i. */
  function WordByte(w: seq<Byte>, i: int, k: int): Byte {
    if 0 <= 4 * i + k < |w| then w[4 * i + k] else 0
  }

  lemma ByteIsStandard(w: seq<Byte>, key: seq<Byte>, i: nat, k: nat)
    requires HoldsSchedule(w, key) && i < WordCount(|key|) && k < 4
    ensures WordByte(w, i, k) == KeyByte(key, i, k)
  {
    hide ScheduleWord, KeyByte;
    ByteOfWord(w, i, ScheduleWord(key, i), k);
    ScheduleIsStandard(key, i, k);
  }

  /** The bytes begin with the key, and from word Nk on they obey the recurrence. */
  ghost predicate Recurs(w: seq<Byte>, key: seq<Byte>, i: nat, k: nat)
    requires IsKeySize(|key|) && k < 4
  {
    var nk := |key| / 4;
    WordByte(w, i, k) ==
    if i < nk then key[4 * i + k]
    else Xor(WordByte(w, i - nk, k), TempByte(i, nk, k, WordByte(w, i - 1, k), WordByte(w, i - 1, (k + 1) % 4)))
  }

  lemma ScheduleRecurs(w: seq<Byte>, key: seq<Byte>, i: nat, k: nat)
    requires HoldsSchedule(w, key) && i < WordCount(|key|) && k < 4
    ensures Recurs(w, key, i, k)
  {
    if i < |key| / 4 { BeginsWithKey(w, key, i, k); } else { GoesOn(w, key, i, k); }
    hide *;
  }

  lemma BeginsWithKey(w: seq<Byte>, key: seq<Byte>, i: nat, k: nat)
    requires HoldsSchedule(w, key) && i < WordCount(|key|) && k < 4 && i < |key| / 4
    ensures Recurs(w, key, i, k)
  {
    assert IsKeySize(|key|);
    hide HoldsSchedule, KeyByte, TempByte, Xor, WordCount, WordByte, Recurs;
    ByteIsStandard(w, key, i, k);
    KeyByteStep(key, i, k);
    FollowsKey(w, key, i, k);
  }

  lemma GoesOn(w: seq<Byte>, key: seq<Byte>, i: nat, k: nat)
    requires HoldsSchedule(w, key) && i < WordCount(|key|) && k < 4 && i >= |key| / 4
    ensures Recurs(w, key, i, k)
  {
    assert IsKeySize(|key|);
    hide HoldsSchedule, KeyByte, TempByte, Xor, WordCount, WordByte, Recurs;
    var nk, next := |key| / 4, (k + 1) % 4;
    assert 0 < nk <= i;
    FourBytes(w, key, i, k, i - nk, next);
    KeyByteStep(key, i, k);
    FollowsOn(w, key, i, k, KeyByte(key, i - nk, k), KeyByte(key, i - 1, k), KeyByte(key, i - 1, next));
  }

  lemma FourBytes(w: seq<Byte>, key: seq<Byte>, i: nat, k: nat, before: nat, next: nat)
    requires HoldsSchedule(w, key) && before < i < WordCount(|key|) && k < 4 && next < 4
    ensures WordByte(w, i, k) == KeyByte(key, i, k) && WordByte(w, before, k) == KeyByte(key, before, k)
    ensures WordByte(w, i - 1, k) == KeyByte(key, i - 1, k) && WordByte(w, i - 1, next) == KeyByte(key, i - 1, next)
  {
    hide *;
    ByteIsStandard(w, key, i, k);
    ByteIsStandard(w, key, before, k);
    ByteIsStandard(w, key, i - 1, k);
    ByteIsStandard(w, key, i - 1, next);
  }

  lemma FollowsKey(w: seq<Byte>, key: seq<Byte>, i: nat, k: nat)
    requires IsKeySize(|key|) && k < 4 && i < |key| / 4 && WordByte(w, i, k) == key[4 * i + k]
    ensures Recurs(w, key, i, k)
  {
    hide WordByte, TempByte, Xor;
  }

  lemma FollowsOn(w: seq<Byte>, key: seq<Byte>, i: nat, k: nat, before: Byte, same: Byte, next: Byte)
    requires IsKeySize(|key|) && k < 4 && i >= |key| / 4
    requires before == WordByte(w, i - |key| / 4, k) && same == WordByte(w, i - 1, k) && next == WordByte(w, i - 1, (k + 1) % 4)
    requires WordByte(w, i, k) == Xor(before, TempByte(i, |key| / 4, k, same, next))
    ensures Recurs(w, key, i, k)
  {
    hide WordByte, TempByte, Xor;
  }

  /** So they do in the array after SetKey, for the three key sizes. */
  lemma ArrayRecurs(aes: AES, key: seq<Byte>, i: nat, k: nat)
    requires aes.Valid() && aes.Holds(key) && i < WordCount(|key|) && k < 4
    ensures Recurs(aes.roundKeys[..], key, i, k) && aes.roundKeys.Length == 240
  {
    hide WordIs, ScheduleWord, Recurs;
    ScheduleRecurs(aes.roundKeys[..], key, i, k);
  }

  lemma KeyByteStep(key: seq<Byte>, i: nat, k: nat)
    requires IsKeySize(|key|) && k < 4
    ensures var nk := |key| / 4;
            KeyByte(key, i, k) ==
            if i < nk then key[4 * i + k]
            else Xor(KeyByte(key, i - nk, k), TempByte(i, nk, k, KeyByte(key, i - 1, k), KeyByte(key, i - 1, (k + 1) % 4)))
  {
  }

  // ---------------------------------------------------------------- the cipher

  /** The numbers of rounds of the standard. */
  function StandardRounds(n: nat): nat
    requires IsKeySize(n)
  {
    if n == 16 then 10 else if n == 24 then 12 else 14
  }

  /** Twice the own byte, thrice the next one down the column, and the other two. */
  function MixByte(own: Byte, next: Byte, third: Byte, fourth: Byte): Byte {
    Xor(Xor(Times(own, 2), Times(next, 3)), Xor(third, fourth))
  }

  /** The byte in row r and column c of the state after so many full rounds; input byte r + 4 * c stands there first. */
  ghost function StateByte(key: seq<Byte>, block: Block, round: nat, r: nat, c: nat): Byte
    requires IsKeySize(|key|) && r < 4 && c < 4
    decreases round, 1
  {
    if round == 0 then Xor(block[r + 4 * c], KeyByte(key, c, r))
    else
      Xor(MixByte(Shifted(key, block, round, r, c), Shifted(key, block, round, (r + 1) % 4, c),
                  Shifted(key, block, round, (r + 2) % 4, c), Shifted(key, block, round, (r + 3) % 4, c)),
          KeyByte(key, 4 * round + c, r))
  }

  /** The substituted byte that the shift of row r brings to column c. */
  ghost function Shifted(key: seq<Byte>, block: Block, round: nat, r: nat, c: nat): Byte
    requires IsKeySize(|key|) && r < 4 && c < 4 && round > 0
    decreases round, 0
  {
    SBox(StateByte(key, block, round - 1, r, (c + r) % 4))
  }

  /** The byte of the ciphertext; the last round does not mix. */
  ghost function CipherByte(key: seq<Byte>, block: Block, r: nat, c: nat): Byte
    requires IsKeySize(|key|) && r < 4 && c < 4
  {
    var nr := StandardRounds(|key|);
    Xor(Shifted(key, block, nr, r, c), KeyByte(key, 4 * nr + c, r))
  }

  lemma ScheduleKeyByte(key: seq<Byte>, i: nat, r: nat, c: nat)
    requires IsKeySize(|key|) && i <= RoundCount(|key|) && r < 4 && c < 4
    ensures ScheduleKeys(key)[i][4 * c + r] == KeyByte(key, 4 * i + c, r)
  {
    hide ScheduleWord, KeyByte, Nth;
    assert (4 * c + r) / 4 == c && (4 * c + r) % 4 == r;
    ScheduleIsStandard(key, 4 * i + c, r);
  }

  lemma BlockCell(b: Block, r: nat, c: nat)
    requires r < 4 && c < 4
    ensures Cell(GridOfBlock(b), r, c) == b[r + 4 * c]
  {
  }

  lemma CellOfBlock(g: Grid, r: nat, c: nat)
    requires r < 4 && c < 4
    ensures BlockOfGrid(g)[r + 4 * c] == Cell(g, r, c)
  {
  }

  lemma MixedCell(g: Grid, r: nat, c: nat)
    requires r < 4 && c < 4
    ensures Cell(MixColumns(g), r, c) ==
            MixByte(Cell(g, r, c), Cell(g, (r + 1) % 4, c), Cell(g, (r + 2) % 4, c), Cell(g, (r + 3) % 4, c))
  {
    hide Cell, MixByte, Mixed, Dot, Circulant;
    MixCell(g, MIX, r, c);
    DotRows(Column(g, c));
    if r == 0 {
    } else if r == 1 {
    } else if r == 2 {
    } else {
    }
  }

  /** The rows of the circulant matrix. */
  lemma DotRows(x: Quad)
    ensures Dot(x, Circulant(MIX, 0)) == MixByte(x.a, x.b, x.c, x.d)
    ensures Dot(x, Circulant(MIX, 1)) == MixByte(x.b, x.c, x.d, x.a)
    ensures Dot(x, Circulant(MIX, 2)) == MixByte(x.c, x.d, x.a, x.b)
    ensures Dot(x, Circulant(MIX, 3)) == MixByte(x.d, x.a, x.b, x.c)
  {
    hide Times, Xor;
    TimesOneOrZero(x.a);
    TimesOneOrZero(x.b);
    TimesOneOrZero(x.c);
    TimesOneOrZero(x.d);
    TurnedSum(x.a, Times(x.b, 2), Times(x.c, 3), x.d);
    TurnedSum(Times(x.d, 2), Times(x.a, 3), x.b, x.c);
    XorCommutes(Xor(x.a, x.b), Xor(Times(x.c, 2), Times(x.d, 3)));
  }

  lemma XorCommutes(a: Byte, b: Byte)
    ensures Xor(a, b) == Xor(b, a)
  {
  }

  /** The order of four summands, begun one place later. */
  lemma TurnedSum(a: Byte, b: Byte, c: Byte, d: Byte)
    ensures Sum4(a, b, c, d) == Xor(Xor(b, c), Xor(d, a))
  {
    hide Xor;
    XorCommutes(a, b);
    XorShuffle(b, a, c, d);
    XorCommutes(a, d);
  }

  lemma ShiftedCell(g: Grid, r: nat, c: nat)
    requires r < 4 && c < 4
    ensures Cell(ShiftRows(SubBytes(g)), r, c) == SBox(Cell(g, r, (c + r) % 4))
  {
    hide Cell, SBox, SubBytes, ShiftRows;
    ShiftRowsRotates(SubBytes(g), r, c);
    SubCell(g, r, (c + r) % 4);
  }

  /** After every number of full rounds the state of the code is that of the standard. */
  lemma {:induction false} StateIsStandard(key: seq<Byte>, block: Block, round: nat, r: nat, c: nat)
    requires IsKeySize(|key|) && round < RoundCount(|key|) && r < 4 && c < 4
    ensures Cell(Rounds(GridOfBlock(block), ScheduleKeys(key), round), r, c) == StateByte(key, block, round, r, c)
    decreases round
  {
    hide Cell, GridOfBlock, ScheduleKeys, SBox, Xor, Times, KeyByte, MixColumns, ShiftRows, SubBytes, AddRoundKey;
    ScheduleKeyByte(key, round, r, c);
    if round == 0 {
      AddCell(GridOfBlock(block), ScheduleKeys(key)[0], r, c);
      BlockCell(block, r, c);
    } else {
      var g := Rounds(GridOfBlock(block), ScheduleKeys(key), round - 1);
      var shifted := ShiftRows(SubBytes(g));
      forall k: nat | k < 4 ensures Cell(shifted, k, c) == Shifted(key, block, round, k, c) {
        ShiftedCell(g, k, c);
        StateIsStandard(key, block, round - 1, k, (c + k) % 4);
      }
      MixedCell(shifted, r, c);
      AddCell(MixColumns(shifted), ScheduleKeys(key)[round], r, c);
    }
  }

  /** The block cipher of the code is that of FIPS 197, for every key of the three sizes, every block and every byte. */
  lemma CipherIsStandard(key: seq<Byte>, block: Block, r: nat, c: nat)
    requires IsKeySize(|key|) && r < 4 && c < 4
    ensures EncryptedBlock(block, ScheduleKeys(key))[r + 4 * c] == CipherByte(key, block, r, c)
  {
    hide Cell, GridOfBlock, BlockOfGrid, ScheduleKeys, SBox, Xor, KeyByte, ShiftRows, SubBytes, AddRoundKey, Rounds, StateByte;
    var nr := RoundCount(|key|);
    assert nr == StandardRounds(|key|);
    var g := Rounds(GridOfBlock(block), ScheduleKeys(key), nr - 1);
    CellOfBlock(EncryptGrid(GridOfBlock(block), ScheduleKeys(key)), r, c);
    AddCell(ShiftRows(SubBytes(g)), ScheduleKeys(key)[nr], r, c);
    ScheduleKeyByte(key, nr, r, c);
    ShiftedCell(g, r, c);
    StateIsStandard(key, block, nr - 1, r, (c + r) % 4);
  }
}
