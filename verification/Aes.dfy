/**
 The words and the key schedule of src/crypto/modern/symmetric/block/AES.cpp (section 5.2 of FIPS 197).
 */
module Aes {
  import opened CoreUtils
  import opened GaloisField
  import opened AesTables
  import opened AesRounds

  const SCHEDULE_SIZE := 240

  predicate IsKeySize(n: nat) {
    n == 16 || n == 24 || n == 32
  }

  /** The number of rounds for a key of n bytes. */
  function RoundCount(n: nat): nat {
    n / 4 + 6
  }

  /** The number of words in the schedule for a key of n bytes. */
  function WordCount(n: nat): nat {
    4 * (RoundCount(n) + 1)
  }

  // ---------------------------------------------------------------- 32-bit words

  /** Four bytes put together into a word, the first one on top. */
  function Join(a: Byte, b: Byte, c: Byte, d: Byte): bv32 {
    (a as bv32 << 24) | (b as bv32 << 16) | (c as bv32 << 8) | d as bv32
  }

  function Pack(w: Quad): bv32 {
    Join(w.a, w.b, w.c, w.d)
  }

  function Unpack(word: bv32): Quad {
    Quad(((word >> 24) & 0xff) as Byte, ((word >> 16) & 0xff) as Byte, ((word >> 8) & 0xff) as Byte, (word & 0xff) as Byte)
  }

  function AddWords(v: Quad, w: Quad): Quad {
    Quad(Xor(v.a, w.a), Xor(v.b, w.b), Xor(v.c, w.c), Xor(v.d, w.d))
  }

  function RotWord(w: Quad): Quad {
    Quad(w.b, w.c, w.d, w.a)
  }

  function SubWord(w: Quad): Quad {
    Quad(SBox(w.a), SBox(w.b), SBox(w.c), SBox(w.d))
  }

  lemma JoinRotated(a: Byte, b: Byte, c: Byte, d: Byte)
    ensures (Join(a, b, c, d) << 8) | (Join(a, b, c, d) >> 24) == Join(b, c, d, a)
  {
  }

  lemma JoinAdded(a: Byte, b: Byte, c: Byte, d: Byte, e: Byte, f: Byte, g: Byte, h: Byte)
    ensures Join(a, b, c, d) ^ Join(e, f, g, h) == Join(Xor(a, e), Xor(b, f), Xor(c, g), Xor(d, h))
  {
    calc {
      Join(a, b, c, d) ^ Join(e, f, g, h);
      Join(a ^ e, b ^ f, c ^ g, d ^ h);
      Join(Xor(a, e), Xor(b, f), Xor(c, g), Xor(d, h));
    }
  }

  lemma SplitJoin(a: Byte, b: Byte, c: Byte, d: Byte)
    ensures ((Join(a, b, c, d) >> 24) & 0xff) as Byte == a && ((Join(a, b, c, d) >> 16) & 0xff) as Byte == b
    ensures ((Join(a, b, c, d) >> 8) & 0xff) as Byte == c && (Join(a, b, c, d) & 0xff) as Byte == d
  {
  }

  lemma JoinTop(a: Byte)
    ensures a as bv32 << 24 == Join(a, 0, 0, 0)
  {
  }

  lemma UnpackPack(w: Quad)
    ensures Unpack(Pack(w)) == w
  {
    hide Join;
    SplitJoin(w.a, w.b, w.c, w.d);
  }

  function RotWord32(word: bv32): bv32 {
    (word << 8) | (word >> 24)
  }

  function Xor32(x: bv32, y: bv32): bv32 {
    x ^ y
  }

  lemma PackRotated(w: Quad)
    ensures RotWord32(Pack(w)) == Pack(RotWord(w))
  {
    hide Join;
    JoinRotated(w.a, w.b, w.c, w.d);
  }

  lemma PackAdded(v: Quad, w: Quad)
    ensures Xor32(Pack(v), Pack(w)) == Pack(AddWords(v, w))
  {
    hide Join, Xor;
    JoinAdded(v.a, v.b, v.c, v.d, w.a, w.b, w.c, w.d);
  }

  lemma PackTop(x: Byte)
    ensures x as bv32 << 24 == Pack(Quad(x, 0, 0, 0))
  {
    hide Join;
    JoinTop(x);
  }

  // ---------------------------------------------------------------- access to the byte array

  /** The word at the given index of the byte array. */
  function GetWord(schedule: seq<Byte>, index: nat): bv32
    requires 4 * index + 4 <= |schedule|
  {
    var start := index * 4;
    (schedule[start] as bv32 << 24) | (schedule[start + 1] as bv32 << 16) | (schedule[start + 2] as bv32 << 8)
    | schedule[start + 3] as bv32
  }

  function QuadAt(bytes: seq<Byte>, index: nat): Quad
    requires 4 * index + 4 <= |bytes|
  {
    Quad(bytes[4 * index], bytes[4 * index + 1], bytes[4 * index + 2], bytes[4 * index + 3])
  }

  lemma GetWordIsPacked(schedule: seq<Byte>, index: nat)
    requires 4 * index + 4 <= |schedule|
    ensures GetWord(schedule, index) == Pack(QuadAt(schedule, index))
  {
  }

  function SubWord32(word: bv32): bv32 {
    Join(SBox(((word >> 24) & 0xff) as Byte), SBox(((word >> 16) & 0xff) as Byte),
         SBox(((word >> 8) & 0xff) as Byte), SBox((word & 0xff) as Byte))
  }

  lemma SubWordPacked(w: Quad)
    ensures SubWord32(Pack(w)) == Pack(SubWord(w))
  {
    hide SBox, Join;
    SplitJoin(w.a, w.b, w.c, w.d);
  }

  // ---------------------------------------------------------------- the key schedule

  /** What is added to the word i - Nk to get the word i, made from the word i - 1. */
  function Temp(previous: Quad, i: nat, nk: nat): Quad
    requires (nk == 4 || nk == 6 || nk == 8) && i < 4 * (nk + 7)
  {
    if i % nk == 0 then
      ScheduleIndexInRange(i, nk);
      AddWords(SubWord(RotWord(previous)), Quad(RCON[i / nk], 0, 0, 0))
    else if nk > 6 && i % nk == 4 then SubWord(previous)
    else previous
  }

  lemma ScheduleIndexInRange(i: nat, nk: nat)
    requires (nk == 4 || nk == 6 || nk == 8) && i < 4 * (nk + 7)
    ensures i / nk <= 10 && 4 * i + 4 <= SCHEDULE_SIZE
  {
    if nk == 4 {} else if nk == 6 {} else {}
  }

  /** The words of section 5.2 of FIPS 197. */
  function ScheduleWord(key: seq<Byte>, i: nat): Quad
    requires IsKeySize(|key|) && i < WordCount(|key|)
  {
    var nk := |key| / 4;
    if i < nk then QuadAt(key, i)
    else AddWords(ScheduleWord(key, i - nk), Temp(ScheduleWord(key, i - 1), i, nk))
  }

  /** The round constants are the powers of x in the field. */
  lemma RoundConstants(i: nat)
    requires 1 <= i <= 10
    ensures RCON[i] == XtimePower(1, i - 1)
  {
    PowerOfOne(if i <= 8 then i - 1 else 7);
    assert XtimePower(1, 8) == Xtime(XtimePower(1, 7)) && XtimePower(1, 9) == Xtime(XtimePower(1, 8));
  }

  lemma AddWordsCancels(v: Quad, w: Quad)
    ensures AddWords(AddWords(v, w), w) == v
  {
    hide Xor;
    XorCancels(v.a, w.a);
    XorCancels(v.b, w.b);
    XorCancels(v.c, w.c);
    XorCancels(v.d, w.d);
  }

  /** A word is determined by the Nk words after it. */
  lemma EarlierWord(key: seq<Byte>, i: nat)
    requires IsKeySize(|key|) && i + |key| / 4 < WordCount(|key|)
    ensures var nk := |key| / 4;
            ScheduleWord(key, i) == AddWords(ScheduleWord(key, i + nk), Temp(ScheduleWord(key, i + nk - 1), i + nk, nk))
  {
    hide AddWords, Temp;
    var nk := |key| / 4;
    AddWordsCancels(ScheduleWord(key, i), Temp(ScheduleWord(key, i + nk - 1), i + nk, nk));
  }

  /** Any Nk consecutive words of the schedule determine all the earlier ones, hence the key. */
  lemma {:induction false} WindowDeterminesKey(key: seq<Byte>, other: seq<Byte>, i: nat)
    requires IsKeySize(|key|) && |other| == |key| && i + |key| / 4 <= WordCount(|key|)
    requires forall j :: i <= j < i + |key| / 4 ==> ScheduleWord(key, j) == ScheduleWord(other, j)
    ensures forall j :: 0 <= j < i ==> ScheduleWord(key, j) == ScheduleWord(other, j)
    ensures key == other
  {
    hide AddWords, Temp;
    var nk := |key| / 4;
    if i > 0 {
      EarlierWord(key, i - 1);
      EarlierWord(other, i - 1);
      WindowDeterminesKey(key, other, i - 1);
    } else {
      forall k | 0 <= k < |key| ensures key[k] == other[k] {
        assert ScheduleWord(key, k / 4) == ScheduleWord(other, k / 4);
        assert QuadAt(key, k / 4) == QuadAt(other, k / 4);
      }
    }
  }
}
