/**
 The AES class of src/crypto/modern/symmetric/block/AES.cpp: the byte array of round keys and
 the block functions, which work on a 4-by-4 state in place.
 */
module AesCipher {
  import opened CoreUtils
  import opened GaloisField
  import opened AesTables
  import opened AesRounds
  import opened Aes
  import opened Results

  type Block = b: seq<Byte> | |b| == 16 witness seq(16, _ => 0)

  // ---------------------------------------------------------------- states and blocks

  function GridOf(state: array2<Byte>): Grid
    requires state.Length0 == 4 && state.Length1 == 4
    reads state
  {
    Grid(Quad(state[0, 0], state[0, 1], state[0, 2], state[0, 3]), Quad(state[1, 0], state[1, 1], state[1, 2], state[1, 3]),
         Quad(state[2, 0], state[2, 1], state[2, 2], state[2, 3]), Quad(state[3, 0], state[3, 1], state[3, 2], state[3, 3]))
  }

  /** The block read column by column. */
  function GridOfBlock(b: Block): Grid {
    Make((r, c) => if InGrid(r, c) then b[4 * c + r] else 0)
  }

  function BlockOfGrid(g: Grid): Block {
    seq(16, k requires 0 <= k < 16 => Cell(g, k % 4, k / 4))
  }

  lemma BlockRoundTrip(b: Block, g: Grid)
    ensures BlockOfGrid(GridOfBlock(b)) == b && GridOfBlock(BlockOfGrid(g)) == g
  {
    forall k | 0 <= k < 16 ensures BlockOfGrid(GridOfBlock(b))[k] == b[k] {
      assert InGrid(k % 4, k / 4) && 4 * (k / 4) + k % 4 == k;
    }
    forall r, c | InGrid(r, c) ensures Cell(GridOfBlock(BlockOfGrid(g)), r, c) == Cell(g, r, c) {
      assert (4 * c + r) % 4 == r && (4 * c + r) / 4 == c;
    }
    SameGrid(GridOfBlock(BlockOfGrid(g)), g);
  }

  lemma GridCell(state: array2<Byte>)
    requires state.Length0 == 4 && state.Length1 == 4
    ensures forall r, c :: InGrid(r, c) ==> Cell(GridOf(state), r, c) == state[r, c]
  {
    forall r, c | InGrid(r, c) ensures Cell(GridOf(state), r, c) == state[r, c] {
      if r == 0 {} else if r == 1 {} else if r == 2 {} else {}
    }
  }

  lemma SubBytesGrid(g: Grid, h: Grid)
    requires forall r, c :: InGrid(r, c) ==> Cell(h, r, c) == SBox(Cell(g, r, c))
    ensures h == SubBytes(g)
  {
    hide SBox, SubBytes, Cell;
    forall r, c | InGrid(r, c) ensures Cell(h, r, c) == Cell(SubBytes(g), r, c) { SubCell(g, r, c); }
    SameGrid(h, SubBytes(g));
  }

  lemma InvSubBytesGrid(g: Grid, h: Grid)
    requires forall r, c :: InGrid(r, c) ==> Cell(h, r, c) == InvSBox(Cell(g, r, c))
    ensures h == InvSubBytes(g)
  {
    hide InvSBox, InvSubBytes, Cell;
    forall r, c | InGrid(r, c) ensures Cell(h, r, c) == Cell(InvSubBytes(g), r, c) { SubCell(g, r, c); }
    SameGrid(h, InvSubBytes(g));
  }

  method SubBytesInPlace(state: array2<Byte>)
    requires state.Length0 == 4 && state.Length1 == 4
    modifies state
    ensures GridOf(state) == SubBytes(old(GridOf(state)))
  {
    hide SBox, SubBytes, GridOf, Cell;
    ghost var g := GridOf(state);
    GridCell(state);
    for i := 0 to 4
      invariant forall r, c :: 0 <= r < 4 && 0 <= c < 4 ==>
        state[r, c] == if r < i then SBox(old(state[r, c])) else old(state[r, c])
    {
      for j := 0 to 4
        invariant forall r, c :: 0 <= r < 4 && 0 <= c < 4 ==>
          state[r, c] == if r < i || (r == i && c < j) then SBox(old(state[r, c])) else old(state[r, c])
      {
        state[i, j] := SBox(state[i, j]);
      }
    }
    GridCell(state);
    SubBytesGrid(g, GridOf(state));
  }

  method InvSubBytesInPlace(state: array2<Byte>)
    requires state.Length0 == 4 && state.Length1 == 4
    modifies state
    ensures GridOf(state) == InvSubBytes(old(GridOf(state)))
  {
    hide InvSBox, InvSubBytes, GridOf, Cell;
    ghost var g := GridOf(state);
    GridCell(state);
    for i := 0 to 4
      invariant forall r, c :: 0 <= r < 4 && 0 <= c < 4 ==>
        state[r, c] == if r < i then InvSBox(old(state[r, c])) else old(state[r, c])
    {
      for j := 0 to 4
        invariant forall r, c :: 0 <= r < 4 && 0 <= c < 4 ==>
          state[r, c] == if r < i || (r == i && c < j) then InvSBox(old(state[r, c])) else old(state[r, c])
      {
        state[i, j] := InvSBox(state[i, j]);
      }
    }
    GridCell(state);
    InvSubBytesGrid(g, GridOf(state));
  }

  // Each row is moved by hand, through one temporary or two.

  method ShiftRowOne(state: array2<Byte>)
    requires state.Length0 == 4 && state.Length1 == 4
    modifies state
    ensures var q := old(GridOf(state)).row1; GridOf(state) == old(GridOf(state)).(row1 := Quad(q.b, q.c, q.d, q.a))
  {
    var temp := state[1, 0];
    state[1, 0] := state[1, 1];
    state[1, 1] := state[1, 2];
    state[1, 2] := state[1, 3];
    state[1, 3] := temp;
  }

  method ShiftRowTwo(state: array2<Byte>)
    requires state.Length0 == 4 && state.Length1 == 4
    modifies state
    ensures var q := old(GridOf(state)).row2; GridOf(state) == old(GridOf(state)).(row2 := Quad(q.c, q.d, q.a, q.b))
  {
    var temp := state[2, 0];
    var temp2 := state[2, 1];
    state[2, 0] := state[2, 2];
    state[2, 1] := state[2, 3];
    state[2, 2] := temp;
    state[2, 3] := temp2;
  }

  method ShiftRowThree(state: array2<Byte>)
    requires state.Length0 == 4 && state.Length1 == 4
    modifies state
    ensures var q := old(GridOf(state)).row3; GridOf(state) == old(GridOf(state)).(row3 := Quad(q.d, q.a, q.b, q.c))
  {
    var temp := state[3, 3];
    state[3, 3] := state[3, 2];
    state[3, 2] := state[3, 1];
    state[3, 1] := state[3, 0];
    state[3, 0] := temp;
  }

  method ShiftRowsInPlace(state: array2<Byte>)
    requires state.Length0 == 4 && state.Length1 == 4
    modifies state
    ensures GridOf(state) == ShiftRows(old(GridOf(state)))
  {
    hide GridOf;
    ShiftRowOne(state);
    ShiftRowTwo(state);
    ShiftRowThree(state);
  }

  method InvShiftRowOne(state: array2<Byte>)
    requires state.Length0 == 4 && state.Length1 == 4
    modifies state
    ensures var q := old(GridOf(state)).row1; GridOf(state) == old(GridOf(state)).(row1 := Quad(q.d, q.a, q.b, q.c))
  {
    var temp := state[1, 3];
    state[1, 3] := state[1, 2];
    state[1, 2] := state[1, 1];
    state[1, 1] := state[1, 0];
    state[1, 0] := temp;
  }

  method InvShiftRowTwo(state: array2<Byte>)
    requires state.Length0 == 4 && state.Length1 == 4
    modifies state
    ensures var q := old(GridOf(state)).row2; GridOf(state) == old(GridOf(state)).(row2 := Quad(q.c, q.d, q.a, q.b))
  {
    var temp := state[2, 3];
    var temp2 := state[2, 2];
    state[2, 3] := state[2, 1];
    state[2, 2] := state[2, 0];
    state[2, 1] := temp;
    state[2, 0] := temp2;
  }

  method InvShiftRowThree(state: array2<Byte>)
    requires state.Length0 == 4 && state.Length1 == 4
    modifies state
    ensures var q := old(GridOf(state)).row3; GridOf(state) == old(GridOf(state)).(row3 := Quad(q.b, q.c, q.d, q.a))
  {
    var temp := state[3, 0];
    state[3, 0] := state[3, 1];
    state[3, 1] := state[3, 2];
    state[3, 2] := state[3, 3];
    state[3, 3] := temp;
  }

  method InvShiftRowsInPlace(state: array2<Byte>)
    requires state.Length0 == 4 && state.Length1 == 4
    modifies state
    ensures GridOf(state) == InvShiftRows(old(GridOf(state)))
  {
    hide GridOf;
    InvShiftRowOne(state);
    InvShiftRowTwo(state);
    InvShiftRowThree(state);
  }

  lemma ColumnsAgree(g: Grid, h: Grid)
    requires forall c :: 0 <= c < 4 ==> Column(g, c) == Column(h, c)
    ensures g == h
  {
    forall r, c | InGrid(r, c) ensures Cell(g, r, c) == Cell(h, r, c) {
      assert Column(g, c) == Column(h, c);
    }
    SameGrid(g, h);
  }

  method MixColumnsInPlace(state: array2<Byte>)
    requires state.Length0 == 4 && state.Length1 == 4
    modifies state
    ensures GridOf(state) == MixColumns(old(GridOf(state)))
  {
    hide XtimeMix, Apply, GridOf, Mixed, Cell;
    ghost var g := GridOf(state);
    GridCell(state);
    for i := 0 to 4
      invariant forall c :: 0 <= c < 4 ==> ColumnOf(state, c) == if c < i then Apply(Column(g, c), MIX) else Column(g, c)
    {
      var tmp := XtimeMix(ColumnOf(state, i));
      XtimeMixIsApply(Column(g, i));
      state[0, i] := tmp.a;
      state[1, i] := tmp.b;
      state[2, i] := tmp.c;
      state[3, i] := tmp.d;
    }
    MixedGrid(g, MIX, GridOf(state), state);
  }

  function ColumnOf(state: array2<Byte>, c: int): Quad
    requires state.Length0 == 4 && state.Length1 == 4 && 0 <= c < 4
    reads state
  {
    Quad(state[0, c], state[1, c], state[2, c], state[3, c])
  }

  lemma MixedGrid(g: Grid, first: Quad, h: Grid, state: array2<Byte>)
    requires state.Length0 == 4 && state.Length1 == 4 && h == GridOf(state)
    requires forall c :: 0 <= c < 4 ==> ColumnOf(state, c) == Apply(Column(g, c), first)
    ensures h == Mixed(g, first)
  {
    hide Apply, Mixed, Cell, GridOf;
    GridCell(state);
    forall c | 0 <= c < 4 ensures Column(h, c) == Column(Mixed(g, first), c) {
      assert InGrid(0, c) && InGrid(1, c) && InGrid(2, c) && InGrid(3, c);
      MixedColumn(g, first, c);
    }
    ColumnsAgree(h, Mixed(g, first));
  }

  method InvMixColumnsInPlace(state: array2<Byte>)
    requires state.Length0 == 4 && state.Length1 == 4
    modifies state
    ensures GridOf(state) == InvMixColumns(old(GridOf(state)))
  {
    hide Apply, GridOf, Mixed, Cell;
    ghost var g := GridOf(state);
    GridCell(state);
    for i := 0 to 4
      invariant forall c :: 0 <= c < 4 ==> ColumnOf(state, c) == if c < i then Apply(Column(g, c), INV_MIX) else Column(g, c)
    {
      var mixed := InvMixColumn(state[0, i], state[1, i], state[2, i], state[3, i]);
      state[0, i] := mixed.a;
      state[1, i] := mixed.b;
      state[2, i] := mixed.c;
      state[3, i] := mixed.d;
    }
    MixedGrid(g, INV_MIX, GridOf(state), state);
  }

  /** The four bytes of a mixed column. */
  method InvMixColumn(a: Byte, b: Byte, c: Byte, d: Byte) returns (mixed: Quad)
    ensures mixed == Apply(Quad(a, b, c, d), INV_MIX)
  {
    hide Apply, Dot;
    var first := InvMixByte(a, b, c, d, 0x0e, 0x0b, 0x0d, 0x09);
    var second := InvMixByte(a, b, c, d, 0x09, 0x0e, 0x0b, 0x0d);
    var third := InvMixByte(a, b, c, d, 0x0d, 0x09, 0x0e, 0x0b);
    var fourth := InvMixByte(a, b, c, d, 0x0b, 0x0d, 0x09, 0x0e);
    ApplyListed(Quad(a, b, c, d));
    mixed := Quad(first, second, third, fourth);
  }

  method InvMixByte(a: Byte, b: Byte, c: Byte, d: Byte, p: Byte, q: Byte, r: Byte, s: Byte) returns (res: Byte)
    ensures res == Dot(Quad(a, b, c, d), Quad(p, q, r, s))
  {
    hide Sum4, Times;
    var w := Multiply(a, p);
    var x := Multiply(b, q);
    var y := Multiply(c, r);
    var z := Multiply(d, s);
    ChainIsSum4(w, x, y, z);
    res := w ^ x ^ y ^ z;
  }

  lemma ApplyListed(x: Quad)
    ensures Apply(x, INV_MIX) == Quad(Dot(x, Quad(0x0e, 0x0b, 0x0d, 0x09)), Dot(x, Quad(0x09, 0x0e, 0x0b, 0x0d)),
                                      Dot(x, Quad(0x0d, 0x09, 0x0e, 0x0b)), Dot(x, Quad(0x0b, 0x0d, 0x09, 0x0e)))
  {
    hide Dot;
  }

  method AddRoundKeyInPlace(state: array2<Byte>, roundKeys: array<Byte>, round: nat)
    requires state.Length0 == 4 && state.Length1 == 4 && round * 16 + 16 <= roundKeys.Length
    modifies state
    ensures GridOf(state) == AddRoundKey(old(GridOf(state)), roundKeys[16 * round..16 * round + 16])
  {
    hide Xor, GridOf, Cell, AddRoundKey;
    ghost var g, key := GridOf(state), roundKeys[16 * round..16 * round + 16];
    GridCell(state);
    for i := 0 to 4
      invariant forall r, c :: 0 <= r < 4 && 0 <= c < 4 ==>
        state[r, c] == if c < i then Xor(old(state[r, c]), key[4 * c + r]) else old(state[r, c])
    {
      for j := 0 to 4
        invariant forall r, c :: 0 <= r < 4 && 0 <= c < 4 ==>
          state[r, c] == if c < i || (c == i && r < j) then Xor(old(state[r, c]), key[4 * c + r]) else old(state[r, c])
      {
        XorMeaning(state[j, i], roundKeys[round * 16 + i * 4 + j]);
        state[j, i] := state[j, i] ^ roundKeys[round * 16 + i * 4 + j];
      }
    }
    GridCell(state);
    forall r, c | InGrid(r, c) ensures Cell(GridOf(state), r, c) == Cell(AddRoundKey(g, key), r, c) {
      AddCell(g, key, r, c);
    }
    SameGrid(GridOf(state), AddRoundKey(g, key));
  }

  // ---------------------------------------------------------------- the cipher object

  datatype AesError = InvalidKeySize | KeySizeMismatch | BlockSizeError

  /** The first n round keys in the byte array. */
  function KeysOf(bytes: seq<Byte>, n: nat): RoundKeys
    requires 16 * n <= |bytes|
  {
    seq(n, i requires 0 <= i < n => bytes[16 * i..16 * i + 16])
  }

  function EncryptedBlock(b: Block, keys: RoundKeys): Block
    requires |keys| >= 2
  {
    BlockOfGrid(EncryptGrid(GridOfBlock(b), keys))
  }

  function DecryptedBlock(b: Block, keys: RoundKeys): Block
    requires |keys| >= 2
  {
    BlockOfGrid(DecryptGrid(GridOfBlock(b), keys))
  }

  /** On blocks of bytes as well, both orders give back the block. */
  lemma BlockCipherInverse(b: Block, keys: RoundKeys)
    requires |keys| >= 2
    ensures DecryptedBlock(EncryptedBlock(b, keys), keys) == b
    ensures EncryptedBlock(DecryptedBlock(b, keys), keys) == b
  {
    hide EncryptGrid, DecryptGrid, GridOfBlock, BlockOfGrid;
    GridRoundTrips(GridOfBlock(b), keys);
    BlockRoundTrip(b, EncryptGrid(GridOfBlock(b), keys));
    BlockRoundTrip(b, DecryptGrid(GridOfBlock(b), keys));
  }

  class AES {
    const roundKeys: array<Byte>
    const keySizeBytes: nat

    ghost predicate Valid() {
      roundKeys.Length == SCHEDULE_SIZE && IsKeySize(keySizeBytes)
    }

    function Nr(): nat {
      RoundCount(keySizeBytes)
    }

    function Keys(): (keys: RoundKeys)
      requires Valid()
      reads roundKeys
      ensures |keys| == Nr() + 1
    {
      KeysOf(roundKeys[..], Nr() + 1)
    }

    constructor (keySizeBytes: nat)
      requires IsKeySize(keySizeBytes)
      ensures Valid() && fresh(roundKeys) && this.keySizeBytes == keySizeBytes
    {
      roundKeys := new Byte[SCHEDULE_SIZE](_ => 0);
      this.keySizeBytes := keySizeBytes;
    }

    /** The constructor of the original, which throws on any other key size. */
    static method Create(keySizeBytes: nat) returns (r: Result<AES, AesError>)
      ensures r.Success? <==> IsKeySize(keySizeBytes)
      ensures r.Failure? ==> r.error == InvalidKeySize
      ensures r.Success? ==> r.value.Valid() && r.value.keySizeBytes == keySizeBytes && fresh(r.value) && fresh(r.value.roundKeys)
    {
      if keySizeBytes != 16 && keySizeBytes != 24 && keySizeBytes != 32 {
        return Failure(InvalidKeySize);
      }
      var aes := new AES(keySizeBytes);
      return Success(aes);
    }

    /** The first i words of the schedule are in place, and the rest of the array is zero. */
    ghost predicate Filled(key: seq<Byte>, i: nat)
      requires Valid() && |key| == keySizeBytes && i <= WordCount(|key|)
      reads roundKeys
    {
      (forall j :: 0 <= j < i ==> WordIs(roundKeys[..], j, ScheduleWord(key, j)))
      && (forall k :: 4 * i <= k < SCHEDULE_SIZE ==> roundKeys[k] == 0)
    }

    /** The array holds the whole schedule of the key. */
    ghost predicate Holds(key: seq<Byte>)
      requires Valid()
      reads roundKeys
    {
      |key| == keySizeBytes && Filled(key, WordCount(|key|))
    }

    method SetKey(key: seq<Byte>) returns (error: Option<AesError>)
      requires Valid()
      modifies roundKeys
      ensures error == if |key| != keySizeBytes then Some(KeySizeMismatch) else None
      ensures error == None ==> Holds(key) && Keys() == ScheduleKeys(key)
      ensures error != None ==> roundKeys[..] == old(roundKeys[..])
    {
      if |key| != keySizeBytes { return Some(KeySizeMismatch); }
      KeyExpansion(key);
      KeysFromWords(roundKeys[..], key);
      return None;
    }

    method SetWord(index: nat, word: bv32, ghost w: Quad)
      requires Valid() && 4 * index + 4 <= SCHEDULE_SIZE && word == Pack(w)
      modifies roundKeys
      ensures WordIs(roundKeys[..], index, w)
      ensures forall k :: 0 <= k < SCHEDULE_SIZE && !(4 * index <= k < 4 * index + 4) ==> roundKeys[k] == old(roundKeys[k])
    {
      hide Pack;
      UnpackPack(w);
      var start := index * 4;
      roundKeys[start] := ((word >> 24) & 0xff) as Byte;
      roundKeys[start + 1] := ((word >> 16) & 0xff) as Byte;
      roundKeys[start + 2] := ((word >> 8) & 0xff) as Byte;
      roundKeys[start + 3] := (word & 0xff) as Byte;
    }

    method KeyExpansion(key: seq<Byte>)
      requires Valid() && |key| == keySizeBytes
      modifies roundKeys
      ensures Holds(key)
    {
      hide Filled;
      Zeroize();
      LoadKey(key);
      var nk := keySizeBytes / 4;
      var nr := if nk == 4 then 10 else if nk == 6 then 12 else 14;
      var totalWords := 4 * (nr + 1);
      for i := nk to totalWords
        invariant Filled(key, i)
      {
        ExpandWord(key, i, nk);
      }
    }

    method Zeroize()
      requires Valid()
      modifies roundKeys
      ensures forall k :: 0 <= k < SCHEDULE_SIZE ==> roundKeys[k] == 0
    {
      for k := 0 to roundKeys.Length
        invariant forall j :: 0 <= j < k ==> roundKeys[j] == 0
      {
        roundKeys[k] := 0;
      }
    }

    /** The first Nk words are the key itself. */
    method LoadKey(key: seq<Byte>)
      requires Valid() && |key| == keySizeBytes
      requires forall k :: 0 <= k < SCHEDULE_SIZE ==> roundKeys[k] == 0
      modifies roundKeys
      ensures Filled(key, |key| / 4)
    {
      hide Pack, GetWord;
      for i := 0 to keySizeBytes / 4
        invariant Filled(key, i)
      {
        GetWordIsPacked(key, i);
        SetWord(i, GetWord(key, i), QuadAt(key, i));
      }
    }

    /** One iteration of the main loop of the key expansion. */
    method ExpandWord(key: seq<Byte>, i: nat, nk: nat)
      requires Valid() && |key| == keySizeBytes == 4 * nk && nk <= i < WordCount(|key|) && Filled(key, i)
      modifies roundKeys
      ensures Filled(key, i + 1)
    {
      hide Pack, AddWords, Temp, Xor32, GetWord;
      ScheduleIndexInRange(i, nk);
      ghost var w := ScheduleWord(key, i - 1);
      assert WordIs(roundKeys[..], i - 1, w) && WordIs(roundKeys[..], i - nk, ScheduleWord(key, i - nk));
      GetWordIsPacked(roundKeys[..], i - 1);
      var temp := TempWord(GetWord(roundKeys[..], i - 1), i, nk, w);
      GetWordIsPacked(roundKeys[..], i - nk);
      PackAdded(ScheduleWord(key, i - nk), Temp(w, i, nk));
      SetWord(i, Xor32(GetWord(roundKeys[..], i - nk), temp), ScheduleWord(key, i));
    }

    method AddRoundKeyTo(state: array2<Byte>, round: nat)
      requires Valid() && state.Length0 == 4 && state.Length1 == 4 && round <= Nr()
      modifies state
      ensures GridOf(state) == AddRoundKey(old(GridOf(state)), Keys()[round])
    {
      hide AddRoundKey, GridOf;
      AddRoundKeyInPlace(state, roundKeys, round);
      assert roundKeys[16 * round..16 * round + 16] == Keys()[round];
    }

    /** A full round of encryption. */
    method EncryptionRound(state: array2<Byte>, round: nat)
      requires Valid() && state.Length0 == 4 && state.Length1 == 4 && round <= Nr()
      modifies state
      ensures GridOf(state) == Round(old(GridOf(state)), Keys()[round])
    {
      hide AddRoundKey, SubBytes, ShiftRows, MixColumns, GridOf, KeysOf;
      SubBytesInPlace(state);
      ShiftRowsInPlace(state);
      MixColumnsInPlace(state);
      AddRoundKeyTo(state, round);
    }

    /** A full round of decryption. */
    method DecryptionRound(state: array2<Byte>, round: nat)
      requires Valid() && state.Length0 == 4 && state.Length1 == 4 && round <= Nr()
      modifies state
      ensures GridOf(state) == InverseRound(old(GridOf(state)), Keys()[round])
    {
      hide AddRoundKey, InvSubBytes, InvShiftRows, InvMixColumns, GridOf, KeysOf;
      InvShiftRowsInPlace(state);
      InvSubBytesInPlace(state);
      AddRoundKeyTo(state, round);
      InvMixColumnsInPlace(state);
    }

    method FinalRound(state: array2<Byte>)
      requires Valid() && state.Length0 == 4 && state.Length1 == 4
      modifies state
      ensures GridOf(state) == LastRound(old(GridOf(state)), Keys()[Nr()])
    {
      hide AddRoundKey, SubBytes, ShiftRows, GridOf, KeysOf;
      SubBytesInPlace(state);
      ShiftRowsInPlace(state);
      AddRoundKeyTo(state, Nr());
    }

    method FinalInverseRound(state: array2<Byte>)
      requires Valid() && state.Length0 == 4 && state.Length1 == 4
      modifies state
      ensures GridOf(state) == LastInverseRound(old(GridOf(state)), Keys()[0])
    {
      hide AddRoundKey, InvSubBytes, InvShiftRows, GridOf, KeysOf;
      InvShiftRowsInPlace(state);
      InvSubBytesInPlace(state);
      AddRoundKeyTo(state, 0);
    }

    /** The rounds of encryptBlock. */
    method EncryptState(state: array2<Byte>)
      requires Valid() && state.Length0 == 4 && state.Length1 == 4
      modifies state
      ensures GridOf(state) == EncryptGrid(old(GridOf(state)), Keys())
    {
      hide AddRoundKey, Round, LastRound, GridOf, KeysOf;
      ghost var g := GridOf(state);
      var nr := keySizeBytes / 4 + 6;
      AddRoundKeyTo(state, 0);
      for round := 1 to nr
        invariant GridOf(state) == Rounds(g, Keys(), round - 1)
      {
        EncryptionRound(state, round);
      }
      FinalRound(state);
    }

    /** The rounds of decryptBlock. */
    method DecryptState(state: array2<Byte>)
      requires Valid() && state.Length0 == 4 && state.Length1 == 4
      modifies state
      ensures GridOf(state) == DecryptGrid(old(GridOf(state)), Keys())
    {
      hide AddRoundKey, InverseRound, LastInverseRound, GridOf, KeysOf;
      ghost var g := GridOf(state);
      var nr := keySizeBytes / 4 + 6;
      AddRoundKeyTo(state, nr);
      var round := nr - 1;
      while round > 0
        invariant 0 <= round < nr
        invariant GridOf(state) == InverseRounds(g, Keys(), round + 1)
      {
        DecryptionRound(state, round);
        round := round - 1;
      }
      FinalInverseRound(state);
    }

    method EncryptBlock(plaintext: seq<Byte>) returns (r: Result<Block, AesError>)
      requires Valid()
      ensures r == if |plaintext| != 16 then Failure(BlockSizeError) else Success(EncryptedBlock(plaintext, Keys()))
    {
      if |plaintext| != 16 { return Failure(BlockSizeError); }
      hide EncryptGrid, GridOf, GridOfBlock, BlockOfGrid, KeysOf;
      var state := LoadState(plaintext);
      EncryptState(state);
      var output := StoreState(state);
      return Success(output);
    }

    method DecryptBlock(ciphertext: seq<Byte>) returns (r: Result<Block, AesError>)
      requires Valid()
      ensures r == if |ciphertext| != 16 then Failure(BlockSizeError) else Success(DecryptedBlock(ciphertext, Keys()))
    {
      if |ciphertext| != 16 { return Failure(BlockSizeError); }
      hide DecryptGrid, GridOf, GridOfBlock, BlockOfGrid, KeysOf;
      var state := LoadState(ciphertext);
      DecryptState(state);
      var output := StoreState(state);
      return Success(output);
    }
  }

  /** Copies a block into a state, column by column. */
  method LoadState(b: Block) returns (state: array2<Byte>)
    ensures fresh(state) && state.Length0 == 4 && state.Length1 == 4 && GridOf(state) == GridOfBlock(b)
  {
    hide GridOf, Cell;
    state := new Byte[4, 4];
    for i := 0 to 4
      invariant forall r, c :: 0 <= r < 4 && 0 <= c < i ==> state[r, c] == b[4 * c + r]
    {
      for j := 0 to 4
        invariant forall r, c :: 0 <= r < 4 && 0 <= c < 4 && (c < i || (c == i && r < j)) ==> state[r, c] == b[4 * c + r]
      {
        state[j, i] := b[i * 4 + j];
      }
    }
    GridCell(state);
    forall r, c | InGrid(r, c) ensures Cell(GridOf(state), r, c) == Cell(GridOfBlock(b), r, c) {
    }
    SameGrid(GridOf(state), GridOfBlock(b));
  }

  method StoreState(state: array2<Byte>) returns (b: Block)
    requires state.Length0 == 4 && state.Length1 == 4
    ensures b == BlockOfGrid(GridOf(state))
  {
    hide GridOf, Cell;
    var output: seq<Byte> := seq(16, _ => 0);
    GridCell(state);
    for i := 0 to 4
      invariant |output| == 16 && forall k :: 0 <= k < 4 * i ==> output[k] == state[k % 4, k / 4]
    {
      for j := 0 to 4
        invariant |output| == 16 && forall k :: 0 <= k < 4 * i + j ==> output[k] == state[k % 4, k / 4]
      {
        output := output[i * 4 + j := state[j, i]];
      }
    }
    forall k | 0 <= k < 16 ensures output[k] == BlockOfGrid(GridOf(state))[k] {
      assert InGrid(k % 4, k / 4);
    }
    b := output;
  }

  method TempWord(previous: bv32, i: nat, nk: nat, ghost w: Quad) returns (temp: bv32)
    requires (nk == 4 || nk == 6 || nk == 8) && i < 4 * (nk + 7) && previous == Pack(w)
    ensures temp == Pack(Temp(w, i, nk))
  {
    hide Pack, AddWords, SubWord, RotWord, SubWord32, RotWord32, Xor32;
    ScheduleIndexInRange(i, nk);
    temp := previous;
    if i % nk == 0 {
      PackRotated(w);
      temp := RotWord32(temp);
      SubWordPacked(RotWord(w));
      temp := SubWord32(temp);
      PackTop(RCON[i / nk]);
      PackAdded(SubWord(RotWord(w)), Quad(RCON[i / nk], 0, 0, 0));
      temp := Xor32(temp, RCON[i / nk] as bv32 << 24);
    } else if nk > 6 && i % nk == 4 {
      SubWordPacked(w);
      temp := SubWord32(temp);
    }
  }

  /** The round keys that section 5.2 of FIPS 197 makes from a key: four words each. */
  function ScheduleKeys(key: seq<Byte>): (keys: RoundKeys)
    requires IsKeySize(|key|)
    ensures |keys| == RoundCount(|key|) + 1
  {
    seq(RoundCount(|key|) + 1, i requires 0 <= i <= RoundCount(|key|) => ScheduleKey(key, i))
  }

  function ScheduleKey(key: seq<Byte>, i: nat): RoundKey
    requires IsKeySize(|key|) && i <= RoundCount(|key|)
  {
    seq(16, k requires 0 <= k < 16 => Nth(ScheduleWord(key, 4 * i + k / 4), k % 4))
  }

  lemma NthOfQuadAt(bytes: seq<Byte>, index: nat, k: nat)
    requires 4 * index + 4 <= |bytes| && k < 4
    ensures Nth(QuadAt(bytes, index), k) == bytes[4 * index + k]
  {
  }

  lemma KeyFromWords(bytes: seq<Byte>, key: seq<Byte>, i: nat)
    requires IsKeySize(|key|) && |bytes| == SCHEDULE_SIZE && i <= RoundCount(|key|)
    requires forall j :: 0 <= j < WordCount(|key|) ==> WordIs(bytes, j, ScheduleWord(key, j))
    ensures bytes[16 * i..16 * i + 16] == ScheduleKey(key, i)
  {
    hide ScheduleWord, QuadAt, Nth, WordIs;
    var part := bytes[16 * i..16 * i + 16];
    forall k | 0 <= k < 16 ensures part[k] == ScheduleKey(key, i)[k] {
      var j := 4 * i + k / 4;
      assert WordIs(bytes, j, ScheduleWord(key, j));
      ByteOfWord(bytes, j, ScheduleWord(key, j), k % 4);
    }
  }

  lemma ByteOfWord(bytes: seq<Byte>, index: nat, w: Quad, k: nat)
    requires WordIs(bytes, index, w) && k < 4
    ensures 4 * index + k < |bytes| && bytes[4 * index + k] == Nth(w, k)
  {
    NthOfQuadAt(bytes, index, k);
  }

  /** The rounds read exactly the words of the schedule. */
  lemma KeysFromWords(bytes: seq<Byte>, key: seq<Byte>)
    requires IsKeySize(|key|) && |bytes| == SCHEDULE_SIZE
    requires forall j :: 0 <= j < WordCount(|key|) ==> WordIs(bytes, j, ScheduleWord(key, j))
    ensures KeysOf(bytes, RoundCount(|key|) + 1) == ScheduleKeys(key)
  {
    hide ScheduleWord, WordIs, ScheduleKey;
    forall i | 0 <= i <= RoundCount(|key|)
      ensures KeysOf(bytes, RoundCount(|key|) + 1)[i] == ScheduleKeys(key)[i]
    {
      KeyFromWords(bytes, key, i);
    }
  }

  /** The bytes hold the word at the given index. */
  ghost predicate WordIs(bytes: seq<Byte>, index: nat, w: Quad) {
    4 * index + 4 <= |bytes| && QuadAt(bytes, index) == w
  }
}
