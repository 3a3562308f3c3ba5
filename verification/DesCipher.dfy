/**
 The class DES of src/crypto/modern/symmetric/block/DES.cpp.
 */
module DesCipher {
  import opened Primes
  import opened CoreUtils
  import opened Words
  import opened DesTables
  import opened Des
  import opened Results

  datatype DesError = KeySizeMismatch | BlockSizeMismatch

  /** The cipher on bytes, under a list of subkeys. */
  function EncryptedBlock(block: seq<Byte>, subkeys: seq<U64>): seq<Byte>
    requires |block| == 8
  {
    LowBytes(Enciphered(Feistel, Value(block), subkeys), 8)
  }

  function DecryptedBlock(block: seq<Byte>, subkeys: seq<U64>): seq<Byte>
    requires |block| == 8
  {
    LowBytes(Deciphered(Feistel, Value(block), subkeys), 8)
  }

  function Value(block: seq<Byte>): U64
    requires |block| == 8
  {
    EightBytesFit(block);
    BigEndian(block)
  }

  lemma ValueOfBytes(v: U64)
    ensures Value(LowBytes(v, 8)) == v
  {
    assert Pow(256, 8) == WORD;
    BigEndianLowBytes(v, 8);
  }

  lemma BytesOfValue(block: seq<Byte>)
    requires |block| == 8
    ensures LowBytes(Value(block), 8) == block
  {
    LowBytesBigEndian(block);
  }

  /** For every list of subkeys and every block, each direction undoes the other. */
  lemma BlockCipherInverse(block: seq<Byte>, subkeys: seq<U64>)
    requires |block| == 8
    ensures DecryptedBlock(EncryptedBlock(block, subkeys), subkeys) == block
    ensures EncryptedBlock(DecryptedBlock(block, subkeys), subkeys) == block
  {
    hide Value, LowBytes, Enciphered, Deciphered;
    ValueOfBytes(Enciphered(Feistel, Value(block), subkeys));
    ValueOfBytes(Deciphered(Feistel, Value(block), subkeys));
    DecipherUndoesEncipher(Feistel, Value(block), subkeys);
    EncipherUndoesDecipher(Feistel, Value(block), subkeys);
    BytesOfValue(block);
  }

  // ---------------------------------------------------------------- the object

  /** Eight bytes as a word. */
  method LoadBlock(bytes: seq<Byte>) returns (block: U64)
    requires |bytes| == 8
    ensures block == Value(bytes)
  {
    block := 0;
    for i := 0 to 8
      invariant block == BigEndian(bytes[..i])
    {
      assert bytes[..i + 1][..i] == bytes[..i];
      EightBytesFit(bytes[..i + 1]);
      block := Wrap(block * 256) + bytes[i] as int;
    }
    assert bytes[..8] == bytes;
  }

  method Substitute(x: U64) returns (output: U32)
    ensures output == SBoxed(x, 8)
  {
    hide SBox, Xor, Permuted;
    output := 0;
    for i := 0 to 8
      invariant output == SBoxed(x, i)
    {
      var chunk := ShiftRight(x, 42 - i * 6) % 64;
      var row := chunk / 32 * 2 + chunk % 2;
      var col := chunk % 32 / 2;
      SBoxedFits(x, i + 1);
      assert 42 - i * 6 == 48 - 6 * (i + 1);
      output := output * 16 + SBox(i)[row * 16 + col];
    }
  }

  method RunFeistel(r: U32, subkey: U64) returns (mixed: U32)
    ensures mixed == Feistel(r, subkey)
  {
    hide SBoxed, Permuted, Xor, E, P;
    ExpandsTo48Bits();
    var expanded := Permute(r * HALF, E);
    WordIsPow();
    XorBound(expanded, subkey, 64);
    var x: U64 := Xor(expanded, subkey);
    var output := Substitute(x);
    var permuted := Permute(output * HALF, P);
    PermutedBound(output * HALF, P);
    HalfIsPow();
    mixed := permuted;
  }

  lemma ExpandsTo48Bits()
    ensures |E| == 48 && |P| == 32
  {
  }

  lemma KeyTableSizes(round: nat)
    requires round < 16
    ensures |PC1| == 56 && |PC2| == 48 && |SHIFTS| == 16 && SHIFTS[round] <= 28
  {
  }

  class DES {
    const subkeys: array<U64>

    ghost predicate Valid() {
      subkeys.Length == 16
    }

    constructor ()
      ensures Valid() && fresh(subkeys) && forall i :: 0 <= i < 16 ==> subkeys[i] == 0
    {
      subkeys := new U64[16](_ => 0);
    }

    method SetKey(key: seq<Byte>) returns (error: Option<DesError>)
      requires Valid()
      modifies subkeys
      ensures error == if |key| != 8 then Some(KeySizeMismatch) else None
      ensures error == None ==> subkeys[..] == Subkeys(Value(key))
      ensures error != None ==> subkeys[..] == old(subkeys[..])
    {
      if |key| != 8 { return Some(KeySizeMismatch); }
      var key64 := LoadBlock(key);
      KeyExpansion(key64);
      return None;
    }

    method KeyExpansion(key: U64)
      requires Valid()
      modifies subkeys
      ensures subkeys[..] == Subkeys(key)
    {
      hide Permuted, Rotated, PC1, PC2, SHIFTS;
      KeyTableSizes(0);
      var permuted := Permute(key, PC1);
      var C, D := permuted / QUARTER % QUARTER, permuted % QUARTER;
      for round := 0 to 16
        invariant (C, D) == KeyHalves(key, round)
        invariant forall i :: 0 <= i < round ==> subkeys[i] == Subkey(key, i + 1)
      {
        KeyTableSizes(round);
        C, D := Rotated(C, SHIFTS[round]), Rotated(D, SHIFTS[round]);
        var subkey := Permute(C * QUARTER + D, PC2);
        subkeys[round] := subkey;
      }
    }

    method Encipher(block: U64) returns (result: U64)
      requires Valid()
      ensures result == Enciphered(Feistel, block, subkeys[..])
    {
      hide Feistel, Xor32, Permuted, IP, FP;
      TablesInverse(0);
      var permuted := Permute(block, IP);
      var L: U32, R: U32 := permuted / HALF, permuted % HALF;
      ghost var keys := subkeys[..];
      for round := 0 to 16
        invariant Halves(L, R) == Rounds(Feistel, Split(permuted), keys[..round])
      {
        assert keys[..round + 1][..round] == keys[..round];
        var mixed := RunFeistel(R, subkeys[round]);
        L, R := R, Xor32(L, mixed);
      }
      assert keys[..16] == keys;
      result := Permute(R * HALF + L, FP);
    }

    method Decipher(block: U64) returns (result: U64)
      requires Valid()
      ensures result == Deciphered(Feistel, block, subkeys[..])
    {
      hide Feistel, Xor32, Permuted, IP, FP;
      TablesInverse(0);
      var permuted := Permute(block, IP);
      var L: U32, R: U32 := permuted / HALF, permuted % HALF;
      ghost var keys := subkeys[..];
      for round := 16 downto 0
        invariant Halves(L, R) == RoundsBack(Feistel, Split(permuted), keys[round..])
      {
        var mixed := RunFeistel(R, subkeys[round]);
        L, R := R, Xor32(L, mixed);
        assert keys[round..][1..] == keys[round + 1..];
      }
      assert keys[0..] == keys;
      result := Permute(R * HALF + L, FP);
    }

    method EncryptBlock(plaintext: seq<Byte>) returns (r: Result<seq<Byte>, DesError>)
      requires Valid()
      ensures r == if |plaintext| != 8 then Failure(BlockSizeMismatch)
                   else Success(EncryptedBlock(plaintext, subkeys[..]))
    {
      if |plaintext| != 8 { return Failure(BlockSizeMismatch); }
      var block := LoadBlock(plaintext);
      var result := Encipher(block);
      var bytes := EncodeUint64(result);
      return Success(bytes);
    }

    method DecryptBlock(ciphertext: seq<Byte>) returns (r: Result<seq<Byte>, DesError>)
      requires Valid()
      ensures r == if |ciphertext| != 8 then Failure(BlockSizeMismatch)
                   else Success(DecryptedBlock(ciphertext, subkeys[..]))
    {
      if |ciphertext| != 8 { return Failure(BlockSizeMismatch); }
      var block := LoadBlock(ciphertext);
      var result := Decipher(block);
      var bytes := EncodeUint64(result);
      return Success(bytes);
    }
  }
}
