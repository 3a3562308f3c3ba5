/**
 The AES branch of MainWindow::process in app/crypto/Window.cpp: padding, the block loop and
 hexadecimal text, and back.
 */
module AesPanel {
  import opened CoreUtils
  import opened AesRounds
  import opened Aes
  import opened AesCipher
  import opened Results

  datatype PanelError = CipherError(aes: AesError) | KeyHexLengthMismatch

  /** Block-by-block encryption (electronic codebook). */
  function EncryptedBlocks(data: seq<Byte>, keys: RoundKeys): seq<Byte>
    requires |data| % 16 == 0 && |keys| >= 2
  {
    if data == [] then [] else EncryptedBlock(data[..16], keys) + EncryptedBlocks(data[16..], keys)
  }

  function DecryptedBlocks(data: seq<Byte>, keys: RoundKeys): seq<Byte>
    requires |data| % 16 == 0 && |keys| >= 2
  {
    if data == [] then [] else DecryptedBlock(data[..16], keys) + DecryptedBlocks(data[16..], keys)
  }

  lemma {:induction false} BlocksRoundTrip(data: seq<Byte>, keys: RoundKeys)
    requires |data| % 16 == 0 && |keys| >= 2
    ensures |EncryptedBlocks(data, keys)| == |data|
    ensures DecryptedBlocks(EncryptedBlocks(data, keys), keys) == data
  {
    hide EncryptedBlock, DecryptedBlock;
    if data != [] {
      BlocksRoundTrip(data[16..], keys);
      BlockCipherInverse(data[..16], keys);
      var c := EncryptedBlocks(data, keys);
      assert c[..16] == EncryptedBlock(data[..16], keys) && c[16..] == EncryptedBlocks(data[16..], keys);
    }
  }

  /** Blocks are encrypted one by one: the data before and after a block does not matter to it. */
  lemma {:induction false} BlocksAreIndependent(a: seq<Byte>, b: seq<Byte>, keys: RoundKeys)
    requires |a| % 16 == 0 && |b| % 16 == 0 && |keys| >= 2
    ensures EncryptedBlocks(a + b, keys) == EncryptedBlocks(a, keys) + EncryptedBlocks(b, keys)
  {
    hide EncryptedBlock;
    if a == [] {
      assert a + b == b;
    } else {
      BlocksAreIndependent(a[16..], b, keys);
      assert (a + b)[..16] == a[..16] && (a + b)[16..] == a[16..] + b;
    }
  }

  /** One block alone goes through the block cipher. */
  lemma OneBlock(block: seq<Byte>, keys: RoundKeys)
    requires |block| == 16 && |keys| >= 2
    ensures EncryptedBlocks(block, keys) == EncryptedBlock(block, keys)
  {
    hide EncryptedBlock;
    assert block[..16] == block && block[16..] == [];
    assert EncryptedBlocks([], keys) == [];
  }

  lemma PaddedToBlocks(data: seq<Byte>)
    ensures |Padded(data, 16)| % 16 == 0
  {
  }

  /** The hexadecimal ciphertext of a byte string. */
  function CipherText(key: seq<Byte>, input: seq<Byte>): string
    requires IsKeySize(|key|)
  {
    PaddedToBlocks(input);
    HexOf(EncryptedBlocks(Padded(input, 16), ScheduleKeys(key)))
  }

  /** The byte string for a hexadecimal ciphertext; bad padding is left in place. */
  function PlainText(key: seq<Byte>, hex: string): seq<Byte>
    requires IsKeySize(|key|) && |BytesOf(hex)| % 16 == 0
  {
    Unpadded(DecryptedBlocks(BytesOf(hex), ScheduleKeys(key))).1
  }

  lemma SixteenIsEnough(input: seq<Byte>)
    ensures Unpadded(Padded(input, 16)) == (true, input)
  {
    UnpadPadded(input, 16);
  }

  /** For every key and every byte string, decrypting the encrypted text gives back the byte string. */
  lemma TextRoundTrip(key: seq<Byte>, input: seq<Byte>)
    requires IsKeySize(|key|)
    ensures |BytesOf(CipherText(key, input))| % 16 == 0
    ensures PlainText(key, CipherText(key, input)) == input
  {
    hide ScheduleKeys, EncryptedBlocks, DecryptedBlocks, Padded, Unpadded, BytesOf, HexOf;
    PaddedToBlocks(input);
    SixteenIsEnough(input);
    BlocksRoundTrip(Padded(input, 16), ScheduleKeys(key));
    HexRoundTrip(EncryptedBlocks(Padded(input, 16), ScheduleKeys(key)));
  }

  /** What a refused key is refused for: its size comes before the length of its text. */
  function KeyError(keySize: nat): PanelError {
    if IsKeySize(keySize) then KeyHexLengthMismatch else CipherError(InvalidKeySize)
  }

  /** The object that the branch sets up from the key size and the key text. */
  method Configure(keySize: nat, keyHex: string) returns (r: Result<AES, PanelError>)
    ensures r.Success? <==> IsKeySize(keySize) && |BytesOf(keyHex)| == keySize
    ensures r.Failure? ==> r.error == KeyError(keySize)
    ensures r.Success? ==> r.value.Valid() && r.value.Keys() == ScheduleKeys(BytesOf(keyHex))
  {
    var created := AES.Create(keySize);
    if created.Failure? { return Failure(CipherError(created.error)); }
    var aes := created.value;
    var keyBytes := FromHex(keyHex);
    if |keyBytes| != keySize { return Failure(KeyHexLengthMismatch); }
    var error := aes.SetKey(keyBytes);
    return Success(aes);
  }

  lemma EncryptStart(data: seq<Byte>, keys: RoundKeys)
    requires |data| % 16 == 0 && |keys| >= 2
    ensures [] + EncryptedBlocks(data[0..], keys) == EncryptedBlocks(data, keys)
  {
    assert data[0..] == data;
  }

  lemma EncryptEnd(data: seq<Byte>, keys: RoundKeys)
    requires |keys| >= 2
    ensures EncryptedBlocks(data[|data|..], keys) == []
  {
  }

  lemma DecryptStart(data: seq<Byte>, keys: RoundKeys)
    requires |data| % 16 == 0 && |keys| >= 2
    ensures [] + DecryptedBlocks(data[0..], keys) == DecryptedBlocks(data, keys)
  {
    assert data[0..] == data;
  }

  lemma DecryptEnd(data: seq<Byte>, keys: RoundKeys)
    requires |keys| >= 2
    ensures DecryptedBlocks(data[|data|..], keys) == []
  {
  }

  method EncryptLoop(aes: AES, data: seq<Byte>) returns (encrypted: seq<Byte>)
    requires aes.Valid() && |data| % 16 == 0
    ensures encrypted == EncryptedBlocks(data, aes.Keys())
  {
    hide EncryptedBlock, EncryptedBlocks, KeysOf;
    ghost var keys := aes.Keys();
    encrypted := [];
    EncryptStart(data, keys);
    var i := 0;
    while i < |data|
      invariant 0 <= i <= |data| && i % 16 == 0
      invariant encrypted + EncryptedBlocks(data[i..], keys) == EncryptedBlocks(data, keys)
    {
      var outBlock := aes.EncryptBlock(data[i..i + 16]);
      EncryptStep(data, i, keys);
      encrypted := encrypted + outBlock.value;
      i := i + 16;
    }
    EncryptEnd(data, keys);
  }

  lemma EncryptStep(data: seq<Byte>, i: nat, keys: RoundKeys)
    requires |data| % 16 == 0 && i % 16 == 0 && i < |data| && |keys| >= 2
    ensures i + 16 <= |data|
    ensures EncryptedBlocks(data[i..], keys) == EncryptedBlock(data[i..i + 16], keys) + EncryptedBlocks(data[i + 16..], keys)
  {
    hide EncryptedBlock;
    assert data[i..][..16] == data[i..i + 16] && data[i..][16..] == data[i + 16..];
  }

  method DecryptLoop(aes: AES, data: seq<Byte>) returns (decrypted: seq<Byte>)
    requires aes.Valid() && |data| % 16 == 0
    ensures decrypted == DecryptedBlocks(data, aes.Keys()) && |decrypted| == |data|
  {
    hide DecryptedBlock, DecryptedBlocks, KeysOf;
    ghost var keys := aes.Keys();
    decrypted := [];
    DecryptStart(data, keys);
    var i := 0;
    while i < |data|
      invariant 0 <= i <= |data| && i % 16 == 0 && |decrypted| == i
      invariant decrypted + DecryptedBlocks(data[i..], keys) == DecryptedBlocks(data, keys)
    {
      var outBlock := aes.DecryptBlock(data[i..i + 16]);
      DecryptStep(data, i, keys);
      decrypted := decrypted + outBlock.value;
      i := i + 16;
    }
    DecryptEnd(data, keys);
  }

  lemma DecryptStep(data: seq<Byte>, i: nat, keys: RoundKeys)
    requires |data| % 16 == 0 && i % 16 == 0 && i < |data| && |keys| >= 2
    ensures i + 16 <= |data|
    ensures DecryptedBlocks(data[i..], keys) == DecryptedBlock(data[i..i + 16], keys) + DecryptedBlocks(data[i + 16..], keys)
  {
    hide DecryptedBlock;
    assert data[i..][..16] == data[i..i + 16] && data[i..][16..] == data[i + 16..];
  }

  method EncryptText(keySize: nat, keyHex: string, input: seq<Byte>) returns (r: Result<string, PanelError>)
    ensures r.Success? <==> IsKeySize(keySize) && |BytesOf(keyHex)| == keySize
    ensures r.Failure? ==> r.error == KeyError(keySize)
    ensures r.Success? ==> r.value == CipherText(BytesOf(keyHex), input)
  {
    hide EncryptedBlocks, ScheduleKeys, KeysOf;
    var configured := Configure(keySize, keyHex);
    if configured.Failure? { return Failure(configured.error); }
    var data := Pad(input, 16);
    PaddedToBlocks(input);
    var encrypted := EncryptLoop(configured.value, data);
    var hex := ToHex(encrypted);
    return Success(hex);
  }

  /** The text must hold whole blocks: the original copies 16 bytes at a time without looking. */
  method DecryptText(keySize: nat, keyHex: string, input: string) returns (r: Result<seq<Byte>, PanelError>)
    requires |BytesOf(input)| % 16 == 0
    ensures r.Success? <==> IsKeySize(keySize) && |BytesOf(keyHex)| == keySize
    ensures r.Failure? ==> r.error == KeyError(keySize)
    ensures r.Success? ==> r.value == PlainText(BytesOf(keyHex), input)
  {
    hide DecryptedBlocks, ScheduleKeys, KeysOf;
    var configured := Configure(keySize, keyHex);
    if configured.Failure? { return Failure(configured.error); }
    var data := FromHex(input);
    var decrypted := DecryptLoop(configured.value, data);
    var ok, plain := Unpad(decrypted);
    return Success(plain);
  }
}
