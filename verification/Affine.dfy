/**
 The affine cipher of src/crypto/classic/Affine.cpp, on ASCII text, with the truncating
 remainders of C++.
 */
module AffineCipher {
  import opened NumberTheory
  import opened AsciiText
  import opened CoreUtils
  import opened Results

  function Base(c: char): int {
    if IsUpper(c) then 'A' as int else 'a' as int
  }

  /** The character at a distance of less than 26 from a base letter. */
  function Shifted(base: int, y: int): char
    requires 65 <= base <= 97 && -25 <= y <= 25
  {
    (base + y) as char
  }

  lemma RemRange(x: int)
    ensures -25 <= Rem(x, 26) <= 25
  {
    RemMeaning(x, 26);
  }

  function EncryptedChar(a: int, b: int, c: char): char {
    RemRange(a * (c as int - Base(c)) + b);
    if IsAlpha(c) then Shifted(Base(c), Rem(a * (c as int - Base(c)) + b, 26)) else c
  }

  function DecryptedChar(inverse: int, b: int, c: char): char {
    var d := inverse * Rem(c as int - Base(c) - b + 26, 26);
    RemRange(d);
    if IsAlpha(c) then Shifted(Base(c), Rem(d, 26)) else c
  }

  function Encrypted(a: int, b: int, s: string): (t: string)
    ensures |t| == |s|
  {
    seq(|s|, i requires 0 <= i < |s| => EncryptedChar(a, b, s[i]))
  }

  function Decrypted(inverse: int, b: int, s: string): (t: string)
    ensures |t| == |s|
  {
    seq(|s|, i requires 0 <= i < |s| => DecryptedChar(inverse, b, s[i]))
  }

  // ---------------------------------------------------------------- when decryption undoes encryption

  /** The shifts b for which decryption undoes encryption under a multiplier a. */
  predicate GoodShift(a: int, b: int) {
    0 <= b <= 26 || (b < 0 && -b % 26 == 0 && a >= -b)
  }

  /** Position x of a letter: the remainder taken when encrypting, and the one taken when decrypting. */
  function Forth(a: int, b: int, x: int): int {
    Rem(a * x + b, 26)
  }

  function Back(inverse: int, b: int, y: int): int {
    Rem(inverse * Rem(y - b + 26, 26), 26)
  }

  lemma TruncatedMod(x: int)
    ensures Rem(x, 26) % 26 == x % 26
    ensures x >= 0 ==> Rem(x, 26) == x % 26
    ensures x <= 0 ==> Rem(x, 26) <= 0
    ensures Rem(x, 26) >= 0 <==> x >= 0 || x % 26 == 0
  {
    RemMeaning(x, 26);
    hide Rem;
    if x < 0 && x % 26 == 0 { MultipleOf26(Rem(x, 26)); }
  }

  /** Whatever the signs, decrypting the code of x is congruent to x. */
  lemma BackIsCongruent(a: int, b: int, inverse: int, x: int)
    requires IsInverse(a, inverse, 26)
    ensures Back(inverse, b, Forth(a, b, x)) % 26 == x % 26
  {
    hide Rem;
    var y := Forth(a, b, x);
    var z := Rem(y - b + 26, 26);
    TruncatedMod(a * x + b);
    TruncatedMod(y - b + 26);
    TruncatedMod(inverse * z);
    UnshiftedCode(a * x, b, y);
    InverseCancels(a, inverse, x, z);
  }

  lemma UnshiftedCode(p: int, b: int, y: int)
    requires y % 26 == (p + b) % 26
    ensures (y - b + 26) % 26 == p % 26
  {
    CongAdd(y, p + b, -b, 26);
    ModShift(y - b, 1, 26);
  }

  lemma InverseCancels(a: int, inverse: int, x: int, z: int)
    requires a * inverse % 26 == 1 && z % 26 == a * x % 26
    ensures inverse * z % 26 == x % 26
  {
    CongMul(z, a * x, inverse, 26);
    CongMul(a * inverse, 1, x, 26);
    assert a * x * inverse == a * inverse * x by {
      assert a * x * inverse == a * (x * inverse) == a * (inverse * x);
    }
    assert z * inverse == inverse * z;
  }

  /** A letter comes back exactly when its code is not negative and decrypting it does not go below zero. */
  lemma LetterReturns(a: int, b: int, inverse: int, x: int)
    requires IsInverse(a, inverse, 26) && 0 <= x < 26
    ensures Back(inverse, b, Forth(a, b, x)) == x <==> x == 0 || Forth(a, b, x) - b + 26 >= 0
  {
    hide Rem;
    var y := Forth(a, b, x);
    var z := Rem(y - b + 26, 26);
    BackIsCongruent(a, b, inverse, x);
    TruncatedMod(y - b + 26);
    if y - b + 26 >= 0 {
      assert inverse * z >= 0;
      TruncatedMod(inverse * z);
      ModSmall(x, 26);
    } else {
      assert inverse * z <= 0 by { assert z <= 0 && inverse > 0; }
      TruncatedMod(inverse * z);
      RemRange(inverse * z);
      ModSmall(x, 26);
      if x == 0 { MultipleOf26(Rem(inverse * z, 26)); }
    }
  }

  lemma MultipleOf26(r: int)
    requires -25 <= r <= 0 && r % 26 == 0
    ensures r == 0
  {
  }

  /** A letter keeps its case and moves to a * x + b, counted from A: exactly so modulo 26, and to a letter of its case
   unless that number is negative and no multiple of 26.  Other characters stay. */
  lemma LetterMoves(a: int, b: int, c: char)
    ensures !('A' <= c <= 'Z') && !('a' <= c <= 'z') ==> EncryptedChar(a, b, c) == c
    ensures 'A' <= c <= 'Z' ==>
              var y := a * (c as int - 65) + b;
              (EncryptedChar(a, b, c) as int - 65) % 26 == y % 26 && ('A' <= EncryptedChar(a, b, c) <= 'Z' <==> y >= 0 || y % 26 == 0)
    ensures 'a' <= c <= 'z' ==>
              var y := a * (c as int - 97) + b;
              (EncryptedChar(a, b, c) as int - 97) % 26 == y % 26 && ('a' <= EncryptedChar(a, b, c) <= 'z' <==> y >= 0 || y % 26 == 0)
  {
    var y := a * (c as int - Base(c)) + b;
    RemRange(y);
    TruncatedMod(y);
    hide Rem;
  }

  /** A text character comes back exactly when it is no letter, or its code is a letter's and decrypts to it. */
  lemma CharReturns(a: int, b: int, inverse: int, c: char)
    requires IsInverse(a, inverse, 26)
    ensures DecryptedChar(inverse, b, EncryptedChar(a, b, c)) == c <==>
              !IsAlpha(c)
              || (var x := c as int - Base(c);
                  Forth(a, b, x) >= 0 && (x == 0 || Forth(a, b, x) - b + 26 >= 0))
  {
    if IsAlpha(c) {
      var x := c as int - Base(c);
      var y := Forth(a, b, x);
      RemRange(a * x + b);
      LetterReturns(a, b, inverse, x);
      hide Rem;
      var e := Shifted(Base(c), y);
      assert EncryptedChar(a, b, c) == e;
      if y >= 0 {
        assert IsAlpha(e) && Base(e) == Base(c);
      } else {
        assert IsAlpha(e) ==> Base(c) == 97 && Base(e) == 65;
        RemRange(inverse * Rem(e as int - Base(e) - b + 26, 26));
      }
    }
  }

  /** Decryption undoes encryption on every letter exactly for the good shifts. */
  lemma GoodShiftsAreExact(a: int, b: int)
    requires a >= 0 && Gcd(a, 26) == 1
    ensures GoodShift(a, b) <==>
            forall x :: 0 <= x < 26 ==> Forth(a, b, x) >= 0 && (x == 0 || Forth(a, b, x) - b + 26 >= 0)
  {
    hide Rem, Gcd;
    if GoodShift(a, b) {
      forall x | 0 <= x < 26 ensures Forth(a, b, x) >= 0 && (x == 0 || Forth(a, b, x) - b + 26 >= 0) {
        GoodShiftWorks(a, b, x);
      }
    } else {
      var x := BadShiftFails(a, b);
    }
  }

  lemma GoodShiftWorks(a: int, b: int, x: int)
    requires a >= 0 && GoodShift(a, b) && 0 <= x < 26
    ensures Forth(a, b, x) >= 0 && (x == 0 || Forth(a, b, x) - b + 26 >= 0)
  {
    hide Rem;
    TruncatedMod(a * x + b);
    if x == 0 {
      assert a * x + b == b;
    } else {
      ProductAtLeast(a, x);
    }
  }

  lemma ProductAtLeast(a: int, x: int)
    requires a >= 0 && x >= 1
    ensures a * x >= a
  {
    assert a * (x - 1) >= 0;
  }

  predicate Lost(a: int, b: int, x: int) {
    !(Forth(a, b, x) >= 0 && (x == 0 || Forth(a, b, x) - b + 26 >= 0))
  }

  /** A letter that is lost under a bad shift. */
  lemma BadShiftFails(a: int, b: int) returns (x: int)
    requires a >= 0 && Gcd(a, 26) == 1 && !GoodShift(a, b)
    ensures 0 <= x < 26 && Lost(a, b, x)
  {
    var inverse := CoprimeHasInverse(a, 26);
    hide Gcd, Rem, Forth, Lost;
    if b < 0 {
      x := if -b % 26 != 0 then 0 else 1;
      NegativeShiftFails(a, b, inverse);
    } else if b % 26 == 0 {
      x := 1;
      LargeMultipleFails(a, b);
    } else {
      x := -b * inverse % 26;
      LargeShiftFails(a, b, inverse, x);
    }
  }

  lemma NegativeShiftFails(a: int, b: int, inverse: int)
    requires a >= 0 && b < 0 && !GoodShift(a, b) && IsInverse(a, inverse, 26)
    ensures Lost(a, b, if -b % 26 != 0 then 0 else 1)
  {
    hide Rem;
    if -b % 26 != 0 {
      TruncatedMod(b);
      assert a * 0 + b == b;
    } else {
      TruncatedMod(a + b);
      UnitsAreNotZero(a, inverse);
      MultipleShift(a, b);
      hide IsInverse;
      assert a * 1 + b == a + b;
    }
  }

  lemma LargeMultipleFails(a: int, b: int)
    requires b > 26 && b % 26 == 0
    ensures Lost(a, b, 1)
  {
    RemRange(a + b);
    assert b >= 52;
  }

  lemma LargeShiftFails(a: int, b: int, inverse: int, x: int)
    requires a >= 0 && b > 26 && b % 26 != 0 && IsInverse(a, inverse, 26) && x == -b * inverse % 26
    ensures Lost(a, b, x)
  {
    hide Rem;
    ZeroOfTheCode(a, b, inverse, x);
    if x == 0 {
      assert a * 0 + b == b;
      TruncatedMod(b);
    }
  }

  lemma UnitsAreNotZero(a: int, inverse: int)
    requires IsInverse(a, inverse, 26)
    ensures a % 26 != 0
  {
    if a % 26 == 0 { CongMul(a, 0, inverse, 26); }
  }

  lemma MultipleShift(a: int, b: int)
    requires -b % 26 == 0
    ensures (a + b) % 26 == a % 26
  {
    ModShift(a, -(-b / 26), 26);
  }

  /** The letter that encrypts to position zero. */
  lemma ZeroOfTheCode(a: int, b: int, inverse: int, x: int)
    requires a >= 0 && b >= 0 && IsInverse(a, inverse, 26) && x == -b * inverse % 26
    ensures Forth(a, b, x) == 0
  {
    ModIdem(-b * inverse, 26);
    CongMul(x, -b * inverse, a, 26);
    CongMul(a * inverse, 1, -b, 26);
    assert -b * inverse * a == a * inverse * -b by {
      assert -b * inverse * a == -b * (inverse * a) == -b * (a * inverse);
    }
    assert x * a == a * x;
    CongAdd(a * x, -b, b, 26);
    assert (a * x + b) % 26 == 0 % 26;
    assert a * x >= 0;
  }

  /** For a multiplier coprime to 26, decryption undoes encryption on every text if and only if the shift
   is between 0 and 26, or is a negative multiple of 26 that the multiplier outweighs. */
  lemma RoundTripIff(a: int, b: int, inverse: int)
    requires a >= 0 && Gcd(a, 26) == 1 && IsInverse(a, inverse, 26)
    ensures (forall s: string :: Decrypted(inverse, b, Encrypted(a, b, s)) == s) <==> GoodShift(a, b)
  {
    hide EncryptedChar, DecryptedChar, Forth, Gcd, IsInverse, GoodShift;
    GoodShiftsAreExact(a, b);
    if GoodShift(a, b) {
      forall s: string ensures Decrypted(inverse, b, Encrypted(a, b, s)) == s {
        forall i | 0 <= i < |s| ensures DecryptedChar(inverse, b, EncryptedChar(a, b, s[i])) == s[i] {
          CharReturns(a, b, inverse, s[i]);
        }
      }
    } else {
      var x :| 0 <= x < 26 && !(Forth(a, b, x) >= 0 && (x == 0 || Forth(a, b, x) - b + 26 >= 0));
      var c := ('A' as int + x) as char;
      CharReturns(a, b, inverse, c);
      assert Decrypted(inverse, b, Encrypted(a, b, [c]))[0] != [c][0];
    }
  }

  // ---------------------------------------------------------------- the cipher

  datatype AffineError = NotCoprime | NoInverse

  datatype Affine = Affine(a: int, b: int) {
    static method Create(a: int, b: int) returns (r: Result<Affine, AffineError>)
      ensures r == if TruncatedGcd(a, 26) == 1 then Success(Affine(a, b)) else Failure(NotCoprime)
    {
      var g := EuclidGcd(a, 26);
      if g != 1 { return Failure(NotCoprime); }
      return Success(Affine(a, b));
    }

    method Encrypt(plaintext: string) returns (ciphertext: string)
      ensures ciphertext == Encrypted(a, b, plaintext)
    {
      ciphertext := "";
      for i := 0 to |plaintext|
        invariant |ciphertext| == i
        invariant forall k :: 0 <= k < i ==> ciphertext[k] == EncryptedChar(a, b, plaintext[k])
      {
        var ch := plaintext[i];
        if IsAlpha(ch) {
          var base := if IsUpper(ch) then 'A' as int else 'a' as int;
          RemRange(a * (ch as int - base) + b);
          ciphertext := ciphertext + [Shifted(base, Rem(a * (ch as int - base) + b, 26))];
        } else {
          ciphertext := ciphertext + [ch];
        }
      }
    }

    method Decrypt(ciphertext: string) returns (r: Result<string, AffineError>)
      ensures r.Success? <==> CanDecrypt(a)
      ensures r.Success? ==> exists inverse :: IsInverse(a, inverse, 26) && r.value == Decrypted(inverse, b, ciphertext)
    {
      var inverse := ModInverse(a, 26);
      if inverse == -1 { return Failure(NoInverse); }
      var plaintext := "";
      for i := 0 to |ciphertext|
        invariant |plaintext| == i
        invariant forall k :: 0 <= k < i ==> plaintext[k] == DecryptedChar(inverse, b, ciphertext[k])
      {
        var ch := ciphertext[i];
        if IsAlpha(ch) {
          var base := if IsUpper(ch) then 'A' as int else 'a' as int;
          var d := inverse * Rem(ch as int - base - b + 26, 26);
          RemRange(d);
          plaintext := plaintext + [Shifted(base, Rem(d, 26))];
        } else {
          plaintext := plaintext + [ch];
        }
      }
      assert plaintext == Decrypted(inverse, b, ciphertext);
      return Success(plaintext);
    }
  }

  /** The multipliers for which decryption succeeds. */
  predicate CanDecrypt(a: int) {
    a >= 0 && Gcd(a, 26) == 1
  }

  /** Of the multipliers that pass the constructor, exactly those that are not negative can decrypt. */
  lemma AcceptedDecryptsIff(a: int)
    requires TruncatedGcd(a, 26) == 1
    ensures CanDecrypt(a) <==> a >= 0
  {
    TruncatedGcdIsGcd(a, 26);
  }

  /** A negative multiplier that passes the constructor. */
  lemma NegativeMultiplierAccepted()
    ensures TruncatedGcd(-5, 26) == 1 && !CanDecrypt(-5)
  {
    assert Rem(-5, 26) == -5 && Rem(26, -5) == 1 && Rem(-5, 1) == 0;
    assert TruncatedGcd(-5, 26) == TruncatedGcd(26, -5) == TruncatedGcd(-5, 1) == TruncatedGcd(1, 0);
  }
}
