/**
 The Hill cipher on the key string and the text: which letter of the key multiplies which letter of the text.
 */
module HillText {
  import opened AsciiText
  import opened NumberTheory
  import opened FiniteSums
  import opened Determinants
  import opened HillCipher

  /** The number of a letter, A being 0. */
  function Code(c: char): int {
    c as int - 'A' as int
  }

  /** Row r of the key, read off the key string row by row, times the n letters of the text from `start` on. */
  function KeyTimesBlock(key: string, n: nat, q: string, start: nat, r: nat): int
    requires n * n <= |key| && start + n <= |q| && r < n
  {
    Sum(n, j => if 0 <= j < n then Code(ToUpper(KeyLetter(key, n, r, j))) * Code(BlockLetter(q, n, start, j)) else 0)
  }

  function KeyLetter(key: string, n: nat, r: int, j: int): char
    requires n * n <= |key| && 0 <= r < n && 0 <= j < n
  {
    InSquare(n, r, j);
    key[r * n + j]
  }

  function BlockLetter(q: string, n: nat, start: nat, j: int): char
    requires start + n <= |q| && 0 <= j < n
  {
    q[start + j]
  }

  lemma InSquare(n: nat, r: int, j: int)
    requires 0 <= r < n && 0 <= j < n
    ensures 0 <= r * n + j < n * n
  {
    assert r * n <= (n - 1) * n;
  }

  /** Letter r of the first block, on a text that fills it. */
  lemma FirstBlock(key: string, n: nat, q: string, r: nat)
    requires n > 0 && n * n <= |key| && n <= |q| && r < n
    ensures IsUpper(Block(KeyMatrix(key, n), q)[r])
    ensures Code(Block(KeyMatrix(key, n), q)[r]) % 26 == KeyTimesBlock(key, n, q, 0, r) % 26
  {
    var a := KeyMatrix(key, n);
    var f := j => if 0 <= j < n then Code(ToUpper(KeyLetter(key, n, r, j))) * Code(BlockLetter(q, n, 0, j)) else 0;
    var g := c => At(a, r, c) * Digit(q, c);
    forall j | 0 <= j < n ensures g(j) == f(j) {
      EntryOfKey(key, n, r, j);
    }
    SumCong(n, g, f);
    LetterCode(Dot(a, q, r, n));
  }

  lemma EntryOfKey(key: string, n: nat, r: nat, j: int)
    requires n * n <= |key| && r < n && 0 <= j < n
    ensures At(KeyMatrix(key, n), r, j) == Code(ToUpper(KeyLetter(key, n, r, j)))
  {
    InSquare(n, r, j);
    EntryAt(key, n, r, j);
    hide KeyMatrix, At;
  }

  lemma EntryAt(key: string, n: nat, r: int, j: int)
    requires 0 <= r < n && 0 <= j < n
    ensures At(KeyMatrix(key, n), r, j) == KeyEntry(key, r * n + j)
  {
    hide KeyEntry, At;
  }

  lemma LetterCode(x: int)
    ensures IsUpper(Letter(x)) && Code(Letter(x)) % 26 == x % 26
  {
    ModIdem(x, 26);
  }

  /** Filling up with A changes no block before the last, and in the last adds zeros. */
  lemma FilledBlock(a: Matrix, p: string)
    requires |a| > 0 && p != ""
    ensures Block(a, p) == Block(a, PaddedWithA(p, |a|))
  {
    hide Build;
    var q := PaddedWithA(p, |a|);
    forall r | 0 <= r < |a| ensures Dot(a, p, r, |a|) == Dot(a, q, r, |a|) {
      forall c | 0 <= c < |a| ensures Digit(p, c) == Digit(q, c) {
        FilledDigit(p, |a|, c);
      }
      SumCong(|a|, c => At(a, r, c) * Digit(p, c), c => At(a, r, c) * Digit(q, c));
    }
  }

  lemma FilledDigit(p: string, n: nat, c: int)
    requires n > 0
    ensures Digit(p, c) == Digit(PaddedWithA(p, n), c)
  {
  }

  lemma TransformedLength(a: Matrix, p: string)
    requires |a| > 0
    ensures |Transformed(a, p)| == |PaddedWithA(p, |a|)|
    decreases |p|
  {
    hide Build, Dot, PaddedWithA;
    PaddedFirstBlock(p, |a|);
    if |p| > |a| {
      TransformedLength(a, p[|a|..]);
    } else if p == "" {
      PaddedEmpty(|a|);
    }
  }

  lemma FirstLetters(a: Matrix, p: string, r: int)
    requires |a| > 0 && p != "" && 0 <= r < |a|
    ensures r < |Transformed(a, p)| && Transformed(a, p)[r] == Block(a, p)[r]
  {
    hide Dot;
  }

  lemma LaterLetters(a: Matrix, p: string, i: int)
    requires 0 < |a| < |p| && |a| <= i < |Transformed(a, p)|
    ensures i - |a| < |Transformed(a, p[|a|..])| && Transformed(a, p)[i] == Transformed(a, p[|a|..])[i - |a|]
  {
    hide Dot;
  }

  /** A block after the first is a block of the rest. */
  lemma LaterBlock(p: string, n: nat, start: nat)
    requires 0 < n <= start && start + n <= |PaddedWithA(p, n)|
    ensures |p| > n && PaddedWithA(p, n)[n..] == PaddedWithA(p[n..], n)
  {
    PaddedFirstBlock(p, n);
    PaddedEmpty(n);
    hide PaddedWithA;
    if p == "" { assert false; }
    if |p| <= n { assert false; }
  }

  lemma SameBlock(key: string, n: nat, q: string, start: nat, r: nat)
    requires n * n <= |key| && n <= start && r < n && start + n <= |q|
    ensures KeyTimesBlock(key, n, q, start, r) == KeyTimesBlock(key, n, q[n..], start - n, r)
  {
    forall j | 0 <= j < n ensures BlockLetter(q, n, start, j) == BlockLetter(q[n..], n, start - n, j) {
    }
    hide Code, KeyLetter, BlockLetter;
    SumCong(n, j => if 0 <= j < n then Code(ToUpper(KeyLetter(key, n, r, j))) * Code(BlockLetter(q, n, start, j)) else 0,
               j => if 0 <= j < n then Code(ToUpper(KeyLetter(key, n, r, j))) * Code(BlockLetter(q[n..], n, start - n, j)) else 0);
  }

  lemma NotEmpty(p: string, n: nat)
    requires 0 < n <= |PaddedWithA(p, n)|
    ensures p != ""
  {
    PaddedEmpty(n);
  }

  lemma EncryptedInFirst(key: string, n: nat, p: string, r: nat)
    requires n > 0 && n * n <= |key| && r < n && n <= |PaddedWithA(p, n)|
    ensures r < |Transformed(KeyMatrix(key, n), p)| && IsUpper(Transformed(KeyMatrix(key, n), p)[r])
    ensures Code(Transformed(KeyMatrix(key, n), p)[r]) % 26 == KeyTimesBlock(key, n, PaddedWithA(p, n), 0, r) % 26
  {
    var a, q := KeyMatrix(key, n), PaddedWithA(p, n);
    hide KeyMatrix, Block, Code, KeyTimesBlock, PaddedWithA, Transformed;
    NotEmpty(p, n);
    FilledBlock(a, p);
    FirstLetters(a, p, r);
    FirstBlock(key, n, q, r);
  }

  /** Letter r of the block that begins at `start`. */
  ghost predicate LetterOk(key: string, n: nat, p: string, start: nat, r: nat)
    requires n > 0 && n * n <= |key| && r < n && start + n <= |PaddedWithA(p, n)|
  {
    && start + r < |Transformed(KeyMatrix(key, n), p)|
    && IsUpper(Transformed(KeyMatrix(key, n), p)[start + r])
    && Code(Transformed(KeyMatrix(key, n), p)[start + r]) % 26 == KeyTimesBlock(key, n, PaddedWithA(p, n), start, r) % 26
  }

  lemma LaterLetterOk(key: string, n: nat, p: string, start: nat, r: nat)
    requires 0 < n <= start && n * n <= |key| && r < n && start + n <= |PaddedWithA(p, n)|
    requires |p| > n && start <= |PaddedWithA(p[n..], n)| && LetterOk(key, n, p[n..], start - n, r)
    ensures LetterOk(key, n, p, start, r)
  {
    hide Transformed, KeyMatrix, KeyTimesBlock, PaddedWithA, Code;
    TransformedLength(KeyMatrix(key, n), p);
    LaterBlock(p, n, start);
    SameBlock(key, n, PaddedWithA(p, n), start, r);
    LaterLetters(KeyMatrix(key, n), p, start + r);
  }

  /** Where the blocks begin. */
  predicate StartsBlock(start: int, n: nat)
    requires n > 0
    decreases start
  {
    start == 0 || (start >= n && StartsBlock(start - n, n))
  }

  lemma {:induction false} MultiplesStart(k: nat, n: nat)
    requires n > 0
    ensures StartsBlock(k * n, n)
  {
    if k > 0 {
      MultiplesStart(k - 1, n);
      assert k * n - n == (k - 1) * n >= 0;
    }
  }

  lemma {:induction false} EncryptedInBlock(key: string, n: nat, p: string, start: nat, r: nat)
    requires n > 0 && n * n <= |key| && r < n && StartsBlock(start, n) && start + n <= |PaddedWithA(p, n)|
    ensures LetterOk(key, n, p, start, r)
    decreases start
  {
    if start == 0 {
      EncryptedInFirst(key, n, p, r);
    } else {
      hide Transformed, KeyMatrix, KeyTimesBlock, PaddedWithA, Code, LetterOk;
      LaterBlock(p, n, start);
      EncryptedInBlock(key, n, p[n..], start - n, r);
      LaterLetterOk(key, n, p, start, r);
    }
  }

  /** The cipher on strings.  For every key string that is long enough and every text p, filled up with A to q, letter
   k * n + r of the ciphertext is congruent to the sum over j < n of key letter r * n + j times letter k * n + j of q. */
  lemma EncryptedLetter(key: string, n: nat, p: string, k: nat, r: nat)
    requires n > 0 && n * n <= |key| && r < n && k * n + n <= |PaddedWithA(p, n)|
    ensures |Transformed(KeyMatrix(key, n), p)| == |PaddedWithA(p, n)| && k * n + r < |PaddedWithA(p, n)|
    ensures IsUpper(Transformed(KeyMatrix(key, n), p)[k * n + r])
    ensures Code(Transformed(KeyMatrix(key, n), p)[k * n + r]) % 26 == KeyTimesBlock(key, n, PaddedWithA(p, n), k * n, r) % 26
  {
    hide KeyMatrix, Transformed, KeyTimesBlock, PaddedWithA, Code;
    TransformedLength(KeyMatrix(key, n), p);
    MultiplesStart(k, n);
    EncryptedInBlock(key, n, p, k * n, r);
  }

  // ---------------------------------------------------------------- reading the key off

  /** A block with B at place c and A elsewhere. */
  predicate UnitBlock(t: string, n: nat, c: nat) {
    |t| == n && c < n && forall j :: 0 <= j < n ==> t[j] == if j == c then 'B' else 'A'
  }

  /** Of the sum for the first block only the term at place c is left. */
  lemma UnitSum(key: string, n: nat, t: string, c: nat, r: nat)
    requires n > 0 && n * n <= |key| && UnitBlock(t, n, c) && r < n
    ensures KeyTimesBlock(key, n, t, 0, r) == Code(ToUpper(KeyLetter(key, n, r, c)))
  {
    var f := j => if 0 <= j < n then Code(ToUpper(KeyLetter(key, n, r, j))) * Code(BlockLetter(t, n, 0, j)) else 0;
    SumPick(n, c, f);
    SumCong(n, f, j => if 0 <= j < n then Code(ToUpper(KeyLetter(key, n, r, j))) * Code(BlockLetter(t, n, 0, j)) else 0);
  }

  /** Encrypting it spells the letters c, n + c, 2 * n + c, ... of the key: column c of the matrix. */
  lemma UnitBlockSpellsKey(key: string, n: nat, t: string, c: nat, r: nat)
    requires n > 0 && n * n <= |key| && UnitBlock(t, n, c) && r < n && IsAlpha(KeyLetter(key, n, r, c))
    ensures r < |Transformed(KeyMatrix(key, n), t)|
    ensures Transformed(KeyMatrix(key, n), t)[r] == ToUpper(KeyLetter(key, n, r, c))
  {
    ModUnique(n, n, 1, 0);
    assert PaddedWithA(t, n) == t;
    hide PaddedWithA, Transformed, KeyTimesBlock, Dot;
    EncryptedInFirst(key, n, t, r);
    UnitSum(key, n, t, c, r);
    FirstLetters(KeyMatrix(key, n), t, r);
    hide KeyMatrix, KeyLetter, UnitBlock;
    SameLetter(Dot(KeyMatrix(key, n), t, r, n), ToUpper(KeyLetter(key, n, r, c)));
  }

  lemma SameLetter(x: int, c: char)
    requires IsUpper(c) && Code(Letter(x)) % 26 == Code(c) % 26
    ensures Letter(x) == c
  {
    ModSmall(Code(c), 26);
    ModSmall(Code(Letter(x)), 26);
  }
}
