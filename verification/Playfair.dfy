/**
 The Playfair cipher of src/crypto/classic/Playfair.cpp, on ASCII text.
 */
module PlayfairCipher {
  import opened AsciiText

  // ---------------------------------------------------------------- letters

  /** An upper-case letter with J counted as I. */
  function Fold(c: char): char {
    if ToUpper(c) == 'J' then 'I' else ToUpper(c)
  }

  /** The 25 letters of the square. */
  predicate IsLetter(c: char) {
    'A' <= c <= 'Z' && c != 'J'
  }

  const ALPHABET := "ABCDEFGHIKLMNOPQRSTUVWXYZ"

  predicate AllLetters(s: string) {
    forall i :: 0 <= i < |s| ==> IsLetter(s[i])
  }

  /** The letters of a text, folded. */
  function Folded(s: string): (t: string)
    ensures AllLetters(t)
  {
    if s == "" then ""
    else Folded(s[..|s| - 1]) + if IsAlpha(s[|s| - 1]) then [Fold(s[|s| - 1])] else ""
  }

  lemma {:induction false} FoldedOfLetters(s: string)
    requires AllLetters(s)
    ensures Folded(s) == s
  {
    if s != "" { FoldedOfLetters(s[..|s| - 1]); }
  }

  // ---------------------------------------------------------------- the key square

  /** The first occurrence of every character, in order. */
  function Firsts(s: string): string {
    if s == "" then ""
    else
      var before := Firsts(s[..|s| - 1]);
      if s[|s| - 1] in before then before else before + [s[|s| - 1]]
  }

  ghost predicate Distinct(s: string) {
    forall i, j :: 0 <= i < j < |s| ==> s[i] != s[j]
  }

  lemma {:induction false} FirstsMeaning(s: string)
    ensures Distinct(Firsts(s))
    ensures forall c :: c in Firsts(s) <==> c in s
  {
    if s != "" {
      FirstsMeaning(s[..|s| - 1]);
      assert s == s[..|s| - 1] + [s[|s| - 1]];
    }
  }

  ghost function Chars(s: string): set<char> {
    set c | c in s
  }

  lemma {:induction false} DistinctCount(s: string)
    requires Distinct(s)
    ensures |Chars(s)| == |s|
  {
    if s != "" {
      var before := s[..|s| - 1];
      DistinctCount(before);
      assert s == before + [s[|s| - 1]];
      assert Chars(s) == Chars(before) + {s[|s| - 1]};
    }
  }

  /** The square for a key, row by row: the letters of the key, then the rest of the alphabet. */
  function SquareOf(key: string): string {
    Firsts(Folded(key) + ALPHABET)
  }

  predicate IsSquare(sq: string) {
    |sq| == 25 && AllLetters(sq)
  }

  lemma AlphabetAt(i: nat)
    requires i < 25
    ensures |ALPHABET| == 25
    ensures ALPHABET[i] as int == 'A' as int + if i < 9 then i else i + 1
  {
  }

  lemma AlphabetIsComplete()
    ensures Distinct(ALPHABET) && |ALPHABET| == 25 && AllLetters(ALPHABET)
    ensures forall c :: IsLetter(c) ==> c in ALPHABET
  {
    AlphabetAt(0);
    hide ALPHABET;
    forall i: nat | i < 25 ensures ALPHABET[i] as int == 'A' as int + if i < 9 then i else i + 1 {
      AlphabetAt(i);
    }
    forall c | IsLetter(c) ensures c in ALPHABET {
      var i := c as int - 'A' as int;
      assert ALPHABET[if i < 9 then i else i - 1] == c;
    }
  }

  /** For every key the square holds each of the 25 letters exactly once. */
  lemma SquareIsPermutation(key: string)
    ensures IsSquare(SquareOf(key)) && Distinct(SquareOf(key))
    ensures forall c :: IsLetter(c) <==> c in SquareOf(key)
  {
    var sq := SquareOf(key);
    FirstsMeaning(Folded(key) + ALPHABET);
    AlphabetIsComplete();
    hide ALPHABET, Firsts, Folded;
    assert forall c :: c in Folded(key) ==> IsLetter(c);
    assert forall c :: c in ALPHABET ==> IsLetter(c);
    forall i | 0 <= i < |sq| ensures IsLetter(sq[i]) {
      assert sq[i] in sq;
    }
    assert Chars(sq) == Chars(ALPHABET);
    DistinctCount(sq);
    DistinctCount(ALPHABET);
  }

  /** Where a character stands in a square; 25 if nowhere. */
  function IndexOf(sq: string, c: char): (i: nat)
    ensures i <= |sq| && (i < |sq| <==> c in sq) && (i < |sq| ==> sq[i] == c)
  {
    if sq == "" then 0 else if sq[0] == c then 0 else 1 + IndexOf(sq[1..], c)
  }

  lemma IndexOfUnique(sq: string, i: nat)
    requires Distinct(sq) && i < |sq|
    ensures IndexOf(sq, sq[i]) == i
  {
  }

  // ---------------------------------------------------------------- digraphs

  datatype Pos = Pos(row: nat, col: nat)

  predicate OnBoard(p: Pos) {
    p.row < 5 && p.col < 5
  }

  /** k places on, around the board. */
  function Step(c: nat, k: nat): (d: nat)
    ensures d < 5
  {
    (c + k) % 5
  }

  lemma StepBack(c: nat)
    requires c < 5
    ensures Step(Step(c, 1), 4) == c && Step(Step(c, 4), 1) == c
  {
    assert c == 0 || c == 1 || c == 2 || c == 3 || c == 4;
  }

  /** The rule for a pair of positions; k is 1 to encrypt and 4 to decrypt. */
  function Turned(p: Pos, q: Pos, k: nat): (r: (Pos, Pos))
    requires OnBoard(p) && OnBoard(q)
    ensures OnBoard(r.0) && OnBoard(r.1)
  {
    if p.row == q.row then (Pos(p.row, Step(p.col, k)), Pos(q.row, Step(q.col, k)))
    else if p.col == q.col then (Pos(Step(p.row, k), p.col), Pos(Step(q.row, k), q.col))
    else (Pos(p.row, q.col), Pos(q.row, p.col))
  }

  /** Turning by 1 and by 4 undo each other, and a pair stays in its case. */
  lemma TurnedBack(p: Pos, q: Pos)
    requires OnBoard(p) && OnBoard(q)
    ensures var r := Turned(p, q, 1); Turned(r.0, r.1, 4) == (p, q)
    ensures var r := Turned(p, q, 4); Turned(r.0, r.1, 1) == (p, q)
  {
    StepBack(p.row);
    StepBack(p.col);
    StepBack(q.row);
    StepBack(q.col);
    hide Step;
  }

  function PosOf(sq: string, c: char): (p: Pos)
    requires IsSquare(sq) && c in sq
    ensures OnBoard(p)
  {
    Pos(IndexOf(sq, c) / 5, IndexOf(sq, c) % 5)
  }

  function CharAt(sq: string, p: Pos): char
    requires IsSquare(sq) && OnBoard(p)
  {
    sq[p.row * 5 + p.col]
  }

  function Digraph(sq: string, a: char, b: char, k: nat): string
    requires IsSquare(sq) && a in sq && b in sq
  {
    var r := Turned(PosOf(sq, a), PosOf(sq, b), k);
    [CharAt(sq, r.0), CharAt(sq, r.1)]
  }

  lemma CharPos(sq: string, p: Pos)
    requires IsSquare(sq) && Distinct(sq) && OnBoard(p)
    ensures CharAt(sq, p) in sq && PosOf(sq, CharAt(sq, p)) == p
  {
    IndexOfUnique(sq, p.row * 5 + p.col);
  }

  lemma DigraphUndone(sq: string, a: char, b: char)
    requires IsSquare(sq) && Distinct(sq) && a in sq && b in sq
    ensures var d := Digraph(sq, a, b, 1); d[0] in sq && d[1] in sq && Digraph(sq, d[0], d[1], 4) == [a, b]
  {
    var r := Turned(PosOf(sq, a), PosOf(sq, b), 1);
    TurnedBack(PosOf(sq, a), PosOf(sq, b));
    CharPos(sq, r.0);
    CharPos(sq, r.1);
  }

  /** The digraphs of a text of even length, one after the other. */
  function Digraphs(sq: string, text: string, k: nat): (r: string)
    requires IsSquare(sq) && |text| % 2 == 0 && forall c :: c in text ==> c in sq
    ensures |r| == |text| && forall c :: c in r ==> c in sq
  {
    if text == "" then ""
    else
      var n := |text|;
      Digraphs(sq, text[..n - 2], k) + Digraph(sq, text[n - 2], text[n - 1], k)
  }

  lemma {:induction false} DigraphsUndone(sq: string, text: string)
    requires IsSquare(sq) && Distinct(sq) && |text| % 2 == 0 && forall c :: c in text ==> c in sq
    ensures Digraphs(sq, Digraphs(sq, text, 1), 4) == text
  {
    hide Digraph, IsSquare, Distinct;
    if text != "" {
      var n := |text|;
      DigraphsUndone(sq, text[..n - 2]);
      DigraphUndone(sq, text[n - 2], text[n - 1]);
      var c := Digraphs(sq, text, 1);
      assert c[..n - 2] == Digraphs(sq, text[..n - 2], 1);
      assert text == text[..n - 2] + [text[n - 2], text[n - 1]];
    }
  }

  // ---------------------------------------------------------------- preparing the text

  /** Letters in pairs: an X between two equal letters, and an X at the end of an odd text. */
  function Paired(s: string): (t: string)
    requires AllLetters(s)
    ensures |t| % 2 == 0 && AllLetters(t)
    decreases |s|
  {
    if s == "" then ""
    else if |s| == 1 then [s[0], 'X']
    else if s[0] == s[1] then [s[0], 'X'] + Paired(s[1..])
    else [s[0], s[1]] + Paired(s[2..])
  }

  /** The only pair of equal letters that a prepared text can hold is XX. */
  lemma {:induction false} EqualPairsAreXX(s: string, i: nat)
    requires AllLetters(s) && 2 * i + 1 < |Paired(s)|
    ensures Paired(s)[2 * i] == Paired(s)[2 * i + 1] ==> Paired(s)[2 * i] == 'X'
    decreases |s|
  {
    if i > 0 && |s| > 1 {
      var rest := if s[0] == s[1] then s[1..] else s[2..];
      assert Paired(s)[2..] == Paired(rest);
      EqualPairsAreXX(rest, i - 1);
      assert Paired(s)[2 * i] == Paired(rest)[2 * (i - 1)] && Paired(s)[2 * i + 1] == Paired(rest)[2 * (i - 1) + 1];
    }
  }

  /** A text that becomes s when some of its Xs are left out. */
  predicate Stretches(t: string, s: string) {
    if t == "" then s == ""
    else (s != "" && t[0] == s[0] && Stretches(t[1..], s[1..])) || (t[0] == 'X' && Stretches(t[1..], s))
  }

  /** Preparing a text only inserts Xs. */
  lemma {:induction false} PairedOnlyInsertsX(s: string)
    requires AllLetters(s)
    ensures Stretches(Paired(s), s)
    decreases |s|
  {
    var t := Paired(s);
    if |s| == 1 {
      assert t[1..] == "X" && t[1..][1..] == "" && s[1..] == "";
    } else if |s| > 1 {
      var rest := if s[0] == s[1] then s[1..] else s[2..];
      PairedOnlyInsertsX(rest);
      assert t[1..][1..] == Paired(rest);
      assert s[0] != s[1] ==> s[1..][1..] == rest;
    }
  }

  // ---------------------------------------------------------------- encryption and decryption

  function Prepared(plaintext: string): string {
    Paired(Folded(plaintext))
  }

  lemma LettersInSquare(key: string, text: string)
    requires AllLetters(text)
    ensures IsSquare(SquareOf(key)) && forall c :: c in text ==> c in SquareOf(key)
  {
    SquareIsPermutation(key);
  }

  function Encrypted(key: string, plaintext: string): string {
    LettersInSquare(key, Prepared(plaintext));
    Digraphs(SquareOf(key), Prepared(plaintext), 1)
  }

  function Evened(s: string): (t: string)
    requires AllLetters(s)
    ensures AllLetters(t) && |t| % 2 == 0
  {
    if |s| % 2 != 0 then s + "X" else s
  }

  function WithoutLastX(s: string): string {
    if s != "" && s[|s| - 1] == 'X' then s[..|s| - 1] else s
  }

  function Decrypted(key: string, ciphertext: string): string {
    var text := Evened(Folded(ciphertext));
    LettersInSquare(key, text);
    WithoutLastX(Digraphs(SquareOf(key), text, 4))
  }

  /** For every key and every text, decrypting the encrypted text gives the prepared text, less
   one X at the end if it has one. */
  lemma RoundTrip(key: string, plaintext: string)
    ensures Decrypted(key, Encrypted(key, plaintext)) == WithoutLastX(Prepared(plaintext))
  {
    hide SquareOf, Paired, Folded;
    var sq := SquareOf(key);
    var text := Prepared(plaintext);
    SquareIsPermutation(key);
    LettersInSquare(key, text);
    var c := Digraphs(sq, text, 1);
    forall i | 0 <= i < |c| ensures IsLetter(c[i]) {
      assert c[i] in c;
    }
    FoldedOfLetters(c);
    DigraphsUndone(sq, text);
  }

  // ---------------------------------------------------------------- when the letters come back

  /** No two equal letters meet where a pair begins. */
  ghost predicate NoDoublet(s: string) {
    forall j :: 0 <= j < |s| - 1 && j % 2 == 0 ==> s[j] != s[j + 1]
  }

  /** The letters that come back unchanged: without doublets, and not ending in X where the end of a pair is. */
  ghost predicate ComesBack(s: string) {
    NoDoublet(s) && (s != "" && |s| % 2 == 0 ==> s[|s| - 1] != 'X')
  }

  lemma NoDoubletTail(s: string)
    requires |s| >= 2
    ensures NoDoublet(s) <==> s[0] != s[1] && NoDoublet(s[2..])
  {
    if s[0] != s[1] && NoDoublet(s[2..]) {
      forall j | 0 <= j < |s| - 1 && j % 2 == 0 ensures s[j] != s[j + 1] {
        if j >= 2 { assert s[2..][j - 2] != s[2..][j - 1]; }
      }
    }
    if NoDoublet(s) {
      forall j | 0 <= j < |s[2..]| - 1 && j % 2 == 0 ensures s[2..][j] != s[2..][j + 1] {
        assert s[j + 2] != s[j + 3];
      }
    }
  }

  /** Preparing a text never makes it shorter, and leaves its length only if it leaves it as it is. */
  lemma {:induction false} PairedLength(s: string)
    requires AllLetters(s)
    ensures |Paired(s)| >= |s|
    ensures |Paired(s)| == |s| ==> Paired(s) == s && NoDoublet(s)
    decreases |s|
  {
    if |s| >= 2 {
      if s[0] == s[1] {
        PairedLength(s[1..]);
      } else {
        PairedLength(s[2..]);
        NoDoubletTail(s);
        assert s == [s[0], s[1]] + s[2..];
      }
    }
  }

  lemma {:induction false} ReturnsIff(s: string)
    requires AllLetters(s)
    ensures WithoutLastX(Paired(s)) == s <==> ComesBack(s)
    decreases |s|
  {
    if |s| == 1 {
      assert Paired(s)[..1] == s;
    } else if |s| >= 2 {
      NoDoubletTail(s);
      if s[0] == s[1] {
        DoubletIsKept(s);
      } else {
        ReturnsIff(s[2..]);
        ReturnsTail(s);
      }
    }
  }

  lemma ComesBackTail(s: string)
    requires |s| > 2 && s[0] != s[1]
    ensures ComesBack(s) <==> ComesBack(s[2..])
  {
    NoDoubletTail(s);
    hide NoDoublet;
    assert s[2..][|s| - 3] == s[|s| - 1];
  }

  lemma ComesBackPair(s: string)
    requires |s| == 2 && s[0] != s[1]
    ensures WithoutLastX(s) == s <==> ComesBack(s)
  {
  }

  /** A first pair of different letters stays, and the rest decides. */
  lemma ReturnsTail(s: string)
    requires AllLetters(s) && |s| >= 2 && s[0] != s[1]
    requires WithoutLastX(Paired(s[2..])) == s[2..] <==> ComesBack(s[2..])
    ensures WithoutLastX(Paired(s)) == s <==> ComesBack(s)
  {
    var pair, rest := [s[0], s[1]], s[2..];
    PairedTail(s);
    hide Paired, NoDoublet, AllLetters, WithoutLastX;
    if rest == "" {
      assert Paired(s) == s;
      hide ComesBack;
      ComesBackPair(s);
    } else {
      ComesBackTail(s);
      hide ComesBack;
      RestDecides(pair, Paired(rest), rest);
    }
  }

  lemma PairedTail(s: string)
    requires AllLetters(s) && |s| >= 2 && s[0] != s[1]
    ensures s == [s[0], s[1]] + s[2..] && Paired(s) == [s[0], s[1]] + Paired(s[2..])
    ensures Paired(s[2..]) == "" <==> s[2..] == ""
  {
    PairedOfPair(s);
    PairedEmpty(s[2..]);
    hide Paired, AllLetters;
  }

  lemma PairedOfPair(s: string)
    requires AllLetters(s) && |s| >= 2 && s[0] != s[1]
    ensures Paired(s) == [s[0], s[1]] + Paired(s[2..])
  {
  }

  lemma PairedEmpty(s: string)
    requires AllLetters(s)
    ensures Paired(s) == "" <==> s == ""
  {
    PairedLength(s);
    if s == "" { assert Paired(s) == ""; }
    hide Paired, NoDoublet;
  }

  lemma RestDecides(pair: string, t: string, rest: string)
    requires t != ""
    ensures WithoutLastX(pair + t) == pair + rest <==> WithoutLastX(t) == rest
  {
    WithoutLastXAfter(pair, t);
    hide WithoutLastX;
    SamePrefix(pair, WithoutLastX(t), rest);
  }

  lemma WithoutLastXAfter(pair: string, t: string)
    requires t != ""
    ensures WithoutLastX(pair + t) == pair + WithoutLastX(t)
  {
  }

  lemma SamePrefix(pair: string, t: string, u: string)
    ensures pair + t == pair + u <==> t == u
  {
    assert (pair + t)[|pair|..] == t && (pair + u)[|pair|..] == u;
  }

  /** The X put into a doublet does not go away again. */
  lemma DoubletIsKept(s: string)
    requires AllLetters(s) && |s| >= 2 && s[0] == s[1]
    ensures WithoutLastX(Paired(s)) != s
  {
    var rest := s[1..];
    var t := Paired(rest);
    PairedLength(rest);
    var p := Paired(s);
    assert p == [s[0], 'X'] + t;
    if |t| == |rest| {
      assert p[1] == 'X' && p[2] == rest[0] == s[1];
      assert rest[0] != rest[1] && rest[1] == s[2];
    }
  }

  /** Decrypting the encrypted text gives back exactly its letters if and only if no two equal letters meet where a
   pair begins and, where the letters fill the last pair, they do not end in X. */
  lemma LettersReturnIff(key: string, plaintext: string)
    ensures Decrypted(key, Encrypted(key, plaintext)) == Folded(plaintext) <==> ComesBack(Folded(plaintext))
  {
    hide Encrypted, Decrypted, Paired, ComesBack;
    RoundTrip(key, plaintext);
    ReturnsIff(Folded(plaintext));
  }

  /** A doublet that is not XX does not come back: an X has been put into it. */
  lemma DoubletStays(key: string)
    ensures Folded("AA") == "AA" && Decrypted(key, Encrypted(key, "AA")) == "AXA"
  {
    FoldedOfLetters("AA");
    PairedAA();
    hide Encrypted, Decrypted, Paired, Folded;
    RoundTrip(key, "AA");
  }

  lemma PairedAA()
    ensures Paired("AA") == "AXAX"
  {
    assert "AA"[1..] == "A";
    assert Paired("A") == "AX";
  }

  // ---------------------------------------------------------------- encrypting what was decrypted

  /** Turning back and turning undo each other as well. */
  lemma DigraphRedone(sq: string, a: char, b: char)
    requires IsSquare(sq) && Distinct(sq) && a in sq && b in sq
    ensures var d := Digraph(sq, a, b, 4); d[0] in sq && d[1] in sq && Digraph(sq, d[0], d[1], 1) == [a, b]
  {
    var r := Turned(PosOf(sq, a), PosOf(sq, b), 4);
    TurnedBack(PosOf(sq, a), PosOf(sq, b));
    CharPos(sq, r.0);
    CharPos(sq, r.1);
  }

  lemma {:induction false} DigraphsRedone(sq: string, text: string)
    requires IsSquare(sq) && Distinct(sq) && |text| % 2 == 0 && forall c :: c in text ==> c in sq
    ensures Digraphs(sq, Digraphs(sq, text, 4), 1) == text
  {
    hide Digraph, IsSquare, Distinct;
    if text != "" {
      var n := |text|;
      DigraphsRedone(sq, text[..n - 2]);
      DigraphRedone(sq, text[n - 2], text[n - 1]);
      var c := Digraphs(sq, text, 4);
      assert c[..n - 2] == Digraphs(sq, text[..n - 2], 4);
      assert text == text[..n - 2] + [text[n - 2], text[n - 1]];
    }
  }

  /** Preparing a text only evens it out exactly if it has no doublet. */
  lemma {:induction false} PairedIsEvenedIff(s: string)
    requires AllLetters(s)
    ensures Paired(s) == Evened(s) <==> NoDoublet(s)
    decreases |s|
  {
    if |s| >= 2 {
      NoDoubletTail(s);
      if s[0] == s[1] {
        DoubletIsNotEvened(s);
      } else {
        PairedIsEvenedIff(s[2..]);
        EvenedTail(s);
        hide NoDoublet;
        SamePrefix([s[0], s[1]], Paired(s[2..]), Evened(s[2..]));
      }
    }
  }

  lemma EvenedTail(s: string)
    requires AllLetters(s) && |s| >= 2
    ensures Evened(s) == [s[0], s[1]] + Evened(s[2..])
  {
    assert s == [s[0], s[1]] + s[2..];
  }

  lemma DoubletIsNotEvened(s: string)
    requires AllLetters(s) && |s| >= 2 && s[0] == s[1]
    ensures Paired(s) != Evened(s)
  {
    var rest := s[1..];
    var t := Paired(rest);
    PairedLength(rest);
    var p := Paired(s);
    assert p == [s[0], 'X'] + t;
    if |t| == |rest| && |rest| >= 2 {
      assert rest[0] != rest[1] && rest[1] == s[2];
      assert p[1] == 'X' && p[2] == rest[0] == s[1];
    }
  }

  /** A text of whole pairs is prepared again from what is left without a last X exactly if that has no doublet. */
  lemma PreparedAgainIff(q: string)
    requires AllLetters(q) && |q| % 2 == 0
    ensures Paired(WithoutLastX(q)) == q <==> NoDoublet(WithoutLastX(q))
  {
    var d := WithoutLastX(q);
    PairedIsEvenedIff(d);
    assert Evened(d) == q;
  }

  /** Encrypting a decrypted text gives back exactly the letters of the ciphertext if and only if there is an even
   number of them and the decrypted text has no two equal letters where a pair begins. */
  lemma CiphertextReturnsIff(key: string, ciphertext: string)
    ensures Encrypted(key, Decrypted(key, ciphertext)) == Folded(ciphertext) <==>
              |Folded(ciphertext)| % 2 == 0 && NoDoublet(Decrypted(key, ciphertext))
  {
    var sq, letters := SquareOf(key), Folded(ciphertext);
    var text := Evened(letters);
    SquareIsPermutation(key);
    LettersInSquare(key, text);
    var q := Digraphs(sq, text, 4);
    var d := WithoutLastX(q);
    LettersOfSquare(key, q);
    assert AllLetters(d);
    FoldedOfLetters(d);
    LettersInSquare(key, Paired(d));
    var again := Digraphs(sq, Paired(d), 1);
    assert Encrypted(key, Decrypted(key, ciphertext)) == again;
    PreparedAgainIff(q);
    DigraphsRedone(sq, text);
    DigraphsUndone(sq, Paired(d));
    hide SquareOf, Paired, Folded, NoDoublet, Digraphs, IsSquare, Distinct;
    if |letters| % 2 == 0 {
      assert Paired(d) == q <==> again == letters;
    }
  }

  lemma LettersOfSquare(key: string, text: string)
    requires forall c :: c in text ==> c in SquareOf(key)
    ensures AllLetters(text)
  {
    SquareIsPermutation(key);
    hide SquareOf;
    forall i | 0 <= i < |text| ensures IsLetter(text[i]) {
      assert text[i] in text;
    }
  }

  // ---------------------------------------------------------------- the methods

  /** A 5 by 5 matrix that shows a square row by row. */
  ghost predicate Shows(m: array2<char>, sq: string)
    reads m
  {
    m.Length0 == 5 && m.Length1 == 5 && |sq| == 25
    && forall i, j :: 0 <= i < 5 && 0 <= j < 5 ==> m[i, j] == sq[i * 5 + j]
  }

  /** The flag of a letter is set exactly when the letter is in the text. */
  ghost predicate Marks(used: array<bool>, s: string)
    reads used
  {
    used.Length == 26 && forall k :: 0 <= k < 26 ==> (used[k] <==> ('A' as int + k) as char in s)
  }

  method AddOnce(adjusted: string, used: array<bool>, ch: char) returns (more: string)
    requires Marks(used, adjusted) && IsLetter(ch)
    modifies used
    ensures Marks(used, more)
    ensures more == if ch in adjusted then adjusted else adjusted + [ch]
  {
    more := adjusted;
    var k := ch as int - 'A' as int;
    assert ('A' as int + k) as char == ch;
    if !used[k] {
      more := adjusted + [ch];
      used[k] := true;
    }
  }

  lemma FirstsAppend(s: string, c: char)
    ensures Firsts(s + [c]) == if c in Firsts(s) then Firsts(s) else Firsts(s) + [c]
  {
    assert (s + [c])[..|s|] == s;
  }

  method KeyLetters(key: string, used: array<bool>) returns (adjusted: string)
    requires Marks(used, "")
    modifies used
    ensures Marks(used, adjusted) && adjusted == Firsts(Folded(key))
  {
    assert Firsts("") == "";
    hide Firsts, Marks;
    adjusted := "";
    for i := 0 to |key|
      invariant adjusted == Firsts(Folded(key[..i])) && Marks(used, adjusted)
    {
      assert key[..i + 1][..i] == key[..i];
      assert Folded(key[..i + 1]) == if IsAlpha(key[i]) then Folded(key[..i]) + [Fold(key[i])] else Folded(key[..i]);
      if IsAlpha(key[i]) {
        FirstsAppend(Folded(key[..i]), Fold(key[i]));
        adjusted := AddOnce(adjusted, used, Fold(key[i]));
      }
    }
    assert key[..|key|] == key;
  }

  /** How many letters of the square come before the n-th of the alphabet. */
  function Skipping(n: nat): nat {
    if n <= 9 then n else n - 1
  }

  method AdjustedKey(key: string) returns (adjusted: string)
    ensures adjusted == SquareOf(key)
  {
    hide Firsts, Marks, ALPHABET;
    AlphabetAt(0);
    var used := new bool[26](_ => false);
    assert Marks(used, "") by { NothingMarked(used); }
    adjusted := KeyLetters(key, used);
    ghost var letters := Folded(key);
    assert letters + ALPHABET[..0] == letters;
    for n := 0 to 26
      invariant adjusted == Firsts(letters + ALPHABET[..Skipping(n)]) && Marks(used, adjusted)
    {
      var ch := ('A' as int + n) as char;
      if ch != 'J' {
        AlphabetAt(Skipping(n));
        FirstsAppend(letters + ALPHABET[..Skipping(n)], ch);
        assert letters + ALPHABET[..Skipping(n)] + [ch] == letters + ALPHABET[..Skipping(n + 1)];
        adjusted := AddOnce(adjusted, used, ch);
      }
    }
    assert ALPHABET[..25] == ALPHABET;
  }

  lemma NothingMarked(used: array<bool>)
    requires used.Length == 26 && forall k :: 0 <= k < 26 ==> !used[k]
    ensures Marks(used, "")
  {
  }

  method GenerateKeyMatrix(key: string) returns (matrix: array2<char>)
    ensures fresh(matrix) && Shows(matrix, SquareOf(key))
  {
    matrix := new char[5, 5]((_, _) => ' ');
    var adjusted := AdjustedKey(key);
    SquareIsPermutation(key);
    for i := 0 to 25
      invariant forall r, c :: 0 <= r < 5 && 0 <= c < 5 && r * 5 + c < i ==> matrix[r, c] == adjusted[r * 5 + c]
    {
      matrix[i / 5, i % 5] := adjusted[i];
    }
  }

  /** The position of a letter; the original answers (-1, -1) for what is not in the matrix. */
  method FindPosition(matrix: array2<char>, ch: char, ghost sq: string) returns (row: int, col: int)
    requires Shows(matrix, sq) && IsSquare(sq)
    ensures if ch in sq then row >= 0 && col >= 0 && Pos(row, col) == PosOf(sq, ch) else row == -1 && col == -1
  {
    for i := 0 to 5
      invariant ch !in sq[..i * 5]
    {
      for j := 0 to 5
        invariant ch !in sq[..i * 5 + j]
      {
        if matrix[i, j] == ch {
          FirstIndex(sq, ch, i * 5 + j);
          return i, j;
        }
        assert sq[..i * 5 + j + 1] == sq[..i * 5 + j] + [sq[i * 5 + j]];
      }
    }
    assert sq[..25] == sq;
    return -1, -1;
  }

  lemma {:induction false} FirstIndex(sq: string, c: char, i: nat)
    requires i < |sq| && sq[i] == c && c !in sq[..i]
    ensures IndexOf(sq, c) == i
  {
    if i > 0 {
      assert sq[..i][0] == sq[0];
      assert sq[..i][1..] == sq[1..][..i - 1];
      FirstIndex(sq[1..], c, i - 1);
    }
  }

  method FoldText(s: string) returns (t: string)
    ensures t == Folded(s)
  {
    t := "";
    for i := 0 to |s|
      invariant t == Folded(s[..i])
    {
      assert s[..i + 1][..i] == s[..i];
      if IsAlpha(s[i]) { t := t + [Fold(s[i])]; }
    }
    assert s[..|s|] == s;
  }

  method PreprocessPlaintext(plaintext: string) returns (result: string)
    ensures result == Prepared(plaintext)
  {
    hide Folded, Paired, Building;
    var adjusted := FoldText(plaintext);
    result := "";
    var i := 0;
    StartBuilding(adjusted);
    while i < |adjusted|
      invariant 0 <= i <= |adjusted|
      invariant Building(adjusted, i, result)
    {
      BuildOn(adjusted, i, result);
      result := result + [adjusted[i]];
      if i + 1 < |adjusted| {
        if adjusted[i] == adjusted[i + 1] {
          result := result + "X";
        } else {
          result := result + [adjusted[i + 1]];
          i := i + 1;
        }
      }
      i := i + 1;
    }
    DoneBuilding(adjusted, result);
    if |result| % 2 != 0 { result := result + "X"; }
  }

  /** What has been built of the pairs of s when the letters up to i have been used: whole pairs, or all but a
   last X. */
  predicate Building(s: string, i: nat, r: string)
    requires AllLetters(s) && i <= |s|
  {
    if |r| % 2 == 0 then r + Paired(s[i..]) == Paired(s)
    else i == |s| && r + "X" == Paired(s)
  }

  lemma StartBuilding(s: string)
    requires AllLetters(s)
    ensures Building(s, 0, "")
  {
    assert s[0..] == s;
  }

  /** One turn of the loop. */
  lemma BuildOn(s: string, i: nat, r: string)
    requires AllLetters(s) && i < |s| && Building(s, i, r)
    ensures i + 1 == |s| ==> Building(s, i + 1, r + [s[i]])
    ensures i + 1 < |s| && s[i] == s[i + 1] ==> Building(s, i + 1, r + [s[i]] + "X")
    ensures i + 1 < |s| && s[i] != s[i + 1] ==> Building(s, i + 2, r + [s[i]] + [s[i + 1]])
  {
    PairedStep(s, i);
    hide Paired;
    if i + 1 == |s| {
      AppendPair(r, s[i], 'X', "");
      assert s[i + 1..] == "";
    } else if s[i] == s[i + 1] {
      AppendPair(r, s[i], 'X', Paired(s[i + 1..]));
    } else {
      AppendPair(r, s[i], s[i + 1], Paired(s[i + 2..]));
    }
  }

  lemma AppendPair(r: string, a: char, b: char, t: string)
    ensures r + [a] + [b] + t == r + ([a, b] + t) && r + [a] + [b] == r + [a, b]
  {
  }

  lemma DoneBuilding(s: string, r: string)
    requires AllLetters(s) && Building(s, |s|, r)
    ensures Paired(s) == if |r| % 2 == 0 then r else r + "X"
  {
    PairedEnd(s);
  }

  lemma PairedStep(s: string, i: nat)
    requires AllLetters(s) && i < |s|
    ensures Paired(s[i..]) ==
            if i + 1 == |s| then [s[i], 'X']
            else if s[i] == s[i + 1] then [s[i], 'X'] + Paired(s[i + 1..])
            else [s[i], s[i + 1]] + Paired(s[i + 2..])
  {
    var rest := s[i..];
    assert rest[1..] == s[i + 1..];
    if i + 1 < |s| { assert rest[2..] == s[i + 2..]; }
  }

  lemma PairedEnd(s: string)
    requires AllLetters(s)
    ensures Paired(s[|s|..]) == "" && s[0..] == s
  {
  }

  method ProcessPair(matrix: array2<char>, a: char, b: char, k: nat, ghost sq: string) returns (r: string)
    requires Shows(matrix, sq) && IsSquare(sq) && a in sq && b in sq
    ensures r == Digraph(sq, a, b, k)
  {
    hide Step;
    var row1, col1 := FindPosition(matrix, a, sq);
    var row2, col2 := FindPosition(matrix, b, sq);
    if row1 == row2 {
      r := [matrix[row1, Step(col1, k)], matrix[row2, Step(col2, k)]];
    } else if col1 == col2 {
      r := [matrix[Step(row1, k), col1], matrix[Step(row2, k), col2]];
    } else {
      r := [matrix[row1, col2], matrix[row2, col1]];
    }
  }

  method ProcessPairs(matrix: array2<char>, text: string, k: nat, ghost sq: string) returns (r: string)
    requires Shows(matrix, sq) && IsSquare(sq) && |text| % 2 == 0 && (forall c :: c in text ==> c in sq)
    ensures r == Digraphs(sq, text, k)
  {
    hide Digraph, IsSquare, Shows;
    r := "";
    var i := 0;
    while i < |text|
      invariant 0 <= i <= |text| && i % 2 == 0
      invariant r == Digraphs(sq, text[..i], k)
    {
      var pair := ProcessPair(matrix, text[i], text[i + 1], k, sq);
      assert text[..i + 2][..i] == text[..i];
      r := r + pair;
      i := i + 2;
    }
    assert text[..|text|] == text;
  }

  datatype Playfair = Playfair(key: string) {
    method Encrypt(plaintext: string) returns (ciphertext: string)
      ensures ciphertext == Encrypted(key, plaintext)
    {
      var matrix := GenerateKeyMatrix(key);
      var text := PreprocessPlaintext(plaintext);
      LettersInSquare(key, text);
      ciphertext := ProcessPairs(matrix, text, 1, SquareOf(key));
    }

    method Decrypt(ciphertext: string) returns (plaintext: string)
      ensures plaintext == Decrypted(key, ciphertext)
    {
      var matrix := GenerateKeyMatrix(key);
      var filtered := FoldText(ciphertext);
      if |filtered| % 2 != 0 { filtered := filtered + "X"; }
      LettersInSquare(key, filtered);
      plaintext := ProcessPairs(matrix, filtered, 4, SquareOf(key));
      if plaintext != "" && plaintext[|plaintext| - 1] == 'X' {
        plaintext := plaintext[..|plaintext| - 1];
      }
    }
  }
}
