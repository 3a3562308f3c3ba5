/**
 The rule of the Playfair cipher, on the rows and columns in which the letters of a text stand.
 */
module PlayfairRule {
  import opened PlayfairCipher

  // ---------------------------------------------------------------- the square

  /** Two letters of the square stand in the order in which they first occur in the key, followed by the alphabet. */
  lemma SquareOrder(key: string, c: char, d: char)
    requires IsLetter(c) && IsLetter(d)
    ensures IndexOf(SquareOf(key), c) < IndexOf(SquareOf(key), d)
      <==> IndexOf(Folded(key) + ALPHABET, c) < IndexOf(Folded(key) + ALPHABET, d)
  {
    AlphabetIsComplete();
    hide ALPHABET, Folded;
    FirstsOrder(Folded(key) + ALPHABET, c, d);
  }

  lemma {:induction false} FirstsOrder(s: string, c: char, d: char)
    requires c in s && d in s
    ensures IndexOf(Firsts(s), c) < IndexOf(Firsts(s), d) <==> IndexOf(s, c) < IndexOf(s, d)
  {
    var t, x := s[..|s| - 1], s[|s| - 1];
    assert s == t + [x];
    FirstsMeaning(t);
    IndexOfAppended(t, x, c);
    IndexOfAppended(t, x, d);
    IndexOfAppended(Firsts(t), x, c);
    IndexOfAppended(Firsts(t), x, d);
    if c in t && d in t { FirstsOrder(t, c, d); }
  }

  lemma {:induction false} IndexOfAppended(t: string, x: char, c: char)
    ensures IndexOf(t + [x], c) == if c in t then IndexOf(t, c) else if c == x then |t| else |t| + 1
  {
    if t != "" {
      assert (t + [x])[1..] == t[1..] + [x];
      IndexOfAppended(t[1..], x, c);
    }
  }

  /** What is kept of a character: a letter in upper case, I for J, and nothing of any other. */
  lemma FoldedCharacter(s: string, c: char)
    ensures Folded(s + [c]) == Folded(s) +
      if c == 'J' || c == 'j' then "I"
      else if 'A' <= c <= 'Z' then [c]
      else if 'a' <= c <= 'z' then [(c as int - 'a' as int + 'A' as int) as char]
      else ""
  {
    assert (s + [c])[..|s|] == s;
  }

  // ---------------------------------------------------------------- the rule

  function Row(key: string, c: char): nat {
    IndexOf(SquareOf(key), c) / 5
  }

  function Column(key: string, c: char): nat {
    IndexOf(SquareOf(key), c) % 5
  }

  /** The letters of the square are told apart by row and column. */
  lemma PlaceIsUnique(key: string, c: char, d: char)
    requires c in SquareOf(key) && d in SquareOf(key) && Row(key, c) == Row(key, d) && Column(key, c) == Column(key, d)
    ensures c == d
  {
    hide SquareOf;
    assert IndexOf(SquareOf(key), c) == IndexOf(SquareOf(key), d);
  }

  /** The letters of different rows and columns give the other two corners of their rectangle, each in the row of its own;
   letters in one row give their right neighbours and letters in one column the ones below, around the square. */
  predicate PairRule(key: string, a: char, b: char, c: char, d: char) {
    if Row(key, a) != Row(key, b) && Column(key, a) != Column(key, b) then
      && Row(key, c) == Row(key, a) && Column(key, c) == Column(key, b)
      && Row(key, d) == Row(key, b) && Column(key, d) == Column(key, a)
    else if Row(key, a) == Row(key, b) then
      && Row(key, c) == Row(key, a) && Column(key, c) == (Column(key, a) + 1) % 5
      && Row(key, d) == Row(key, b) && Column(key, d) == (Column(key, b) + 1) % 5
    else
      && Row(key, c) == (Row(key, a) + 1) % 5 && Column(key, c) == Column(key, a)
      && Row(key, d) == (Row(key, b) + 1) % 5 && Column(key, d) == Column(key, b)
  }

  /** A letter stands where it was put. */
  lemma PlacedAt(key: string, p: Pos)
    requires IsSquare(SquareOf(key)) && OnBoard(p)
    ensures CharAt(SquareOf(key), p) in SquareOf(key)
    ensures Row(key, CharAt(SquareOf(key), p)) == p.row && Column(key, CharAt(SquareOf(key), p)) == p.col
  {
    SquareIsPermutation(key);
    hide SquareOf;
    CharPos(SquareOf(key), p);
    hide CharAt, IsSquare;
  }

  lemma DigraphRule(key: string, a: char, b: char)
    requires IsSquare(SquareOf(key)) && a in SquareOf(key) && b in SquareOf(key)
    ensures var d := Digraph(SquareOf(key), a, b, 1); |d| == 2 && PairRule(key, a, b, d[0], d[1])
  {
    var p, q := PosOf(SquareOf(key), a), PosOf(SquareOf(key), b);
    assert p == Pos(Row(key, a), Column(key, a)) && q == Pos(Row(key, b), Column(key, b));
    hide SquareOf, PosOf, CharAt, Row, Column, IsSquare;
    PlacedAt(key, Turned(p, q, 1).0);
    PlacedAt(key, Turned(p, q, 1).1);
    if p.row == q.row {
    } else if p.col == q.col {
    } else {
    }
  }

  /** Pair i of the digraphs is the digraph of pair i. */
  lemma {:induction false} DigraphOfPair(sq: string, text: string, k: nat, i: nat)
    requires IsSquare(sq) && |text| % 2 == 0 && (forall c :: c in text ==> c in sq) && 2 * i + 1 < |text|
    ensures text[2 * i] in sq && text[2 * i + 1] in sq
    ensures Digraphs(sq, text, k)[2 * i..2 * i + 2] == Digraph(sq, text[2 * i], text[2 * i + 1], k)
  {
    hide IsSquare, Digraph;
    var n := |text|;
    var before := text[..n - 2];
    if 2 * i + 2 < n {
      DigraphOfPair(sq, before, k, i);
      assert Digraphs(sq, text, k)[..n - 2] == Digraphs(sq, before, k);
      assert Digraphs(sq, text, k)[2 * i..2 * i + 2] == Digraphs(sq, before, k)[2 * i..2 * i + 2];
    }
  }

  /** For every key, every text and every pair i of the prepared text, pair i of the ciphertext follows the rule. */
  lemma EncryptedPair(key: string, plaintext: string, i: nat)
    requires 2 * i + 1 < |Prepared(plaintext)|
    ensures |Encrypted(key, plaintext)| == |Prepared(plaintext)|
    ensures Encrypted(key, plaintext)[2 * i] in SquareOf(key) && Encrypted(key, plaintext)[2 * i + 1] in SquareOf(key)
    ensures PairRule(key, Prepared(plaintext)[2 * i], Prepared(plaintext)[2 * i + 1],
                     Encrypted(key, plaintext)[2 * i], Encrypted(key, plaintext)[2 * i + 1])
  {
    var sq, text, cipher := SquareOf(key), Prepared(plaintext), Encrypted(key, plaintext);
    LettersInSquare(key, text);
    hide SquareOf, Paired, Folded, PairRule, Digraph, IsSquare;
    DigraphOfPair(sq, text, 1, i);
    DigraphRule(key, text[2 * i], text[2 * i + 1]);
    assert cipher[2 * i..2 * i + 2] == [cipher[2 * i], cipher[2 * i + 1]];
  }
}
