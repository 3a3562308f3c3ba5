/**
 The Hill cipher of src/crypto/classic/Hill.cpp.

 The methods follow the C++ loops, reducing modulo 26 at every step; they are proved
 against the integer determinants of module Determinants.
 */
module HillCipher {
  import opened AsciiText
  import opened Determinants
  import opened FiniteSums
  import opened NumberTheory
  import opened CoreUtils
  import opened Results

  // ---------------------------------------------------------------- arithmetic modulo 26

  /** The reduction written with the truncating remainder of C++ is the Euclidean residue. */
  function Mod26(x: int): (r: int)
    ensures 0 <= r < 26 && r == x % 26
  {
    Mod26Meaning(x);
    Rem(Rem(x, 26) + 26, 26)
  }

  lemma Mod26Meaning(x: int)
    ensures Rem(Rem(x, 26) + 26, 26) == x % 26
  {
    RemMeaning(x, 26);
    RemMeaning(Rem(x, 26) + 26, 26);
    hide Rem;
    ModShift(Rem(x, 26), 1, 26);
  }

  ghost predicate CongruentMatrices(a: Matrix, b: Matrix) {
    |a| == |b| && forall i, j :: 0 <= i < |a| && 0 <= j < |a| ==> At(a, i, j) % 26 == At(b, i, j) % 26
  }

  // ---------------------------------------------------------------- determinant and adjugate

  /** One row without column p, copied entry by entry. */
  method RowWithout(row: seq<int>, p: int) returns (r: seq<int>)
    requires 0 <= p < |row|
    ensures |r| == |row| - 1 && forall c :: 0 <= c < |r| ==> r[c] == row[Skip(p, c)]
  {
    r := seq(|row| - 1, _ => 0);
    var colIndex := 0;
    for j := 0 to |row|
      invariant colIndex == if j > p then j - 1 else j
      invariant |r| == |row| - 1 && forall c :: 0 <= c < colIndex ==> r[c] == row[Skip(p, c)]
    {
      if j == p { continue; }
      r := r[colIndex := row[j]];
      colIndex := colIndex + 1;
    }
  }

  /** The submatrix without row r and column p, filled row by row. */
  method SubMatrix(matrix: Matrix, r: int, p: int) returns (sub: Matrix)
    requires Square(matrix) && 0 <= r < |matrix| && 0 <= p < |matrix|
    ensures sub == Minor(matrix, r, p)
  {
    var n := |matrix|;
    sub := seq(n - 1, _ => seq(n - 1, _ => 0));
    var rowIndex := 0;
    for i := 0 to n
      invariant rowIndex == if i > r then i - 1 else i
      invariant |sub| == n - 1 && Square(sub)
      invariant forall k, c :: 0 <= k < rowIndex && 0 <= c < n - 1 ==> At(sub, k, c) == At(matrix, Skip(r, k), Skip(p, c))
    {
      if i == r { continue; }
      var row := RowWithout(matrix[i], p);
      sub := sub[rowIndex := row];
      rowIndex := rowIndex + 1;
    }
    SameEntries(sub, Minor(matrix, r, p));
  }

  lemma DetOfOne(a: Matrix)
    requires |a| == 1
    ensures Det(a) == At(a, 0, 0)
  {
    assert Det(a) == DetTerm(a, 0);
  }

  lemma DetOfTwo(a: Matrix)
    requires |a| == 2
    ensures Det(a) == At(a, 0, 0) * At(a, 1, 1) - At(a, 0, 1) * At(a, 1, 0)
  {
    DetOfOne(Minor(a, 0, 0));
    DetOfOne(Minor(a, 0, 1));
    assert Det(a) == PartialDet(a, 2) == PartialDet(a, 1) + DetTerm(a, 1) == DetTerm(a, 0) + DetTerm(a, 1);
  }

  /** The first p terms of the expansion along the first row. */
  function PartialDet(a: Matrix, p: nat): int
    requires |a| > 0
  {
    Sum(p, j => DetTerm(a, j))
  }

  lemma PartialDetSteps(a: Matrix, p: nat)
    requires |a| > 0
    ensures PartialDet(a, 0) == 0 && PartialDet(a, |a|) == Det(a)
    ensures PartialDet(a, p + 1) == PartialDet(a, p) + DetTerm(a, p)
  {
  }

  lemma TermCongruent(a: Matrix, p: int, d: int)
    requires 0 <= p < |a| && d % 26 == Det(Minor(a, 0, p)) % 26
    ensures ((if p % 2 == 0 then 1 else -1) * At(a, 0, p) * d) % 26 == DetTerm(a, p) % 26
  {
    hide Build, Det;
    var k := (if p % 2 == 0 then 1 else -1) * At(a, 0, p);
    CongMul(d, Det(Minor(a, 0, p)), k, 26);
    SignedProduct(p, 1, 0, At(a, 0, p));
    SignedProduct(p, At(a, 0, p), 0, Det(Minor(a, 0, p)));
    assert k == Signed(p, At(a, 0, p));
    assert k * d == d * k && Det(Minor(a, 0, p)) * k == k * Det(Minor(a, 0, p));
  }

  /**
   The recursive determinant.  It is reduced after every term and at every level, and still
   has the residue of the integer determinant; below size 2 it is returned as it is.
   */
  /** The term that the loop adds. */
  function Weighted(p: nat, x: int, d: int): int {
    (if p % 2 == 0 then 1 else -1) * x * d
  }

  /** One term of the sum, with everything reduced. */
  lemma Accumulate(a: Matrix, p: nat, det: int, d: int)
    requires p < |a| && d % 26 == Det(Minor(a, 0, p)) % 26 && det % 26 == PartialDet(a, p) % 26
    ensures (det + Weighted(p, At(a, 0, p), d)) % 26 == PartialDet(a, p + 1) % 26
  {
    hide Build, Det, DetTerm, PartialDet, Minor, At;
    TermCongruent(a, p, d);
    PartialDetSteps(a, p);
    CongSum(det, PartialDet(a, p), (if p % 2 == 0 then 1 else -1) * At(a, 0, p) * d, DetTerm(a, p), 26);
  }

  method Determinant(matrix: Matrix) returns (det: int)
    requires Square(matrix)
    ensures |matrix| == 0 ==> det == 0
    ensures |matrix| == 1 ==> det == matrix[0][0]
    ensures |matrix| >= 1 ==> det % 26 == Det(matrix) % 26
    ensures |matrix| >= 2 ==> 0 <= det < 26
    decreases |matrix|, 1
  {
    hide Build, Det, Mod26;
    var n := |matrix|;
    if n == 1 {
      DetOfOne(matrix);
      return matrix[0][0];
    }
    if n == 2 {
      DetOfTwo(matrix);
      return Mod26(matrix[0][0] * matrix[1][1] - matrix[0][1] * matrix[1][0]);
    }
    det := ExpandFirstRow(matrix);
  }

  /** The loop over the first row. */
  method ExpandFirstRow(matrix: Matrix) returns (det: int)
    requires Square(matrix) && |matrix| != 1
    ensures |matrix| == 0 ==> det == 0
    ensures |matrix| >= 1 ==> det % 26 == Det(matrix) % 26
    ensures 0 <= det < 26
    decreases |matrix|, 0
  {
    hide Build, Det, DetTerm, PartialDet, Minor, Mod26, Skip, Weighted;
    var n := |matrix|;
    det := 0;
    if n > 0 { PartialDetSteps(matrix, 0); }
    for p := 0 to n
      invariant 0 <= det < 26
      invariant n > 0 ==> det % 26 == PartialDet(matrix, p) % 26
      invariant n == 0 ==> det == 0
    {
      var sub := SubMatrix(matrix, 0, p);
      var d := Determinant(sub);
      Accumulate(matrix, p, det, d);
      det := Mod26(det + Weighted(p, matrix[0][p], d));
    }
    return Mod26(det);
  }

  /**
   The transposed matrix of cofactors.  For a 1-by-1 matrix the code asks for the determinant of
   an empty matrix and gets 0, so the adjugate comes out as 0 instead of 1.
   */
  method AdjugateMod26(matrix: Matrix) returns (adj: Matrix)
    requires Square(matrix) && |matrix| > 0
    ensures |adj| == |matrix| && Square(adj)
    ensures |matrix| == 1 ==> adj == [[0]]
    ensures |matrix| >= 2 ==> CongruentMatrices(adj, Adjugate(matrix))
  {
    hide Build, Det, Cofactor, AdjugateEntryOk, Updated;
    var n := |matrix|;
    adj := seq(n, _ => seq(n, _ => 0));
    for i := 0 to n
      invariant |adj| == n && Square(adj)
      invariant forall r, c :: 0 <= r < n && 0 <= c < i ==> AdjugateEntryOk(matrix, At(adj, r, c), r, c)
    {
      for j := 0 to n
        invariant |adj| == n && Square(adj)
        invariant forall r, c :: 0 <= r < n && 0 <= c < i ==> AdjugateEntryOk(matrix, At(adj, r, c), r, c)
        invariant forall r :: 0 <= r < j ==> AdjugateEntryOk(matrix, At(adj, r, i), r, i)
      {
        var sub := SubMatrix(matrix, i, j);
        var d := Determinant(sub);
        var sign := if (i + j) % 2 == 0 then 1 else -1;
        CofactorCongruent(matrix, i, j, d);
        adj := Updated(adj, j, i, Mod26(sign * d));
      }
    }
    AdjugateFilled(matrix, adj);
  }

  /** The assignment a[r][c] = v. */
  function Updated(a: Matrix, r: nat, c: nat, v: int): (b: Matrix)
    requires Square(a) && r < |a| && c < |a|
    ensures Square(b) && |b| == |a|
    ensures forall i, j :: 0 <= i < |a| && 0 <= j < |a| ==> At(b, i, j) == if i == r && j == c then v else At(a, i, j)
  {
    a[r := a[r][c := v]]
  }

  lemma AdjugateFilled(matrix: Matrix, adj: Matrix)
    requires |matrix| > 0 && |adj| == |matrix| && Square(adj)
    requires forall r, c :: 0 <= r < |adj| && 0 <= c < |adj| ==> AdjugateEntryOk(matrix, At(adj, r, c), r, c)
    ensures |matrix| == 1 ==> adj == [[0]]
    ensures |matrix| >= 2 ==> CongruentMatrices(adj, Adjugate(matrix))
  {
    hide Build, Det;
    if |matrix| == 1 {
      assert AdjugateEntryOk(matrix, At(adj, 0, 0), 0, 0);
      SameEntries(adj, [[0]]);
    }
  }

  ghost predicate AdjugateEntryOk(matrix: Matrix, v: int, r: int, c: int)
    requires |matrix| > 0
  {
    if |matrix| == 1 then v == 0 else v % 26 == Cofactor(matrix, c, r) % 26
  }

  lemma CofactorCongruent(a: Matrix, i: int, j: int, d: int)
    requires 0 <= i < |a| && 0 <= j < |a|
    requires if |a| == 1 then d == 0 else d % 26 == Det(Minor(a, i, j)) % 26
    ensures AdjugateEntryOk(a, Mod26((if (i + j) % 2 == 0 then 1 else -1) * d), j, i)
  {
    hide Build, Det, Minor;
    if |a| > 1 {
      CongMul(d, Det(Minor(a, i, j)), -1, 26);
    }
  }

  // ---------------------------------------------------------------- the key

  datatype HillError = KeyTooShort | NoModularInverse

  /** The key letters, row by row. */
  function KeyMatrix(key: string, n: nat): (a: Matrix)
    ensures |a| == n && Square(a)
  {
    Build(n, (i, j) => KeyEntry(key, i * n + j))
  }

  function KeyEntry(key: string, k: int): int {
    if 0 <= k < |key| then ToUpper(key[k]) as int - 'A' as int else 0
  }

  /** The matrices that the constructor accepts: the determinant must be a unit modulo 26. */
  ghost predicate Usable(a: Matrix) {
    |a| >= 1 && Gcd(Det(a) % 26, 26) == 1 && (|a| == 1 ==> At(a, 0, 0) >= 0)
  }

  /** The second matrix is a two-sided inverse of the first modulo 26. */
  ghost predicate InverseMod26(a: Matrix, b: Matrix) {
    CongruentMatrices(Mul(a, b), Scalar(|a|, 1)) && CongruentMatrices(Mul(b, a), Scalar(|a|, 1))
  }

  /** Every entry of the adjugate times the inverse of the determinant. */
  ghost predicate ScaledAdjugate(a: Matrix, inverse: Matrix, detInv: int)
    requires |a| > 0
  {
    |inverse| == |a|
    && forall i, j :: 0 <= i < |a| && 0 <= j < |a| ==> At(inverse, i, j) % 26 == (Cofactor(a, j, i) * detInv) % 26
  }

  lemma {:induction false} ScaledSum(n: nat, k: int, f: int -> int, g: int -> int)
    requires forall i :: 0 <= i < n ==> g(i) % 26 == (f(i) * k) % 26
    ensures Sum(n, g) % 26 == (Sum(n, f) * k) % 26
  {
    if n > 0 {
      ScaledSum(n - 1, k, f, g);
      CongSum(Sum(n - 1, g), Sum(n - 1, f) * k, g(n - 1), f(n - 1) * k, 26);
      assert Sum(n, f) * k == Sum(n - 1, f) * k + f(n - 1) * k;
    }
  }

  lemma ScaledEntry(a: Matrix, inverse: Matrix, k: int, i: int, j: int)
    requires |a| > 0 && ScaledAdjugate(a, inverse, k) && 0 <= i < |a| && 0 <= j < |a|
    ensures Entry(a, inverse, i, j) % 26 == (Entry(a, Adjugate(a), i, j) * k) % 26
    ensures Entry(inverse, a, i, j) % 26 == (Entry(Adjugate(a), a, i, j) * k) % 26
  {
    hide Build, Det, Cofactor;
    var b := Adjugate(a);
    forall c | 0 <= c < |a|
      ensures (At(a, i, c) * At(inverse, c, j)) % 26 == (At(a, i, c) * At(b, c, j) * k) % 26
      ensures (At(inverse, i, c) * At(a, c, j)) % 26 == (At(b, i, c) * At(a, c, j) * k) % 26
    {
      ScaledProduct(At(a, i, c), At(b, c, j), At(inverse, c, j), k);
      ScaledProduct(At(a, c, j), At(b, i, c), At(inverse, i, c), k);
    }
    ScaledSum(|a|, k, c => At(a, i, c) * At(b, c, j), c => At(a, i, c) * At(inverse, c, j));
    ScaledSum(|a|, k, c => At(b, i, c) * At(a, c, j), c => At(inverse, i, c) * At(a, c, j));
  }

  lemma ScaledProduct(x: int, y: int, z: int, k: int)
    requires z % 26 == (y * k) % 26
    ensures (x * z) % 26 == (x * y * k) % 26 && (z * x) % 26 == (y * x * k) % 26
  {
    CongMul(z, y * k, x, 26);
    assert y * k * x == x * y * k == y * x * k;
  }

  lemma ProductEntry(a: Matrix, inverse: Matrix, detInv: int, i: int, j: int)
    requires |a| > 0 && ScaledAdjugate(a, inverse, detInv) && (Det(a) * detInv) % 26 == 1
    requires 0 <= i < |a| && 0 <= j < |a|
    ensures Entry(a, inverse, i, j) % 26 == (if i == j then 1 else 0) == Entry(inverse, a, i, j) % 26
  {
    hide Build, Det, Cofactor, ScaledAdjugate, Entry;
    ScaledEntry(a, inverse, detInv, i, j);
    AdjugateFormula(a);
    assert Entry(a, Adjugate(a), i, j) == At(Mul(a, Adjugate(a)), i, j) == At(Scalar(|a|, Det(a)), i, j);
    assert Entry(Adjugate(a), a, i, j) == At(Mul(Adjugate(a), a), i, j);
  }

  lemma IsIdentity(m: Matrix)
    requires forall i, j :: 0 <= i < |m| && 0 <= j < |m| ==> At(m, i, j) % 26 == if i == j then 1 else 0
    ensures CongruentMatrices(m, Scalar(|m|, 1))
  {
    hide Build;
  }

  /**
   The inverse key matrix is correct: whenever the determinant has an inverse modulo 26, the
   scaled adjugate is a two-sided inverse, for every size.
   */
  lemma ScaledAdjugateInverts(a: Matrix, inverse: Matrix, detInv: int)
    requires |a| > 0 && ScaledAdjugate(a, inverse, detInv) && (Det(a) * detInv) % 26 == 1
    ensures InverseMod26(a, inverse)
  {
    hide Build, Det, Cofactor, Entry, Mul, Scalar, CongruentMatrices;
    forall i, j | 0 <= i < |a| && 0 <= j < |a|
      ensures Entry(a, inverse, i, j) % 26 == (if i == j then 1 else 0) == Entry(inverse, a, i, j) % 26
    {
      ProductEntry(a, inverse, detInv, i, j);
    }
    IsIdentity(Mul(a, inverse));
    IsIdentity(Mul(inverse, a));
  }

  datatype Hill = Hill(keyMatrix: Matrix, inverseKeyMatrix: Matrix, matrixSize: nat) {

    /** What every constructed cipher satisfies.  For size 1 the inverse is the zero matrix. */
    ghost predicate Valid() {
      && |keyMatrix| == |inverseKeyMatrix| == matrixSize >= 1
      && Square(keyMatrix) && Square(inverseKeyMatrix)
      && Usable(keyMatrix)
      && (matrixSize == 1 ==> inverseKeyMatrix == [[0]])
      && (matrixSize >= 2 ==> InverseMod26(keyMatrix, inverseKeyMatrix))
    }
  }

  /** The constructor: it accepts exactly the long enough keys with a usable matrix. */
  method Create(keyMatrixStr: string, matrixSize: nat) returns (r: Result<Hill, HillError>)
    ensures r == Failure(KeyTooShort) <==> |keyMatrixStr| < matrixSize * matrixSize
    ensures |keyMatrixStr| >= matrixSize * matrixSize ==> (r.Success? <==> Usable(KeyMatrix(keyMatrixStr, matrixSize)))
    ensures r.Success? ==> r.value.Valid() && r.value.matrixSize == matrixSize
    ensures r.Success? ==> r.value.keyMatrix == KeyMatrix(keyMatrixStr, matrixSize)
  {
    if |keyMatrixStr| < matrixSize * matrixSize {
      return Failure(KeyTooShort);
    }
    hide Gcd, Det, Cofactor, KeyMatrix;
    var key := FillKey(keyMatrixStr, matrixSize);
    var det := Determinant(key);
    var detInv := ModInverse(det, 26);
    DeterminantUnit(key, det);
    if detInv == -1 {
      return Failure(NoModularInverse);
    }
    var adj := AdjugateMod26(key);
    var inverse := FillInverse(adj, detInv);
    if matrixSize == 1 {
      SameEntries(inverse, [[0]]);
    } else {
      CongMul(det, Det(key), detInv, 26);
      CongruentScale(key, adj, inverse, detInv);
      ScaledAdjugateInverts(key, inverse, detInv);
    }
    return Success(Hill(key, inverse, matrixSize));
  }

  method FillKey(keyMatrixStr: string, n: nat) returns (key: Matrix)
    requires n * n <= |keyMatrixStr|
    ensures key == KeyMatrix(keyMatrixStr, n)
  {
    key := seq(n, _ => seq(n, _ => 0));
    for i := 0 to n
      invariant |key| == n && Square(key)
      invariant forall r, c :: 0 <= r < i && 0 <= c < n ==> At(key, r, c) == KeyEntry(keyMatrixStr, r * n + c)
    {
      for j := 0 to n
        invariant |key| == n && Square(key)
        invariant forall r, c :: 0 <= r < i && 0 <= c < n ==> At(key, r, c) == KeyEntry(keyMatrixStr, r * n + c)
        invariant forall c :: 0 <= c < j ==> At(key, i, c) == KeyEntry(keyMatrixStr, i * n + c)
      {
        KeyIndex(n, i, j);
        key := Updated(key, i, j, ToUpper(keyMatrixStr[i * n + j]) as int - 'A' as int);
      }
    }
    SameEntries(key, KeyMatrix(keyMatrixStr, n));
  }

  lemma KeyIndex(n: nat, i: nat, j: nat)
    requires i < n && j < n
    ensures 0 <= i * n + j < n * n
  {
    assert (i + 1) * n <= n * n;
  }

  method FillInverse(adj: Matrix, detInv: int) returns (inverse: Matrix)
    requires Square(adj)
    ensures |inverse| == |adj| && Square(inverse)
    ensures forall r, c :: 0 <= r < |adj| && 0 <= c < |adj| ==> At(inverse, r, c) == Mod26(At(adj, r, c) * detInv)
  {
    var n := |adj|;
    inverse := seq(n, _ => seq(n, _ => 0));
    for i := 0 to n
      invariant |inverse| == n && Square(inverse)
      invariant forall r, c :: 0 <= r < i && 0 <= c < n ==> At(inverse, r, c) == Mod26(At(adj, r, c) * detInv)
    {
      for j := 0 to n
        invariant |inverse| == n && Square(inverse)
        invariant forall r, c :: 0 <= r < i && 0 <= c < n ==> At(inverse, r, c) == Mod26(At(adj, r, c) * detInv)
        invariant forall c :: 0 <= c < j ==> At(inverse, i, c) == Mod26(At(adj, i, c) * detInv)
      {
        inverse := Updated(inverse, i, j, Mod26(adj[i][j] * detInv));
      }
    }
  }

  /** The reduced determinant is a unit exactly when the integer determinant is. */
  lemma DeterminantUnit(a: Matrix, det: int)
    requires |a| == 0 ==> det == 0
    requires |a| == 1 ==> det == At(a, 0, 0)
    requires |a| >= 1 ==> det % 26 == Det(a) % 26
    requires |a| >= 2 ==> 0 <= det < 26
    ensures Usable(a) <==> det >= 0 && Gcd(det, 26) == 1
  {
    hide Build, Det;
    if det >= 0 { GcdOfResidue(det, 26); }
  }

  lemma CongruentScale(a: Matrix, adj: Matrix, inverse: Matrix, k: int)
    requires |a| > 0 && |inverse| == |a| && CongruentMatrices(adj, Adjugate(a))
    requires forall r, c :: 0 <= r < |a| && 0 <= c < |a| ==> At(inverse, r, c) == Mod26(At(adj, r, c) * k)
    ensures ScaledAdjugate(a, inverse, k)
  {
    hide Build, Det, Cofactor, Mod26;
    forall i, j | 0 <= i < |a| && 0 <= j < |a|
      ensures At(inverse, i, j) % 26 == (Cofactor(a, j, i) * k) % 26
    {
      CongMul(At(adj, i, j), Cofactor(a, j, i), k, 26);
    }
  }

  // ---------------------------------------------------------------- encryption and decryption

  /** The number for the letter at index k, or 0 past the end of the text. */
  function Digit(text: string, k: int): int {
    if 0 <= k < |text| then text[k] as int - 'A' as int else 0
  }

  function Letter(x: int): char {
    (Mod26(x) + 'A' as int) as char
  }

  /** The first m products of row r of the matrix with the letters of the text. */
  function Dot(a: Matrix, text: string, r: int, m: nat): int {
    Sum(m, c => At(a, r, c) * Digit(text, c))
  }

  /** The first block of the text multiplied by a matrix. */
  function Block(a: Matrix, text: string): string {
    seq(|a|, r => Letter(Dot(a, text, r, |a|)))
  }

  function Transformed(a: Matrix, text: string): string
    requires |a| > 0
  {
    if text == "" then ""
    else Block(a, text) + if |text| <= |a| then "" else Transformed(a, text[|a|..])
  }

  /** The common loop of encrypt and decrypt. */
  lemma TransformedStep(a: Matrix, text: string, i: nat)
    requires |a| > 0 && i < |text|
    ensures Transformed(a, text[i..]) == Block(a, text[i..]) + if i + |a| < |text| then Transformed(a, text[i + |a|..]) else ""
  {
    hide Block;
    if i + |a| < |text| { assert text[i..][|a|..] == text[i + |a|..]; }
  }

  lemma NothingTransformed(a: Matrix, text: string)
    requires |a| > 0
    ensures Transformed(a, "") == "" && text[0..] == text
  {
  }

  method Transform(a: Matrix, n: nat, text: string) returns (r: string)
    requires Square(a) && |a| == n > 0
    ensures r == Transformed(a, text)
  {
    hide Block, Transformed;
    r := "";
    var i := 0;
    NothingTransformed(a, text);
    while i < |text|
      invariant 0 <= i
      invariant r + (if i < |text| then Transformed(a, text[i..]) else "") == Transformed(a, text)
      decreases |text| - i
    {
      var piece := TransformBlock(a, n, text, i);
      TransformedStep(a, text, i);
      r := r + piece;
      i := i + n;
    }
  }

  method TransformBlock(a: Matrix, n: nat, text: string, i: nat) returns (piece: string)
    requires Square(a) && |a| == n && i < |text|
    ensures piece == Block(a, text[i..])
  {
    var block := seq(n, _ => 0);
    for j := 0 to n
      invariant |block| == n && forall k :: 0 <= k < n ==> block[k] == if k < j then Digit(text[i..], k) else 0
    {
      if i + j < |text| { block := block[j := text[i + j] as int - 'A' as int]; }
    }
    piece := "";
    for row := 0 to n
      invariant |piece| == row
      invariant forall k :: 0 <= k < row ==> piece[k] == Letter(Dot(a, text[i..], k, n))
    {
      var val := 0;
      for col := 0 to n
        invariant val == Dot(a, text[i..], row, col)
      {
        val := val + a[row][col] * block[col];
      }
      piece := piece + [Letter(val)];
    }
  }

  method Encrypt(h: Hill, plaintext: string) returns (ciphertext: string)
    requires h.Valid()
    ensures ciphertext == Transformed(h.keyMatrix, plaintext)
  {
    ciphertext := Transform(h.keyMatrix, h.matrixSize, plaintext);
  }

  method Decrypt(h: Hill, ciphertext: string) returns (plaintext: string)
    requires h.Valid()
    ensures plaintext == Transformed(h.inverseKeyMatrix, ciphertext)
  {
    plaintext := Transform(h.inverseKeyMatrix, h.matrixSize, ciphertext);
  }

  // ---------------------------------------------------------------- round trips

  /** Every character reduced to the letter with its residue, and blocks filled up with 'A'. */
  function Normalised(text: string, n: nat): string
    requires n > 0
  {
    if text == "" then ""
    else seq(n, k => Letter(Digit(text, k))) + if |text| <= n then "" else Normalised(text[n..], n)
  }

  /** The text filled up with 'A' to a multiple of n. */
  function PaddedWithA(text: string, n: nat): string
    requires n > 0
  {
    if |text| % n == 0 then text else text + seq(n - |text| % n, _ => 'A')
  }

  predicate Uppercase(text: string) {
    forall i :: 0 <= i < |text| ==> 'A' <= text[i] <= 'Z'
  }

  // The two ways of summing At(b, r, c) * At(a, c, d) * Digit(text, d).

  function PathTerm(a: Matrix, b: Matrix, text: string, r: int, c: int, d: int): int {
    At(b, r, c) * (At(a, c, d) * Digit(text, d))
  }

  lemma PathRow(a: Matrix, b: Matrix, text: string, r: int, c: int)
    ensures Sum(|a|, d => PathTerm(a, b, text, r, c, d)) == At(b, r, c) * Dot(a, text, c, |a|)
  {
    SumScale(|a|, At(b, r, c), d => At(a, c, d) * Digit(text, d), d => PathTerm(a, b, text, r, c, d));
  }

  lemma PathColumn(a: Matrix, b: Matrix, text: string, r: int, d: int)
    requires |a| == |b|
    ensures Sum(|a|, c => PathTerm(a, b, text, r, c, d)) == Digit(text, d) * Entry(b, a, r, d)
  {
    var x := Digit(text, d);
    forall c | 0 <= c < |a| ensures PathTerm(a, b, text, r, c, d) == x * (At(b, r, c) * At(a, c, d)) {
      MulSwap(At(b, r, c), x, At(a, c, d));
      assert At(a, c, d) * x == x * At(a, c, d);
    }
    SumScale(|a|, x, c => At(b, r, c) * At(a, c, d), c => PathTerm(a, b, text, r, c, d));
  }

  lemma PathExchange(a: Matrix, b: Matrix, text: string, r: int)
    requires |a| == |b|
    ensures Sum(|a|, c => At(b, r, c) * Dot(a, text, c, |a|)) == Sum(|a|, d => Digit(text, d) * Entry(b, a, r, d))
  {
    hide Entry, Dot;
    var n, f := |a|, (c: int, d: int) => PathTerm(a, b, text, r, c, d);
    var rows, columns := c => At(b, r, c) * Dot(a, text, c, n), d => Digit(text, d) * Entry(b, a, r, d);
    forall k | 0 <= k < n ensures rows(k) == Sum(n, d => f(k, d)) && columns(k) == Sum(n, c => f(c, k)) {
      PathRow(a, b, text, r, k);
      PathColumn(a, b, text, r, k);
      SumCong(n, d => PathTerm(a, b, text, r, k, d), d => f(k, d));
      SumCong(n, c => PathTerm(a, b, text, r, c, k), c => f(c, k));
    }
    SumExchange(n, n, f, rows, columns);
  }

  /** If b * a is the identity modulo 26, summing over paths gives back the letter at r. */
  lemma PathIdentity(a: Matrix, b: Matrix, text: string, r: int)
    requires |a| == |b| && CongruentMatrices(Mul(b, a), Scalar(|b|, 1)) && 0 <= r < |a|
    ensures Sum(|a|, d => Digit(text, d) * Entry(b, a, r, d)) % 26 == Digit(text, r) % 26
  {
    hide Build, Entry, Mul;
    var f, g := d => Digit(text, d) * Entry(b, a, r, d), d => if d == r then Digit(text, r) else 0;
    forall d | 0 <= d < |a| ensures f(d) % 26 == g(d) % 26 {
      assert At(Mul(b, a), r, d) % 26 == At(Scalar(|b|, 1), r, d) % 26;
      CongMul(Entry(b, a, r, d), if r == d then 1 else 0, Digit(text, d), 26);
    }
    SumCongruent(|a|, 26, f, g);
    SumPick(|a|, r, g);
  }

  lemma DotOfBlock(a: Matrix, b: Matrix, text: string, rest: string, r: int)
    requires |a| == |b|
    ensures Dot(b, Block(a, text) + rest, r, |b|) % 26 == Sum(|a|, c => At(b, r, c) * Dot(a, text, c, |a|)) % 26
  {
    hide Dot;
    var y, n := Block(a, text) + rest, |a|;
    forall c | 0 <= c < n
      ensures (At(b, r, c) * Digit(y, c)) % 26 == (At(b, r, c) * Dot(a, text, c, n)) % 26
    {
      assert y[c] == Letter(Dot(a, text, c, n));
      CongMul(Digit(y, c), Dot(a, text, c, n), At(b, r, c), 26);
    }
    SumCongruent(n, 26, c => At(b, r, c) * Digit(y, c), c => At(b, r, c) * Dot(a, text, c, n));
    DotAsSum(b, y, r, n);
  }

  lemma DotAsSum(a: Matrix, text: string, r: int, m: nat)
    ensures Dot(a, text, r, m) == Sum(m, c => At(a, r, c) * Digit(text, c))
  {
  }

  /** Multiplying a transformed block by the inverse matrix gives back its letters. */
  lemma BlockInverse(a: Matrix, b: Matrix, text: string, rest: string, r: int)
    requires |a| == |b| && CongruentMatrices(Mul(b, a), Scalar(|b|, 1)) && 0 <= r < |a|
    ensures Letter(Dot(b, Block(a, text) + rest, r, |b|)) == Letter(Digit(text, r))
  {
    hide Build, Mul, Dot, Block, CongruentMatrices;
    DotOfBlock(a, b, text, rest, r);
    PathExchange(a, b, text, r);
    PathIdentity(a, b, text, r);
  }

  /** Transforming with a and then with an inverse of a normalises the text and fills up its last block. */
  lemma {:induction false} TransformInverse(a: Matrix, b: Matrix, text: string)
    requires |a| == |b| > 0 && CongruentMatrices(Mul(b, a), Scalar(|b|, 1))
    ensures Transformed(b, Transformed(a, text)) == Normalised(text, |a|)
    decreases |text|
  {
    hide Build, Mul, CongruentMatrices, Dot;
    if text != "" {
      var n := |a|;
      var rest := if |text| <= n then "" else Transformed(a, text[n..]);
      var y := Block(a, text) + rest;
      forall r | 0 <= r < n ensures Block(b, y)[r] == Letter(Digit(text, r)) {
        BlockInverse(a, b, text, rest, r);
      }
      assert Block(b, y) == seq(n, k => Letter(Digit(text, k)));
      assert y[n..] == rest;
      if |text| > n {
        TransformInverse(a, b, text[n..]);
      }
    }
  }

  lemma PaddedFirstBlock(text: string, n: nat)
    requires 0 < n
    ensures |text| > n ==> PaddedWithA(text, n) == text[..n] + PaddedWithA(text[n..], n)
    ensures 0 < |text| <= n ==> PaddedWithA(text, n) == text + seq(n - |text|, _ => 'A')
  {
    if |text| > n {
      ModShift(|text| - n, 1, n);
      assert text == text[..n] + text[n..];
    } else if |text| == n {
      ModUnique(|text|, n, 1, 0);
    } else {
      ModSmall(|text|, n);
    }
  }

  lemma UppercaseBlock(text: string, n: nat)
    requires Uppercase(text)
    ensures seq(n, k => Letter(Digit(text, k)))
         == if |text| <= n then text + seq(n - |text|, _ => 'A') else text[..n]
  {
  }

  /** On upper-case text, normalising only fills up the last block with 'A'. */
  lemma {:induction false} NormalisedUppercase(text: string, n: nat)
    requires n > 0 && Uppercase(text)
    ensures Normalised(text, n) == PaddedWithA(text, n)
    decreases |text|
  {
    hide Digit, Letter, PaddedWithA;
    PaddedFirstBlock(text, n);
    UppercaseBlock(text, n);
    if |text| > n {
      NormalisedUppercase(text[n..], n);
    } else if text == "" {
      PaddedEmpty(n);
    }
  }

  lemma PaddedEmpty(n: nat)
    requires n > 0
    ensures PaddedWithA("", n) == ""
  {
    ModSmall(0, n);
  }

  /** Decryption undoes encryption up to filling the last block, and encryption undoes decryption. */
  lemma RoundTrips(h: Hill, text: string)
    requires h.Valid() && h.matrixSize >= 2 && Uppercase(text)
    ensures Transformed(h.inverseKeyMatrix, Transformed(h.keyMatrix, text)) == PaddedWithA(text, h.matrixSize)
    ensures Transformed(h.keyMatrix, Transformed(h.inverseKeyMatrix, text)) == PaddedWithA(text, h.matrixSize)
  {
    TransformInverse(h.keyMatrix, h.inverseKeyMatrix, text);
    TransformInverse(h.inverseKeyMatrix, h.keyMatrix, text);
    NormalisedUppercase(text, h.matrixSize);
  }

  /** The constructor accepts keys of size 1. */
  lemma SizeOneAccepted()
    ensures Usable(KeyMatrix("B", 1))
  {
    var a := KeyMatrix("B", 1);
    assert KeyEntry("B", 0) == 1;
    assert At(a, 0, 0) == 1;
    DetOfOne(a);
    OneIsUnit();
    hide KeyMatrix, Det, Gcd, At;
  }

  lemma OneIsUnit()
    ensures Gcd(1, 26) == 1
  {
    assert Gcd(26, 1) == Gcd(1, 0);
  }

  /** Size 1 is accepted but broken: decryption turns every letter into 'A'. */
  lemma {:induction false} SizeOneDecryptsToA(h: Hill, text: string)
    requires h.Valid() && h.matrixSize == 1
    ensures Transformed(h.inverseKeyMatrix, text) == seq(|text|, _ => 'A')
    decreases |text|
  {
    if text != "" {
      var b := h.inverseKeyMatrix;
      assert Dot(b, text, 0, 1) == Dot(b, text, 0, 0) + At(b, 0, 0) * Digit(text, 0) == 0;
      assert Block(b, text) == ['A'];
      if |text| > 1 { SizeOneDecryptsToA(h, text[1..]); }
    }
  }

  /** Decryption inverts encryption on every upper-case text exactly for the sizes from 2 on. */
  lemma InvertsIffSizeAtLeastTwo(h: Hill)
    requires h.Valid()
    ensures (forall text | Uppercase(text) ::
               Transformed(h.inverseKeyMatrix, Transformed(h.keyMatrix, text)) == PaddedWithA(text, h.matrixSize))
            <==> h.matrixSize >= 2
  {
    if h.matrixSize >= 2 {
      forall text | Uppercase(text)
        ensures Transformed(h.inverseKeyMatrix, Transformed(h.keyMatrix, text)) == PaddedWithA(text, h.matrixSize)
      {
        RoundTrips(h, text);
      }
    } else {
      var c := Transformed(h.keyMatrix, "B");
      assert |Block(h.keyMatrix, "B")| == 1;
      SizeOneDecryptsToA(h, c);
      assert Transformed(h.inverseKeyMatrix, c) == "A";
      assert Uppercase("B") && PaddedWithA("B", 1) == "B";
    }
  }
}
