/**
 The determinant of a product is the product of the determinants: the matrix with A and 0 above -I and B
 is brought by row operations to the one with 0 and A * B above -I and B, and both determinants are read off.
 */
module DeterminantProduct {
  import opened FiniteSums
  import opened Determinants

  // ---------------------------------------------------------------- block triangular matrices

  /** A in the upper left corner, B in the lower right one, zeros above B, and anything below A. */
  ghost predicate BlockTriangular(m: Matrix, a: Matrix, b: Matrix) {
    && |m| == |a| + |b|
    && (forall i, j :: 0 <= i < |a| && 0 <= j < |m| ==> At(m, i, j) == if j < |a| then At(a, i, j) else 0)
    && (forall i, j :: |a| <= i < |m| && |a| <= j < |m| ==> At(m, i, j) == At(b, i - |a|, j - |a|))
  }

  lemma MinorOfBlocks(m: Matrix, a: Matrix, b: Matrix, j: int)
    requires |a| > 0 && BlockTriangular(m, a, b) && 0 <= j < |a|
    ensures BlockTriangular(Minor(m, 0, j), Minor(a, 0, j), b)
  {
    hide Build;
    var n, d := Minor(m, 0, j), Minor(a, 0, j);
    forall i, k | 0 <= i < |d| && 0 <= k < |n| ensures At(n, i, k) == if k < |d| then At(d, i, k) else 0 {
      assert At(n, i, k) == At(m, i + 1, Skip(j, k));
    }
    forall i, k | |d| <= i < |n| && |d| <= k < |n| ensures At(n, i, k) == At(b, i - |d|, k - |d|) {
      assert At(n, i, k) == At(m, i + 1, k + 1);
    }
  }

  /** The determinants of the two blocks multiply. */
  lemma {:induction false} BlockDeterminant(m: Matrix, a: Matrix, b: Matrix)
    requires BlockTriangular(m, a, b) && Square(m) && Square(b)
    ensures Det(m) == Det(a) * Det(b)
    decreases |a|
  {
    hide Build;
    if |a| == 0 {
      SameEntries(m, b);
    } else {
      forall j | 0 <= j < |a| ensures DetTerm(m, j) == Det(b) * DetTerm(a, j) {
        MinorOfBlocks(m, a, b, j);
        BlockDeterminant(Minor(m, 0, j), Minor(a, 0, j), b);
        TermTimes(j, At(a, 0, j), Det(Minor(a, 0, j)), Det(b));
      }
      BlockSum(m, a, b);
    }
  }

  lemma BlockSum(m: Matrix, a: Matrix, b: Matrix)
    requires |a| > 0 && BlockTriangular(m, a, b)
    requires forall j :: 0 <= j < |a| ==> DetTerm(m, j) == Det(b) * DetTerm(a, j)
    ensures Det(m) == Det(a) * Det(b)
  {
    assert |m| >= |a|;
    hide Build, Det, DetTerm;
    var f, g := j => DetTerm(m, j), j => DetTerm(a, j);
    DetAsTerms(m, f);
    DetAsTerms(a, g);
    forall j | |a| <= j < |m| ensures f(j) == 0 {
      OutsideTerm(m, a, b, j);
    }
    hide BlockTriangular;
    ScaledPrefix(|a|, |m|, Det(b), f, g);
  }

  lemma ScaledPrefix(n: nat, m: nat, d: int, f: int -> int, g: int -> int)
    requires n <= m && forall j :: 0 <= j < n ==> f(j) == d * g(j)
    requires forall j :: n <= j < m ==> f(j) == 0
    ensures Sum(m, f) == Sum(n, g) * d
  {
    SumScale(n, d, g, f);
    SumPrefix(n, m, f);
  }

  lemma OutsideTerm(m: Matrix, a: Matrix, b: Matrix, j: int)
    requires |a| > 0 && BlockTriangular(m, a, b) && |a| <= j < |m|
    ensures DetTerm(m, j) == 0
  {
    hide Build, Det;
    assert At(m, 0, j) == 0;
  }

  lemma DetAsTerms(m: Matrix, f: int -> int)
    requires |m| > 0 && forall j :: 0 <= j < |m| ==> f(j) == DetTerm(m, j)
    ensures Det(m) == Sum(|m|, f)
  {
    SumCong(|m|, f, j => DetTerm(m, j));
  }

  lemma TermTimes(j: int, x: int, d: int, e: int)
    ensures Signed(j, x * (d * e)) == e * Signed(j, x * d)
  {
    assert x * (d * e) == e * (x * d);
    SignedProduct(0, e, j, x * d);
  }

  /** Terms that are zero from n on can be left out. */
  lemma {:induction false} SumPrefix(n: nat, m: nat, f: int -> int)
    requires n <= m && forall j :: n <= j < m ==> f(j) == 0
    ensures Sum(m, f) == Sum(n, f)
  {
    if n < m { SumPrefix(n, m - 1, f); }
  }

  // ---------------------------------------------------------------- matrices with a corner of zeros

  /** Zeros in the upper left corner, C beside them, and -I below them. */
  ghost predicate Cornered(m: Matrix, c: Matrix, k: nat) {
    && |m| == |c| + k
    && (forall i, j :: 0 <= i < |c| && 0 <= j < k ==> At(m, i, j) == 0)
    && (forall i, j :: 0 <= i < |c| && k <= j < |m| ==> At(m, i, j) == At(c, i, j - k))
    && (forall i, j :: |c| <= i < |m| && 0 <= j < k ==> At(m, i, j) == if i - |c| == j then -1 else 0)
  }

  lemma MinorOfCornered(m: Matrix, c: Matrix, k: nat)
    requires Cornered(m, c, k) && k > 0
    ensures Cornered(Minor(m, |c|, 0), c, k - 1)
  {
    hide Build;
    var n := Minor(m, |c|, 0);
    forall i, j | 0 <= i < |n| && 0 <= j < |n|
      ensures At(n, i, j) == if i < |c| then At(m, i, j + 1) else At(m, i + 1, j + 1)
    {
    }
  }

  /** Of the first column of the corner only the -1 counts. */
  lemma FirstColumnOfCornered(m: Matrix, c: Matrix, k: nat)
    requires Cornered(m, c, k) && k > 0
    ensures Det(m) == -1 * Cofactor(m, |c|, 0)
  {
    hide Build, Det, Cofactor;
    ColumnExpansionIsDet(m, 0, 0);
    SumPick(|m|, |c|, i => At(m, i, 0) * Cofactor(m, i, 0));
  }

  /** Each column of the corner contributes a sign. */
  lemma {:induction false} CorneredDeterminant(m: Matrix, c: Matrix, k: nat)
    requires Cornered(m, c, k) && Square(m) && Square(c)
    ensures Det(m) == Signed(k * (|c| + 1), Det(c))
    decreases k
  {
    hide Build, Det, Signed;
    if k == 0 {
      SameEntries(m, c);
      SignedNever(k * (|c| + 1), Det(c));
    } else {
      MinorOfCornered(m, c, k);
      CorneredDeterminant(Minor(m, |c|, 0), c, k - 1);
      FirstColumnOfCornered(m, c, k);
      hide Cornered;
      SignSteps(k, |c|, Det(c));
    }
  }

  lemma SignSteps(k: nat, n: nat, d: int)
    requires k > 0
    ensures -1 * Signed(n + 0, Signed((k - 1) * (n + 1), d)) == Signed(k * (n + 1), d)
  {
    assert k * (n + 1) == (n + 1) + (k - 1) * (n + 1);
    SignedTwice(n + 1, (k - 1) * (n + 1), d);
    MinusSigned(n, Signed((k - 1) * (n + 1), d));
    hide Signed;
  }

  lemma SignedNever(z: int, d: int)
    requires z == 0
    ensures Signed(z, d) == d
  {
  }

  lemma MinusSigned(n: int, x: int)
    ensures -1 * Signed(n + 0, x) == Signed(n + 1, x)
  {
  }

  lemma SignedTwice(p: int, q: int, d: int)
    ensures Signed(p, Signed(q, d)) == Signed(p + q, d)
  {
  }

  // ---------------------------------------------------------------- row operations

  lemma SameCofactor(m: Matrix, t: Matrix, r: int, j: int)
    requires |m| == |t| && 0 <= r < |m| && 0 <= j < |m|
    requires forall i, j :: 0 <= i < |m| && 0 <= j < |m| && i != r ==> At(t, i, j) == At(m, i, j)
    ensures Cofactor(t, r, j) == Cofactor(m, r, j)
  {
    hide Build, Det;
    SameEntries(Minor(t, r, j), Minor(m, r, j));
  }

  /** Row r with multiples of the rows from n on added to it. */
  lemma AddingRowsKeepsDet(m: Matrix, t: Matrix, r: int, n: nat, c: int -> int)
    requires |m| == |t| == 2 * n && 0 <= r < n
    requires forall i, j :: 0 <= i < |m| && 0 <= j < |m| && i != r ==> At(t, i, j) == At(m, i, j)
    requires forall j :: 0 <= j < |m| ==> At(t, r, j) == At(m, r, j) + Sum(n, k => c(k) * At(m, n + k, j))
    ensures Det(t) == Det(m)
  {
    hide Build, Det;
    RowExpansionIsDet(m, r);
    RowExpansionIsDet(t, r);
    var added := j => Sum(n, k => c(k) * At(m, n + k, j)) * Cofactor(m, r, j);
    var own := j => At(m, r, j) * Cofactor(m, r, j);
    forall j | 0 <= j < |m| ensures At(t, r, j) * Cofactor(t, r, j) == own(j) + added(j) {
      SameCofactor(m, t, r, j);
    }
    hide Cofactor, At;
    SumCong(|m|, j => At(t, r, j) * Cofactor(t, r, j), j => own(j) + added(j));
    SumAdd(|m|, own, added);
    AddedIsZero(m, r, n, c, added);
  }

  /** Row n + k times c(k), at column j, times the cofactor there. */
  function AddedTerm(m: Matrix, r: int, n: nat, c: int -> int, j: int, k: int): int {
    if |m| == 0 then 0 else c(k) * At(m, n + k, j) * Cofactor(m, r, j)
  }

  lemma AddedInColumn(m: Matrix, r: int, n: nat, c: int -> int, j: int, f: (int, int) -> int)
    requires |m| > 0 && forall k :: 0 <= k < n ==> f(j, k) == AddedTerm(m, r, n, c, j, k)
    ensures Sum(n, k => c(k) * At(m, n + k, j)) * Cofactor(m, r, j) == Sum(n, k => f(j, k))
  {
    hide Build, Cofactor, At;
    TakeIn(n, k => c(k) * At(m, n + k, j), Cofactor(m, r, j), k => f(j, k));
  }

  /** Down the columns the terms are alien expansions. */
  lemma AddedFromRow(m: Matrix, r: int, n: nat, c: int -> int, k: int, f: (int, int) -> int)
    requires |m| == 2 * n && 0 <= r < n && 0 <= k < n
    requires forall j :: 0 <= j < |m| ==> f(j, k) == AddedTerm(m, r, n, c, j, k)
    ensures Sum(|m|, j => f(j, k)) == 0
  {
    hide Build, Det, Cofactor, At;
    TakeOut(m, n + k, r, c(k), j => f(j, k));
    AlienRowExpansion(m, n + k, r);
  }

  /** What the other rows add is a combination of alien expansions. */
  lemma AddedIsZero(m: Matrix, r: int, n: nat, c: int -> int, added: int -> int)
    requires |m| == 2 * n && 0 <= r < n
    requires forall j :: 0 <= j < |m| ==> added(j) == Sum(n, k => c(k) * At(m, n + k, j)) * Cofactor(m, r, j)
    ensures Sum(|m|, added) == 0
  {
    hide Build, Det, Cofactor, At;
    var f := (j, k) => AddedTerm(m, r, n, c, j, k);
    var columns := k => Sum(|m|, j => f(j, k));
    forall j | 0 <= j < |m| ensures added(j) == Sum(n, k => f(j, k)) {
      AddedInColumn(m, r, n, c, j, f);
    }
    SumExchange(|m|, n, f, added, columns);
    forall k | 0 <= k < n ensures columns(k) == 0 {
      AddedFromRow(m, r, n, c, k, f);
    }
    SumZero(n, columns);
  }

  lemma TakeIn(n: nat, g: int -> int, x: int, f: int -> int)
    requires forall k :: 0 <= k < n ==> f(k) == g(k) * x
    ensures Sum(n, g) * x == Sum(n, f)
  {
    SumScale(n, x, g, f);
  }

  lemma TakeOut(m: Matrix, i: int, r: int, x: int, f: int -> int)
    requires |m| > 0 && forall j :: 0 <= j < |m| ==> f(j) == x * At(m, i, j) * Cofactor(m, r, j)
    ensures x * RowExpansion(m, i, r) == Sum(|m|, f)
  {
    hide Build, Cofactor;
    var g := j => At(m, i, j) * Cofactor(m, r, j);
    forall j | 0 <= j < |m| ensures f(j) == x * g(j) {
      assert x * At(m, i, j) * Cofactor(m, r, j) == x * (At(m, i, j) * Cofactor(m, r, j));
    }
    SumScale(|m|, x, g, f);
    SumCong(|m|, g, j => At(m, i, j) * Cofactor(m, r, j));
  }

  // ---------------------------------------------------------------- the product

  /** After r row operations: the first r rows of A are gone, and those of A * B stand beside them. */
  function StageEntry(a: Matrix, b: Matrix, r: int, i: int, j: int): int {
    var n := |a|;
    if i < n then
      if j < n then (if i < r then 0 else At(a, i, j))
      else (if i < r then Entry(a, b, i, j - n) else 0)
    else if j < n then (if i - n == j then -1 else 0)
    else At(b, i - n, j - n)
  }

  function Stage(a: Matrix, b: Matrix, r: int): (m: Matrix)
    ensures |m| == 2 * |a| && Square(m)
    ensures forall i, j :: 0 <= i < |m| && 0 <= j < |m| ==> At(m, i, j) == StageEntry(a, b, r, i, j)
  {
    Build(2 * |a|, (i, j) => StageEntry(a, b, r, i, j))
  }

  lemma StageStep(a: Matrix, b: Matrix, r: int)
    requires |a| == |b| && 0 <= r < |a|
    ensures Det(Stage(a, b, r + 1)) == Det(Stage(a, b, r))
  {
    hide Build, Det;
    var n, m, t := |a|, Stage(a, b, r), Stage(a, b, r + 1);
    var c := k => At(a, r, k);
    forall j | 0 <= j < 2 * n ensures At(t, r, j) == At(m, r, j) + Sum(n, k => c(k) * At(m, n + k, j)) {
      StageRow(a, b, r, j, m, k => c(k) * At(m, n + k, j));
    }
    AddingRowsKeepsDet(m, t, r, n, c);
  }

  lemma StageRow(a: Matrix, b: Matrix, r: int, j: int, m: Matrix, f: int -> int)
    requires |a| == |b| && 0 <= r < |a| && 0 <= j < 2 * |a| && m == Stage(a, b, r)
    requires forall k :: 0 <= k < |a| ==> f(k) == At(a, r, k) * At(m, |a| + k, j)
    ensures StageEntry(a, b, r + 1, r, j) == StageEntry(a, b, r, r, j) + Sum(|a|, f)
  {
    hide Build;
    var n := |a|;
    if j < n {
      SumPick(n, j, f);
    } else {
      SumCong(n, f, k => At(a, r, k) * At(b, k, j - n));
    }
  }

  lemma {:induction false} AllStages(a: Matrix, b: Matrix, r: nat)
    requires |a| == |b| && r <= |a|
    ensures Det(Stage(a, b, r)) == Det(Stage(a, b, 0))
  {
    hide Stage, Det;
    if r > 0 {
      AllStages(a, b, r - 1);
      StageStep(a, b, r - 1);
    }
  }

  /** The determinant of a product, for every size. */
  lemma DeterminantOfProduct(a: Matrix, b: Matrix)
    requires |a| == |b| && Square(b)
    ensures Det(Mul(a, b)) == Det(a) * Det(b)
  {
    hide Build, Det;
    var n, first, last := |a|, Stage(a, b, 0), Stage(a, b, |a|);
    FirstStage(a, b);
    BlockDeterminant(first, a, b);
    AllStages(a, b, n);
    LastStage(a, b);
    CorneredDeterminant(last, Mul(a, b), n);
    EvenSign(n, Det(Mul(a, b)));
  }

  lemma EvenSign(n: nat, d: int)
    ensures Signed(n * (n + 1), d) == d
  {
    EvenProduct(n);
  }

  lemma {:induction false} EvenProduct(n: nat)
    ensures n * (n + 1) % 2 == 0
  {
    if n > 0 {
      EvenProduct(n - 1);
      assert n * (n + 1) == (n - 1) * n + 2 * n;
    }
  }

  lemma FirstStage(a: Matrix, b: Matrix)
    requires |a| == |b|
    ensures BlockTriangular(Stage(a, b, 0), a, b)
  {
    hide Build;
  }

  lemma LastStage(a: Matrix, b: Matrix)
    requires |a| == |b|
    ensures Cornered(Stage(a, b, |a|), Mul(a, b), |a|)
  {
    hide Build, Entry;
  }
}
