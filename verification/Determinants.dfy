/**
 Integer determinants by cofactor expansion, for matrices of every size.

 The main results are the ones a textbook needs to justify the adjugate formula:
 swapping two adjacent rows negates the determinant, expansion along any row and down any
 column gives the same number, an "alien" expansion gives zero, and therefore
 A * adj(A) == adj(A) * A == det(A) * I.  Everything is proved over the integers;
 reduction modulo 26 comes later, because 2 cannot be cancelled modulo 26.
 */
module Determinants {
  import opened FiniteSums

  type Matrix = seq<seq<int>>

  ghost predicate Square(a: Matrix) {
    forall i :: 0 <= i < |a| ==> |a[i]| == |a|
  }

  /** The entry at row i and column j, or 0 outside the matrix. */
  function At(a: Matrix, i: int, j: int): int {
    if 0 <= i < |a| && 0 <= j < |a[i]| then a[i][j] else 0
  }

  function Build(n: nat, f: (int, int) -> int): (a: Matrix)
    ensures |a| == n && Square(a)
    ensures forall i, j :: 0 <= i < n && 0 <= j < n ==> At(a, i, j) == f(i, j)
  {
    seq(n, i => seq(n, j => f(i, j)))
  }

  /** Two square matrices of the same size with the same entries are equal. */
  lemma SameEntries(a: Matrix, b: Matrix)
    requires Square(a) && Square(b) && |a| == |b|
    requires forall i, j :: 0 <= i < |a| && 0 <= j < |a| ==> At(a, i, j) == At(b, i, j)
    ensures a == b
  {
    forall i | 0 <= i < |a| ensures a[i] == b[i] {
      forall j | 0 <= j < |a| ensures a[i][j] == b[i][j] {
        assert At(a, i, j) == At(b, i, j);
      }
    }
  }

  // ---------------------------------------------------------------- minors and determinants

  /** The index in the full range of position x once index k has been left out. */
  function Skip(k: int, x: int): int {
    if x < k then x else x + 1
  }

  /** The position of index x once index k has been left out. */
  function Unskip(k: int, x: int): int {
    if x < k then x else x - 1
  }

  /** The value v, negated for odd k. */
  function Signed(k: int, v: int): int {
    if k % 2 == 0 then v else -v
  }

  lemma SignedProduct(k: int, x: int, l: int, y: int)
    ensures Signed(k, x) * Signed(l, y) == Signed(k + l, x * y)
  {
    assert x * -y == -(x * y) == -x * y;
  }

  lemma MulSwap(x: int, y: int, z: int)
    ensures x * (y * z) == y * (x * z)
  {
  }

  /** The matrix without row r and column c. */
  function Minor(a: Matrix, r: int, c: int): (m: Matrix)
    requires |a| > 0
    ensures |m| == |a| - 1 && Square(m)
    ensures forall i, j :: 0 <= i < |m| && 0 <= j < |m| ==> At(m, i, j) == At(a, Skip(r, i), Skip(c, j))
  {
    Build(|a| - 1, (i, j) => At(a, Skip(r, i), Skip(c, j)))
  }

  /** Cofactor expansion along the first row.  The empty determinant is 1. */
  function Det(a: Matrix): int
    decreases |a|, 1
  {
    if |a| == 0 then 1 else Sum(|a|, j => DetTerm(a, j))
  }

  function DetTerm(a: Matrix, j: int): int
    requires |a| > 0
    decreases |a|, 0
  {
    Signed(j, At(a, 0, j) * Det(Minor(a, 0, j)))
  }

  function Cofactor(a: Matrix, i: int, j: int): int
    requires |a| > 0
  {
    Signed(i + j, Det(Minor(a, i, j)))
  }

  /** Row k of the matrix expanded with the cofactors of row i. */
  function RowExpansion(a: Matrix, k: int, i: int): int
    requires |a| > 0
  {
    Sum(|a|, j => At(a, k, j) * Cofactor(a, i, j))
  }

  /** Column k of the matrix expanded with the cofactors of column j. */
  function ColumnExpansion(a: Matrix, k: int, j: int): int
    requires |a| > 0
  {
    Sum(|a|, i => At(a, i, k) * Cofactor(a, i, j))
  }

  function SwapIndex(i: int, x: int): int {
    if x == i then i + 1 else if x == i + 1 then i else x
  }

  function SwapRows(a: Matrix, i: int): (b: Matrix)
    ensures |b| == |a| && Square(b)
    ensures forall r, c :: 0 <= r < |b| && 0 <= c < |b| ==> At(b, r, c) == At(a, SwapIndex(i, r), c)
  {
    Build(|a|, (r, c) => At(a, SwapIndex(i, r), c))
  }

  function Transpose(a: Matrix): (b: Matrix)
    ensures |b| == |a| && Square(b)
    ensures forall r, c :: 0 <= r < |b| && 0 <= c < |b| ==> At(b, r, c) == At(a, c, r)
  {
    Build(|a|, (r, c) => At(a, c, r))
  }

  function ReplaceRow(a: Matrix, i: int, k: int): (b: Matrix)
    ensures |b| == |a| && Square(b)
    ensures forall r, c :: 0 <= r < |b| && 0 <= c < |b| ==> At(b, r, c) == At(a, if r == i then k else r, c)
  {
    Build(|a|, (r, c) => At(a, if r == i then k else r, c))
  }

  // ---------------------------------------------------------------- swapping the first two rows

  /** The summand of the expansion along the first two rows. */
  function PairTerm(a: Matrix, p: int, q: int): int
    requires |a| >= 2
  {
    if p == q then 0
    else Signed(p + Unskip(p, q), At(a, 0, p) * (At(a, 1, q) * Det(Minor(Minor(a, 0, p), 0, Unskip(p, q)))))
  }

  function PairSum(a: Matrix, p: int): int
    requires |a| >= 2
  {
    Sum(|a|, q => PairTerm(a, p, q))
  }

  function PairColumn(a: Matrix, q: int): int
    requires |a| >= 2
  {
    Sum(|a|, p => PairTerm(a, p, q))
  }

  /** Leaving out p and putting a zero at p give the same sum. */
  lemma {:induction false} SumSkip(n: nat, p: int, f: int -> int, h: int -> int)
    requires 0 <= p < n && h(p) == 0
    requires forall x :: 0 <= x < n - 1 ==> f(x) == h(Skip(p, x))
    ensures Sum(n - 1, f) == Sum(n, h)
  {
    if p == n - 1 {
      SumCong(n - 1, f, h);
    } else {
      SumSkip(n - 1, p, f, h);
    }
  }

  lemma DetAsSum(a: Matrix)
    requires |a| > 0
    ensures Det(a) == Sum(|a|, j => DetTerm(a, j))
  {
  }

  lemma DetTermFactors(a: Matrix, p: int)
    requires |a| > 0
    ensures DetTerm(a, p) == Signed(p, At(a, 0, p)) * Det(Minor(a, 0, p))
  {
    hide Det;
    SignedProduct(p, At(a, 0, p), 0, Det(Minor(a, 0, p)));
  }

  lemma FirstRowTerm(a: Matrix, p: int)
    requires |a| >= 2 && 0 <= p < |a|
    ensures DetTerm(a, p) == PairSum(a, p)
  {
    hide Build, Det, DetTerm;
    var n, m, k := |a|, Minor(a, 0, p), Signed(p, At(a, 0, p));
    var f, h := x => DetTerm(m, x), q => PairTerm(a, p, q);
    forall x | 0 <= x < n - 1 ensures h(Skip(p, x)) == k * f(x) {
      FirstRowEntry(a, p, x);
    }
    var g := x => h(Skip(p, x));
    SumScale(n - 1, k, f, g);
    SumSkip(n, p, g, h);
    DetAsSum(m);
    DetTermFactors(a, p);
  }

  lemma FirstRowEntry(a: Matrix, p: int, x: int)
    requires |a| >= 2 && 0 <= p < |a| && 0 <= x < |a| - 1
    ensures Signed(p, At(a, 0, p)) * DetTerm(Minor(a, 0, p), x) == PairTerm(a, p, Skip(p, x))
  {
    var m, q := Minor(a, 0, p), Skip(p, x);
    assert Unskip(p, q) == x && p != q && At(m, 0, x) == At(a, 1, q);
    SignedProduct(p, At(a, 0, p), x, At(m, 0, x) * Det(Minor(m, 0, x)));
  }

  lemma TwoRowExpansion(a: Matrix)
    requires |a| >= 2
    ensures Det(a) == Sum(|a|, p => PairSum(a, p))
  {
    forall p | 0 <= p < |a| ensures DetTerm(a, p) == PairSum(a, p) {
      FirstRowTerm(a, p);
    }
    SumCong(|a|, j => DetTerm(a, j), p => PairSum(a, p));
  }

  lemma PairTermSwapped(a: Matrix, p: int, q: int)
    requires |a| >= 2 && 0 <= p < |a| && 0 <= q < |a|
    ensures PairTerm(SwapRows(a, 0), p, q) == -PairTerm(a, q, p)
  {
    if p != q {
      var b := SwapRows(a, 0);
      SwapFirstRowsMinor(a, p, q);
      assert At(b, 0, p) == At(a, 1, p) && At(b, 1, q) == At(a, 0, q);
      MulSwap(At(a, 1, p), At(a, 0, q), Det(Minor(Minor(a, 0, q), 0, Unskip(q, p))));
    }
  }

  lemma SwapFirstRowsMinor(a: Matrix, p: int, q: int)
    requires |a| >= 2 && 0 <= p < |a| && 0 <= q < |a| && p != q
    ensures Minor(Minor(SwapRows(a, 0), 0, p), 0, Unskip(p, q)) == Minor(Minor(a, 0, q), 0, Unskip(q, p))
  {
    var b := SwapRows(a, 0);
    var d, e := Minor(Minor(b, 0, p), 0, Unskip(p, q)), Minor(Minor(a, 0, q), 0, Unskip(q, p));
    forall i, j | 0 <= i < |d| && 0 <= j < |d| ensures At(d, i, j) == At(e, i, j) {
      assert Skip(p, Skip(Unskip(p, q), j)) == Skip(q, Skip(Unskip(q, p), j));
      var c := Skip(p, Skip(Unskip(p, q), j));
      assert At(d, i, j) == At(Minor(b, 0, p), i + 1, Skip(Unskip(p, q), j)) == At(b, i + 2, c);
      assert At(e, i, j) == At(Minor(a, 0, q), i + 1, Skip(Unskip(q, p), j)) == At(a, i + 2, c);
    }
    SameEntries(d, e);
  }

  lemma PairSumSwapped(a: Matrix, p: int)
    requires |a| >= 2 && 0 <= p < |a|
    ensures PairSum(SwapRows(a, 0), p) == -PairColumn(a, p)
  {
    var n, b := |a|, SwapRows(a, 0);
    forall q | 0 <= q < n ensures PairTerm(b, p, q) == -PairTerm(a, q, p) {
      PairTermSwapped(a, p, q);
    }
    SumNegate(n, q => PairTerm(b, p, q), q => PairTerm(a, q, p));
  }

  lemma PairSumsExchange(a: Matrix)
    requires |a| >= 2
    ensures Sum(|a|, p => PairSum(a, p)) == Sum(|a|, q => PairColumn(a, q))
  {
    var n, f := |a|, (p: int, q: int) => PairTerm(a, p, q);
    var rows, columns := p => PairSum(a, p), q => PairColumn(a, q);
    forall i | 0 <= i < n ensures rows(i) == Sum(n, j => f(i, j)) && columns(i) == Sum(n, j => f(j, i)) {
      SumCong(n, q => PairTerm(a, i, q), j => f(i, j));
      SumCong(n, p => PairTerm(a, p, i), j => f(j, i));
    }
    SumExchange(n, n, f, rows, columns);
    SumCong(n, rows, p => PairSum(a, p));
    SumCong(n, columns, q => PairColumn(a, q));
  }

  lemma SwapFirstRows(a: Matrix)
    requires |a| >= 2
    ensures Det(SwapRows(a, 0)) == -Det(a)
  {
    var n, b := |a|, SwapRows(a, 0);
    forall p | 0 <= p < n ensures PairSum(b, p) == -PairColumn(a, p) {
      PairSumSwapped(a, p);
    }
    SumNegate(n, p => PairSum(b, p), q => PairColumn(a, q));
    PairSumsExchange(a);
    TwoRowExpansion(a);
    TwoRowExpansion(b);
  }

  lemma MinorKeepsSwap(a: Matrix, i: int, j: int)
    requires 0 < i < |a| - 1 && 0 <= j < |a|
    ensures Minor(SwapRows(a, i), 0, j) == SwapRows(Minor(a, 0, j), i - 1)
  {
    SameEntries(Minor(SwapRows(a, i), 0, j), SwapRows(Minor(a, 0, j), i - 1));
  }

  lemma SwapAdjacentTerm(a: Matrix, i: int, j: int)
    requires 0 < i < |a| - 1 && 0 <= j < |a|
    requires Det(SwapRows(Minor(a, 0, j), i - 1)) == -Det(Minor(a, 0, j))
    ensures DetTerm(SwapRows(a, i), j) == -DetTerm(a, j)
  {
    hide Build, Det;
    MinorKeepsSwap(a, i, j);
    assert At(SwapRows(a, i), 0, j) == At(a, 0, j);
    SignedProduct(0, At(a, 0, j), 1, Det(Minor(a, 0, j)));
  }

  /** Swapping any two adjacent rows negates the determinant. */
  lemma {:induction false} SwapAdjacentRows(a: Matrix, i: int)
    requires 0 <= i < |a| - 1
    ensures Det(SwapRows(a, i)) == -Det(a)
    decreases |a|
  {
    if i == 0 {
      SwapFirstRows(a);
    } else {
      var b := SwapRows(a, i);
      forall j | 0 <= j < |a| ensures DetTerm(b, j) == -DetTerm(a, j) {
        SwapAdjacentRows(Minor(a, 0, j), i - 1);
        SwapAdjacentTerm(a, i, j);
      }
      SumNegate(|a|, j => DetTerm(b, j), j => DetTerm(a, j));
    }
  }

  // ---------------------------------------------------------------- expansion along any row

  lemma MinorOfSwap(a: Matrix, i: int, j: int)
    requires 0 <= i < |a| - 1 && 0 <= j < |a|
    ensures Minor(SwapRows(a, i), i, j) == Minor(a, i + 1, j)
  {
    SameEntries(Minor(SwapRows(a, i), i, j), Minor(a, i + 1, j));
  }

  lemma RowTermUp(a: Matrix, i: int, j: int)
    requires 0 < i < |a| && 0 <= j < |a|
    ensures At(a, i, j) * Cofactor(a, i, j)
         == -(At(SwapRows(a, i - 1), i - 1, j) * Cofactor(SwapRows(a, i - 1), i - 1, j))
  {
    MinorOfSwap(a, i - 1, j);
    assert At(SwapRows(a, i - 1), i - 1, j) == At(a, i, j);
    SignedProduct(0, At(a, i, j), 1, Cofactor(a, i, j));
  }

  /** Cofactor expansion along every row gives the determinant. */
  lemma {:induction false} RowExpansionIsDet(a: Matrix, i: int)
    requires 0 <= i < |a|
    ensures RowExpansion(a, i, i) == Det(a)
    decreases i
  {
    if i == 0 {
      forall j | 0 <= j < |a| ensures At(a, 0, j) * Cofactor(a, 0, j) == DetTerm(a, j) {
        SignedProduct(0, At(a, 0, j), j, Det(Minor(a, 0, j)));
      }
      SumCong(|a|, j => At(a, 0, j) * Cofactor(a, 0, j), j => DetTerm(a, j));
    } else {
      RowExpansionUp(a, i);
      RowExpansionIsDet(SwapRows(a, i - 1), i - 1);
      SwapAdjacentRows(a, i - 1);
    }
  }

  lemma RowExpansionUp(a: Matrix, i: int)
    requires 0 < i < |a|
    ensures RowExpansion(a, i, i) == -RowExpansion(SwapRows(a, i - 1), i - 1, i - 1)
  {
    var b := SwapRows(a, i - 1);
    forall j | 0 <= j < |a| ensures At(a, i, j) * Cofactor(a, i, j) == -(At(b, i - 1, j) * Cofactor(b, i - 1, j)) {
      RowTermUp(a, i, j);
    }
    SumNegate(|a|, j => At(a, i, j) * Cofactor(a, i, j), j => At(b, i - 1, j) * Cofactor(b, i - 1, j));
  }

  /** A matrix with two equal rows has determinant zero. */
  lemma {:induction false} EqualRows(a: Matrix, i: int, k: int)
    requires Square(a) && 0 <= i < k < |a|
    requires forall j :: 0 <= j < |a| ==> At(a, i, j) == At(a, k, j)
    ensures Det(a) == 0
    decreases k
  {
    var b := SwapRows(a, k - 1);
    SwapAdjacentRows(a, k - 1);
    if k == i + 1 {
      SameEntries(a, b);
    } else {
      EqualRows(b, i, k - 1);
    }
  }

  /** Expanding row k with the cofactors of another row gives zero. */
  lemma AlienRowExpansion(a: Matrix, k: int, i: int)
    requires 0 <= i < |a| && 0 <= k < |a| && i != k
    ensures RowExpansion(a, k, i) == 0
  {
    var b := ReplaceRow(a, i, k);
    if i < k { EqualRows(b, i, k); } else { EqualRows(b, k, i); }
    RowExpansionIsDet(b, i);
    forall j | 0 <= j < |a| ensures At(a, k, j) * Cofactor(a, i, j) == At(b, i, j) * Cofactor(b, i, j) {
      SameEntries(Minor(a, i, j), Minor(b, i, j));
    }
    SumCong(|a|, j => At(a, k, j) * Cofactor(a, i, j), j => At(b, i, j) * Cofactor(b, i, j));
  }

  // ---------------------------------------------------------------- columns, by transposition

  /** The summand of the expansion along the first row and then the first column. */
  function HookTerm(a: Matrix, i: int, q: int): int
    requires |a| >= 2
  {
    Signed(i + q + 1, At(a, i + 1, 0) * (At(a, 0, q + 1) * Det(Minor(Minor(a, i + 1, 0), 0, q))))
  }

  function HookRow(a: Matrix, i: int): int
    requires |a| >= 2
  {
    Sum(|a| - 1, q => HookTerm(a, i, q))
  }

  function HookColumn(a: Matrix, q: int): int
    requires |a| >= 2
  {
    Sum(|a| - 1, i => HookTerm(a, i, q))
  }

  lemma HookMinors(a: Matrix, i: int, q: int)
    requires |a| >= 2 && 0 <= i < |a| - 1 && 0 <= q < |a| - 1
    ensures Minor(Minor(a, 0, q + 1), i, 0) == Minor(Minor(a, i + 1, 0), 0, q)
  {
    SameEntries(Minor(Minor(a, 0, q + 1), i, 0), Minor(Minor(a, i + 1, 0), 0, q));
  }

  lemma RowFirstEntry(a: Matrix, i: int, q: int)
    requires |a| >= 2 && 0 <= i < |a| - 1 && 0 <= q < |a| - 1
    ensures var m := Minor(a, 0, q + 1);
            Signed(q + 1, At(a, 0, q + 1)) * (At(m, i, 0) * Cofactor(m, i, 0)) == HookTerm(a, i, q)
  {
    HookMinors(a, i, q);
    var m := Minor(a, 0, q + 1);
    var x, y, d := At(a, 0, q + 1), At(m, i, 0), Det(Minor(m, i, 0));
    assert y == At(a, i + 1, 0);
    SignedProduct(0, y, i, d);
    SignedProduct(q + 1, x, i, y * d);
    MulSwap(x, y, d);
  }

  lemma RowFirst(a: Matrix, q: int)
    requires |a| >= 2 && 0 <= q < |a| - 1
    requires ColumnExpansion(Minor(a, 0, q + 1), 0, 0) == Det(Minor(a, 0, q + 1))
    ensures DetTerm(a, q + 1) == HookColumn(a, q)
  {
    hide Build, Det, DetTerm;
    var m, k := Minor(a, 0, q + 1), Signed(q + 1, At(a, 0, q + 1));
    var f, g := i => At(m, i, 0) * Cofactor(m, i, 0), i => HookTerm(a, i, q);
    forall i | 0 <= i < |a| - 1 ensures g(i) == k * f(i) {
      RowFirstEntry(a, i, q);
    }
    SumScale(|a| - 1, k, f, g);
    DetTermFactors(a, q + 1);
  }

  lemma ColumnFirstEntry(a: Matrix, i: int, q: int)
    requires |a| >= 2 && 0 <= i < |a| - 1 && 0 <= q < |a| - 1
    ensures Signed(i + 1, At(a, i + 1, 0)) * DetTerm(Minor(a, i + 1, 0), q) == HookTerm(a, i, q)
  {
    var m := Minor(a, i + 1, 0);
    assert At(m, 0, q) == At(a, 0, q + 1);
    SignedProduct(i + 1, At(a, i + 1, 0), q, At(m, 0, q) * Det(Minor(m, 0, q)));
  }

  lemma ColumnFirst(a: Matrix, i: int)
    requires |a| >= 2 && 0 <= i < |a| - 1
    ensures At(a, i + 1, 0) * Cofactor(a, i + 1, 0) == HookRow(a, i)
  {
    hide Build, DetTerm, HookTerm;
    var m, k := Minor(a, i + 1, 0), Signed(i + 1, At(a, i + 1, 0));
    var f, g := j => DetTerm(m, j), q => HookTerm(a, i, q);
    forall q | 0 <= q < |a| - 1 ensures g(q) == k * f(q) {
      ColumnFirstEntry(a, i, q);
    }
    SumScale(|a| - 1, k, f, g);
    SignedProduct(i + 1, At(a, i + 1, 0), 0, Det(m));
    SignedProduct(0, At(a, i + 1, 0), i + 1, Det(m));
  }

  lemma HookExchange(a: Matrix)
    requires |a| >= 2
    ensures Sum(|a| - 1, i => HookRow(a, i)) == Sum(|a| - 1, q => HookColumn(a, q))
  {
    var n, f := |a| - 1, (i: int, q: int) => HookTerm(a, i, q);
    forall k | 0 <= k < n ensures HookRow(a, k) == Sum(n, q => f(k, q)) && HookColumn(a, k) == Sum(n, i => f(i, k)) {
      SumCong(n, q => HookTerm(a, k, q), q => f(k, q));
      SumCong(n, i => HookTerm(a, i, k), i => f(i, k));
    }
    SumExchange(n, n, f, i => HookRow(a, i), q => HookColumn(a, q));
  }

  lemma CornerTerm(a: Matrix)
    requires |a| > 0
    ensures DetTerm(a, 0) == At(a, 0, 0) * Cofactor(a, 0, 0)
  {
    hide Det;
  }

  lemma FirstRowMeetsFirstColumn(a: Matrix)
    requires |a| >= 2
    requires forall q :: 0 <= q < |a| - 1 ==> DetTerm(a, q + 1) == HookColumn(a, q)
    requires forall i :: 0 <= i < |a| - 1 ==> At(a, i + 1, 0) * Cofactor(a, i + 1, 0) == HookRow(a, i)
    ensures ColumnExpansion(a, 0, 0) == Det(a)
  {
    hide Build, Det, DetTerm, Cofactor, HookRow, HookColumn;
    var f, g := j => DetTerm(a, j), i => At(a, i, 0) * Cofactor(a, i, 0);
    SumShift(|a|, f);
    SumShift(|a|, g);
    SumCong(|a| - 1, j => f(j + 1), q => HookColumn(a, q));
    SumCong(|a| - 1, i => g(i + 1), i => HookRow(a, i));
    HookExchange(a);
    DetAsSum(a);
    CornerTerm(a);
  }

  /** Cofactor expansion down the first column gives the determinant. */
  lemma {:induction false} FirstColumnIsDet(a: Matrix)
    requires |a| >= 1
    ensures ColumnExpansion(a, 0, 0) == Det(a)
    decreases |a|
  {
    if |a| == 1 {
        SumCong(1, i => At(a, i, 0) * Cofactor(a, i, 0), j => DetTerm(a, j));
    } else {
      forall q | 0 <= q < |a| - 1
        ensures DetTerm(a, q + 1) == HookColumn(a, q)
        ensures At(a, q + 1, 0) * Cofactor(a, q + 1, 0) == HookRow(a, q)
      {
        FirstColumnIsDet(Minor(a, 0, q + 1));
        RowFirst(a, q);
        ColumnFirst(a, q);
      }
      FirstRowMeetsFirstColumn(a);
    }
  }

  lemma TransposeMinor(a: Matrix, i: int, j: int)
    requires 0 <= i < |a| && 0 <= j < |a|
    ensures Minor(Transpose(a), j, i) == Transpose(Minor(a, i, j))
  {
    SameEntries(Minor(Transpose(a), j, i), Transpose(Minor(a, i, j)));
  }

  /** Transposition keeps the determinant. */
  lemma {:induction false} TransposeKeepsDet(a: Matrix)
    ensures Det(Transpose(a)) == Det(a)
    decreases |a|
  {
    if |a| > 0 {
      var b := Transpose(a);
      forall j | 0 <= j < |a| ensures DetTerm(b, j) == At(a, j, 0) * Cofactor(a, j, 0) {
        TransposeMinor(a, j, 0);
        TransposeKeepsDet(Minor(a, j, 0));
        SignedProduct(0, At(a, j, 0), j, Det(Minor(a, j, 0)));
      }
      SumCong(|a|, j => DetTerm(b, j), j => At(a, j, 0) * Cofactor(a, j, 0));
      FirstColumnIsDet(a);
    }
  }

  /** Columns expand like the rows of the transposed matrix. */
  lemma ColumnExpansionByTranspose(a: Matrix, k: int, j: int)
    requires 0 <= k < |a| && 0 <= j < |a|
    ensures ColumnExpansion(a, k, j) == RowExpansion(Transpose(a), k, j)
  {
    var b := Transpose(a);
    forall i | 0 <= i < |a| ensures At(a, i, k) * Cofactor(a, i, j) == At(b, k, i) * Cofactor(b, j, i) {
      TransposeMinor(a, i, j);
      TransposeKeepsDet(Minor(a, i, j));
    }
    SumCong(|a|, i => At(a, i, k) * Cofactor(a, i, j), i => At(b, k, i) * Cofactor(b, j, i));
  }

  /** Cofactor expansion down column j: the determinant for column j itself, zero for any other column. */
  lemma ColumnExpansionIsDet(a: Matrix, k: int, j: int)
    requires 0 <= k < |a| && 0 <= j < |a|
    ensures ColumnExpansion(a, k, j) == if k == j then Det(a) else 0
  {
    ColumnExpansionByTranspose(a, k, j);
    TransposeKeepsDet(a);
    if k == j { RowExpansionIsDet(Transpose(a), j); } else { AlienRowExpansion(Transpose(a), k, j); }
  }

  // ---------------------------------------------------------------- the adjugate

  function Adjugate(a: Matrix): (b: Matrix)
    requires |a| > 0
    ensures |b| == |a| && Square(b)
    ensures forall r, c :: 0 <= r < |b| && 0 <= c < |b| ==> At(b, r, c) == Cofactor(a, c, r)
  {
    Build(|a|, (r, c) => Cofactor(a, c, r))
  }

  function Mul(a: Matrix, b: Matrix): (m: Matrix)
    ensures |m| == |a| && Square(m)
    ensures forall i, j :: 0 <= i < |m| && 0 <= j < |m| ==> At(m, i, j) == Entry(a, b, i, j)
  {
    Build(|a|, (i, j) => Entry(a, b, i, j))
  }

  /** The entry at row i and column j of the product of a and b. */
  function Entry(a: Matrix, b: Matrix, i: int, j: int): int {
    Sum(|a|, k => At(a, i, k) * At(b, k, j))
  }

  function Scalar(n: nat, d: int): (m: Matrix)
    ensures |m| == n && Square(m)
    ensures forall i, j :: 0 <= i < n && 0 <= j < n ==> At(m, i, j) == if i == j then d else 0
  {
    Build(n, (i, j) => if i == j then d else 0)
  }

  lemma AdjugateEntries(a: Matrix, i: int, j: int)
    requires 0 <= i < |a| && 0 <= j < |a|
    ensures Entry(a, Adjugate(a), i, j) == RowExpansion(a, i, j)
    ensures Entry(Adjugate(a), a, i, j) == ColumnExpansion(a, j, i)
  {
    hide Build, Det;
    var n, b := |a|, Adjugate(a);
    SumCong(n, k => At(a, i, k) * At(b, k, j), k => At(a, i, k) * Cofactor(a, j, k));
    SumCong(n, k => At(b, i, k) * At(a, k, j), k => At(a, k, j) * Cofactor(a, k, i));
  }

  /** The adjugate formula, on both sides and for every size. */
  lemma AdjugateFormula(a: Matrix)
    requires |a| > 0
    ensures Mul(a, Adjugate(a)) == Scalar(|a|, Det(a)) == Mul(Adjugate(a), a)
  {
    forall i, j | 0 <= i < |a| && 0 <= j < |a|
      ensures Entry(a, Adjugate(a), i, j) == (if i == j then Det(a) else 0) == Entry(Adjugate(a), a, i, j)
    {
      AdjugateEntries(a, i, j);
      ColumnExpansionIsDet(a, j, i);
      if i == j { RowExpansionIsDet(a, i); } else { AlienRowExpansion(a, i, j); }
    }
    SameEntries(Mul(a, Adjugate(a)), Scalar(|a|, Det(a)));
    SameEntries(Mul(Adjugate(a), a), Scalar(|a|, Det(a)));
  }
}
