/**
 The constructor of the Hill cipher accepts exactly the key matrices that have an inverse modulo 26.
 */
module HillKeys {
  import opened NumberTheory
  import opened Determinants
  import opened DeterminantProduct
  import opened HillCipher

  /** Congruent matrices have congruent determinants. */
  lemma {:induction false} DetCongruent(a: Matrix, b: Matrix)
    requires CongruentMatrices(a, b)
    ensures Det(a) % 26 == Det(b) % 26
    decreases |a|
  {
    hide Build;
    if |a| > 0 {
      var f, g := j => DetTerm(a, j), j => DetTerm(b, j);
      forall j | 0 <= j < |a| ensures f(j) % 26 == g(j) % 26 {
        MinorsCongruent(a, b, j);
        DetCongruent(Minor(a, 0, j), Minor(b, 0, j));
        TermsCongruent(j, At(a, 0, j), At(b, 0, j), Det(Minor(a, 0, j)), Det(Minor(b, 0, j)));
      }
      SumCongruent(|a|, 26, f, g);
      DetAsTerms(a, f);
      DetAsTerms(b, g);
    }
  }

  lemma MinorsCongruent(a: Matrix, b: Matrix, j: int)
    requires CongruentMatrices(a, b) && 0 <= j < |a|
    ensures CongruentMatrices(Minor(a, 0, j), Minor(b, 0, j))
  {
    hide Build;
  }

  lemma TermsCongruent(j: int, x: int, y: int, d: int, e: int)
    requires x % 26 == y % 26 && d % 26 == e % 26
    ensures Signed(j, x * d) % 26 == Signed(j, y * e) % 26
  {
    CongMul(x, y, d, 26);
    CongMul(d, e, y, 26);
    assert x * d % 26 == y * e % 26;
    CongMul(x * d, y * e, -1, 26);
  }

  lemma {:induction false} DetIdentity(n: nat)
    ensures Det(Scalar(n, 1)) == 1
  {
    hide Build;
    if n > 0 {
      DetIdentity(n - 1);
      BlockDeterminant(Scalar(n, 1), Scalar(1, 1), Scalar(n - 1, 1));
      DetOfOne(Scalar(1, 1));
    }
  }

  /** A matrix with a right inverse has a unit for a determinant. */
  lemma RightInverseMakesUnit(a: Matrix, b: Matrix)
    requires |a| >= 2 && |b| == |a| && Square(b) && CongruentMatrices(Mul(a, b), Scalar(|a|, 1))
    ensures Usable(a)
  {
    DetCongruent(Mul(a, b), Scalar(|a|, 1));
    DetIdentity(|a|);
    DeterminantOfProduct(a, b);
    hide Det, Build, CongruentMatrices;
    ModIdem(Det(a), 26);
    CongMul(Det(a), Det(a) % 26, Det(b), 26);
    assert Det(a) % 26 * Det(b) % 26 == 1;
    ModIdem(Det(b), 26);
    CongMul(Det(b) % 26, Det(b), Det(a) % 26, 26);
    assert Det(a) % 26 * (Det(b) % 26) % 26 == 1;
    InverseMeansCoprime(Det(a) % 26, Det(b) % 26, 26);
  }

  function ScaledBy(a: Matrix, k: int): (b: Matrix)
    requires |a| > 0
    ensures |b| == |a| && Square(b)
    ensures forall i, j :: 0 <= i < |b| && 0 <= j < |b| ==> At(b, i, j) == Cofactor(a, j, i) * k
  {
    Build(|a|, (i, j) => Cofactor(a, j, i) * k)
  }

  /** No key matrix of size 2 or more that has an inverse modulo 26 is refused, and no other is accepted. */
  lemma UsableIffInvertible(a: Matrix)
    requires |a| >= 2
    ensures Usable(a) <==> exists b :: |b| == |a| && Square(b) && InverseMod26(a, b)
  {
    if Usable(a) {
      hide Det, Build, Cofactor, Gcd;
      var k := CoprimeHasInverse(Det(a) % 26, 26);
      ModIdem(Det(a), 26);
      CongMul(Det(a), Det(a) % 26, k, 26);
      var b := ScaledBy(a, k);
      ScaledAdjugateInverts(a, b, k);
      assert |b| == |a| && Square(b) && InverseMod26(a, b);
    }
    if b :| |b| == |a| && Square(b) && InverseMod26(a, b) {
      RightInverseMakesUnit(a, b);
    }
  }
}
