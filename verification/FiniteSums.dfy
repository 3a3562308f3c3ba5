/** Finite sums of integers, indexed from 0. */
module FiniteSums {

  function Sum(n: nat, f: int -> int): int {
    if n == 0 then 0 else Sum(n - 1, f) + f(n - 1)
  }

  lemma {:induction false} SumCong(n: nat, f: int -> int, g: int -> int)
    requires forall i :: 0 <= i < n ==> f(i) == g(i)
    ensures Sum(n, f) == Sum(n, g)
  {
    if n > 0 { SumCong(n - 1, f, g); }
  }

  /** A common factor can be taken out of a sum. */
  lemma {:induction false} SumScale(n: nat, k: int, f: int -> int, g: int -> int)
    requires forall i :: 0 <= i < n ==> g(i) == k * f(i)
    ensures Sum(n, g) == k * Sum(n, f)
  {
    if n > 0 {
      SumScale(n - 1, k, f, g);
      assert k * Sum(n, f) == k * Sum(n - 1, f) + k * f(n - 1);
    }
  }

  lemma {:induction false} SumNegate(n: nat, f: int -> int, g: int -> int)
    requires forall i :: 0 <= i < n ==> f(i) == -g(i)
    ensures Sum(n, f) == -Sum(n, g)
  {
    if n > 0 { SumNegate(n - 1, f, g); }
  }

  lemma {:induction false} SumAdd(n: nat, f: int -> int, g: int -> int)
    ensures Sum(n, i => f(i) + g(i)) == Sum(n, f) + Sum(n, g)
  {
    if n > 0 { SumAdd(n - 1, f, g); }
  }

  lemma {:induction false} SumZero(n: nat, f: int -> int)
    requires forall i :: 0 <= i < n ==> f(i) == 0
    ensures Sum(n, f) == 0
  {
    if n > 0 { SumZero(n - 1, f); }
  }

  /** A sum with a single non-zero term. */
  lemma {:induction false} SumPick(n: nat, k: int, f: int -> int)
    requires 0 <= k < n && forall i :: 0 <= i < n && i != k ==> f(i) == 0
    ensures Sum(n, f) == f(k)
  {
    if k == n - 1 { SumZero(n - 1, f); } else { SumPick(n - 1, k, f); }
  }

  /** The first term can be split off as well as the last. */
  lemma {:induction false} SumShift(n: nat, f: int -> int)
    requires n > 0
    ensures Sum(n, f) == f(0) + Sum(n - 1, i => f(i + 1))
  {
    if n > 1 { SumShift(n - 1, f); }
  }

  /** Two nested sums can be exchanged; rows and columns are the inner sums, under any name. */
  lemma SumExchange(n: nat, m: nat, f: (int, int) -> int, rows: int -> int, columns: int -> int)
    requires forall i :: 0 <= i < n ==> rows(i) == Sum(m, j => f(i, j))
    requires forall j :: 0 <= j < m ==> columns(j) == Sum(n, i => f(i, j))
    ensures Sum(n, rows) == Sum(m, columns)
  {
    SumSwap(n, m, f);
    SumCong(n, rows, i => Sum(m, j => f(i, j)));
    SumCong(m, columns, j => Sum(n, i => f(i, j)));
  }

  lemma {:induction false} SumSwap(n: nat, m: nat, f: (int, int) -> int)
    ensures Sum(n, i => Sum(m, j => f(i, j))) == Sum(m, j => Sum(n, i => f(i, j)))
  {
    var rows := i => Sum(m, j => f(i, j));
    if n == 0 {
      SumZero(m, j => Sum(n, i => f(i, j)));
    } else {
      SumSwap(n - 1, m, f);
      var last, rest := j => f(n - 1, j), j => Sum(n - 1, i => f(i, j));
      SumAdd(m, rest, last);
      SumCong(m, j => Sum(n, i => f(i, j)), j => rest(j) + last(j));
      SumCong(n - 1, rows, i => Sum(m, j => f(i, j)));
      SumCong(m, last, j => f(n - 1, j));
    }
  }
}
