/**
  What several parts of the model share.
 */
module Basics {
  datatype Option<T> = None | Some(value: T)

  ghost predicate Distinct(q: seq<nat>) {
    forall i, j :: 0 <= i < j < |q| ==> q[i] != q[j]
  }

  function Pow2(k: nat): (p: nat)
    ensures p > 0
  {
    if k == 0 then 1 else 2 * Pow2(k - 1)
  }

  function TrailingZeros(n: nat): nat
    requires n > 0
  {
    if n % 2 == 1 then 0 else 1 + TrailingZeros(n / 2)
  }

  lemma SmallRemainder(x: int, m: int)
    requires m > 0
    ensures 0 <= x < m ==> x % m == x
  {
  }

  /** Different multiples of m are at least m apart. */
  lemma Apart(m: int, k: int)
    requires m >= 0
    ensures k >= 1 ==> m * k >= m
    ensures k <= -1 ==> m * k <= -m
  {
    if k >= 1 {
      assert m * k == m + m * (k - 1);
      assert m * (k - 1) >= 0;
    }
    if k <= -1 {
      assert m * k == -m + m * (k + 1);
      assert m * (k + 1) <= 0;
    }
  }
}
