/** The integer helpers of helpers.js: minimumIndex, generateArray, sum and wrapIndex. */
module Helpers {
  import opened Wrappers

  /** `r` is the first position of a smallest element of `a`. */
  ghost predicate IsFirstMin(a: seq<int>, r: nat) {
    && r < |a|
    && (forall j :: 0 <= j < |a| ==> a[r] <= a[j])
    && (forall j :: 0 <= j < r ==> a[r] < a[j])
  }

  /** The `reduce` of `minimumIndex` after visiting the first `k` elements. */
  function MinIndexUpTo(a: seq<int>, k: nat): (r: nat)
    requires 0 < k <= |a|
    ensures r < k
    ensures forall j :: 0 <= j < k ==> a[r] <= a[j]
    ensures forall j :: 0 <= j < r ==> a[r] < a[j]
    decreases k
  {
    if k == 1 then 0
    else
      var m := MinIndexUpTo(a, k - 1);
      if a[k - 1] < a[m] then k - 1 else m
  }

  /**
   * `minimumIndex(arr)`: the reduce starts from index 0 and moves only on a strictly
   * smaller value, so ties go to the earliest index; an empty array gives 0.
   */
  function MinimumIndex(a: seq<int>): (r: nat)
    ensures |a| == 0 ==> r == 0
    ensures |a| > 0 ==> IsFirstMin(a, r)
  {
    if |a| == 0 then 0 else MinIndexUpTo(a, |a|)
  }

  /** The first smallest position is unique, so `MinimumIndex` is the only index that fits it. */
  lemma MinimumIndexUnique(a: seq<int>, r: nat)
    requires IsFirstMin(a, r)
    ensures MinimumIndex(a) == r
  {
  }

  /** `generateArray(length)`: the array `[0, 1, ..., length - 1]`. */
  function GenerateArray(n: nat): (r: seq<nat>)
    ensures |r| == n
    ensures forall i :: 0 <= i < n ==> r[i] == i
    decreases n
  {
    if n == 0 then [] else GenerateArray(n - 1) + [n - 1]
  }

  /** Every index below `n` occurs exactly once in `generateArray(n)`, and nothing else does. */
  lemma {:induction false} GenerateArrayCount(n: nat, x: nat)
    ensures multiset(GenerateArray(n))[x] == if x < n then 1 else 0
    decreases n
  {
    if n > 0 {
      GenerateArrayCount(n - 1, x);
      var last: nat := n - 1;
      assert multiset(GenerateArray(n)) == multiset(GenerateArray(n - 1)) + multiset{last};
    }
  }

  /** `sum(...args)`: the reduce from 0, adding left to right. */
  function Sum(args: seq<int>): int
    decreases |args|
  {
    if |args| == 0 then 0 else Sum(args[..|args| - 1]) + args[|args| - 1]
  }

  /** A sum splits over concatenation. */
  lemma {:induction false} SumAppend(a: seq<int>, b: seq<int>)
    ensures Sum(a + b) == Sum(a) + Sum(b)
    decreases |b|
  {
    if |b| == 0 {
      assert a + b == a;
    } else {
      assert (a + b)[..|a + b| - 1] == a + b[..|b| - 1];
      SumAppend(a, b[..|b| - 1]);
    }
  }

  /** The examples of helpers.test.js and the empty call. */
  lemma SumExamples()
    ensures Sum([]) == 0
    ensures Sum([1, 2, 3]) == 6
  {
    assert [1, 2, 3][..2] == [1, 2];
    assert [1, 2][..1] == [1];
    assert [1][..0] == [];
  }

  /** JavaScript `a % m` for a positive `m`: the remainder takes the sign of the dividend. */
  function JsRem(a: int, m: int): int
    requires m > 0
  {
    if a >= 0 then a % m else -((-a) % m)
  }

  /** Euclidean division is determined by quotient and remainder. */
  lemma DivModUnique(x: int, n: int, q: int, r: int)
    requires n > 0 && 0 <= r < n
    requires x == q * n + r
    ensures x % n == r
  {
    var d := q - x / n;
    assert d * n == x % n - r;
  }

  /**
   * `wrapIndex(index, length)` is `((index % length) + length) % length` with JavaScript's
   * truncating remainder; a zero length gives NaN, modelled as `None`.
   */
  function WrapIndex(i: int, n: nat): (r: Option<int>)
    ensures r.None? <==> n == 0
    ensures n > 0 ==> r == Some(i % n)
  {
    if n == 0 then None
    else
      WrapIndexIsEuclidean(i, n);
      Some(JsRem(JsRem(i, n) + n, n))
  }

  lemma WrapIndexIsEuclidean(i: int, n: int)
    requires n > 0
    ensures JsRem(JsRem(i, n) + n, n) == i % n
  {
    if i >= 0 {
      var q := i % n;
      DivModUnique(q + n, n, 1, q);
      DivModUnique(i, n, i / n, q);
    } else {
      var q := (-i) % n;
      var k := (-i) / n;
      assert -i == k * n + q;
      if q == 0 {
        DivModUnique(n, n, 1, 0);
        DivModUnique(i, n, -k, 0);
      } else {
        DivModUnique(n - q, n, 0, n - q);
        DivModUnique(i, n, -(k + 1), n - q);
      }
    }
  }

  /** `wrapIndex` stays in range, is the identity inside it, and has period `n`. */
  lemma WrapIndexLaws(i: int, n: nat)
    requires n > 0
    ensures 0 <= WrapIndex(i, n).value < n
    ensures 0 <= i < n ==> WrapIndex(i, n) == Some(i)
    ensures WrapIndex(i + n, n) == WrapIndex(i, n)
  {
    if 0 <= i < n {
      DivModUnique(i, n, 0, i);
    }
    DivModUnique(i + n, n, i / n + 1, i % n);
  }

  /** The examples of test.js for array.js's identical `wrapIndex`. */
  lemma WrapIndexExamples()
    ensures WrapIndex(0, 4) == Some(0) && WrapIndex(4, 4) == Some(0) && WrapIndex(9, 4) == Some(1)
  {
  }
}
