/**
 * The integer helpers of the legacy array.js. Each is the same computation as its
 * helpers.js counterpart, so it is defined by it; the contracts restate what array.js
 * promises its callers and the examples are those of test.js.
 */
module Arrays {
  import opened Wrappers
  import Helpers

  /** `indexOfMinValue(arr)`: first index of a smallest value, 0 for an empty array. */
  function IndexOfMinValue(a: seq<int>): (r: nat)
    ensures |a| == 0 ==> r == 0
    ensures |a| > 0 ==> r < |a| && (forall j :: 0 <= j < |a| ==> a[r] <= a[j])
    ensures forall j :: 0 <= j < r && j < |a| ==> a[r] < a[j]
  {
    Helpers.MinimumIndex(a)
  }

  /** `generate(length)`: `[0, ..., length - 1]`. */
  function Generate(n: nat): (r: seq<nat>)
    ensures |r| == n && forall i :: 0 <= i < n ==> r[i] == i
  {
    Helpers.GenerateArray(n)
  }

  /** `sum(arr)`. */
  function Sum(a: seq<int>): int
  {
    Helpers.Sum(a)
  }

  /** `wrapIndex(index, length)`. */
  function WrapIndex(i: int, n: nat): (r: Option<int>)
    ensures n > 0 ==> r.Some? && 0 <= r.value < n && (r.value - i) % n == 0
    ensures n == 0 ==> r.None?
  {
    if n > 0 then
      Helpers.DivModUnique(i % n - i, n, -(i / n), 0);
      Helpers.WrapIndex(i, n)
    else Helpers.WrapIndex(i, n)
  }

  /**
   * The array.js assertions of test.js. The floating-point example `[3.332, 0.11, 1]` is
   * scaled by 1000 to integers, which keeps its order.
   */
  lemma TestVectors()
    ensures IndexOfMinValue([3332, 110, 1000]) == 1
    ensures Generate(3) == [0, 1, 2]
    ensures Sum([1, 2, 3]) == 6 && Sum([]) == 0
    ensures WrapIndex(0, 4) == Some(0) && WrapIndex(4, 4) == Some(0) && WrapIndex(9, 4) == Some(1)
  {
    Helpers.SumExamples();
    assert Helpers.GenerateArray(3) == [0, 1, 2];
  }
}
