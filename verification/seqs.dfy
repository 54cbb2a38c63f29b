/** Small generic sequence utilities: the JavaScript `filter`, counting and repetition. */
module Seqs {

  /** `s.filter(f)`: the elements of `s` satisfying `f`, in their original order. */
  function Filter<T(!new)>(s: seq<T>, f: T -> bool): (r: seq<T>)
    ensures |r| <= |s|
    ensures forall x :: x in r <==> x in s && f(x)
    ensures forall i :: 0 <= i < |r| ==> f(r[i])
    decreases |s|
  {
    if |s| == 0 then [] else (if f(s[0]) then [s[0]] else []) + Filter(s[1..], f)
  }

  lemma {:induction false} FilterAppend<T(!new)>(a: seq<T>, b: seq<T>, f: T -> bool)
    ensures Filter(a + b, f) == Filter(a, f) + Filter(b, f)
    decreases |a|
  {
    if |a| == 0 {
      assert a + b == b;
    } else {
      assert (a + b)[1..] == a[1..] + b;
      FilterAppend(a[1..], b, f);
    }
  }

  /** A filter that every element passes changes nothing. */
  lemma {:induction false} FilterKeepsAll<T(!new)>(s: seq<T>, f: T -> bool)
    requires forall i :: 0 <= i < |s| ==> f(s[i])
    ensures Filter(s, f) == s
    decreases |s|
  {
    if |s| > 0 {
      FilterKeepsAll(s[1..], f);
      assert [s[0]] + s[1..] == s;
    }
  }

  /** A filter that only the element at `k` fails removes exactly that element, keeping the order. */
  lemma {:induction false} FilterDropsOne<T(!new)>(s: seq<T>, f: T -> bool, k: nat)
    requires k < |s| && !f(s[k])
    requires forall i :: 0 <= i < |s| && i != k ==> f(s[i])
    ensures Filter(s, f) == s[..k] + s[k + 1..]
    decreases |s|
  {
    if k == 0 {
      FilterKeepsAll(s[1..], f);
    } else {
      FilterDropsOne(s[1..], f, k - 1);
      assert s[..k] + s[k + 1..] == [s[0]] + (s[1..][..k - 1] + s[1..][k..]);
    }
  }

  /** Filtering twice is filtering once by the conjunction. */
  lemma {:induction false} FilterFilter<T(!new)>(s: seq<T>, f: T -> bool, g: T -> bool, h: T -> bool)
    requires forall x :: h(x) == (f(x) && g(x))
    ensures Filter(Filter(s, f), g) == Filter(s, h)
    decreases |s|
  {
    if |s| > 0 {
      FilterFilter(s[1..], f, g, h);
      var rest := Filter(s[1..], f);
      if f(s[0]) {
        assert Filter(s, f) == [s[0]] + rest;
        assert ([s[0]] + rest)[1..] == rest;
      } else {
        assert Filter(s, f) == rest;
      }
    }
  }

  /** Filtering by a predicate and by its negation splits the multiset of `s` in two. */
  lemma {:induction false} FilterSplitsMultiset<T(!new)>(s: seq<T>, f: T -> bool, g: T -> bool)
    requires forall x :: g(x) == !f(x)
    ensures multiset(Filter(s, f)) + multiset(Filter(s, g)) == multiset(s)
    decreases |s|
  {
    if |s| > 0 {
      FilterSplitsMultiset(s[1..], f, g);
      assert s == [s[0]] + s[1..];
    }
  }

  /** The number of elements of `s` satisfying `f`. */
  function Count<T(!new)>(s: seq<T>, f: T -> bool): (r: nat)
    ensures r <= |s|
    ensures r == |Filter(s, f)|
    decreases |s|
  {
    if |s| == 0 then 0 else (if f(s[0]) then 1 else 0) + Count(s[1..], f)
  }

  /** `[].concat(...Array(k).fill(s))`: `s` written out `k` times in a row. */
  function Repeat<T(!new)>(s: seq<T>, k: nat): (r: seq<T>)
    ensures |r| == k * |s|
    ensures forall x :: x in r <==> k > 0 && x in s
    decreases k
  {
    if k == 0 then [] else s + Repeat(s, k - 1)
  }

  /** Each value occurs `k` times as often in `Repeat(s, k)` as in `s`. */
  lemma {:induction false} RepeatCount<T(!new)>(s: seq<T>, k: nat, x: T)
    ensures multiset(Repeat(s, k))[x] == k * multiset(s)[x]
    decreases k
  {
    if k > 0 {
      RepeatCount(s, k - 1, x);
      var m := multiset(s)[x];
      assert multiset(Repeat(s, k)) == multiset(s) + multiset(Repeat(s, k - 1));
      assert k * m == m + (k - 1) * m;
    }
  }

  /** The sum of `f` over the elements of `s`. */
  function SumOf<T>(s: seq<T>, f: T -> int): int
    decreases |s|
  {
    if |s| == 0 then 0 else f(s[0]) + SumOf(s[1..], f)
  }

  lemma {:induction false} SumOfAppend<T>(a: seq<T>, b: seq<T>, f: T -> int)
    ensures SumOf(a + b, f) == SumOf(a, f) + SumOf(b, f)
    decreases |a|
  {
    if |a| == 0 {
      assert a + b == b;
    } else {
      assert (a + b)[1..] == a[1..] + b;
      SumOfAppend(a[1..], b, f);
    }
  }

  /** A sum splits at any position. */
  lemma SumOfSplit<T>(s: seq<T>, k: nat, f: T -> int)
    requires k <= |s|
    ensures SumOf(s, f) == SumOf(s[..k], f) + SumOf(s[k..], f)
  {
    assert s == s[..k] + s[k..];
    SumOfAppend(s[..k], s[k..], f);
  }

  /** Taking one term out of a sum. */
  lemma SumOfRemove<T>(b: seq<T>, i: nat, f: T -> int)
    requires i < |b|
    ensures SumOf(b, f) == f(b[i]) + SumOf(b[..i] + b[i + 1..], f)
  {
    assert b == (b[..i] + [b[i]]) + b[i + 1..];
    SumOfAppend(b[..i] + [b[i]], b[i + 1..], f);
    SumOfAppend(b[..i], [b[i]], f);
    SumOfAppend(b[..i], b[i + 1..], f);
  }

  /** A sum does not depend on the order of its terms. */
  lemma {:induction false} SumOfPermutation<T>(a: seq<T>, b: seq<T>, f: T -> int)
    requires multiset(a) == multiset(b)
    ensures SumOf(a, f) == SumOf(b, f)
    decreases |a|
  {
    if |a| > 0 {
      assert a[0] in multiset(b);
      var i :| 0 <= i < |b| && b[i] == a[0];
      var rest := b[..i] + b[i + 1..];
      assert a == [a[0]] + a[1..];
      assert multiset(a[1..]) == multiset(a) - multiset{a[0]};
      assert b == b[..i] + [b[i]] + b[i + 1..];
      assert multiset(b) == multiset(b[..i]) + multiset{b[i]} + multiset(b[i + 1..]);
      assert multiset(rest) == multiset(b) - multiset{b[i]};
      SumOfPermutation(a[1..], rest, f);
      SumOfRemove(b, i, f);
    }
  }

  /** Changing one term changes the sum by the difference. */
  lemma SumOfUpdate<T>(s: seq<T>, i: nat, v: T, f: T -> int)
    requires i < |s|
    ensures SumOf(s[i := v], f) == SumOf(s, f) - f(s[i]) + f(v)
  {
    SumOfRemove(s, i, f);
    SumOfRemove(s[i := v], i, f);
    assert s[i := v][..i] + s[i := v][i + 1..] == s[..i] + s[i + 1..];
  }

  /** Sums agree when their terms agree position by position. */
  lemma {:induction false} SumOfPointwise<T, U>(a: seq<T>, f: T -> int, b: seq<U>, g: U -> int)
    requires |a| == |b|
    requires forall i :: 0 <= i < |a| ==> f(a[i]) == g(b[i])
    ensures SumOf(a, f) == SumOf(b, g)
    decreases |a|
  {
    if |a| > 0 {
      SumOfPointwise(a[1..], f, b[1..], g);
    }
  }

  /** A sum of terms each at most `c` is at most `c` times the number of terms. */
  lemma {:induction false} SumOfBound<T>(s: seq<T>, f: T -> int, c: int)
    requires forall i :: 0 <= i < |s| ==> f(s[i]) <= c
    ensures SumOf(s, f) <= c * |s|
    decreases |s|
  {
    if |s| > 0 {
      SumOfBound(s[1..], f, c);
      assert c * |s| == c + c * (|s| - 1);
    }
  }

  /** A sum of terms that are all zero is zero. */
  lemma {:induction false} SumOfZero<T>(s: seq<T>, f: T -> int)
    requires forall i :: 0 <= i < |s| ==> f(s[i]) == 0
    ensures SumOf(s, f) == 0
    decreases |s|
  {
    if |s| > 0 {
      SumOfZero(s[1..], f);
    }
  }

  /** A sum of terms all equal to `c` is `c` times the number of terms. */
  lemma {:induction false} SumOfConst<T>(s: seq<T>, f: T -> int, c: int)
    requires forall i :: 0 <= i < |s| ==> f(s[i]) == c
    ensures SumOf(s, f) == c * |s|
    decreases |s|
  {
    if |s| > 0 {
      SumOfConst(s[1..], f, c);
      assert c * |s| == c + c * (|s| - 1);
    }
  }

  /** If one summand is strictly below the bound, so is the sum. */
  lemma {:induction false} SumOfBoundStrict<T>(s: seq<T>, f: T -> int, c: int, k: nat)
    requires forall i :: 0 <= i < |s| ==> f(s[i]) <= c
    requires k < |s| && f(s[k]) < c
    ensures SumOf(s, f) < c * |s|
    decreases |s|
  {
    if k == 0 {
      SumOfBound(s[1..], f, c);
    } else {
      SumOfBoundStrict(s[1..], f, c, k - 1);
    }
  }
}
