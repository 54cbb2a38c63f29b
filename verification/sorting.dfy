/**
 * `Array.prototype.sort` with a numeric comparator `(a, b) => key(a) - key(b)`. The sort
 * is stable (ECMAScript 2019 onwards), so elements with equal keys keep their input order.
 * Modelled as an insertion sort over an integer key.
 */
module Sorting {

  ghost predicate SortedBy<T>(s: seq<T>, key: T -> int) {
    forall i, j :: 0 <= i < j < |s| ==> key(s[i]) <= key(s[j])
  }

  /** The elements of `s` whose key is `v`, in their order in `s`. */
  function KeyClass<T>(s: seq<T>, key: T -> int, v: int): seq<T>
    decreases |s|
  {
    if |s| == 0 then [] else (if key(s[0]) == v then [s[0]] else []) + KeyClass(s[1..], key, v)
  }

  /** Inserts `x` before the first element whose key is not smaller than its own. */
  function Insert<T>(x: T, s: seq<T>, key: T -> int): (r: seq<T>)
    ensures |r| == |s| + 1
    decreases |s|
  {
    if |s| == 0 then [x]
    else if key(x) <= key(s[0]) then [x] + s
    else [s[0]] + Insert(x, s[1..], key)
  }

  /** Insertion adds `x` and loses nothing. */
  lemma {:induction false} InsertPerm<T>(x: T, s: seq<T>, key: T -> int)
    ensures multiset(Insert(x, s, key)) == multiset(s) + multiset{x}
    decreases |s|
  {
    if |s| > 0 && key(x) > key(s[0]) {
      InsertPerm(x, s[1..], key);
      assert s == [s[0]] + s[1..];
    }
  }

  lemma {:induction false} InsertSorted<T>(x: T, s: seq<T>, key: T -> int)
    requires SortedBy(s, key)
    ensures SortedBy(Insert(x, s, key), key)
    decreases |s|
  {
    if |s| > 0 && key(x) > key(s[0]) {
      var rest := Insert(x, s[1..], key);
      InsertSorted(x, s[1..], key);
      InsertPerm(x, s[1..], key);
      forall j | 0 <= j < |rest| ensures key(s[0]) <= key(rest[j]) {
        var y := rest[j];
        assert y in multiset(rest);
        if y != x {
          assert y in multiset(s[1..]);
          var k :| 0 <= k < |s[1..]| && s[1..][k] == y;
          assert s[k + 1] == y;
        }
      }
      var r := [s[0]] + rest;
      forall i, j | 0 <= i < j < |r| ensures key(r[i]) <= key(r[j]) {
        if i > 0 {
          assert r[i] == rest[i - 1] && r[j] == rest[j - 1];
        } else {
          assert r[j] == rest[j - 1];
        }
      }
    }
  }

  /** The stable ascending sort of `s` by `key`. */
  function SortBy<T>(s: seq<T>, key: T -> int): (r: seq<T>)
    ensures |r| == |s|
    ensures multiset(r) == multiset(s)
    ensures SortedBy(r, key)
    decreases |s|
  {
    if |s| == 0 then []
    else
      assert s == [s[0]] + s[1..];
      InsertSorted(s[0], SortBy(s[1..], key), key);
      InsertPerm(s[0], SortBy(s[1..], key), key);
      Insert(s[0], SortBy(s[1..], key), key)
  }

  lemma KeyClassCons<T>(y: T, s: seq<T>, key: T -> int, v: int)
    ensures KeyClass([y] + s, key, v) == (if key(y) == v then [y] else []) + KeyClass(s, key, v)
  {
    assert ([y] + s)[1..] == s;
  }

  lemma {:induction false} InsertKeyClass<T>(x: T, s: seq<T>, key: T -> int, v: int)
    ensures KeyClass(Insert(x, s, key), key, v)
         == (if key(x) == v then [x] else []) + KeyClass(s, key, v)
    decreases |s|
  {
    if |s| == 0 {
      KeyClassCons(x, [], key, v);
    } else if key(x) <= key(s[0]) {
      KeyClassCons(x, s, key, v);
    } else {
      var rest := Insert(x, s[1..], key);
      assert Insert(x, s, key) == [s[0]] + rest;
      KeyClassCons(s[0], rest, key, v);
      InsertKeyClass(x, s[1..], key, v);
      KeyClassCons(s[0], s[1..], key, v);
      assert s == [s[0]] + s[1..];
    }
  }

  /** Stability: every key class of the output is the key class of the input. */
  lemma {:induction false} SortByStable<T>(s: seq<T>, key: T -> int, v: int)
    ensures KeyClass(SortBy(s, key), key, v) == KeyClass(s, key, v)
    decreases |s|
  {
    if |s| > 0 {
      SortByStable(s[1..], key, v);
      InsertKeyClass(s[0], SortBy(s[1..], key), key, v);
    }
  }

  /** `a` comes before `b`: a smaller key, or the same key and a smaller number. */
  predicate Precedes(a: nat, b: nat, key: nat -> int) {
    key(a) < key(b) || (key(a) == key(b) && a < b)
  }

  /**
   * `s` is ordered by `key`, and elements with equal keys by ascending number: the order a
   * stable sort gives an ascending input.
   */
  ghost predicate SortedThenAscending(s: seq<nat>, key: nat -> int) {
    forall i, j :: 0 <= i < j < |s| ==> Precedes(s[i], s[j], key)
  }

  /** Putting in front an element that precedes every other keeps the order. */
  lemma ConsAscending(y: nat, t: seq<nat>, key: nat -> int)
    requires SortedThenAscending(t, key)
    requires forall j :: 0 <= j < |t| ==> Precedes(y, t[j], key)
    ensures SortedThenAscending([y] + t, key)
  {
    var r := [y] + t;
    forall i, j | 0 <= i < j < |r| ensures Precedes(r[i], r[j], key) {
      assert r[j] == t[j - 1];
      if i > 0 {
        assert r[i] == t[i - 1];
      }
    }
  }

  /** Inserting a number smaller than every element keeps the order by key, then number. */
  lemma {:induction false} InsertAscending(x: nat, s: seq<nat>, key: nat -> int)
    requires SortedThenAscending(s, key)
    requires forall i :: 0 <= i < |s| ==> x < s[i]
    ensures SortedThenAscending(Insert(x, s, key), key)
    decreases |s|
  {
    if |s| == 0 {
    } else if key(x) <= key(s[0]) {
      forall j | 0 <= j < |s| ensures Precedes(x, s[j], key) {
        if j > 0 {
          assert Precedes(s[0], s[j], key);
        }
      }
      ConsAscending(x, s, key);
    } else {
      var rest := Insert(x, s[1..], key);
      InsertAscending(x, s[1..], key);
      HeadPrecedesInsert(x, s, key);
      ConsAscending(s[0], rest, key);
    }
  }

  /** When `x` goes past the head, the head still precedes everything after it. */
  lemma HeadPrecedesInsert(x: nat, s: seq<nat>, key: nat -> int)
    requires SortedThenAscending(s, key) && |s| > 0 && key(x) > key(s[0])
    ensures forall j :: 0 <= j < |Insert(x, s[1..], key)| ==> Precedes(s[0], Insert(x, s[1..], key)[j], key)
  {
    var rest := Insert(x, s[1..], key);
    InsertPerm(x, s[1..], key);
    forall j | 0 <= j < |rest| ensures Precedes(s[0], rest[j], key) {
      var y := rest[j];
      assert y in multiset(rest);
      if y != x {
        assert y in multiset(s[1..]);
        var k :| 0 <= k < |s[1..]| && s[1..][k] == y;
        assert s[k + 1] == y;
      }
    }
  }

  /**
   * Stability in numbers: sorting a strictly ascending sequence orders it by key, and equal
   * keys stay in ascending order.
   */
  lemma {:induction false} SortByAscending(s: seq<nat>, key: nat -> int)
    requires forall i, j :: 0 <= i < j < |s| ==> s[i] < s[j]
    ensures SortedThenAscending(SortBy(s, key), key)
    decreases |s|
  {
    if |s| > 0 {
      var t := SortBy(s[1..], key);
      SortByAscending(s[1..], key);
      forall i | 0 <= i < |t| ensures s[0] < t[i] {
        assert t[i] in multiset(s[1..]);
        var k :| 0 <= k < |s[1..]| && s[1..][k] == t[i];
        assert s[k + 1] == t[i];
      }
      InsertAscending(s[0], t, key);
    }
  }

  /** `i` is the first position of `s` whose key is smallest. */
  ghost predicate FirstMinimal<T>(s: seq<T>, key: T -> int, i: nat) {
    && i < |s|
    && (forall j :: 0 <= j < |s| ==> key(s[i]) <= key(s[j]))
    && (forall j :: 0 <= j < i ==> key(s[i]) < key(s[j]))
  }

  /** The head of an insertion is the inserted element or the old head, whichever key is smaller. */
  lemma InsertHead<T>(x: T, s: seq<T>, key: T -> int)
    ensures Insert(x, s, key)[0] == (if |s| == 0 || key(x) <= key(s[0]) then x else s[0])
  {
  }

  /** The first minimal position of `s` given the one of its tail. */
  lemma FirstMinimalStep<T>(s: seq<T>, key: T -> int, i': nat) returns (i: nat)
    requires |s| > 1 && FirstMinimal(s[1..], key, i')
    ensures FirstMinimal(s, key, i)
    ensures i == (if key(s[0]) <= key(s[1..][i']) then 0 else i' + 1)
  {
    var k := key(s[1..][i']);
    assert forall j :: 1 <= j < |s| ==> k <= key(s[j]) by {
      forall j | 1 <= j < |s| ensures k <= key(s[j]) {
        assert s[j] == s[1..][j - 1];
      }
    }
    if key(s[0]) <= k {
      i := 0;
    } else {
      assert forall j :: 1 <= j < i' + 1 ==> k < key(s[j]) by {
        forall j | 1 <= j < i' + 1 ensures k < key(s[j]) {
          assert s[j] == s[1..][j - 1];
        }
      }
      assert s[i' + 1] == s[1..][i'];
      i := i' + 1;
    }
  }

  /** `sort(...)[0]` is the first element of the input among those with the smallest key. */
  lemma {:induction false} SortByHead<T>(s: seq<T>, key: T -> int) returns (i: nat)
    requires |s| > 0
    ensures FirstMinimal(s, key, i) && SortBy(s, key)[0] == s[i]
    decreases |s|
  {
    if |s| == 1 {
      assert SortBy(s, key) == Insert(s[0], [], key);
      i := 0;
    } else {
      var t := SortBy(s[1..], key);
      assert SortBy(s, key) == Insert(s[0], t, key);
      InsertHead(s[0], t, key);
      var i' := SortByHead(s[1..], key);
      i := FirstMinimalStep(s, key, i');
    }
  }
}
