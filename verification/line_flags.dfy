/**
 * Ordering players by their line flags, as both generations do it: the comparator
 * `a.lines.toString() > b.lines.toString() ? -1 : 1` compares the flags as text, for
 * example "true,false,true". For flag rows of one width that text order is the order of
 * the rows read as binary numbers, line 0 being the most significant bit, so the
 * sort is modelled as a stable sort by that number, largest first.
 */
module LineFlags {
  import Sorting

  /** `String(b)`. */
  function Word(b: bool): string {
    if b then "true" else "false"
  }

  /** `flags.toString()`: the words joined by commas. */
  function Text(flags: seq<bool>): string
    decreases |flags|
  {
    if |flags| == 0 then ""
    else if |flags| == 1 then Word(flags[0])
    else Word(flags[0]) + "," + Text(flags[1..])
  }

  /** JavaScript's `s > t` on strings: code-unit order, a proper prefix being smaller. */
  predicate TextGreater(s: string, t: string)
    decreases |s|
  {
    |s| > 0 && (|t| == 0 || s[0] > t[0] || (s[0] == t[0] && TextGreater(s[1..], t[1..])))
  }

  /** The flags as a binary number, the first flag most significant. */
  function Bits(flags: seq<bool>): nat
    decreases |flags|
  {
    if |flags| == 0 then 0 else Bits(flags[..|flags| - 1]) * 2 + (if flags[|flags| - 1] then 1 else 0)
  }

  function Pow2(n: nat): nat {
    if n == 0 then 1 else 2 * Pow2(n - 1)
  }

  /** Read from the front: the first flag weighs `2^(width - 1)`. */
  lemma {:induction false} BitsFront(flags: seq<bool>)
    requires |flags| > 0
    ensures Bits(flags) == (if flags[0] then Pow2(|flags| - 1) else 0) + Bits(flags[1..])
    decreases |flags|
  {
    if |flags| > 1 {
      var init := flags[..|flags| - 1];
      BitsFront(init);
      assert init[1..] == flags[1..][..|flags[1..]| - 1];
      assert init[0] == flags[0];
    } else {
      assert flags[1..] == [];
    }
  }

  lemma {:induction false} BitsBelow(flags: seq<bool>)
    ensures Bits(flags) < Pow2(|flags|)
    decreases |flags|
  {
    if |flags| > 0 {
      BitsBelow(flags[..|flags| - 1]);
    }
  }

  /** A common prefix does not change the text order. */
  lemma {:induction false} TextGreaterPrefix(p: string, s: string, t: string)
    ensures TextGreater(p + s, p + t) <==> TextGreater(s, t)
    decreases |p|
  {
    if |p| > 0 {
      assert (p + s)[1..] == p[1..] + s;
      assert (p + t)[1..] == p[1..] + t;
      TextGreaterPrefix(p[1..], s, t);
    } else {
      assert p + s == s && p + t == t;
    }
  }

  lemma {:induction false} TextGreaterIrreflexive(s: string)
    ensures !TextGreater(s, s)
    decreases |s|
  {
    if |s| > 0 {
      TextGreaterIrreflexive(s[1..]);
    }
  }

  /** A non-empty flag text starts with the first letter of the first word. */
  lemma TextHead(flags: seq<bool>)
    requires |flags| > 0
    ensures |Text(flags)| > 0 && Text(flags)[0] == (if flags[0] then 't' else 'f')
  {
  }

  /**
   * For rows of one width the comparator's text order is the numeric order: the first
   * differing flag decides both, "true" beating "false" on the first letter.
   */
  lemma {:induction false} TextOrderIsBits(a: seq<bool>, b: seq<bool>)
    requires |a| == |b|
    ensures TextGreater(Text(a), Text(b)) <==> Bits(a) > Bits(b)
    decreases |a|
  {
    if |a| == 0 {
    } else {
      BitsFront(a);
      BitsFront(b);
      BitsBelow(a[1..]);
      BitsBelow(b[1..]);
      if a[0] != b[0] {
        TextHead(a);
        TextHead(b);
      } else if |a| == 1 {
        assert a == b;
        TextGreaterIrreflexive(Text(a));
      } else {
        TextOrderIsBits(a[1..], b[1..]);
        var p := Word(a[0]) + ",";
        assert Text(a) == p + Text(a[1..]);
        assert Text(b) == p + Text(b[1..]);
        TextGreaterPrefix(p, Text(a[1..]), Text(b[1..]));
      }
    }
  }

  /** The sort key: larger flag numbers first. */
  function Key<T>(flags: T -> seq<bool>): T -> int {
    x => -(Bits(flags(x)) as int)
  }

  /** Every row has the width of the first. */
  predicate SameWidth<T>(s: seq<T>, flags: T -> seq<bool>) {
    forall i :: 0 <= i < |s| ==> |flags(s[i])| == |flags(s[0])|
  }

  /** `s.sort((a, b) => flags(a).toString() > flags(b).toString() ? -1 : 1)`. */
  function SortByFlags<T>(s: seq<T>, flags: T -> seq<bool>): (r: seq<T>)
    requires SameWidth(s, flags)
    ensures |r| == |s| && multiset(r) == multiset(s)
    ensures forall i, j :: 0 <= i < j < |r| ==> !TextGreater(Text(flags(r[j])), Text(flags(r[i])))
  {
    var r := Sorting.SortBy(s, Key(flags));
    forall i, j | 0 <= i < j < |r| ensures !TextGreater(Text(flags(r[j])), Text(flags(r[i]))) {
      assert r[i] in multiset(s) && r[j] in multiset(s);
      var i', j' :| 0 <= i' < |s| && 0 <= j' < |s| && s[i'] == r[i] && s[j'] == r[j];
      TextOrderIsBits(flags(r[j]), flags(r[i]));
    }
    r
  }

  /** Rows with equal flags keep their input order. */
  lemma SortByFlagsStable<T>(s: seq<T>, flags: T -> seq<bool>, v: nat)
    requires SameWidth(s, flags)
    ensures Sorting.KeyClass(SortByFlags(s, flags), Key(flags), -(v as int))
         == Sorting.KeyClass(s, Key(flags), -(v as int))
  {
    Sorting.SortByStable(s, Key(flags), -(v as int));
  }

  /** The row sorted first is the first row whose flags are largest. */
  lemma SortByFlagsHead<T>(s: seq<T>, flags: T -> seq<bool>) returns (i: nat)
    requires SameWidth(s, flags) && |s| > 0
    ensures i < |s| && SortByFlags(s, flags)[0] == s[i]
    ensures forall j :: 0 <= j < |s| ==> Bits(flags(s[j])) <= Bits(flags(s[i]))
    ensures forall j :: 0 <= j < i ==> Bits(flags(s[j])) < Bits(flags(s[i]))
  {
    i := Sorting.SortByHead(s, Key(flags));
  }
}
