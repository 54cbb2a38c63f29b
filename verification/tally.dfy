/**
 * The bookkeeping of `buildLineup` in `src/model.js`. Players are numbered by their position
 * in the `players` array (active fielders, then active goalies); the nine lines hold player
 * numbers in insertion order, and the running line sums, occurrence counts, per-player line
 * flags, first-line indices and the placement counter are kept alongside, as the source keeps
 * them. `Tracks` ties every redundant counter to the line contents.
 */
module Tally {
  import Seqs

  const PeriodCount: nat := 3
  const LinesPerPeriod: nat := 3
  const LineCount: nat := 9
  const FieldersPerLine: nat := 5
  const FielderSlots: nat := 45

  /** The skill of player `x`; numbers outside the roster weigh nothing. */
  function SkillOf(skills: seq<int>): nat -> int {
    (x: nat) => if x < |skills| then skills[x] else 0
  }

  /** The size of a line, as a summand. */
  function Size(line: seq<nat>): int {
    |line|
  }

  /** A count, as a summand. */
  function Value(n: nat): int {
    n
  }

  /** A JavaScript `Map`'s keys never repeat. */
  predicate NoDup(s: seq<nat>) {
    forall i, j :: 0 <= i < j < |s| ==> s[i] != s[j]
  }

  /** `flags.filter((l) => l).length`. */
  function CountTrue(m: seq<bool>): (r: nat)
    ensures r <= |m|
    ensures r == |m| <==> forall i :: 0 <= i < |m| ==> m[i]
    ensures r == 0 <==> forall i :: 0 <= i < |m| ==> !m[i]
    decreases |m|
  {
    if |m| == 0 then 0 else (if m[0] then 1 else 0) + CountTrue(m[1..])
  }

  /** The first flagged index, or `|m|` when there is none. */
  function FirstTrue(m: seq<bool>): (r: nat)
    ensures r <= |m|
    ensures r < |m| ==> m[r]
    ensures forall i :: 0 <= i < r ==> !m[i]
    decreases |m|
  {
    if |m| == 0 then 0 else if m[0] then 0 else 1 + FirstTrue(m[1..])
  }

  lemma {:induction false} CountTrueSet(m: seq<bool>, l: nat)
    requires l < |m| && !m[l]
    ensures CountTrue(m[l := true]) == CountTrue(m) + 1
    decreases |m|
  {
    if l > 0 {
      assert m[l := true][1..] == m[1..][l - 1 := true];
      CountTrueSet(m[1..], l - 1);
    }
  }

  lemma {:induction false} FirstTrueSet(m: seq<bool>, l: nat)
    requires l < |m|
    ensures FirstTrue(m[l := true]) == if FirstTrue(m) < l then FirstTrue(m) else l
    decreases |m|
  {
    if l > 0 && !m[0] {
      assert m[l := true][1..] == m[1..][l - 1 := true];
      FirstTrueSet(m[1..], l - 1);
    }
  }

  /** The state of the nine lines and of every player's counters. */
  datatype Tally = Tally(
    lines: seq<seq<nat>>,
    sums: seq<int>,
    occ: seq<nat>,
    marks: seq<seq<bool>>,
    first: seq<nat>,
    placed: nat)

  /** The shape of the state for a roster of `n` players. */
  predicate Shaped(t: Tally, n: nat) {
    |t.lines| == LineCount && |t.sums| == LineCount
    && |t.occ| == n && |t.marks| == n && |t.first| == n
    && (forall p :: 0 <= p < n ==> |t.marks[p]| == LineCount)
  }

  /** Each line holds distinct roster members. */
  predicate LinesWellFormed(t: Tally, n: nat)
    requires Shaped(t, n)
  {
    (forall l :: 0 <= l < LineCount ==> NoDup(t.lines[l]))
    && (forall l, k :: 0 <= l < LineCount && 0 <= k < |t.lines[l]| ==> t.lines[l][k] < n)
  }

  /** Each line sum is the sum of its members' skills. */
  predicate SumsTrack(t: Tally, skills: seq<int>)
    requires Shaped(t, |skills|)
  {
    forall l :: 0 <= l < LineCount ==> t.sums[l] == Seqs.SumOf(t.lines[l], SkillOf(skills))
  }

  /** Each player's flags, count and first line describe the lines that hold it. */
  predicate MarksTrack(t: Tally, n: nat)
    requires Shaped(t, n)
  {
    (forall p, l :: 0 <= p < n && 0 <= l < LineCount ==> (t.marks[p][l] <==> p in t.lines[l]))
    && (forall p :: 0 <= p < n ==> t.occ[p] == CountTrue(t.marks[p]))
    && (forall p :: 0 <= p < n ==> t.first[p] == FirstTrue(t.marks[p]))
  }

  /** The counter is the total size of the lines and the total of the counts. */
  predicate Totals(t: Tally) {
    Seqs.SumOf(t.lines, Size) == t.placed && Seqs.SumOf(t.occ, Value) == t.placed
  }

  /** Every counter agrees with the line contents, for a roster with these skills. */
  predicate Tracks(t: Tally, skills: seq<int>) {
    Shaped(t, |skills|) && LinesWellFormed(t, |skills|) && SumsTrack(t, skills)
    && MarksTrack(t, |skills|) && Totals(t)
  }

  /**
   * Nine empty lines with zero sums, every count zero, no flag set and every first line 9
   * (`lineCount`): a state every counter of which already agrees with its lines.
   */
  function Start(skills: seq<int>): (r: Tally)
    ensures Tracks(r, skills)
    ensures r.placed == 0
    ensures forall l :: 0 <= l < LineCount ==> r.lines[l] == [] && r.sums[l] == 0
    ensures forall p :: 0 <= p < |skills| ==> r.occ[p] == 0 && r.first[p] == LineCount
  {
    var n := |skills|;
    var r := Tally(seq(LineCount, _ => []), seq(LineCount, _ => 0), seq(n, _ => 0),
                   seq(n, _ => seq(LineCount, _ => false)), seq(n, _ => LineCount), 0);
    StartTracks(skills, r);
    r
  }

  lemma StartTracks(skills: seq<int>, t: Tally)
    requires t == Tally(seq(LineCount, _ => []), seq(LineCount, _ => 0), seq(|skills|, _ => 0),
                        seq(|skills|, _ => seq(LineCount, _ => false)), seq(|skills|, _ => LineCount), 0)
    ensures Tracks(t, skills)
  {
    Seqs.SumOfZero(t.lines, Size);
    Seqs.SumOfZero(t.occ, Value);
    forall p | 0 <= p < |skills| ensures t.occ[p] == CountTrue(t.marks[p]) && t.first[p] == FirstTrue(t.marks[p]) {
      assert forall l :: 0 <= l < LineCount ==> !t.marks[p][l];
    }
  }

  /**
   * One placement: player `p` joins line `l`, the line sum grows by the player's skill, the
   * player's count grows by one, its flag for `l` is set, its first line becomes the smaller
   * of the old one and `l`, and the counter grows by one.
   */
  function Place(t: Tally, skills: seq<int>, p: nat, l: nat): (r: Tally)
    requires Tracks(t, skills) && p < |skills| && l < LineCount && p !in t.lines[l]
    ensures Tracks(r, skills)
    ensures r.lines == t.lines[l := t.lines[l] + [p]]
    ensures r.occ == t.occ[p := t.occ[p] + 1]
    ensures r.sums[l] == t.sums[l] + skills[p]
    ensures forall l' :: 0 <= l' < LineCount && l' != l ==> r.sums[l'] == t.sums[l']
    ensures r.first[p] == (if t.first[p] < l then t.first[p] else l)
    ensures r.placed == t.placed + 1
  {
    var line := t.lines[l] + [p];
    var r := Tally(t.lines[l := line], t.sums[l := t.sums[l] + skills[p]], t.occ[p := t.occ[p] + 1],
                   t.marks[p := t.marks[p][l := true]], t.first[p := if t.first[p] < l then t.first[p] else l],
                   t.placed + 1);
    PlaceTracks(t, skills, p, l, r);
    r
  }

  lemma PlaceTracks(t: Tally, skills: seq<int>, p: nat, l: nat, r: Tally)
    requires Tracks(t, skills) && p < |skills| && l < LineCount && p !in t.lines[l]
    requires r == Tally(t.lines[l := t.lines[l] + [p]], t.sums[l := t.sums[l] + skills[p]], t.occ[p := t.occ[p] + 1],
                        t.marks[p := t.marks[p][l := true]], t.first[p := if t.first[p] < l then t.first[p] else l],
                        t.placed + 1)
    ensures Tracks(r, skills)
  {
    var n := |skills|;
    var line := t.lines[l] + [p];
    assert Shaped(r, n);
    assert LinesWellFormed(r, n) by {
      assert NoDup(line);
    }
    assert SumsTrack(r, skills) by {
      Seqs.SumOfAppend(t.lines[l], [p], SkillOf(skills));
      assert Seqs.SumOf([p], SkillOf(skills)) == skills[p];
    }
    assert MarksTrack(r, n) by {
      CountTrueSet(t.marks[p], l);
      FirstTrueSet(t.marks[p], l);
      forall q, l' | 0 <= q < n && 0 <= l' < LineCount
        ensures r.marks[q][l'] <==> q in r.lines[l']
      {
        if l' == l {
          assert q in line <==> q in t.lines[l] || q == p;
        }
      }
    }
    assert Totals(r) by {
      Seqs.SumOfUpdate(t.lines, l, line, Size);
      Seqs.SumOfUpdate(t.occ, p, t.occ[p] + 1, Value);
    }
  }

  /** Every player's count is at most nine: a line holds a player at most once. */
  lemma OccBound(t: Tally, skills: seq<int>, p: nat)
    requires Tracks(t, skills) && p < |skills|
    ensures t.occ[p] <= LineCount
    ensures t.occ[p] == LineCount <==> forall l :: 0 <= l < LineCount ==> p in t.lines[l]
  {
    assert MarksTrack(t, |skills|);
    assert forall l :: 0 <= l < LineCount ==> (t.marks[p][l] <==> p in t.lines[l]);
  }

  /** No player is on more than the nine lines. */
  lemma OccBoundAll(t: Tally, skills: seq<int>)
    requires Tracks(t, skills)
    ensures forall p :: 0 <= p < |skills| ==> t.occ[p] <= LineCount
  {
    forall p | 0 <= p < |skills| ensures t.occ[p] <= LineCount {
      OccBound(t, skills, p);
    }
  }

  /** The player numbers below `n`. */
  function Below(n: nat): (r: set<nat>)
    ensures |r| == n
    ensures forall x: nat :: x in r <==> x < n
  {
    if n == 0 then {} else
      var r := Below(n - 1) + {n - 1};
      assert n - 1 !in Below(n - 1);
      r
  }

  /** A line of distinct members drawn from `a` holds at most `|a|` of them. */
  lemma {:induction false} NoDupBound(s: seq<nat>, a: set<nat>)
    requires NoDup(s)
    requires forall k :: 0 <= k < |s| ==> s[k] in a
    ensures |s| <= |a|
    decreases |s|
  {
    if |s| > 0 {
      var rest := s[1..];
      assert forall k :: 0 <= k < |rest| ==> rest[k] in a - {s[0]} by {
        forall k | 0 <= k < |rest| ensures rest[k] in a - {s[0]} {
          assert rest[k] == s[k + 1];
        }
      }
      assert NoDup(rest) by {
        forall i, j | 0 <= i < j < |rest| ensures rest[i] != rest[j] {
          assert rest[i] == s[i + 1] && rest[j] == s[j + 1];
        }
      }
      NoDupBound(rest, a - {s[0]});
    }
  }
}
