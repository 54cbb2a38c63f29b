/**
 * The fielder fill of `buildLineup` in `src/model.js`: the occupancy bounds, the candidate
 * stream (fielders by descending skill, repeated `maxFielderOcc` times), the choice of line
 * for one candidate, one pass over the stream, and the outer `while` loop that repeats passes
 * until 45 fielder slots are filled.
 */
module Fielders {
  import opened Wrappers
  import opened Tally
  import Seqs
  import Helpers
  import Sorting

  /** `Math.floor(45 / F) + 1`. */
  function MaxOcc(f: nat): (r: nat)
    requires f > 0
    ensures (r - 1) * f <= FielderSlots < r * f
  {
    FielderSlots / f + 1
  }

  /** `Math.ceil(45 / F) - 1`. */
  function MinOcc(f: nat): (r: nat)
    requires f > 0
    ensures r * f < FielderSlots <= (r + 1) * f
  {
    (FielderSlots + f - 1) / f - 1
  }

  /** What the fill keeps true: fielders only, at most five per line and `maxOcc` each. */
  predicate FillSafe(t: Tally, skills: seq<int>, fielders: nat, maxOcc: nat) {
    Tracks(t, skills) && fielders <= |skills|
    && (forall l, k :: 0 <= l < LineCount && 0 <= k < |t.lines[l]| ==> t.lines[l][k] < fielders)
    && (forall l :: 0 <= l < LineCount ==> |t.lines[l]| <= FieldersPerLine)
    && (forall f :: 0 <= f < fielders ==> t.occ[f] <= maxOcc)
    && (forall p :: fielders <= p < |skills| ==> t.occ[p] == 0)
    && t.placed <= FielderSlots
  }

  /** What `FillSafe` says about one line: at most five players, all of them fielders. */
  lemma FillSafeLine(t: Tally, skills: seq<int>, fielders: nat, maxOcc: nat, l: nat)
    requires FillSafe(t, skills, fielders, maxOcc) && l < LineCount
    ensures |t.lines[l]| <= FieldersPerLine
    ensures forall k :: 0 <= k < |t.lines[l]| ==> t.lines[l][k] < fielders
  {
  }

  /** What `FillSafe` says about one fielder's count. */
  lemma FillSafeCount(t: Tally, skills: seq<int>, fielders: nat, maxOcc: nat, f: nat)
    requires FillSafe(t, skills, fielders, maxOcc) && f < fielders
    ensures t.occ[f] <= maxOcc
  {
  }

  /** Line `l` has an open slot and does not hold `f` yet. */
  predicate Eligible(t: Tally, f: nat, l: nat) {
    l < |t.lines| && |t.lines[l]| < FieldersPerLine && f !in t.lines[l]
  }

  /**
   * `openLinesWithoutPlayer`: the lines with an open slot (`openLines`), filtered again to
   * those without `f`, in line order.
   */
  function Candidates(t: Tally, f: nat): (r: seq<nat>)
    ensures forall l: nat :: l in r <==> l < LineCount && Eligible(t, f, l)
    ensures Increasing(r)
  {
    var all := Helpers.GenerateArray(LineCount);
    var eligible := (l: nat) => Eligible(t, f, l);
    FilterIncreasing(all, eligible);
    Seqs.Filter<nat>(all, eligible)
  }

  predicate Increasing(s: seq<nat>) {
    forall i, j :: 0 <= i < j < |s| ==> s[i] < s[j]
  }

  lemma ConsIncreasing(x: nat, rest: seq<nat>)
    requires Increasing(rest) && forall k :: 0 <= k < |rest| ==> x < rest[k]
    ensures Increasing([x] + rest)
  {
    var r := [x] + rest;
    forall i, j | 0 <= i < j < |r| ensures r[i] < r[j] {
      assert r[j] == rest[j - 1];
      if i > 0 {
        assert r[i] == rest[i - 1];
      }
    }
  }

  lemma {:induction false} FilterIncreasing(s: seq<nat>, f: nat -> bool)
    requires Increasing(s)
    ensures Increasing(Seqs.Filter<nat>(s, f))
    decreases |s|
  {
    if |s| > 0 {
      var rest := Seqs.Filter<nat>(s[1..], f);
      FilterIncreasing(s[1..], f);
      if f(s[0]) {
        forall k | 0 <= k < |rest| ensures s[0] < rest[k] {
          assert rest[k] in s[1..];
          var m :| 0 <= m < |s[1..]| && s[1..][m] == rest[k];
          assert s[m + 1] == rest[k];
        }
        ConsIncreasing(s[0], rest);
        assert Seqs.Filter<nat>(s, f) == [s[0]] + rest;
      } else {
        assert Seqs.Filter<nat>(s, f) == rest;
      }
    }
  }

  /**
   * The line a candidate goes to: among the eligible lines, the one with the smallest sum,
   * ties going to the lower line (`reduce` with a strict `<`); none when no line is eligible.
   */
  function ChooseLine(t: Tally, f: nat): (r: Option<nat>)
    requires |t.lines| == LineCount && |t.sums| == LineCount
    ensures r.None? <==> forall l :: 0 <= l < LineCount ==> !Eligible(t, f, l)
    ensures r.Some? ==> r.value < LineCount && Eligible(t, f, r.value)
    ensures r.Some? ==> forall l :: 0 <= l < LineCount && Eligible(t, f, l) ==> t.sums[r.value] <= t.sums[l]
    ensures r.Some? ==> forall l :: 0 <= l < r.value && Eligible(t, f, l) ==> t.sums[r.value] < t.sums[l]
  {
    var open := Candidates(t, f);
    if |open| == 0 then None
    else
      assert open[0] in open;
      var sums := seq(|open|, i requires 0 <= i < |open| => t.sums[open[i]]);
      var k := Helpers.MinimumIndex(sums);
      ChooseLineFirstMin(t, f, open, sums, k);
      Some(open[k])
  }

  lemma ChooseLineFirstMin(t: Tally, f: nat, open: seq<nat>, sums: seq<int>, k: nat)
    requires |t.lines| == LineCount && |t.sums| == LineCount
    requires open == Candidates(t, f) && |sums| == |open|
    requires forall i :: 0 <= i < |open| ==> open[i] < LineCount && sums[i] == t.sums[open[i]]
    requires Helpers.IsFirstMin(sums, k)
    ensures forall l :: 0 <= l < LineCount && Eligible(t, f, l) ==> t.sums[open[k]] <= t.sums[l]
    ensures forall l :: 0 <= l < open[k] && Eligible(t, f, l) ==> t.sums[open[k]] < t.sums[l]
  {
    forall l | 0 <= l < LineCount && Eligible(t, f, l)
      ensures t.sums[open[k]] <= t.sums[l]
      ensures l < open[k] ==> t.sums[open[k]] < t.sums[l]
    {
      assert l in open;
      var j :| 0 <= j < |open| && open[j] == l;
      assert sums[j] == t.sums[l];
      if l < open[k] {
        assert j < k;
      }
    }
  }

  /**
   * One candidate of the stream: skipped when saturated (`playerOcc >= maxFielderOcc`) or
   * when no line is eligible; otherwise placed on the chosen line.
   */
  function Step(t: Tally, skills: seq<int>, fielders: nat, maxOcc: nat, f: nat): (r: Tally)
    requires FillSafe(t, skills, fielders, maxOcc) && f < fielders
    ensures FillSafe(r, skills, fielders, maxOcc)
    ensures r.placed == t.placed || r.placed == t.placed + 1
    ensures r.placed == t.placed ==> r == t
    ensures r.placed == t.placed + 1 <==> t.occ[f] < maxOcc && exists l :: 0 <= l < LineCount && Eligible(t, f, l)
    ensures r.placed == t.placed + 1 ==> r.occ == t.occ[f := t.occ[f] + 1]
    ensures forall l, x :: 0 <= l < LineCount && x in t.lines[l] ==> x in r.lines[l]
  {
    if t.occ[f] >= maxOcc then t
    else match ChooseLine(t, f)
      case None => t
      case Some(l) =>
        var r := Place(t, skills, f, l);
        StepSafe(t, skills, fielders, maxOcc, f, l, r);
        assert exists l' :: 0 <= l' < LineCount && Eligible(t, f, l') by {
          assert Eligible(t, f, l);
        }
        r
  }

  lemma StepSafe(t: Tally, skills: seq<int>, fielders: nat, maxOcc: nat, f: nat, l: nat, r: Tally)
    requires FillSafe(t, skills, fielders, maxOcc) && f < fielders && t.occ[f] < maxOcc
    requires l < LineCount && Eligible(t, f, l)
    requires r == Place(t, skills, f, l)
    ensures FillSafe(r, skills, fielders, maxOcc)
    ensures forall l', x :: 0 <= l' < LineCount && x in t.lines[l'] ==> x in r.lines[l']
  {
    assert forall l', k :: 0 <= l' < LineCount && 0 <= k < |r.lines[l']| ==> r.lines[l'][k] < fielders by {
      forall l', k | 0 <= l' < LineCount && 0 <= k < |r.lines[l']| ensures r.lines[l'][k] < fielders {
        if l' == l && k == |t.lines[l]| {
          assert r.lines[l'][k] == f;
        } else if l' == l {
          assert r.lines[l'][k] == t.lines[l][k];
        }
      }
    }
    PlacedBound(r, skills);
  }

  /** Five slots on each of nine lines: the counter never passes 45. */
  lemma PlacedBound(t: Tally, skills: seq<int>)
    requires Tracks(t, skills)
    requires forall l :: 0 <= l < LineCount ==> |t.lines[l]| <= FieldersPerLine
    ensures t.placed <= FielderSlots
  {
    Seqs.SumOfBound(t.lines, Size, FieldersPerLine);
  }

  /** `for (const fielder of fieldersMax)`: one pass over the candidate stream. */
  function Pass(t: Tally, skills: seq<int>, fielders: nat, maxOcc: nat, stream: seq<nat>): (r: Tally)
    requires FillSafe(t, skills, fielders, maxOcc)
    requires forall i :: 0 <= i < |stream| ==> stream[i] < fielders
    ensures FillSafe(r, skills, fielders, maxOcc)
    ensures r.placed >= t.placed
    ensures r.placed == t.placed ==> r == t
    ensures forall l, x :: 0 <= l < LineCount && x in t.lines[l] ==> x in r.lines[l]
    decreases |stream|
  {
    if |stream| == 0 then t
    else Pass(Step(t, skills, fielders, maxOcc, stream[0]), skills, fielders, maxOcc, stream[1..])
  }

  /**
   * The `while (valid && counter < totalFielderOcc)` loop, entered with `valid` true. A pass
   * that places nobody leaves the state as it was, so the source repeats that same pass for
   * ever; that outcome is `None`.
   */
  function FillAsWritten(t: Tally, skills: seq<int>, fielders: nat, maxOcc: nat, stream: seq<nat>): (r: Option<Tally>)
    requires FillSafe(t, skills, fielders, maxOcc)
    requires forall i :: 0 <= i < |stream| ==> stream[i] < fielders
    ensures r.Some? ==> FillSafe(r.value, skills, fielders, maxOcc) && r.value.placed == FielderSlots
    decreases FielderSlots - t.placed
  {
    if t.placed >= FielderSlots then Some(t)
    else
      var next := Pass(t, skills, fielders, maxOcc, stream);
      if next.placed == t.placed then None
      else FillAsWritten(next, skills, fielders, maxOcc, stream)
  }

  /** The loop with an exit when a pass places nobody. */
  function Fill(t: Tally, skills: seq<int>, fielders: nat, maxOcc: nat, stream: seq<nat>): (r: Tally)
    requires FillSafe(t, skills, fielders, maxOcc)
    requires forall i :: 0 <= i < |stream| ==> stream[i] < fielders
    ensures FillSafe(r, skills, fielders, maxOcc)
    ensures r.placed >= t.placed
    ensures r.placed == FielderSlots || Pass(r, skills, fielders, maxOcc, stream) == r
    ensures forall l, x :: 0 <= l < LineCount && x in t.lines[l] ==> x in r.lines[l]
    decreases FielderSlots - t.placed
  {
    if t.placed >= FielderSlots then t
    else
      var next := Pass(t, skills, fielders, maxOcc, stream);
      if next.placed == t.placed then t
      else Fill(next, skills, fielders, maxOcc, stream)
  }

  /**
   * The loop as written ends exactly when the corrected loop fills all 45 slots, and then
   * both end in the same state.
   */
  lemma {:induction false} FillAsWrittenAgrees(t: Tally, skills: seq<int>, fielders: nat, maxOcc: nat, stream: seq<nat>)
    requires FillSafe(t, skills, fielders, maxOcc)
    requires forall i :: 0 <= i < |stream| ==> stream[i] < fielders
    ensures FillAsWritten(t, skills, fielders, maxOcc, stream).Some?
        <==> Fill(t, skills, fielders, maxOcc, stream).placed == FielderSlots
    ensures FillAsWritten(t, skills, fielders, maxOcc, stream).Some?
        ==> FillAsWritten(t, skills, fielders, maxOcc, stream).value == Fill(t, skills, fielders, maxOcc, stream)
    decreases FielderSlots - t.placed
  {
    if t.placed < FielderSlots {
      var next := Pass(t, skills, fielders, maxOcc, stream);
      if next.placed != t.placed {
        FillAsWrittenAgrees(next, skills, fielders, maxOcc, stream);
      }
    }
  }

  /**
   * `fielders.sort((a, b) => b.skill - a.skill)` sorts ascending by the negated skill, so
   * `Sorting.Precedes(a, b, Descending(skills))` reads: `a` has the higher skill, or the same
   * skill and the lower number.
   */
  function Descending(skills: seq<int>): nat -> int {
    (p: nat) => if p < |skills| then -skills[p] else 0
  }

  /** `fieldersMax`: fielders by descending skill (stable), the whole run repeated `maxOcc` times. */
  function Stream(skills: seq<int>, fielders: nat, maxOcc: nat): (r: seq<nat>)
    ensures forall i :: 0 <= i < |r| ==> r[i] < fielders
    ensures forall f: nat :: f < fielders ==> multiset(r)[f] == maxOcc
  {
    var order := Sorting.SortBy(Helpers.GenerateArray(fielders), Descending(skills));
    var r := Seqs.Repeat<nat>(order, maxOcc);
    StreamMembers(order, fielders, maxOcc);
    r
  }

  /**
   * The order of `fieldersMax`: one run of every fielder by descending skill, equal skills
   * by ascending number as the stable sort leaves them, and that run repeated `maxOcc` times.
   */
  lemma StreamOrder(skills: seq<int>, fielders: nat, maxOcc: nat)
    requires maxOcc > 0
    ensures var r := Stream(skills, fielders, maxOcc);
      && fielders <= |r|
      && r == Seqs.Repeat(r[..fielders], maxOcc)
      && Sorting.SortedThenAscending(r[..fielders], Descending(skills))
  {
    var ids := Helpers.GenerateArray(fielders);
    var order := Sorting.SortBy(ids, Descending(skills));
    Sorting.SortByAscending(ids, Descending(skills));
    assert Stream(skills, fielders, maxOcc)[..fielders] == order;
  }

  lemma StreamMembers(order: seq<nat>, fielders: nat, maxOcc: nat)
    requires multiset(order) == multiset(Helpers.GenerateArray(fielders))
    ensures forall i :: 0 <= i < |Seqs.Repeat<nat>(order, maxOcc)| ==> Seqs.Repeat<nat>(order, maxOcc)[i] < fielders
    ensures forall f: nat :: f < fielders ==> multiset(Seqs.Repeat<nat>(order, maxOcc))[f] == maxOcc
  {
    var r := Seqs.Repeat<nat>(order, maxOcc);
    forall i | 0 <= i < |r| ensures r[i] < fielders {
      assert r[i] in order;
      assert r[i] in multiset(Helpers.GenerateArray(fielders));
      Helpers.GenerateArrayCount(fielders, r[i]);
    }
    forall f: nat | f < fielders ensures multiset(r)[f] == maxOcc {
      Seqs.RepeatCount(order, maxOcc, f);
      Helpers.GenerateArrayCount(fielders, f);
    }
  }

  /** The line sizes bound the counter: a line holds at most `fielders` distinct fielders. */
  lemma PlacedAtMost(t: Tally, skills: seq<int>, fielders: nat, maxOcc: nat)
    requires FillSafe(t, skills, fielders, maxOcc)
    ensures t.placed <= LineCount * fielders
  {
    forall l | 0 <= l < LineCount ensures Size(t.lines[l]) <= fielders {
      NoDupBound(t.lines[l], Below(fielders));
    }
    Seqs.SumOfBound(t.lines, Size, fielders);
  }

  /**
   * With three or four fielders the 45 slots can never be filled, so the loop as written
   * never ends, whatever state it starts from.
   */
  lemma FillAsWrittenDiverges(t: Tally, skills: seq<int>, fielders: nat, maxOcc: nat, stream: seq<nat>)
    requires FillSafe(t, skills, fielders, maxOcc) && fielders <= 4
    requires forall i :: 0 <= i < |stream| ==> stream[i] < fielders
    ensures FillAsWritten(t, skills, fielders, maxOcc, stream).None?
  {
    var r := FillAsWritten(t, skills, fielders, maxOcc, stream);
    if r.Some? {
      PlacedAtMost(r.value, skills, fielders, maxOcc);
    }
  }

  /** With at most five fielders a line that lacks `f` always has a free slot. */
  lemma RoomWithoutMe(t: Tally, skills: seq<int>, fielders: nat, maxOcc: nat, f: nat, l: nat)
    requires FillSafe(t, skills, fielders, maxOcc) && fielders <= FieldersPerLine
    requires f < fielders && l < LineCount && f !in t.lines[l]
    ensures Eligible(t, f, l)
  {
    var others := Below(fielders) - {f};
    assert |others| == fielders - 1;
    forall k | 0 <= k < |t.lines[l]| ensures t.lines[l][k] in others {
      assert t.lines[l][k] != f;
    }
    NoDupBound(t.lines[l], others);
  }

  /**
   * With at most five fielders and a cap above nine, a candidate that is not yet on every line
   * is placed.
   */
  lemma StepSmall(t: Tally, skills: seq<int>, fielders: nat, maxOcc: nat, f: nat)
    requires FillSafe(t, skills, fielders, maxOcc) && fielders <= FieldersPerLine && maxOcc > LineCount
    requires f < fielders && t.occ[f] < LineCount
    ensures Step(t, skills, fielders, maxOcc, f).placed == t.placed + 1
  {
    OccBound(t, skills, f);
    var l :| 0 <= l < LineCount && f !in t.lines[l];
    RoomWithoutMe(t, skills, fielders, maxOcc, f, l);
  }

  /** A pass that changes nothing changes nothing at any of its steps. */
  lemma {:induction false} PassIdle(t: Tally, skills: seq<int>, fielders: nat, maxOcc: nat, stream: seq<nat>)
    requires FillSafe(t, skills, fielders, maxOcc)
    requires forall i :: 0 <= i < |stream| ==> stream[i] < fielders
    requires Pass(t, skills, fielders, maxOcc, stream) == t
    ensures forall x :: x in stream ==> Step(t, skills, fielders, maxOcc, x) == t
    decreases |stream|
  {
    if |stream| > 0 {
      var next := Step(t, skills, fielders, maxOcc, stream[0]);
      assert next == t;
      PassIdle(t, skills, fielders, maxOcc, stream[1..]);
      assert forall x :: x in stream ==> x == stream[0] || x in stream[1..];
    }
  }

  /**
   * On at most five fielders, with a cap above nine, a state that a pass leaves unchanged has
   * every fielder that the stream lists on all nine lines.
   */
  lemma IdleCovers(t: Tally, skills: seq<int>, fielders: nat, maxOcc: nat, stream: seq<nat>)
    requires FillSafe(t, skills, fielders, maxOcc) && fielders <= FieldersPerLine && maxOcc > LineCount
    requires forall i :: 0 <= i < |stream| ==> stream[i] < fielders
    requires forall g: nat :: g < fielders ==> g in stream
    requires Pass(t, skills, fielders, maxOcc, stream) == t
    ensures forall g :: 0 <= g < fielders ==> t.occ[g] == LineCount
  {
    PassIdle(t, skills, fielders, maxOcc, stream);
    forall g: nat | g < fielders ensures t.occ[g] == LineCount {
      assert Step(t, skills, fielders, maxOcc, g) == t;
      OccBound(t, skills, g);
      if t.occ[g] < LineCount {
        StepSmall(t, skills, fielders, maxOcc, g);
        assert false;
      }
    }
  }

  /** On at most five fielders, 45 placements mean every fielder is on all nine lines. */
  lemma FullCovers(t: Tally, skills: seq<int>, fielders: nat, maxOcc: nat)
    requires FillSafe(t, skills, fielders, maxOcc) && fielders <= FieldersPerLine
    requires t.placed == FielderSlots
    ensures forall g :: 0 <= g < fielders ==> t.occ[g] == LineCount
  {
    forall l | 0 <= l < LineCount ensures |t.lines[l]| == FieldersPerLine {
      if |t.lines[l]| < FieldersPerLine {
        Seqs.SumOfBoundStrict(t.lines, Size, FieldersPerLine, l);
      }
    }
    forall g | 0 <= g < fielders ensures t.occ[g] == LineCount {
      forall l | 0 <= l < LineCount ensures g in t.lines[l] {
        if g !in t.lines[l] {
          RoomWithoutMe(t, skills, fielders, maxOcc, g, l);
        }
      }
      OccBound(t, skills, g);
    }
  }

  /** The counter of a state in which each of the first `fielders` players has `c` lines and nobody else any. */
  lemma PlacedFromCounts(t: Tally, skills: seq<int>, fielders: nat, maxOcc: nat, c: nat)
    requires FillSafe(t, skills, fielders, maxOcc)
    requires forall g :: 0 <= g < fielders ==> t.occ[g] == c
    ensures t.placed == c * fielders
  {
    var a := t.occ[..fielders];
    var b := t.occ[fielders..];
    assert t.occ == a + b;
    Seqs.SumOfAppend(a, b, Value);
    Seqs.SumOfConst(a, Value, c);
    Seqs.SumOfZero(b, Value);
  }

  /** Nine lines each for the first `fielders` players means each of them is on every line. */
  lemma CountsCover(t: Tally, skills: seq<int>, fielders: nat)
    requires Tracks(t, skills) && fielders <= |skills|
    requires forall g :: 0 <= g < fielders ==> t.occ[g] == LineCount
    ensures forall f, l :: 0 <= f < fielders && 0 <= l < LineCount ==> f in t.lines[l]
  {
    forall f, l | 0 <= f < fielders && 0 <= l < LineCount ensures f in t.lines[l] {
      OccBound(t, skills, f);
    }
  }

  /**
   * Wherever the corrected loop ends on at most five fielders, with a cap above nine and a
   * stream that lists every fielder, every fielder is on every line: `9 * fielders` slots.
   */
  lemma FillCovers(t: Tally, skills: seq<int>, fielders: nat, maxOcc: nat, stream: seq<nat>)
    requires FillSafe(t, skills, fielders, maxOcc) && fielders <= FieldersPerLine && maxOcc > LineCount
    requires forall i :: 0 <= i < |stream| ==> stream[i] < fielders
    requires forall g: nat :: g < fielders ==> g in stream
    ensures var r := Fill(t, skills, fielders, maxOcc, stream);
      r.placed == LineCount * fielders
      && forall f, l :: 0 <= f < fielders && 0 <= l < LineCount ==> f in r.lines[l]
  {
    var r := Fill(t, skills, fielders, maxOcc, stream);
    if r.placed == FielderSlots {
      FullCovers(r, skills, fielders, maxOcc);
    } else {
      IdleCovers(r, skills, fielders, maxOcc, stream);
    }
    PlacedFromCounts(r, skills, fielders, maxOcc, LineCount);
    CountsCover(r, skills, fielders);
  }

  /**
   * The corrected loop on a roster of at most five fielders puts every fielder on every line:
   * `9 * fielders` slots, all 45 exactly when there are five.
   */
  lemma SmallRosterCovers(skills: seq<int>, fielders: nat)
    requires 0 < fielders <= FieldersPerLine && fielders <= |skills|
    ensures var r := Fill(Start(skills), skills, fielders, MaxOcc(fielders), Stream(skills, fielders, MaxOcc(fielders)));
      r.placed == LineCount * fielders
      && forall f, l :: 0 <= f < fielders && 0 <= l < LineCount ==> f in r.lines[l]
  {
    var m := MaxOcc(fielders);
    var t := Start(skills);
    var stream := Stream(skills, fielders, m);
    SmallMaxOcc(fielders);
    StreamLists(skills, fielders, m);
    StartSafe(skills, fielders, m);
    FillCovers(t, skills, fielders, m, stream);
  }

  /** With at most five fielders the cap exceeds the nine lines. */
  lemma SmallMaxOcc(fielders: nat)
    requires 0 < fielders <= FieldersPerLine
    ensures MaxOcc(fielders) > LineCount
  {
  }

  /** The empty lines satisfy the fill's invariant. */
  lemma StartSafe(skills: seq<int>, fielders: nat, maxOcc: nat)
    requires fielders <= |skills|
    ensures FillSafe(Start(skills), skills, fielders, maxOcc)
  {
  }

  /** A stream with a positive cap lists every fielder. */
  lemma StreamLists(skills: seq<int>, fielders: nat, maxOcc: nat)
    requires maxOcc > 0
    ensures forall g: nat :: g < fielders ==> g in Stream(skills, fielders, maxOcc)
  {
    var counts: multiset<nat> := multiset(Stream(skills, fielders, maxOcc));
    forall g: nat | g < fielders ensures g in Stream(skills, fielders, maxOcc) {
      assert counts[g] == maxOcc;
    }
  }

  /** With exactly five fielders the loop as written ends, in the covering state. */
  lemma FiveFieldersEnds(skills: seq<int>)
    requires FieldersPerLine <= |skills|
    ensures FillAsWritten(Start(skills), skills, FieldersPerLine, MaxOcc(FieldersPerLine),
                          Stream(skills, FieldersPerLine, MaxOcc(FieldersPerLine))).Some?
  {
    var m := MaxOcc(FieldersPerLine);
    SmallRosterCovers(skills, FieldersPerLine);
    FillAsWrittenAgrees(Start(skills), skills, FieldersPerLine, m, Stream(skills, FieldersPerLine, m));
  }
}
