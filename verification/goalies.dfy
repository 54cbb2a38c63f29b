/**
 * The goalie phase of `buildLineup` in `src/model.js`. The period sums are taken once, from
 * the lines as the fielder phase left them; each goalie of the stream then takes the open
 * period with the smallest sum (ties to the lower period) and is added to its three lines.
 * Players are numbered as in `Tally`; goalies are the numbers from `fielders` on.
 */
module Goalies {
  import opened Wrappers
  import opened Tally
  import Seqs
  import Helpers
  import Sorting
  import Fielders

  /** `Math.ceil(a / b)` for a positive divisor. */
  function CeilDiv(a: nat, b: nat): (r: nat)
    requires b > 0
    ensures (r - 1) * b < a <= r * b
  {
    (a + b - 1) / b
  }

  /** `Math.ceil((i + 1) / linePerPeriod) - 1`: the period that line `i` belongs to. */
  function PeriodIndex(i: nat): (r: nat)
    ensures LinesPerPeriod * r <= i < LinesPerPeriod * (r + 1)
  {
    CeilDiv(i + 1, LinesPerPeriod) - 1
  }

  /** The `reduce` that builds `periodSums`, after visiting the first `k` lines. */
  function AccumulatePeriods(sums: seq<int>, k: nat): (r: seq<int>)
    requires k <= |sums| == LineCount
    ensures |r| == PeriodCount
    ensures forall p :: 0 <= p < PeriodCount && k <= LinesPerPeriod * p ==> r[p] == 0
  {
    if k == 0 then [0, 0, 0]
    else
      var ps := AccumulatePeriods(sums, k - 1);
      var p := PeriodIndex(k - 1);
      ps[p := ps[p] + sums[k - 1]]
  }

  function PeriodSums(sums: seq<int>): (r: seq<int>)
    requires |sums| == LineCount
    ensures |r| == PeriodCount
  {
    AccumulatePeriods(sums, LineCount)
  }

  /** Each period sum is the sum of its three lines. */
  lemma PeriodSumsLines(sums: seq<int>)
    requires |sums| == LineCount
    ensures PeriodSums(sums) == [sums[0] + sums[1] + sums[2], sums[3] + sums[4] + sums[5], sums[6] + sums[7] + sums[8]]
  {
    assert AccumulatePeriods(sums, 1) == [sums[0], 0, 0];
    assert AccumulatePeriods(sums, 2) == [sums[0] + sums[1], 0, 0];
    assert AccumulatePeriods(sums, 3) == [sums[0] + sums[1] + sums[2], 0, 0];
    assert AccumulatePeriods(sums, 4) == [sums[0] + sums[1] + sums[2], sums[3], 0];
    assert AccumulatePeriods(sums, 5) == [sums[0] + sums[1] + sums[2], sums[3] + sums[4], 0];
    assert AccumulatePeriods(sums, 6) == [sums[0] + sums[1] + sums[2], sums[3] + sums[4] + sums[5], 0];
    assert AccumulatePeriods(sums, 7) == [sums[0] + sums[1] + sums[2], sums[3] + sums[4] + sums[5], sums[6]];
    assert AccumulatePeriods(sums, 8) == [sums[0] + sums[1] + sums[2], sums[3] + sums[4] + sums[5], sums[6] + sums[7]];
  }

  /** The sort key of a period: its sum. */
  function SumKey(psums: seq<int>): nat -> int {
    (p: nat) => if p < |psums| then psums[p] else 0
  }

  /**
   * `openPeriods.sort((a, b) => a.sum - b.sum)[0]`: among the periods without a goalie, the
   * first of those with the smallest sum; none when every period has one. Computed by one scan
   * over the periods that keeps a period only when it beats the best so far strictly;
   * `ChoosePeriodIsSortedChoice` shows it picks what the stable sort puts first.
   */
  function ChoosePeriod(psums: seq<int>, has: seq<bool>): (r: Option<nat>)
    requires |psums| == PeriodCount && |has| == PeriodCount
    ensures r.Some? ==> r.value < PeriodCount && !has[r.value]
  {
    Better(psums, has, Better(psums, has, Better(psums, has, None, 0), 1), 2)
  }

  /**
   * What `ChoosePeriod` picks: no period exactly when every period has a goalie, otherwise an
   * open period with the smallest sum, before any other open period with that sum.
   */
  lemma ChoosePeriodMeaning(psums: seq<int>, has: seq<bool>)
    requires |psums| == PeriodCount && |has| == PeriodCount
    ensures var r := ChoosePeriod(psums, has);
      && (r.None? <==> forall p :: 0 <= p < PeriodCount ==> has[p])
      && (r.Some? ==> forall p :: 0 <= p < PeriodCount && !has[p] ==> psums[r.value] <= psums[p])
      && (r.Some? ==> forall p :: 0 <= p < r.value && !has[p] ==> psums[r.value] < psums[p])
  {
  }

  /** One step of the scan: period `p` replaces the best so far `c` when open and strictly smaller. */
  function Better(psums: seq<int>, has: seq<bool>, c: Option<nat>, p: nat): Option<nat>
    requires |psums| == PeriodCount && |has| == PeriodCount && p < PeriodCount
    requires c.Some? ==> c.value < PeriodCount
  {
    if has[p] then c
    else if c.None? || psums[p] < psums[c.value] then Some(p)
    else c
  }

  /** The period `openPeriods.sort(...)[0]` names, written as the source writes it. */
  function SortedChoice(psums: seq<int>, has: seq<bool>): (r: Option<nat>)
    requires |psums| == PeriodCount && |has| == PeriodCount
    ensures r.Some? ==> r.value < PeriodCount && !has[r.value]
  {
    var all := Helpers.GenerateArray(PeriodCount);
    var isOpen := (p: nat) => p < |has| && !has[p];
    var open := Seqs.Filter<nat>(all, isOpen);
    if |open| == 0 then None
    else
      Fielders.FilterIncreasing(all, isOpen);
      ChoosePeriodFirstMin(psums, has, open);
      Some(Sorting.SortBy(open, SumKey(psums))[0])
  }

  /** The scan and the stable sort pick the same period. */
  lemma ChoosePeriodIsSortedChoice(psums: seq<int>, has: seq<bool>)
    requires |psums| == PeriodCount && |has| == PeriodCount
    ensures ChoosePeriod(psums, has) == SortedChoice(psums, has)
  {
    var all := Helpers.GenerateArray(PeriodCount);
    var isOpen := (p: nat) => p < |has| && !has[p];
    var open := Seqs.Filter<nat>(all, isOpen);
    var r := ChoosePeriod(psums, has);
    ChoosePeriodMeaning(psums, has);
    if |open| == 0 {
      forall p | 0 <= p < PeriodCount ensures has[p] {
        assert all[p] == p && all[p] in all;
      }
    } else {
      Fielders.FilterIncreasing(all, isOpen);
      ChoosePeriodFirstMin(psums, has, open);
      ChoosePeriodMeaning(psums, has);
      var c := Sorting.SortBy(open, SumKey(psums))[0];
      FirstMinUnique(psums, r.value, c);
    }
  }

  /** Two periods that are each the first with the smallest sum are the same period. */
  lemma FirstMinUnique(psums: seq<int>, a: nat, b: nat)
    requires a < |psums| && b < |psums|
    requires psums[a] <= psums[b] && psums[b] <= psums[a]
    requires a < b ==> psums[b] < psums[a]
    requires b < a ==> psums[a] < psums[b]
    ensures a == b
  {
  }

  lemma ChoosePeriodFirstMin(psums: seq<int>, has: seq<bool>, open: seq<nat>)
    requires |psums| == PeriodCount && |has| == PeriodCount && |open| > 0
    requires forall p: nat :: p in open <==> p in Helpers.GenerateArray(PeriodCount) && p < |has| && !has[p]
    requires Fielders.Increasing(open)
    ensures var c := Sorting.SortBy(open, SumKey(psums))[0];
      && c < PeriodCount && !has[c]
      && (forall p :: 0 <= p < PeriodCount && !has[p] ==> psums[c] <= psums[p])
      && (forall p :: 0 <= p < c && !has[p] ==> psums[c] < psums[p])
  {
    var i := Sorting.SortByHead(open, SumKey(psums));
    assert open[i] in open;
    forall p | 0 <= p < PeriodCount && !has[p]
      ensures psums[open[i]] <= psums[p]
      ensures p < open[i] ==> psums[open[i]] < psums[p]
    {
      assert Helpers.GenerateArray(PeriodCount)[p] == p;
      assert p in open;
      var j :| 0 <= j < |open| && open[j] == p;
      if p < open[i] {
        assert j < i;
      }
    }
  }

  /** Player `g` joins each of the lines `ls`, in order. */
  function PlaceOnLines(t: Tally, skills: seq<int>, g: nat, ls: seq<nat>): (r: Tally)
    requires Tracks(t, skills) && g < |skills| && Fresh(t, g, ls)
    ensures Tracks(r, skills)
    ensures r.placed == t.placed + |ls|
    decreases |ls|
  {
    if |ls| == 0 then t
    else
      var next := Place(t, skills, g, ls[0]);
      FreshStep(t, next, g, ls);
      PlaceOnLines(next, skills, g, ls[1..])
  }

  /** The lines `ls` are distinct lines that do not hold `g` yet. */
  predicate Fresh(t: Tally, g: nat, ls: seq<nat>) {
    && (forall i :: 0 <= i < |ls| ==> ls[i] < LineCount && ls[i] < |t.lines| && g !in t.lines[ls[i]])
    && (forall i, j :: 0 <= i < j < |ls| ==> ls[i] != ls[j])
  }

  lemma FreshStep(t: Tally, next: Tally, g: nat, ls: seq<nat>)
    requires Fresh(t, g, ls) && |ls| > 0 && |next.lines| == |t.lines|
    requires next.lines == t.lines[ls[0] := t.lines[ls[0]] + [g]]
    ensures Fresh(next, g, ls[1..])
  {
    forall i | 0 <= i < |ls[1..]| ensures g !in next.lines[ls[1..][i]] {
      assert ls[1..][i] == ls[i + 1] != ls[0];
    }
  }

  /** Placing on several lines adds them all to the player's count, and no other count changes... */
  lemma {:induction false} PlaceOnLinesOcc(t: Tally, skills: seq<int>, g: nat, ls: seq<nat>)
    requires Tracks(t, skills) && g < |skills| && Fresh(t, g, ls)
    ensures PlaceOnLines(t, skills, g, ls).occ[g] == t.occ[g] + |ls|
    ensures forall q :: 0 <= q < |skills| && q != g ==> PlaceOnLines(t, skills, g, ls).occ[q] == t.occ[q]
    decreases |ls|
  {
    if |ls| > 0 {
      var next := Place(t, skills, g, ls[0]);
      FreshStep(t, next, g, ls);
      PlaceOnLinesOcc(next, skills, g, ls[1..]);
    }
  }

  /** ...and appends the player to each of them, leaving every other line alone. */
  lemma {:induction false} PlaceOnLinesLines(t: Tally, skills: seq<int>, g: nat, ls: seq<nat>)
    requires Tracks(t, skills) && g < |skills| && Fresh(t, g, ls)
    ensures forall l :: 0 <= l < LineCount ==>
      PlaceOnLines(t, skills, g, ls).lines[l] == if l in ls then t.lines[l] + [g] else t.lines[l]
    decreases |ls|
  {
    if |ls| > 0 {
      var next := Place(t, skills, g, ls[0]);
      FreshStep(t, next, g, ls);
      var rest := PlaceOnLines(next, skills, g, ls[1..]);
      assert PlaceOnLines(t, skills, g, ls) == rest;
      PlaceOnLinesLines(next, skills, g, ls[1..]);
      LinesStep(t.lines, next.lines, rest.lines, ls, g);
    }
  }

  lemma LinesStep(l0: seq<seq<nat>>, l1: seq<seq<nat>>, l2: seq<seq<nat>>, ls: seq<nat>, g: nat)
    requires |l0| == LineCount && |ls| > 0 && ls[0] < LineCount
    requires forall i, j :: 0 <= i < j < |ls| ==> ls[i] != ls[j]
    requires l1 == l0[ls[0] := l0[ls[0]] + [g]]
    requires |l2| == LineCount
    requires forall l :: 0 <= l < LineCount ==> l2[l] == if l in ls[1..] then l1[l] + [g] else l1[l]
    ensures forall l :: 0 <= l < LineCount ==> l2[l] == if l in ls then l0[l] + [g] else l0[l]
  {
    assert forall l :: l in ls <==> l == ls[0] || l in ls[1..];
    assert ls[0] !in ls[1..];
  }

  /** The lines of period `p` in the order the inner loop visits them: `3p + 2`, `3p + 1`, `3p`. */
  function PeriodLines(p: nat): (r: seq<nat>)
    ensures forall l: nat :: l in r <==> PeriodIndex(l) == p
    ensures |r| == LinesPerPeriod && forall i, j :: 0 <= i < j < |r| ==> r[i] != r[j]
  {
    var b := LinesPerPeriod * p;
    [b + 2, b + 1, b]
  }

  /** The inner loop of the goalie phase: goalie `g` joins the three lines of period `p`. */
  function PlaceGoalie(t: Tally, skills: seq<int>, g: nat, p: nat): (r: Tally)
    requires Tracks(t, skills) && g < |skills| && p < PeriodCount
    requires forall l :: 0 <= l < LineCount && PeriodIndex(l) == p ==> g !in t.lines[l]
    ensures Tracks(r, skills)
    ensures r.placed == t.placed + LinesPerPeriod
  {
    var ls := PeriodLines(p);
    assert Fresh(t, g, ls) by {
      forall i | 0 <= i < |ls| ensures ls[i] < LineCount && PeriodIndex(ls[i]) == p {
        assert ls[i] in ls;
      }
    }
    PlaceOnLines(t, skills, g, ls)
  }

  /**
   * Placing a goalie on period `p` appends it to the three lines of `p` and to no other, and
   * adds three to its count.
   */
  lemma PlaceGoalieEffect(t: Tally, skills: seq<int>, g: nat, p: nat)
    requires Tracks(t, skills) && g < |skills| && p < PeriodCount
    requires forall l :: 0 <= l < LineCount && PeriodIndex(l) == p ==> g !in t.lines[l]
    ensures var r := PlaceGoalie(t, skills, g, p);
      && (forall l :: 0 <= l < LineCount ==> r.lines[l] == if PeriodIndex(l) == p then t.lines[l] + [g] else t.lines[l])
      && r.occ[g] == t.occ[g] + LinesPerPeriod
      && (forall q :: 0 <= q < |skills| && q != g ==> r.occ[q] == t.occ[q])
  {
    var ls := PeriodLines(p);
    assert Fresh(t, g, ls) by {
      forall i | 0 <= i < |ls| ensures ls[i] < LineCount && PeriodIndex(ls[i]) == p {
        assert ls[i] in ls;
      }
    }
    PlaceOnLinesOcc(t, skills, g, ls);
    PlaceOnLinesLines(t, skills, g, ls);
  }

  /** Every member of `line` is a fielder. */
  predicate FieldersOnly(line: seq<nat>, fielders: nat) {
    forall k :: 0 <= k < |line| ==> line[k] < fielders
  }

  /** The lines of a period without a goalie hold fielders only. */
  predicate GoalieSafe(t: Tally, skills: seq<int>, fielders: nat, has: seq<bool>) {
    Tracks(t, skills) && fielders <= |skills| && |has| == PeriodCount
    && forall l :: 0 <= l < LineCount && !has[PeriodIndex(l)] ==> FieldersOnly(t.lines[l], fielders)
  }

  /** The lines and the `hasGoalie` flags of `periodSums`; the sums themselves never change. */
  datatype GoalieState = GoalieState(t: Tally, has: seq<bool>)

  /**
   * One goalie of the stream: skipped when every period has a goalie, otherwise placed on
   * the chosen period, which is then marked.
   */
  function GoalieStep(s: GoalieState, skills: seq<int>, fielders: nat, psums: seq<int>, g: nat): (r: GoalieState)
    requires GoalieSafe(s.t, skills, fielders, s.has) && |psums| == PeriodCount
    requires fielders <= g < |skills|
    ensures GoalieSafe(r.t, skills, fielders, r.has)
    ensures r.has == MarkStep(psums, s.has)
  {
    match ChoosePeriod(psums, s.has)
    case None => s
    case Some(p) =>
      GoalieAbsent(s.t, skills, fielders, s.has, g, p);
      PlaceGoalieSafe(s.t, skills, fielders, s.has, g, p);
      GoalieState(PlaceGoalie(s.t, skills, g, p), s.has[p := true])
  }

  /** A goalie is on no line of a period that has no goalie yet. */
  lemma GoalieAbsent(t: Tally, skills: seq<int>, fielders: nat, has: seq<bool>, g: nat, p: nat)
    requires GoalieSafe(t, skills, fielders, has) && fielders <= g < |skills| && p < PeriodCount && !has[p]
    ensures forall l :: 0 <= l < LineCount && PeriodIndex(l) == p ==> g !in t.lines[l]
  {
    forall l | 0 <= l < LineCount && PeriodIndex(l) == p ensures g !in t.lines[l] {
      assert FieldersOnly(t.lines[l], fielders);
    }
  }

  /** Marking the period the goalie joins keeps the lines of the other open periods fielders only. */
  lemma PlaceGoalieSafe(t: Tally, skills: seq<int>, fielders: nat, has: seq<bool>, g: nat, p: nat)
    requires GoalieSafe(t, skills, fielders, has) && fielders <= g < |skills| && p < PeriodCount
    requires forall l :: 0 <= l < LineCount && PeriodIndex(l) == p ==> g !in t.lines[l]
    ensures GoalieSafe(PlaceGoalie(t, skills, g, p), skills, fielders, has[p := true])
  {
    var r := PlaceGoalie(t, skills, g, p);
    PlaceGoalieEffect(t, skills, g, p);
    forall l | 0 <= l < LineCount && !has[p := true][PeriodIndex(l)]
      ensures FieldersOnly(r.lines[l], fielders)
    {
      assert PeriodIndex(l) != p && !has[PeriodIndex(l)];
      assert r.lines[l] == t.lines[l];
    }
  }

  /** The flags after one goalie: the chosen period, if any, is marked. */
  function MarkStep(psums: seq<int>, has: seq<bool>): (r: seq<bool>)
    requires |psums| == PeriodCount && |has| == PeriodCount
    ensures |r| == PeriodCount
    ensures CountTrue(r) == if CountTrue(has) < PeriodCount then CountTrue(has) + 1 else CountTrue(has)
  {
    match ChoosePeriod(psums, has)
    case None =>
      ChoosePeriodMeaning(psums, has);
      has
    case Some(p) =>
      CountTrueSet(has, p);
      has[p := true]
  }

  /** The flags after `n` goalies. */
  function Marks(psums: seq<int>, has: seq<bool>, n: nat): (r: seq<bool>)
    requires |psums| == PeriodCount && |has| == PeriodCount
    ensures |r| == PeriodCount
    ensures CountTrue(r) == Min(PeriodCount, CountTrue(has) + n)
    decreases n
  {
    if n == 0 then has else Marks(psums, MarkStep(psums, has), n - 1)
  }

  /**
   * A step that marks a period adds three lines to the counter and to the goalie's count and
   * leaves every other count alone; a step that marks none changes nothing.
   */
  lemma GoalieStepOcc(s: GoalieState, skills: seq<int>, fielders: nat, psums: seq<int>, g: nat)
    requires GoalieSafe(s.t, skills, fielders, s.has) && |psums| == PeriodCount
    requires fielders <= g < |skills|
    ensures var r := GoalieStep(s, skills, fielders, psums, g);
      var k := if CountTrue(s.has) < PeriodCount then LinesPerPeriod else 0;
      && r.t.placed == s.t.placed + k
      && r.t.occ[g] == s.t.occ[g] + k
      && (forall q :: 0 <= q < |skills| && q != g ==> r.t.occ[q] == s.t.occ[q])
  {
    match ChoosePeriod(psums, s.has)
    case None =>
    case Some(p) =>
      PlaceGoalieEffect(s.t, skills, g, p);
  }

  /** `for (const goalie of goaliesMax)`. */
  function GoaliePass(s: GoalieState, skills: seq<int>, fielders: nat, psums: seq<int>, stream: seq<nat>): (r: GoalieState)
    requires GoalieSafe(s.t, skills, fielders, s.has) && |psums| == PeriodCount
    requires forall i :: 0 <= i < |stream| ==> fielders <= stream[i] < |skills|
    ensures GoalieSafe(r.t, skills, fielders, r.has)
    ensures r.has == Marks(psums, s.has, |stream|)
    decreases |stream|
  {
    if |stream| == 0 then s
    else GoaliePass(GoalieStep(s, skills, fielders, psums, stream[0]), skills, fielders, psums, stream[1..])
  }

  function Min(a: nat, b: nat): nat {
    if a <= b then a else b
  }

  /** A pass adds three lines to the counter for every period it marks. */
  lemma {:induction false} GoaliePassPlaced(s: GoalieState, skills: seq<int>, fielders: nat, psums: seq<int>, stream: seq<nat>)
    requires GoalieSafe(s.t, skills, fielders, s.has) && |psums| == PeriodCount
    requires forall i :: 0 <= i < |stream| ==> fielders <= stream[i] < |skills|
    ensures var r := GoaliePass(s, skills, fielders, psums, stream);
      r.t.placed == s.t.placed + LinesPerPeriod * (CountTrue(r.has) - CountTrue(s.has))
    decreases |stream|
  {
    if |stream| > 0 {
      var next := GoaliePassUnfold(s, skills, fielders, psums, stream);
      GoalieStepPlaced(s, skills, fielders, psums, stream[0]);
      GoaliePassPlaced(next, skills, fielders, psums, stream[1..]);
    }
  }

  /** One goalie turn adds three lines to the counter exactly when it marks a period. */
  lemma GoalieStepPlaced(s: GoalieState, skills: seq<int>, fielders: nat, psums: seq<int>, g: nat)
    requires GoalieSafe(s.t, skills, fielders, s.has) && |psums| == PeriodCount
    requires fielders <= g < |skills|
    ensures var r := GoalieStep(s, skills, fielders, psums, g);
      r.t.placed == s.t.placed + LinesPerPeriod * (CountTrue(r.has) - CountTrue(s.has))
  {
    GoalieStepOcc(s, skills, fielders, psums, g);
  }

  /**
   * No player gains more than three lines per appearance in the stream; in particular a
   * player absent from the stream (every fielder) gains none.
   */
  lemma {:induction false} GoaliePassOcc(s: GoalieState, skills: seq<int>, fielders: nat, psums: seq<int>, stream: seq<nat>, g: nat)
    requires GoalieSafe(s.t, skills, fielders, s.has) && |psums| == PeriodCount
    requires forall i :: 0 <= i < |stream| ==> fielders <= stream[i] < |skills|
    requires g < |skills|
    ensures GoaliePass(s, skills, fielders, psums, stream).t.occ[g] <= s.t.occ[g] + LinesPerPeriod * multiset(stream)[g]
    decreases |stream|
  {
    if |stream| > 0 {
      var next := GoaliePassUnfold(s, skills, fielders, psums, stream);
      GoalieStepOcc(s, skills, fielders, psums, stream[0]);
      GoaliePassOcc(next, skills, fielders, psums, stream[1..], g);
      MultisetCons(stream, g);
    }
  }

  /** A step for goalie `g` leaves the count of every other player `x` alone. */
  lemma GoalieStepKeeps(s: GoalieState, skills: seq<int>, fielders: nat, psums: seq<int>, g: nat, x: nat)
    requires GoalieSafe(s.t, skills, fielders, s.has) && |psums| == PeriodCount
    requires fielders <= g < |skills| && x < |skills| && x != g
    ensures GoalieStep(s, skills, fielders, psums, g).t.occ[x] == s.t.occ[x]
  {
    GoalieStepOcc(s, skills, fielders, psums, g);
  }

  /** A player the stream never names keeps its count; every fielder is such a player. */
  lemma {:induction false} GoaliePassAbsent(s: GoalieState, skills: seq<int>, fielders: nat, psums: seq<int>, stream: seq<nat>, x: nat)
    requires GoalieSafe(s.t, skills, fielders, s.has) && |psums| == PeriodCount
    requires forall i :: 0 <= i < |stream| ==> fielders <= stream[i] < |skills|
    requires x < |skills| && x !in stream
    ensures GoaliePass(s, skills, fielders, psums, stream).t.occ[x] == s.t.occ[x]
    decreases |stream|
  {
    if |stream| > 0 {
      var next := GoaliePassUnfold(s, skills, fielders, psums, stream);
      GoalieStepKeeps(s, skills, fielders, psums, stream[0], x);
      assert x !in stream[1..];
      GoaliePassAbsent(next, skills, fielders, psums, stream[1..], x);
    }
  }

  /** A non-empty pass is one goalie turn followed by the pass over the rest of the stream. */
  lemma GoaliePassUnfold(s: GoalieState, skills: seq<int>, fielders: nat, psums: seq<int>, stream: seq<nat>)
      returns (next: GoalieState)
    requires GoalieSafe(s.t, skills, fielders, s.has) && |psums| == PeriodCount
    requires forall i :: 0 <= i < |stream| ==> fielders <= stream[i] < |skills|
    requires |stream| > 0
    ensures next == GoalieStep(s, skills, fielders, psums, stream[0])
    ensures GoalieSafe(next.t, skills, fielders, next.has)
    ensures forall i :: 0 <= i < |stream[1..]| ==> fielders <= stream[1..][i] < |skills|
    ensures GoaliePass(s, skills, fielders, psums, stream) == GoaliePass(next, skills, fielders, psums, stream[1..])
  {
    next := GoalieStep(s, skills, fielders, psums, stream[0]);
  }

  lemma MultisetCons(s: seq<nat>, g: nat)
    requires |s| > 0
    ensures multiset(s)[g] == (if s[0] == g then 1 else 0) + multiset(s[1..])[g]
  {
    assert s == [s[0]] + s[1..];
  }

  /** The goalie added to period `p`: the entry of line `3p` just past the `base` lines. */
  function Keeper(lines: seq<seq<nat>>, base: seq<seq<nat>>, p: nat): nat {
    var l := LinesPerPeriod * p;
    if l < |lines| && l < |base| && |base[l]| < |lines[l]| then lines[l][|base[l]|] else 0
  }

  /** `line` is the `base` line with goalie `g` pushed on its end. */
  predicate Extends(line: seq<nat>, base: seq<nat>, g: nat) {
    line == base + [g]
  }

  /** Pushing a goalie keeps everyone the line already held. */
  lemma ExtendsKeeps(line: seq<nat>, base: seq<nat>, g: nat, x: nat)
    requires Extends(line, base, g) && x in base
    ensures x in line
  {
    var k :| 0 <= k < |base| && base[k] == x;
    assert line[k] == x;
  }

  /**
   * Period `p`'s three lines are the `base` lines, followed by one goalie common to all three
   * when the period is marked.
   */
  predicate PeriodOk(lines: seq<seq<nat>>, base: seq<seq<nat>>, has: seq<bool>, fielders: nat, n: nat, p: nat)
    requires |lines| == LineCount && |base| == LineCount && |has| == PeriodCount && p < PeriodCount
  {
    var extra := if has[p] then [Keeper(lines, base, p)] else [];
    && lines[LinesPerPeriod * p] == base[LinesPerPeriod * p] + extra
    && lines[LinesPerPeriod * p + 1] == base[LinesPerPeriod * p + 1] + extra
    && lines[LinesPerPeriod * p + 2] == base[LinesPerPeriod * p + 2] + extra
    && (has[p] ==> fielders <= Keeper(lines, base, p) < n)
  }

  predicate Shape(lines: seq<seq<nat>>, base: seq<seq<nat>>, has: seq<bool>, fielders: nat, n: nat)
    requires |lines| == LineCount && |base| == LineCount && |has| == PeriodCount
  {
    forall p :: 0 <= p < PeriodCount ==> PeriodOk(lines, base, has, fielders, n, p)
  }

  /** Appending goalie `g` to the lines of open period `p`, and marking it, keeps the shape. */
  lemma ShapeStep(lines: seq<seq<nat>>, lines': seq<seq<nat>>, base: seq<seq<nat>>, has: seq<bool>, fielders: nat, n: nat, g: nat, p: nat)
    requires |lines| == LineCount && |lines'| == LineCount && |base| == LineCount && |has| == PeriodCount
    requires p < PeriodCount && !has[p] && fielders <= g < n
    requires Shape(lines, base, has, fielders, n)
    requires forall l :: 0 <= l < LineCount ==> lines'[l] == if PeriodIndex(l) == p then lines[l] + [g] else lines[l]
    ensures Shape(lines', base, has[p := true], fielders, n)
  {
    var has' := has[p := true];
    forall q | 0 <= q < PeriodCount ensures PeriodOk(lines', base, has', fielders, n, q) {
      assert PeriodOk(lines, base, has, fielders, n, q);
      var l := LinesPerPeriod * q;
      assert PeriodIndex(l) == q && PeriodIndex(l + 1) == q && PeriodIndex(l + 2) == q;
      if q == p {
        assert lines'[l] == base[l] + [g];
      }
    }
  }

  lemma StepShape(s: GoalieState, base: seq<seq<nat>>, skills: seq<int>, fielders: nat, psums: seq<int>, g: nat)
    requires GoalieSafe(s.t, skills, fielders, s.has) && |psums| == PeriodCount
    requires fielders <= g < |skills| && |base| == LineCount
    requires Shape(s.t.lines, base, s.has, fielders, |skills|)
    ensures var r := GoalieStep(s, skills, fielders, psums, g);
      Shape(r.t.lines, base, r.has, fielders, |skills|)
  {
    match ChoosePeriod(psums, s.has)
    case None =>
    case Some(p) =>
      PlaceGoalieEffect(s.t, skills, g, p);
      ShapeStep(s.t.lines, PlaceGoalie(s.t, skills, g, p).lines, base, s.has, fielders, |skills|, g, p);
  }

  /** Across a whole pass, every period keeps the `base` lines plus at most one goalie. */
  lemma {:induction false} GoaliePassShape(s: GoalieState, base: seq<seq<nat>>, skills: seq<int>, fielders: nat, psums: seq<int>, stream: seq<nat>)
    requires GoalieSafe(s.t, skills, fielders, s.has) && |psums| == PeriodCount
    requires forall i :: 0 <= i < |stream| ==> fielders <= stream[i] < |skills|
    requires |base| == LineCount && Shape(s.t.lines, base, s.has, fielders, |skills|)
    ensures var r := GoaliePass(s, skills, fielders, psums, stream);
      Shape(r.t.lines, base, r.has, fielders, |skills|)
    decreases |stream|
  {
    if |stream| > 0 {
      var next := GoalieStep(s, skills, fielders, psums, stream[0]);
      StepShape(s, base, skills, fielders, psums, stream[0]);
      GoaliePassShape(next, base, skills, fielders, psums, stream[1..]);
    }
  }

  /** `goaliesMax`: goalies by descending skill (stable), the whole run repeated `maxOcc` times. */
  function GoalieStream(skills: seq<int>, fielders: nat, goalies: nat, maxOcc: nat): (r: seq<nat>)
    ensures |r| == goalies * maxOcc
    ensures forall i :: 0 <= i < |r| ==> fielders <= r[i] < fielders + goalies
    ensures forall g: nat :: fielders <= g < fielders + goalies ==> multiset(r)[g] == maxOcc
  {
    var ids := Ids(fielders, goalies);
    var order := Sorting.SortBy(ids, Fielders.Descending(skills));
    GoalieStreamMembers(ids, order, fielders, goalies, maxOcc);
    Seqs.Repeat<nat>(order, maxOcc)
  }

  /**
   * The order of `goaliesMax`: one run of every goalie by descending skill, equal skills by
   * ascending number, and that run repeated `maxOcc` times.
   */
  lemma GoalieStreamOrder(skills: seq<int>, fielders: nat, goalies: nat, maxOcc: nat)
    requires maxOcc > 0
    ensures var r := GoalieStream(skills, fielders, goalies, maxOcc);
      && goalies <= |r|
      && r == Seqs.Repeat(r[..goalies], maxOcc)
      && Sorting.SortedThenAscending(r[..goalies], Fielders.Descending(skills))
  {
    var ids := Ids(fielders, goalies);
    var order := Sorting.SortBy(ids, Fielders.Descending(skills));
    Sorting.SortByAscending(ids, Fielders.Descending(skills));
    assert GoalieStream(skills, fielders, goalies, maxOcc)[..goalies] == order;
  }

  lemma GoalieStreamMembers(ids: seq<nat>, order: seq<nat>, fielders: nat, goalies: nat, maxOcc: nat)
    requires ids == Ids(fielders, goalies) && multiset(order) == multiset(ids)
    ensures forall i :: 0 <= i < |Seqs.Repeat<nat>(order, maxOcc)| ==>
      fielders <= Seqs.Repeat<nat>(order, maxOcc)[i] < fielders + goalies
    ensures forall g: nat :: fielders <= g < fielders + goalies ==> multiset(Seqs.Repeat<nat>(order, maxOcc))[g] == maxOcc
  {
    var r := Seqs.Repeat<nat>(order, maxOcc);
    forall i | 0 <= i < |r| ensures fielders <= r[i] < fielders + goalies {
      assert r[i] in order;
      assert r[i] in multiset(ids);
    }
    forall g: nat | fielders <= g < fielders + goalies ensures multiset(r)[g] == maxOcc {
      Seqs.RepeatCount(order, maxOcc, g);
      IdsCount(fielders, goalies, g);
    }
  }

  /** The goalies' numbers in `players`, in roster order. */
  function Ids(fielders: nat, goalies: nat): (r: seq<nat>)
    ensures |r| == goalies && forall i :: 0 <= i < goalies ==> r[i] == fielders + i
  {
    seq(goalies, i requires 0 <= i => fielders + i)
  }

  lemma {:induction false} IdsCount(fielders: nat, goalies: nat, g: nat)
    requires fielders <= g < fielders + goalies
    ensures multiset(Ids(fielders, goalies))[g] == 1
    decreases goalies
  {
    var ids := Ids(fielders, goalies);
    var init := Ids(fielders, goalies - 1);
    assert ids == init + [fielders + goalies - 1];
    if g < fielders + goalies - 1 {
      IdsCount(fielders, goalies - 1, g);
    } else {
      assert g !in init;
    }
  }

  /**
   * From a state with no period marked and a stream of at least three goalies, the pass puts
   * exactly one goalie on every line, the same one on all three lines of a period, after the
   * lines it started from.
   */
  lemma GoaliesCover(s: GoalieState, skills: seq<int>, fielders: nat, psums: seq<int>, stream: seq<nat>)
    requires GoalieSafe(s.t, skills, fielders, s.has) && |psums| == PeriodCount
    requires forall i :: 0 <= i < |stream| ==> fielders <= stream[i] < |skills|
    requires forall p :: 0 <= p < PeriodCount ==> !s.has[p]
    requires |stream| >= PeriodCount
    ensures var r := GoaliePass(s, skills, fielders, psums, stream);
      && (forall p :: 0 <= p < PeriodCount ==> r.has[p])
      && (forall l :: 0 <= l < LineCount ==>
            r.t.lines[l] == s.t.lines[l] + [Keeper(r.t.lines, s.t.lines, PeriodIndex(l))]
            && fielders <= Keeper(r.t.lines, s.t.lines, PeriodIndex(l)) < |skills|)
  {
    var r := GoaliePass(s, skills, fielders, psums, stream);
    assert CountTrue(s.has) == 0;
    ShapeStart(s.t.lines, s.has, fielders, |skills|);
    GoaliePassShape(s, s.t.lines, skills, fielders, psums, stream);
    ShapeFull(r.t.lines, s.t.lines, r.has, fielders, |skills|);
  }

  /** Before any goalie, every period is its `base` lines and nothing else. */
  lemma ShapeStart(base: seq<seq<nat>>, has: seq<bool>, fielders: nat, n: nat)
    requires |base| == LineCount && |has| == PeriodCount
    requires forall p :: 0 <= p < PeriodCount ==> !has[p]
    ensures Shape(base, base, has, fielders, n)
  {
    forall p | 0 <= p < PeriodCount ensures PeriodOk(base, base, has, fielders, n, p) {
      var l := LinesPerPeriod * p;
      assert base[l] + [] == base[l] && base[l + 1] + [] == base[l + 1] && base[l + 2] + [] == base[l + 2];
    }
  }

  /** Once every period is marked, every line is its `base` line plus its period's goalie. */
  lemma ShapeFull(lines: seq<seq<nat>>, base: seq<seq<nat>>, has: seq<bool>, fielders: nat, n: nat)
    requires |lines| == LineCount && |base| == LineCount && |has| == PeriodCount
    requires Shape(lines, base, has, fielders, n)
    requires CountTrue(has) == PeriodCount
    ensures forall p :: 0 <= p < PeriodCount ==> has[p]
    ensures forall l :: 0 <= l < LineCount ==>
      lines[l] == base[l] + [Keeper(lines, base, PeriodIndex(l))] && fielders <= Keeper(lines, base, PeriodIndex(l)) < n
  {
    forall l | 0 <= l < LineCount
      ensures lines[l] == base[l] + [Keeper(lines, base, PeriodIndex(l))]
      ensures fielders <= Keeper(lines, base, PeriodIndex(l)) < n
    {
      ShapeLine(lines, base, has, fielders, n, l);
    }
  }

  /** A line of a marked period is its `base` line plus the period's goalie. */
  lemma ShapeLine(lines: seq<seq<nat>>, base: seq<seq<nat>>, has: seq<bool>, fielders: nat, n: nat, l: nat)
    requires |lines| == LineCount && |base| == LineCount && |has| == PeriodCount && l < LineCount
    requires Shape(lines, base, has, fielders, n)
    requires has[PeriodIndex(l)]
    ensures lines[l] == base[l] + [Keeper(lines, base, PeriodIndex(l))]
    ensures fielders <= Keeper(lines, base, PeriodIndex(l)) < n
  {
    var p := PeriodIndex(l);
    assert PeriodOk(lines, base, has, fielders, n, p);
    if l == LinesPerPeriod * p {
    } else if l == LinesPerPeriod * p + 1 {
    } else {
      assert l == LinesPerPeriod * p + 2;
    }
  }
}
