/**
 * `buildLineup` in `src/model.js`, assembled from its two phases. The players are the active
 * fielders followed by the active goalies, numbered by that position; the fielder phase runs
 * only on a roster that passes `validate`, the goalie phase always runs, and the result carries
 * the occupancy bounds, every player's count, the player rows sorted by first line and the
 * nine line sums. An empty fielder or goalie view makes an equal-play target infinite, and
 * `Array(Infinity)` throws a `RangeError`.
 */
module Schedule {
  import opened Wrappers
  import opened Tally
  import Seqs
  import Sorting
  import opened Players
  import opened Roster
  import Fielders
  import opened Goalies

  /** The `RangeError` of `Array(Infinity)`. */
  datatype BuildError = InvalidArrayLength

  /** One value of `playerLines`: the player, its nine line flags and its first line (9 when none). */
  datatype Row = Row(player: Player, lines: seq<bool>, first: nat)

  /**
   * The object `buildLineup` returns, without `standardDeviation`. `playerOcc` is keyed by
   * player id; here `occ[i]` is the count of `players[i]`.
   */
  datatype Lineup = Lineup(
    minFielderOcc: nat, maxFielderOcc: nat, players: seq<Player>, occ: seq<nat>,
    rows: seq<Row>, lineSums: seq<int>)

  /** The players, the fielder and goalie counts, the `valid` flag and the state after each phase. */
  datatype Plan = Plan(players: seq<Player>, fielders: nat, goalies: nat, valid: bool, fill: Tally, done: GoalieState)

  /** The fielder phase: the fill when the roster is valid, the empty lines otherwise. */
  function FielderPhase(skills: seq<int>, fielders: nat, valid: bool): (r: Tally)
    requires 0 < fielders <= |skills|
    ensures Fielders.FillSafe(r, skills, fielders, Fielders.MaxOcc(fielders))
  {
    var m := Fielders.MaxOcc(fielders);
    var t := Start(skills);
    assert Fielders.FillSafe(t, skills, fielders, m);
    if valid then Fielders.Fill(t, skills, fielders, m, Fielders.Stream(skills, fielders, m)) else t
  }

  /** Every period open, as `periodSums` starts. */
  function NoMarks(): (r: seq<bool>)
    ensures |r| == PeriodCount && forall p :: 0 <= p < PeriodCount ==> !r[p]
  {
    [false, false, false]
  }

  /** The goalie phase: period sums taken once, then the goalie stream. */
  function GoaliePhase(t: Tally, skills: seq<int>, fielders: nat, goalies: nat): (r: GoalieState)
    requires 0 < fielders && 0 < goalies && fielders + goalies == |skills|
    requires Fielders.FillSafe(t, skills, fielders, Fielders.MaxOcc(fielders))
    ensures GoalieSafe(r.t, skills, fielders, r.has)
  {
    var s := GoalieState(t, NoMarks());
    assert GoalieSafe(s.t, skills, fielders, s.has);
    GoaliePass(s, skills, fielders, PeriodSums(t.sums), GoalieStream(skills, fielders, goalies, CeilDiv(PeriodCount, goalies)))
  }

  /** What both phases leave behind. */
  predicate Planned(p: Plan) {
    0 < p.fielders && 0 < p.goalies && p.fielders + p.goalies == |p.players|
    && Fielders.FillSafe(p.fill, Skills(p.players), p.fielders, Fielders.MaxOcc(p.fielders))
    && GoalieSafe(p.done.t, Skills(p.players), p.fielders, p.done.has)
  }

  /** The goalie phase run on a finished fill. */
  function Phases(players: seq<Player>, fielders: nat, goalies: nat, valid: bool, fill: Tally): (p: Plan)
    requires 0 < fielders && 0 < goalies && fielders + goalies == |players|
    requires Fielders.FillSafe(fill, Skills(players), fielders, Fielders.MaxOcc(fielders))
    ensures Planned(p)
  {
    Plan(players, fielders, goalies, valid, fill, GoaliePhase(fill, Skills(players), fielders, goalies))
  }

  /** Both phases of `buildLineup`, or the `RangeError` when a view is empty. */
  function Plans(s: Store): (r: Result<Plan, BuildError>)
    ensures r.Failure? <==> |ActiveFielders(s)| == 0 || |ActiveGoalies(s)| == 0
    ensures r.Success? ==> Planned(r.value)
  {
    var fs := ActiveFielders(s);
    var gs := ActiveGoalies(s);
    if |fs| == 0 || |gs| == 0 then Failure(InvalidArrayLength)
    else
      var players := fs + gs;
      var skills := Skills(players);
      var fill := FielderPhase(skills, |fs|, Validate(s) == []);
      Success(Phases(players, |fs|, |gs|, Validate(s) == [], fill))
  }

  /** The sort key of `playerRows`: `(a, b) => a[2] - b[2]`. */
  function FirstLine(r: Row): int {
    r.first
  }

  /** `playerLines` in insertion order: one row per player, as the counters left it. */
  function Rows(players: seq<Player>, t: Tally): (r: seq<Row>)
    requires |t.marks| == |players| && |t.first| == |players|
    ensures |r| == |players|
  {
    seq(|players|, i requires 0 <= i < |players| => Row(players[i], t.marks[i], t.first[i]))
  }

  /** The returned object, built from the final state. */
  function Assemble(p: Plan): (r: Lineup)
    requires Planned(p)
  {
    var t := p.done.t;
    Lineup(Fielders.MinOcc(p.fielders), Fielders.MaxOcc(p.fielders), p.players, t.occ,
           Sorting.SortBy(Rows(p.players, t), FirstLine), t.sums)
  }

  /** `buildLineup()`. */
  function BuildLineup(s: Store): (r: Result<Lineup, BuildError>)
    ensures r.Failure? <==> |ActiveFielders(s)| == 0 || |ActiveGoalies(s)| == 0
    ensures r.Success? ==> r.value.players == ActiveFielders(s) + ActiveGoalies(s)
  {
    match Plans(s)
    case Failure(e) => Failure(e)
    case Success(p) => Success(Assemble(p))
  }

  /** Which of the nine lines hold player `i`. */
  function Holding(lines: seq<seq<nat>>, i: nat): (r: seq<bool>)
    requires |lines| == LineCount
    ensures |r| == LineCount && forall l :: 0 <= l < LineCount ==> (r[l] <==> i in lines[l])
  {
    seq(LineCount, l requires 0 <= l < LineCount => i in lines[l])
  }

  /** The row player `i` should have: its flags, and the first line holding it (9 for none). */
  function ExpectedRow(players: seq<Player>, lines: seq<seq<nat>>, i: nat): Row
    requires i < |players| && |lines| == LineCount
  {
    Row(players[i], Holding(lines, i), FirstTrue(Holding(lines, i)))
  }

  /** The counters agree with the lines: every player's row is its expected row. */
  lemma RowsMeaning(players: seq<Player>, t: Tally)
    requires Tracks(t, Skills(players))
    ensures forall i :: 0 <= i < |players| ==>
      Rows(players, t)[i] == ExpectedRow(players, t.lines, i) && t.occ[i] == CountTrue(Holding(t.lines, i))
  {
    var n := |players|;
    assert MarksTrack(t, n);
    forall i | 0 <= i < n
      ensures Rows(players, t)[i] == ExpectedRow(players, t.lines, i)
      ensures t.occ[i] == CountTrue(Holding(t.lines, i))
    {
      assert t.marks[i] == Holding(t.lines, i);
    }
  }

  /**
   * The returned counts, rows and sums describe the final lines: each count is the number of
   * lines holding the player, each line sum is the total skill on the line, and the rows are
   * the players' expected rows, sorted by first line, with ties in roster order.
   */
  lemma AssembleMeaning(p: Plan)
    requires Planned(p)
    ensures var r := Assemble(p);
      var lines := p.done.t.lines;
      var expected := seq(|p.players|, i requires 0 <= i < |p.players| => ExpectedRow(p.players, lines, i));
      && |r.occ| == |p.players|
      && (forall i :: 0 <= i < |p.players| ==> r.occ[i] == CountTrue(Holding(lines, i)))
      && |r.lineSums| == LineCount
      && (forall l :: 0 <= l < LineCount ==> r.lineSums[l] == Seqs.SumOf(lines[l], SkillOf(Skills(p.players))))
      && multiset(r.rows) == multiset(expected)
      && Sorting.SortedBy(r.rows, FirstLine)
      && (forall v :: Sorting.KeyClass(r.rows, FirstLine, v) == Sorting.KeyClass(expected, FirstLine, v))
  {
    var t := p.done.t;
    var lines := t.lines;
    var expected := seq(|p.players|, i requires 0 <= i < |p.players| => ExpectedRow(p.players, lines, i));
    RowsMeaning(p.players, t);
    assert Rows(p.players, t) == expected;
    forall v ensures Sorting.KeyClass(Assemble(p).rows, FirstLine, v) == Sorting.KeyClass(expected, FirstLine, v) {
      Sorting.SortByStable(expected, FirstLine, v);
    }
  }

  /** The goalie stream of `maxGoalieOcc` turns each is long enough to reach all three periods. */
  lemma GoalieStreamReaches(skills: seq<int>, fielders: nat, goalies: nat)
    requires 0 < goalies
    ensures |GoalieStream(skills, fielders, goalies, CeilDiv(PeriodCount, goalies))| >= PeriodCount
  {
    var m := CeilDiv(PeriodCount, goalies);
    assert PeriodCount <= m * goalies;
  }

  /** Each phase of a plan, on the roster's counts. */
  lemma PlanPhases(s: Store)
    requires Plans(s).Success?
    ensures var p := Plans(s).value;
      && p.fielders == |ActiveFielders(s)| && p.goalies == |ActiveGoalies(s)|
      && p.valid == (Validate(s) == [])
      && p.fill == FielderPhase(Skills(p.players), p.fielders, p.valid)
      && p.done == GoaliePhase(p.fill, Skills(p.players), p.fielders, p.goalies)
  {
  }

  /**
   * The goalie phase leaves every line as it found it, followed by exactly one goalie, the
   * same goalie on the three lines of a period.
   */
  lemma GoaliePhaseShape(t: Tally, skills: seq<int>, fielders: nat, goalies: nat, l: nat)
    requires 0 < fielders && 0 < goalies && fielders + goalies == |skills|
    requires Fielders.FillSafe(t, skills, fielders, Fielders.MaxOcc(fielders))
    requires l < LineCount
    ensures var lines := GoaliePhase(t, skills, fielders, goalies).t.lines;
      && Extends(lines[l], t.lines[l], Keeper(lines, t.lines, PeriodIndex(l)))
      && fielders <= Keeper(lines, t.lines, PeriodIndex(l)) < |skills|
  {
    var stream := GoalieStream(skills, fielders, goalies, CeilDiv(PeriodCount, goalies));
    GoalieStreamReaches(skills, fielders, goalies);
    GoaliesCover(GoalieState(t, NoMarks()), skills, fielders, PeriodSums(t.sums), stream);
  }

  /** The goalie phase adds nothing to a fielder's count. */
  lemma GoaliePhaseFielderCounts(t: Tally, skills: seq<int>, fielders: nat, goalies: nat, f: nat)
    requires 0 < fielders && 0 < goalies && fielders + goalies == |skills|
    requires Fielders.FillSafe(t, skills, fielders, Fielders.MaxOcc(fielders))
    requires f < fielders
    ensures GoaliePhase(t, skills, fielders, goalies).t.occ[f] <= t.occ[f]
  {
    var stream := GoalieStream(skills, fielders, goalies, CeilDiv(PeriodCount, goalies));
    GoaliePassOcc(GoalieState(t, NoMarks()), skills, fielders, PeriodSums(t.sums), stream, f);
    assert f !in multiset(stream);
  }

  /** A goalie gets three lines for each of its `maxGoalieOcc` turns at most. */
  lemma GoaliePhaseGoalieCounts(t: Tally, skills: seq<int>, fielders: nat, goalies: nat, g: nat)
    requires 0 < fielders && 0 < goalies && fielders + goalies == |skills|
    requires Fielders.FillSafe(t, skills, fielders, Fielders.MaxOcc(fielders))
    requires fielders <= g < |skills|
    ensures GoaliePhase(t, skills, fielders, goalies).t.occ[g] <= LinesPerPeriod * CeilDiv(PeriodCount, goalies)
  {
    var stream := GoalieStream(skills, fielders, goalies, CeilDiv(PeriodCount, goalies));
    GoaliePassOcc(GoalieState(t, NoMarks()), skills, fielders, PeriodSums(t.sums), stream, g);
  }

  /**
   * What the goalie phase is given and what it returns: `t` is a finished fielder phase on
   * `fielders` fielders and `goalies` goalies, and `r` is the goalie phase run on it.
   */
  predicate PhaseInputs(t: Tally, skills: seq<int>, fielders: nat, goalies: nat, r: GoalieState) {
    && 0 < fielders && 0 < goalies && fielders + goalies == |skills|
    && Fielders.FillSafe(t, skills, fielders, Fielders.MaxOcc(fielders))
    && r == GoaliePhase(t, skills, fielders, goalies)
  }

  /** A successful plan is the goalie phase run on its fill. */
  lemma PlanInputs(s: Store)
    requires Plans(s).Success?
    ensures var p := Plans(s).value;
      PhaseInputs(p.fill, Skills(p.players), p.fielders, p.goalies, p.done)
  {
    PlanPhases(s);
  }

  /**
   * Line `l` of `lines` is line `l` of `base` (at most five players, all fielders) followed by
   * the goalie of its period, a player numbered from `fielders` up to `n`.
   */
  predicate LineShaped(lines: seq<seq<nat>>, base: seq<seq<nat>>, fielders: nat, n: nat, l: nat) {
    && l < |lines| && l < |base|
    && Extends(lines[l], base[l], Keeper(lines, base, PeriodIndex(l)))
    && fielders <= Keeper(lines, base, PeriodIndex(l)) < n
    && |base[l]| <= FieldersPerLine
    && Goalies.FieldersOnly(base[l], fielders)
  }

  /**
   * Line `l` is the fielders the fielder phase put there (at most five, all fielders),
   * followed by exactly one goalie, the same goalie on the three lines of a period.
   */
  lemma LinesShape(s: Store, l: nat)
    requires Plans(s).Success? && l < LineCount
    ensures var p := Plans(s).value;
      LineShaped(p.done.t.lines, p.fill.lines, p.fielders, |p.players|, l)
  {
    var p := Plans(s).value;
    PlanInputs(s);
    PhaseLine(p.fill, Skills(p.players), p.fielders, p.goalies, p.done, l);
  }

  /** `GoaliePhaseShape` at line `l`, with what the fielder phase promises about that line. */
  lemma PhaseLine(t: Tally, skills: seq<int>, fielders: nat, goalies: nat, r: GoalieState, l: nat)
    requires PhaseInputs(t, skills, fielders, goalies, r) && l < LineCount
    ensures LineShaped(r.t.lines, t.lines, fielders, |skills|, l)
  {
    GoaliePhaseShape(t, skills, fielders, goalies, l);
    Fielders.FillSafeLine(t, skills, fielders, Fielders.MaxOcc(fielders), l);
  }

  /**
   * Equal play: no fielder is on more than `maxFielderOcc` lines, and no goalie on more than
   * three lines for each of its `maxGoalieOcc` turns.
   */
  lemma CountsCapped(s: Store, x: nat)
    requires Plans(s).Success? && x < |Plans(s).value.players|
    ensures var p := Plans(s).value;
      if x < p.fielders then p.done.t.occ[x] <= Fielders.MaxOcc(p.fielders)
      else p.done.t.occ[x] <= LinesPerPeriod * CeilDiv(PeriodCount, p.goalies)
  {
    var p := Plans(s).value;
    PlanInputs(s);
    PhaseCount(p.fill, Skills(p.players), p.fielders, p.goalies, p.done, x);
  }

  /** `CountsCapped` for one run of the goalie phase. */
  lemma PhaseCount(t: Tally, skills: seq<int>, fielders: nat, goalies: nat, r: GoalieState, x: nat)
    requires PhaseInputs(t, skills, fielders, goalies, r) && x < |skills|
    ensures if x < fielders then r.t.occ[x] <= Fielders.MaxOcc(fielders)
      else r.t.occ[x] <= LinesPerPeriod * CeilDiv(PeriodCount, goalies)
  {
    if x < fielders {
      GoaliePhaseFielderCounts(t, skills, fielders, goalies, x);
      Fielders.FillSafeCount(t, skills, fielders, Fielders.MaxOcc(fielders), x);
    } else {
      GoaliePhaseGoalieCounts(t, skills, fielders, goalies, x);
    }
  }

  /**
   * The totals of the returned counts: the fielders' counts add up to the placements of the
   * fielder phase (none when `validate` fails, nine per fielder for at most five fielders, never
   * more than 45), and the goalies' counts add up to 9, one goalie per line.
   */
  lemma OccTotals(s: Store)
    requires Plans(s).Success?
    ensures var p := Plans(s).value;
      var occ := p.done.t.occ;
      && Seqs.SumOf(occ[..p.fielders], Value) == p.fill.placed <= FielderSlots
      && Seqs.SumOf(occ[p.fielders..], Value) == LineCount
      && Seqs.SumOf(occ, Value) == p.fill.placed + LineCount
      && (!p.valid ==> p.fill.placed == 0)
      && (p.valid && p.fielders <= FieldersPerLine ==> p.fill.placed == LineCount * p.fielders)
  {
    var p := Plans(s).value;
    PlanInputs(s);
    PhaseTotals(p.fill, Skills(p.players), p.fielders, p.goalies, p.done);
    PlanPhases(s);
    if p.valid && p.fielders <= FieldersPerLine {
      Fielders.SmallRosterCovers(Skills(p.players), p.fielders);
    }
  }

  /**
   * `OccTotals` on the returned `occ`, numbered as `players`: active fielders first, then
   * active goalies.
   */
  lemma BuildTotals(s: Store)
    requires BuildLineup(s).Success?
    ensures var occ := BuildLineup(s).value.occ;
      var f := |ActiveFielders(s)|;
      && f <= |occ|
      && Seqs.SumOf(occ[f..], Value) == LineCount
      && Seqs.SumOf(occ, Value) == Seqs.SumOf(occ[..f], Value) + LineCount
      && Seqs.SumOf(occ[..f], Value) <= FielderSlots
      && (Validate(s) != [] ==> Seqs.SumOf(occ[..f], Value) == 0)
      && (Validate(s) == [] && f <= FieldersPerLine ==> Seqs.SumOf(occ[..f], Value) == LineCount * f)
  {
    var p := Plans(s).value;
    assert BuildLineup(s).value.occ == p.done.t.occ;
    PlanPhases(s);
    OccTotals(s);
  }

  /** One run of the goalie phase adds nine placements, all of them goalies. */
  lemma PhaseTotals(t: Tally, skills: seq<int>, fielders: nat, goalies: nat, r: GoalieState)
    requires PhaseInputs(t, skills, fielders, goalies, r)
    ensures Seqs.SumOf(r.t.occ[..fielders], Value) == t.placed
    ensures Seqs.SumOf(r.t.occ[fielders..], Value) == LineCount
    ensures Seqs.SumOf(r.t.occ, Value) == t.placed + LineCount
  {
    GoaliePhasePlaced(t, skills, fielders, goalies);
    GoaliePhaseKeepsFielders(t, skills, fielders, goalies);
    assert Totals(r.t) && Totals(t);
    SplitTotals(r.t.occ, t.occ, fielders);
  }

  /** `GoaliePhaseKeepsFielder` for every fielder at once. */
  lemma GoaliePhaseKeepsFielders(t: Tally, skills: seq<int>, fielders: nat, goalies: nat)
    requires 0 < fielders && 0 < goalies && fielders + goalies == |skills|
    requires Fielders.FillSafe(t, skills, fielders, Fielders.MaxOcc(fielders))
    ensures forall x :: 0 <= x < fielders ==> GoaliePhase(t, skills, fielders, goalies).t.occ[x] == t.occ[x]
  {
    forall x | 0 <= x < fielders ensures GoaliePhase(t, skills, fielders, goalies).t.occ[x] == t.occ[x] {
      GoaliePhaseKeepsFielder(t, skills, fielders, goalies, x);
    }
  }

  /**
   * Counts `a` that agree with `b` below `k`, where `b` is zero from `k` on: the part of `a`
   * below `k` sums to all of `b`.
   */
  lemma SplitTotals(a: seq<nat>, b: seq<nat>, k: nat)
    requires |a| == |b| && k <= |a|
    requires forall x :: 0 <= x < k ==> a[x] == b[x]
    requires forall x :: k <= x < |b| ==> b[x] == 0
    ensures Seqs.SumOf(a[..k], Value) == Seqs.SumOf(b, Value)
    ensures Seqs.SumOf(a[k..], Value) == Seqs.SumOf(a, Value) - Seqs.SumOf(b, Value)
  {
    Seqs.SumOfPointwise(a[..k], Value, b[..k], Value);
    forall i | 0 <= i < |b[k..]| ensures Value(b[k..][i]) == 0 {
      assert b[k..][i] == b[k + i];
    }
    Seqs.SumOfZero(b[k..], Value);
    Seqs.SumOfSplit(a, k, Value);
    Seqs.SumOfSplit(b, k, Value);
  }

  /** The goalie phase marks all three periods, three lines each. */
  lemma GoaliePhasePlaced(t: Tally, skills: seq<int>, fielders: nat, goalies: nat)
    requires 0 < fielders && 0 < goalies && fielders + goalies == |skills|
    requires Fielders.FillSafe(t, skills, fielders, Fielders.MaxOcc(fielders))
    ensures GoaliePhase(t, skills, fielders, goalies).t.placed == t.placed + LineCount
  {
    var stream := GoalieStream(skills, fielders, goalies, CeilDiv(PeriodCount, goalies));
    GoalieStreamReaches(skills, fielders, goalies);
    GoaliePassPlaced(GoalieState(t, NoMarks()), skills, fielders, PeriodSums(t.sums), stream);
  }

  /** The goalie phase leaves a fielder's count as the fielder phase left it. */
  lemma GoaliePhaseKeepsFielder(t: Tally, skills: seq<int>, fielders: nat, goalies: nat, x: nat)
    requires 0 < fielders && 0 < goalies && fielders + goalies == |skills|
    requires Fielders.FillSafe(t, skills, fielders, Fielders.MaxOcc(fielders))
    requires x < fielders
    ensures GoaliePhase(t, skills, fielders, goalies).t.occ[x] == t.occ[x]
  {
    var stream := GoalieStream(skills, fielders, goalies, CeilDiv(PeriodCount, goalies));
    assert x !in stream;
    GoaliePassAbsent(GoalieState(t, NoMarks()), skills, fielders, PeriodSums(t.sums), stream, x);
  }

  /** On a roster that fails `validate` no fielder is placed: line `l` holds its goalie alone. */
  lemma InvalidRosterGoaliesOnly(s: Store, l: nat)
    requires Plans(s).Success? && Validate(s) != [] && l < LineCount
    ensures var p := Plans(s).value;
      var lines := p.done.t.lines;
      lines[l] == [Keeper(lines, p.fill.lines, PeriodIndex(l))] && p.fielders <= lines[l][0] < |p.players|
  {
    var p := Plans(s).value;
    assert p.fill == Start(Skills(p.players)) by {
      PlanPhases(s);
    }
    LinesShape(s, l);
    assert p.fill.lines[l] == [];
  }

  /** The goalie phase keeps everyone the fielder phase put on a line. */
  lemma PhaseKeeps(t: Tally, skills: seq<int>, fielders: nat, goalies: nat, r: GoalieState, x: nat, l: nat)
    requires PhaseInputs(t, skills, fielders, goalies, r) && l < LineCount && x in t.lines[l]
    ensures x in r.t.lines[l]
  {
    PhaseLine(t, skills, fielders, goalies, r, l);
    ExtendsKeeps(r.t.lines[l], t.lines[l], Keeper(r.t.lines, t.lines, PeriodIndex(l)), x);
  }

  /** On a valid roster of at most five fielders, fielder `f` is on line `l`, for every `f` and `l`. */
  lemma SmallValidRosterCovers(s: Store, f: nat, l: nat)
    requires Plans(s).Success? && Validate(s) == [] && |ActiveFielders(s)| <= FieldersPerLine
    requires f < Plans(s).value.fielders && l < LineCount
    ensures f in Plans(s).value.done.t.lines[l]
  {
    var p := Plans(s).value;
    var skills := Skills(p.players);
    assert p.fielders <= FieldersPerLine && p.fill == FielderPhase(skills, p.fielders, true) by {
      PlanPhases(s);
    }
    FielderPhaseCovers(skills, p.fielders, f, l);
    PlanInputs(s);
    PhaseKeeps(p.fill, skills, p.fielders, p.goalies, p.done, f, l);
  }

  lemma FielderPhaseCovers(skills: seq<int>, fielders: nat, f: nat, l: nat)
    requires 0 < fielders <= FieldersPerLine && fielders <= |skills| && f < fielders && l < LineCount
    ensures f in FielderPhase(skills, fielders, true).lines[l]
  {
    Fielders.SmallRosterCovers(skills, fielders);
  }

  /** The fielder phase with the `while` loop as written: `None` when the loop never ends. */
  function FielderPhaseAsWritten(skills: seq<int>, fielders: nat, valid: bool): (r: Option<Tally>)
    requires 0 < fielders <= |skills|
    ensures r.Some? ==> Fielders.FillSafe(r.value, skills, fielders, Fielders.MaxOcc(fielders))
  {
    var m := Fielders.MaxOcc(fielders);
    var t := Start(skills);
    assert Fielders.FillSafe(t, skills, fielders, m);
    if valid then Fielders.FillAsWritten(t, skills, fielders, m, Fielders.Stream(skills, fielders, m)) else Some(t)
  }

  /** Both phases with the loop as written; `None` when `buildLineup` never returns. */
  function PlansAsWritten(s: Store): (r: Option<Result<Plan, BuildError>>)
    ensures r.Some? && r.value.Success? ==> Planned(r.value.value)
  {
    var fs := ActiveFielders(s);
    var gs := ActiveGoalies(s);
    if |fs| == 0 || |gs| == 0 then Some(Failure(InvalidArrayLength))
    else
      var players := fs + gs;
      var skills := Skills(players);
      match FielderPhaseAsWritten(skills, |fs|, Validate(s) == [])
      case None => None
      case Some(fill) =>
        Some(Success(Phases(players, |fs|, |gs|, Validate(s) == [], fill)))
  }

  /** `buildLineup()` with the loop as written; `None` when it never returns. */
  function BuildLineupAsWritten(s: Store): (r: Option<Result<Lineup, BuildError>>)
    ensures r.Some? ==> (r.value.Failure? <==> |ActiveFielders(s)| == 0 || |ActiveGoalies(s)| == 0)
  {
    match PlansAsWritten(s)
    case None => None
    case Some(Failure(e)) => Some(Failure(e))
    case Some(Success(p)) => Some(Success(Assemble(p)))
  }

  /** The loop as written ends exactly when it is skipped or the corrected loop fills all 45 slots. */
  lemma FielderPhaseAgrees(skills: seq<int>, fielders: nat, valid: bool)
    requires 0 < fielders <= |skills|
    ensures var r := FielderPhaseAsWritten(skills, fielders, valid);
      && (r.Some? <==> !valid || FielderPhase(skills, fielders, valid).placed == FielderSlots)
      && (r.Some? ==> r.value == FielderPhase(skills, fielders, valid))
  {
    var m := Fielders.MaxOcc(fielders);
    var t := Start(skills);
    assert Fielders.FillSafe(t, skills, fielders, m);
    Fielders.FillAsWrittenAgrees(t, skills, fielders, m, Fielders.Stream(skills, fielders, m));
  }

  /** Whenever `buildLineup` as written returns, it returns what the corrected version returns. */
  lemma AsWrittenAgrees(s: Store)
    ensures BuildLineupAsWritten(s).Some? ==> BuildLineupAsWritten(s).value == BuildLineup(s)
  {
    var fs := ActiveFielders(s);
    var gs := ActiveGoalies(s);
    if |fs| > 0 && |gs| > 0 {
      FielderPhaseAgrees(Skills(fs + gs), |fs|, Validate(s) == []);
    }
  }

  /**
   * `buildLineup` as written fails to return exactly when it is given a valid roster on which
   * the corrected fielder phase stops short of 45 slots.
   */
  lemma AsWrittenHangsWhen(s: Store)
    ensures BuildLineupAsWritten(s).None?
        <==> Plans(s).Success? && Validate(s) == [] && Plans(s).value.fill.placed < FielderSlots
  {
    var fs := ActiveFielders(s);
    var gs := ActiveGoalies(s);
    if |fs| > 0 && |gs| > 0 {
      FielderPhaseAgrees(Skills(fs + gs), |fs|, Validate(s) == []);
      PlanPhases(s);
    }
  }

  /**
   * A valid roster of three or four fielders makes `buildLineup` as written loop for ever:
   * nine lines of at most four distinct fielders never reach 45 slots.
   */
  lemma ValidSmallRosterHangs(s: Store)
    requires Validate(s) == [] && |ActiveFielders(s)| <= 4
    ensures BuildLineupAsWritten(s).None?
  {
    var fs := ActiveFielders(s);
    var gs := ActiveGoalies(s);
    ViewsPartition(s);
    FielderPhaseHangs(Skills(fs + gs), |fs|);
  }

  /** With at most four fielders the fielder phase as written never ends. */
  lemma FielderPhaseHangs(skills: seq<int>, fielders: nat)
    requires 0 < fielders <= 4 && fielders <= |skills|
    ensures FielderPhaseAsWritten(skills, fielders, true).None?
  {
    var m := Fielders.MaxOcc(fielders);
    var t := Start(skills);
    assert Fielders.FillSafe(t, skills, fielders, m);
    Fielders.FillAsWrittenDiverges(t, skills, fielders, m, Fielders.Stream(skills, fielders, m));
  }

  /** A valid roster of exactly five fielders: `buildLineup` as written returns. */
  lemma ValidFiveFieldersReturns(s: Store)
    requires Validate(s) == [] && |ActiveFielders(s)| == FieldersPerLine
    ensures BuildLineupAsWritten(s).Some?
  {
    var fs := ActiveFielders(s);
    var gs := ActiveGoalies(s);
    ViewsPartition(s);
    var skills := Skills(fs + gs);
    Fielders.SmallRosterCovers(skills, FieldersPerLine);
    FielderPhaseAgrees(skills, FieldersPerLine, true);
  }
}
