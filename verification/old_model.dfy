/**
 * The transitional `Model` of model.js. Its roster store is the current one (see `Roster`);
 * what is its own is the older lineup builder. That builder stubs the lines round robin,
 * rotates the goalies through the periods, and hands placeholders to the fielders (see
 * `RoundRobin`). It scores lines by destructuring `{ skill = 0 }`, and it reports fielders
 * and goalies together, ordered by the lines they play.
 *
 * The class reads `id` and the `~` encoding of the current player, and `lines` and
 * `clearLines` of the legacy one. Here the players are current players (`Players.Player`),
 * and the nine line flags the builder writes onto each player are returned beside it in a
 * `Row`.
 */
module OldModel {
  import opened Wrappers
  import opened Players
  import Roster
  import Sorting
  import LineFlags
  import RoundRobin

  // ---------------------------------------------------------------------------------------
  // scoreLine
  // ---------------------------------------------------------------------------------------

  /**
   * `line.reduce((acc, { skill = 0 }) => acc + skill, acc)`. A player adds its skill. A
   * placeholder number has no `skill` property and adds 0. Destructuring an empty slot
   * (`undefined`) throws.
   */
  function Reduce(line: seq<RoundRobin.Entry>, fs: seq<int>, gs: seq<int>, acc: int): (r: Result<int, RoundRobin.Fault>)
    ensures r.Failure? <==> RoundRobin.Hole in line
    ensures r.Success? ==> r.value == acc + RoundRobin.Score(line, fs, gs)
    decreases |line|
  {
    if |line| == 0 then Success(acc)
    else if line[0] == RoundRobin.Hole then Failure(RoundRobin.TypeError)
    else
      assert line == [line[0]] + line[1..];
      Reduce(line[1..], fs, gs, acc + RoundRobin.Weight(fs, gs)(line[0]))
  }

  /**
   * `scoreLine(line)`. It throws exactly when a slot is empty, and otherwise agrees with
   * the legacy `scoreLine`, which skips every slot that is not a player.
   */
  function ScoreLine(line: seq<RoundRobin.Entry>, fs: seq<int>, gs: seq<int>): (r: Result<int, RoundRobin.Fault>)
    ensures r.Failure? <==> RoundRobin.Hole in line
    ensures r.Success? ==> r.value == RoundRobin.Score(line, fs, gs)
  {
    Reduce(line, fs, gs, 0)
  }

  /** `lines.map(this.scoreLine)`: the first line with an empty slot throws. */
  function ScoreLines(lines: seq<seq<RoundRobin.Entry>>, fs: seq<int>, gs: seq<int>): (r: Result<seq<int>, RoundRobin.Fault>)
    ensures r.Failure? <==> exists l :: 0 <= l < |lines| && RoundRobin.Hole in lines[l]
    ensures r.Success? ==> r.value == RoundRobin.Scores(lines, fs, gs)
    decreases |lines|
  {
    if |lines| == 0 then Success([])
    else
      match ScoreLine(lines[0], fs, gs)
      case Failure(e) => Failure(e)
      case Success(v) =>
        match ScoreLines(lines[1..], fs, gs)
        case Failure(e) =>
          assert forall l :: 1 <= l < |lines| ==> lines[l] == lines[1..][l - 1];
          Failure(e)
        case Success(rest) =>
          assert forall l :: 1 <= l < |lines| ==> lines[l] == lines[1..][l - 1];
          Success([v] + rest)
  }

  // ---------------------------------------------------------------------------------------
  // buildLineup
  // ---------------------------------------------------------------------------------------

  /** The sort key of `(a, b) => b.skill - a.skill`: higher skill first. */
  function SkillKey(p: Player): int {
    -p.skill
  }

  /** `players.sort((a, b) => b.skill - a.skill)`: a stable sort by descending skill. */
  function SortBySkill(ps: seq<Player>): (r: seq<Player>)
    ensures |r| == |ps| && multiset(r) == multiset(ps)
    ensures forall i, j :: 0 <= i < j < |r| ==> r[i].skill >= r[j].skill
  {
    Sorting.SortBy(ps, SkillKey)
  }

  /** Players of equal skill keep their roster order. */
  lemma SortBySkillStable(ps: seq<Player>, v: int)
    ensures Sorting.KeyClass(SortBySkill(ps), SkillKey, -v) == Sorting.KeyClass(ps, SkillKey, -v)
  {
    Sorting.SortByStable(ps, SkillKey, -v);
  }

  /** The active fielders, most skilled first. */
  function Fielders(s: Roster.Store): (r: seq<Player>)
    ensures multiset(r) == multiset(Roster.ActiveFielders(s)) && |r| == |Roster.ActiveFielders(s)|
    ensures forall i, j :: 0 <= i < j < |r| ==> r[i].skill >= r[j].skill
  {
    SortBySkill(Roster.ActiveFielders(s))
  }

  /** The active goalies, most skilled first. */
  function Goalies(s: Roster.Store): (r: seq<Player>)
    ensures multiset(r) == multiset(Roster.ActiveGoalies(s)) && |r| == |Roster.ActiveGoalies(s)|
    ensures forall i, j :: 0 <= i < j < |r| ==> r[i].skill >= r[j].skill
  {
    SortBySkill(Roster.ActiveGoalies(s))
  }

  /** A reported player with the nine flags the builder set on it. */
  datatype Row = Row(player: Player, lines: seq<bool>)

  function RowFlags(r: Row): seq<bool> {
    r.lines
  }

  /** Fielder `k` of the skill-sorted fielders, flagged on the lines it plays. */
  function FielderRows(ps: seq<Player>, lines: seq<seq<RoundRobin.Entry>>): (r: seq<Row>)
    ensures |r| == |ps| && forall k :: 0 <= k < |ps| ==> r[k] == Row(ps[k], RoundRobin.Marks(lines, RoundRobin.Fielder(k)))
  {
    seq(|ps|, k requires 0 <= k < |ps| => Row(ps[k], RoundRobin.Marks(lines, RoundRobin.Fielder(k))))
  }

  /** Goalie `k` of the skill-sorted goalies, flagged on the lines it was pushed onto. */
  function GoalieRows(ps: seq<Player>, lines: seq<seq<RoundRobin.Entry>>): (r: seq<Row>)
    ensures |r| == |ps| && forall k :: 0 <= k < |ps| ==> r[k] == Row(ps[k], RoundRobin.Marks(lines, RoundRobin.Goalie(k)))
  {
    seq(|ps|, k requires 0 <= k < |ps| => Row(ps[k], RoundRobin.Marks(lines, RoundRobin.Goalie(k))))
  }

  /**
   * What `buildLineup` returns, apart from the standard deviation. The entries of `lines`
   * name players by position in `fielders` and `goalies`, the skill-sorted arrays.
   */
  datatype Lineup = Lineup(
    fielders: seq<Player>, goalies: seq<Player>,
    lines: seq<seq<RoundRobin.Entry>>, players: seq<Row>, scores: seq<int>)

  /**
   * The result object: `[...fielders, ...goalies]` sorted by the text of their flags, so the
   * players of the earliest lines come first.
   */
  function Assemble(fielders: seq<Player>, goalies: seq<Player>, lines: seq<seq<RoundRobin.Entry>>, scores: seq<int>): (r: Lineup)
    requires |lines| == RoundRobin.LineCount
    ensures r.fielders == fielders && r.goalies == goalies && r.lines == lines && r.scores == scores
    ensures multiset(r.players) == multiset(FielderRows(fielders, lines) + GoalieRows(goalies, lines))
    ensures |r.players| == |fielders| + |goalies|
    ensures forall i, j :: 0 <= i < j < |r.players| ==>
      !LineFlags.TextGreater(LineFlags.Text(r.players[j].lines), LineFlags.Text(r.players[i].lines))
  {
    var rows := FielderRows(fielders, lines) + GoalieRows(goalies, lines);
    assert forall i :: 0 <= i < |rows| ==> |rows[i].lines| == RoundRobin.LineCount;
    Lineup(fielders, goalies, lines, LineFlags.SortByFlags(rows, RowFlags), scores)
  }

  /** The final `scoreLine` pass and the result object. */
  function Finish(f: seq<Player>, g: seq<Player>, lines: seq<seq<RoundRobin.Entry>>): (r: Result<Lineup, RoundRobin.Fault>)
    requires |lines| == RoundRobin.LineCount
    ensures r.Failure? <==> exists l :: 0 <= l < RoundRobin.LineCount && RoundRobin.Hole in lines[l]
    ensures r.Success? ==> r.value == Assemble(f, g, lines, RoundRobin.Scores(lines, Skills(f), Skills(g)))
  {
    match ScoreLines(lines, Skills(f), Skills(g))
    case Failure(e) => Failure(e)
    case Success(scores) => Success(Assemble(f, g, lines, scores))
  }

  /** Only a roster without fielders leaves an empty slot in the corrected fill. */
  lemma EmptySlots(fs: seq<int>, gs: seq<int>, lines: seq<seq<RoundRobin.Entry>>)
    requires 0 < |gs| && lines == RoundRobin.Build(fs, gs).value
    ensures (exists l :: 0 <= l < RoundRobin.LineCount && RoundRobin.Hole in lines[l]) <==> |fs| == 0
  {
    if |fs| == 0 {
      RoundRobin.NoFielders(fs, gs, 0);
      assert lines[0][0] == RoundRobin.Hole;
    } else {
      forall l | 0 <= l < RoundRobin.LineCount ensures RoundRobin.Hole !in lines[l] {
        RoundRobin.BuildLineShape(fs, gs, l);
        PlayersOnly(lines[l]);
      }
    }
  }

  /** Five fielders and a goalie leave no slot empty. */
  lemma PlayersOnly(line: seq<RoundRobin.Entry>)
    requires |line| == RoundRobin.SlotsPerLine + 1 && line[RoundRobin.SlotsPerLine].Goalie?
    requires forall j :: 0 <= j < RoundRobin.SlotsPerLine ==> line[j].Fielder?
    ensures RoundRobin.Hole !in line
  {
  }

  /** The same for the fill as written. */
  lemma EmptySlotsAsWritten(fs: seq<int>, gs: seq<int>, lines: seq<seq<RoundRobin.Entry>>)
    requires 0 < |gs| && lines == RoundRobin.BuildAsWritten(fs, gs).value
    ensures (exists l :: 0 <= l < RoundRobin.LineCount && RoundRobin.Hole in lines[l]) <==> |fs| == 0
  {
    if |fs| == 0 {
      RoundRobin.NoFielders(fs, gs, 0);
      assert lines[0][0] == RoundRobin.Hole;
    } else {
      forall l | 0 <= l < RoundRobin.LineCount ensures RoundRobin.Hole !in lines[l] {
        FilledLine(fs, gs, lines[l], l);
      }
    }
  }

  /** Under the fill as written a slot holds a placeholder, a fielder or the goalie. */
  lemma FilledLine(fs: seq<int>, gs: seq<int>, line: seq<RoundRobin.Entry>, l: nat)
    requires 0 < |fs| && 0 < |gs| && l < RoundRobin.LineCount
    requires line == RoundRobin.BuildAsWritten(fs, gs).value[l]
    ensures RoundRobin.Hole !in line
  {
    forall j | 0 <= j < |line| ensures line[j] != RoundRobin.Hole {
      FilledSlot(fs, gs, l, j);
    }
  }

  lemma FilledSlot(fs: seq<int>, gs: seq<int>, l: nat, j: nat)
    requires 0 < |fs| && 0 < |gs| && l < RoundRobin.LineCount && j < RoundRobin.SlotsPerLine + 1
    ensures RoundRobin.BuildAsWritten(fs, gs).value[l][j] != RoundRobin.Hole
  {
    RoundRobin.BaseLineStubs(|fs|, |gs|, l);
    RoundRobin.AsWrittenOnlyStubs(fs, gs, l, j);
  }

  /**
   * `buildLineup()`, with the corrected fill. Without an active goalie the goalie loop reads
   * `lines` of `undefined`. Without an active fielder every stub slot is empty and the final
   * `scoreLine` throws. Both are the same `TypeError`.
   */
  function BuildLineup(s: Roster.Store): (r: Result<Lineup, RoundRobin.Fault>)
    ensures r.Failure? <==> |Roster.ActiveFielders(s)| == 0 || |Roster.ActiveGoalies(s)| == 0
    ensures r.Success? ==> r.value.fielders == Fielders(s) && r.value.goalies == Goalies(s)
    ensures r.Success? ==> r.value.lines == RoundRobin.Build(Skills(Fielders(s)), Skills(Goalies(s))).value
  {
    var f, g := Fielders(s), Goalies(s);
    var fs, gs := Skills(f), Skills(g);
    match RoundRobin.Build(fs, gs)
    case Failure(e) => Failure(e)
    case Success(lines) =>
      EmptySlots(fs, gs, lines);
      Finish(f, g, lines)
  }

  /** The same with the fill as written (see `RoundRobin.StepAsWritten`). */
  function BuildLineupAsWritten(s: Roster.Store): (r: Result<Lineup, RoundRobin.Fault>)
    ensures r.Failure? <==> |Roster.ActiveFielders(s)| == 0 || |Roster.ActiveGoalies(s)| == 0
    ensures r.Success? ==> r.value.fielders == Fielders(s) && r.value.goalies == Goalies(s)
    ensures r.Success? ==> r.value.lines == RoundRobin.BuildAsWritten(Skills(Fielders(s)), Skills(Goalies(s))).value
  {
    var f, g := Fielders(s), Goalies(s);
    var fs, gs := Skills(f), Skills(g);
    match RoundRobin.BuildAsWritten(fs, gs)
    case Failure(e) => Failure(e)
    case Success(lines) =>
      EmptySlotsAsWritten(fs, gs, lines);
      Finish(f, g, lines)
  }

  // ---------------------------------------------------------------------------------------
  // What a lineup promises
  // ---------------------------------------------------------------------------------------

  /**
   * Every active player is reported once with its flags, and `scores[l]` is the sum of the
   * skills of the players on line `l`.
   */
  lemma Reported(s: Roster.Store)
    requires BuildLineup(s).Success?
    ensures var r := BuildLineup(s).value;
      && |r.players| == |Roster.ActivePlayers(s)|
      && multiset(r.players) == multiset(FielderRows(r.fielders, r.lines) + GoalieRows(r.goalies, r.lines))
      && r.scores == RoundRobin.Scores(r.lines, Skills(r.fielders), Skills(r.goalies))
  {
    var f, g := Fielders(s), Goalies(s);
    var fs, gs := Skills(f), Skills(g);
    var lines := RoundRobin.Build(fs, gs).value;
    assert BuildLineup(s) == Finish(f, g, lines);
    Roster.ViewsPartition(s);
  }

  lemma ReportedAsWritten(s: Roster.Store)
    requires BuildLineupAsWritten(s).Success?
    ensures var r := BuildLineupAsWritten(s).value;
      && |r.players| == |Roster.ActivePlayers(s)|
      && multiset(r.players) == multiset(FielderRows(r.fielders, r.lines) + GoalieRows(r.goalies, r.lines))
      && r.scores == RoundRobin.Scores(r.lines, Skills(r.fielders), Skills(r.goalies))
  {
    var f, g := Fielders(s), Goalies(s);
    var fs, gs := Skills(f), Skills(g);
    var lines := RoundRobin.BuildAsWritten(fs, gs).value;
    assert BuildLineupAsWritten(s) == Finish(f, g, lines);
    Roster.ViewsPartition(s);
  }

  /** The row of goalie `k` is reported, flagged on the lines of the periods it keeps. */
  lemma GoalieRotation(s: Roster.Store, k: nat, l: nat)
    requires BuildLineup(s).Success? && k < |Goalies(s)| && l < RoundRobin.LineCount
    ensures var r := BuildLineup(s).value;
      var row := GoalieRows(r.goalies, r.lines)[k];
      row in r.players && row.player == Goalies(s)[k]
      && (row.lines[l] <==> k == (l / 3) % |Goalies(s)|)
  {
    var f, g := Fielders(s), Goalies(s);
    var fs, gs := Skills(f), Skills(g);
    var lines := RoundRobin.Build(fs, gs).value;
    var scores := RoundRobin.Scores(lines, fs, gs);
    assert BuildLineup(s) == Success(Assemble(f, g, lines, scores));
    GoalieRowIn(f, g, lines, scores, k);
    RoundRobin.GoalieOnLine(lines[l], fs, gs, k, l, true);
  }

  lemma GoalieRotationAsWritten(s: Roster.Store, k: nat, l: nat)
    requires BuildLineupAsWritten(s).Success? && k < |Goalies(s)| && l < RoundRobin.LineCount
    ensures var r := BuildLineupAsWritten(s).value;
      var row := GoalieRows(r.goalies, r.lines)[k];
      row in r.players && row.player == Goalies(s)[k]
      && (row.lines[l] <==> k == (l / 3) % |Goalies(s)|)
  {
    var f, g := Fielders(s), Goalies(s);
    var fs, gs := Skills(f), Skills(g);
    var lines := RoundRobin.BuildAsWritten(fs, gs).value;
    var scores := RoundRobin.Scores(lines, fs, gs);
    assert BuildLineupAsWritten(s) == Success(Assemble(f, g, lines, scores));
    GoalieRowIn(f, g, lines, scores, k);
    RoundRobin.GoalieOnLine(lines[l], fs, gs, k, l, false);
  }

  lemma GoalieRowIn(f: seq<Player>, g: seq<Player>, lines: seq<seq<RoundRobin.Entry>>, scores: seq<int>, k: nat)
    requires |lines| == RoundRobin.LineCount && k < |g|
    ensures GoalieRows(g, lines)[k] in Assemble(f, g, lines, scores).players
  {
    var rows := FielderRows(f, lines) + GoalieRows(g, lines);
    assert rows[|f| + k] == GoalieRows(g, lines)[k];
    assert GoalieRows(g, lines)[k] in multiset(rows);
  }

  /**
   * With the corrected fill every active fielder plays `45 / F` or `45 / F + 1` slots, so no
   * two fielders differ by more than one.
   */
  lemma EqualPlay(s: Roster.Store, k: nat)
    requires BuildLineup(s).Success? && |Fielders(s)| <= RoundRobin.SlotCount && k < |Fielders(s)|
    ensures var n := RoundRobin.Occ(BuildLineup(s).value.lines, RoundRobin.Fielder(k));
      RoundRobin.SlotCount / |Fielders(s)| <= n <= RoundRobin.SlotCount / |Fielders(s)| + 1
  {
    var fs, gs := Skills(Fielders(s)), Skills(Goalies(s));
    RoundRobin.BuildEqualPlay(fs, gs, k);
  }

  /**
   * With the fill as written a fielder plays no slot or `45 / F` or `45 / F + 1` slots, and
   * a fill only ever turns a placeholder into a fielder of the roster.
   */
  lemma AsWrittenPlay(s: Roster.Store, k: nat, l: nat, j: nat)
    requires BuildLineupAsWritten(s).Success? && |Fielders(s)| <= RoundRobin.SlotCount
    requires l < RoundRobin.LineCount && j < RoundRobin.SlotsPerLine + 1
    ensures var n := RoundRobin.Occ(BuildLineupAsWritten(s).value.lines, RoundRobin.Fielder(k));
      n == 0 || RoundRobin.SlotCount / |Fielders(s)| <= n <= RoundRobin.SlotCount / |Fielders(s)| + 1
    ensures var b := RoundRobin.Base(|Fielders(s)|, |Goalies(s)|).value[l][j];
      var e := BuildLineupAsWritten(s).value.lines[l][j];
      e == b || (b.Stub? && e.Fielder? && e.k < |Fielders(s)|)
  {
    var fs, gs := Skills(Fielders(s)), Skills(Goalies(s));
    RoundRobin.AsWrittenPlay(fs, gs, k);
    RoundRobin.AsWrittenOnlyStubs(fs, gs, l, j);
  }
}
