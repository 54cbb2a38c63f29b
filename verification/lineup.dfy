/**
 * The legacy scheduler of lineup.js: filters and sorts over legacy players, line scores,
 * and `determineLineup`, which stubs the lines round robin, rotates the goalies through
 * the periods, fills the placeholders with fielders, and reports the players ordered by
 * the lines they play.
 */
module LegacyLineup {
  import opened Wrappers
  import Seqs
  import Sorting
  import Js
  import LineFlags
  import RoundRobin
  import opened LegacyPlayers

  // ---------------------------------------------------------------------------------------
  // Sorts and filters
  // ---------------------------------------------------------------------------------------

  /** Every player has a numeric skill (no NaN). */
  predicate AllSkilled(ps: seq<LegacyPlayer>) {
    forall i :: 0 <= i < |ps| ==> ps[i].skill.Some?
  }

  /** The sort key of `(a, b) => b.skill - a.skill`: higher skill first. */
  function SkillKey(p: LegacyPlayer): int {
    -p.skill.GetOr(0)
  }

  lemma SkilledMembers(a: seq<LegacyPlayer>, b: seq<LegacyPlayer>)
    requires AllSkilled(a) && multiset(b) == multiset(a)
    ensures AllSkilled(b)
  {
    forall i | 0 <= i < |b| ensures b[i].skill.Some? {
      assert b[i] in multiset(a);
    }
  }

  /** `sortPlayersBySkill(players)`: a stable sort by descending skill. */
  function SortPlayersBySkill(ps: seq<LegacyPlayer>): (r: seq<LegacyPlayer>)
    requires AllSkilled(ps)
    ensures |r| == |ps| && multiset(r) == multiset(ps) && AllSkilled(r)
    ensures forall i, j :: 0 <= i < j < |r| ==> r[i].skill.value >= r[j].skill.value
  {
    var r := Sorting.SortBy(ps, SkillKey);
    SkilledMembers(ps, r);
    r
  }

  /** Players of equal skill keep their input order. */
  lemma SortPlayersBySkillStable(ps: seq<LegacyPlayer>, v: int)
    requires AllSkilled(ps)
    ensures Sorting.KeyClass(SortPlayersBySkill(ps), SkillKey, -v) == Sorting.KeyClass(ps, SkillKey, -v)
  {
    Sorting.SortByStable(ps, SkillKey, -v);
  }

  /** `filterActivePlayers(players)`. */
  function FilterActive(ps: seq<LegacyPlayer>): (r: seq<LegacyPlayer>)
    ensures forall p :: p in r <==> p in ps && p.active
  {
    Seqs.Filter(ps, (p: LegacyPlayer) => p.active)
  }

  /** `filterFielders(players)`: every non-goalie, active or not. */
  function FilterFielders(ps: seq<LegacyPlayer>): (r: seq<LegacyPlayer>)
    ensures forall p :: p in r <==> p in ps && !IsGoalie(p)
  {
    Seqs.Filter(ps, (p: LegacyPlayer) => !IsGoalie(p))
  }

  /** `filterGoalies(players)`: every goalie, active or not. */
  function FilterGoalies(ps: seq<LegacyPlayer>): (r: seq<LegacyPlayer>)
    ensures forall p :: p in r <==> p in ps && IsGoalie(p)
  {
    Seqs.Filter(ps, (p: LegacyPlayer) => IsGoalie(p))
  }

  /** The two position filters split the players between them. */
  lemma FiltersPartition(ps: seq<LegacyPlayer>)
    ensures multiset(FilterFielders(ps)) + multiset(FilterGoalies(ps)) == multiset(ps)
    ensures |FilterFielders(ps)| + |FilterGoalies(ps)| == |ps|
  {
    Seqs.FilterSplitsMultiset(ps, (p: LegacyPlayer) => !IsGoalie(p), (p: LegacyPlayer) => IsGoalie(p));
    assert |multiset(FilterFielders(ps)) + multiset(FilterGoalies(ps))| == |multiset(ps)|;
  }

  /** The four players of the sort and filter cases of test.js. */
  function MockPlayers(): seq<LegacyPlayer> {
    [ NewPlayer(Js.Str("C"), Js.Str("01"), Js.Num(20), Js.Bool(false), Js.Undefined),
      NewPlayer(Js.Str("B"), Js.Str("02"), Js.Num(30), Js.Bool(true), Js.Str("Goalie")),
      NewPlayer(Js.Str("A"), Js.Str("03"), Js.Num(10), Js.Bool(true), Js.Undefined),
      NewPlayer(Js.Str("D"), Js.Str("04"), Js.Num(5), Js.Bool(false), Js.Str("Goalie")) ]
  }

  /** What the constructor made of the four players. */
  lemma MockShape()
    ensures var ps := MockPlayers();
      && |ps| == 4
      && !IsGoalie(ps[0]) && IsGoalie(ps[1]) && !IsGoalie(ps[2]) && IsGoalie(ps[3])
      && ps[0].skill == Some(20) && ps[1].skill == Some(30) && ps[2].skill == Some(10) && ps[3].skill == Some(5)
      && !ps[0].active && ps[1].active && ps[2].active && !ps[3].active
  {
    NewGoalie(Js.Str("B"), Js.Str("02"), Js.Num(30), Js.Bool(true), Js.Str("Goalie"));
    NewGoalie(Js.Str("D"), Js.Str("04"), Js.Num(5), Js.Bool(false), Js.Str("Goalie"));
  }

  /** The filters ignore `active`: two fielders and two goalies, half of each inactive. */
  lemma FilterExamples()
    ensures |FilterFielders(MockPlayers())| == 2 && |FilterGoalies(MockPlayers())| == 2
  {
    MockShape();
    FilterCounts(MockPlayers());
  }

  lemma FilterCounts(ps: seq<LegacyPlayer>)
    requires |ps| == 4 && !IsGoalie(ps[0]) && IsGoalie(ps[1]) && !IsGoalie(ps[2]) && IsGoalie(ps[3])
    ensures |FilterFielders(ps)| == 2 && |FilterGoalies(ps)| == 2
  {
    assert FilterFielders(ps[3..]) == [] && FilterGoalies(ps[3..]) == [ps[3]];
    assert FilterFielders(ps[2..]) == [ps[2]] && FilterGoalies(ps[2..]) == [ps[3]];
    assert FilterFielders(ps[1..]) == [ps[2]] && FilterGoalies(ps[1..]) == [ps[1], ps[3]];
  }

  /** The most skilled player sorts first. */
  lemma SortBySkillExample()
    ensures AllSkilled(MockPlayers()) && SortPlayersBySkill(MockPlayers())[0].skill == Some(30)
  {
    MockShape();
    SortBySkillHead(MockPlayers());
  }

  lemma SortBySkillHead(ps: seq<LegacyPlayer>)
    requires |ps| == 4
    requires ps[0].skill == Some(20) && ps[1].skill == Some(30) && ps[2].skill == Some(10) && ps[3].skill == Some(5)
    ensures AllSkilled(ps) && SortPlayersBySkill(ps)[0].skill == Some(30)
  {
    assert AllSkilled(ps) && forall i :: 0 <= i < |ps| ==> ps[i].skill.value <= 30;
    SortBySkillFirst(ps, 30, 1);
  }

  /** The player sorted first has the highest skill. */
  lemma SortBySkillFirst(ps: seq<LegacyPlayer>, m: int, w: nat)
    requires AllSkilled(ps) && w < |ps| && ps[w].skill == Some(m)
    requires forall i :: 0 <= i < |ps| ==> ps[i].skill.value <= m
    ensures SortPlayersBySkill(ps)[0].skill == Some(m)
  {
    var i := Sorting.SortByHead(ps, SkillKey);
    assert ps[i].skill.value == m by {
      assert SkillKey(ps[i]) <= SkillKey(ps[w]);
      assert ps[i].skill.value <= m;
    }
    assert SortPlayersBySkill(ps) == Sorting.SortBy(ps, SkillKey);
  }

  /** A legacy player's line flags. */
  function Flags(p: LegacyPlayer): seq<bool> {
    p.lines
  }

  /** `sortPlayersByLines(players)`, for players whose flag rows have one width. */
  function SortPlayersByLines(ps: seq<LegacyPlayer>): (r: seq<LegacyPlayer>)
    requires LineFlags.SameWidth(ps, Flags)
    ensures |r| == |ps| && multiset(r) == multiset(ps)
    ensures forall i, j :: 0 <= i < j < |r| ==> !LineFlags.TextGreater(LineFlags.Text(r[j].lines), LineFlags.Text(r[i].lines))
  {
    LineFlags.SortByFlags(ps, Flags)
  }

  /** The line-sort case of test.js: the player on all three lines sorts first. */
  lemma SortByLinesExample(ps: seq<LegacyPlayer>)
    requires |ps| == 4
    requires ps[0].lines == [false, true, true] && ps[1].lines == [true, false, true]
    requires ps[2].lines == [true, true, false] && ps[3].lines == [true, true, true]
    ensures LineFlags.SameWidth(ps, Flags) && SortPlayersByLines(ps)[0] == ps[3]
  {
    Bits3(false, true, true);
    Bits3(true, false, true);
    Bits3(true, true, false);
    Bits3(true, true, true);
    var i := LineFlags.SortByFlagsHead(ps, Flags);
    assert LineFlags.Bits(Flags(ps[3])) <= LineFlags.Bits(Flags(ps[i]));
  }

  function BitValue(b: bool): nat {
    if b then 1 else 0
  }

  lemma Bits3(a: bool, b: bool, c: bool)
    ensures LineFlags.Bits([a, b, c]) == 4 * BitValue(a) + 2 * BitValue(b) + BitValue(c)
  {
    assert [a][..0] == [];
    assert LineFlags.Bits([a]) == BitValue(a);
    assert [a, b][..1] == [a];
    assert LineFlags.Bits([a, b]) == 2 * BitValue(a) + BitValue(b);
    assert [a, b, c][..2] == [a, b];
  }

  // ---------------------------------------------------------------------------------------
  // Scores
  // ---------------------------------------------------------------------------------------

  /**
   * `scoreLine` adds the skill of every object in the line and skips numbers (and the
   * `undefined` of an empty slot): appending a slot adds the skill of the player in it.
   */
  lemma ScoreLineSnoc(line: seq<RoundRobin.Entry>, e: RoundRobin.Entry, fs: seq<int>, gs: seq<int>)
    ensures RoundRobin.Score(line + [e], fs, gs) == RoundRobin.Score(line, fs, gs) +
      match e
      case Fielder(k) => if k < |fs| then fs[k] else 0
      case Goalie(k) => if k < |gs| then gs[k] else 0
      case _ => 0
  {
    Seqs.SumOfAppend(line, [e], RoundRobin.Weight(fs, gs));
  }

  /** The score cases of test.js: three players of skill 1, 2 and 3 score 6 on every line. */
  lemma ScoreExamples(fs: seq<int>)
    requires fs == [1, 2, 3]
    ensures var line := [RoundRobin.Fielder(0), RoundRobin.Fielder(1), RoundRobin.Fielder(2)];
      RoundRobin.Score(line, fs, []) == 6 && RoundRobin.Scores([line, line, line], fs, []) == [6, 6, 6]
  {
    var line := [RoundRobin.Fielder(0), RoundRobin.Fielder(1), RoundRobin.Fielder(2)];
    ScoreLineSnoc([], line[0], fs, []);
    ScoreLineSnoc(line[..1], line[1], fs, []);
    ScoreLineSnoc(line[..2], line[2], fs, []);
    assert line[..1] + [line[1]] == line[..2];
    assert line[..2] + [line[2]] == line;
  }

  // ---------------------------------------------------------------------------------------
  // determineLineup
  // ---------------------------------------------------------------------------------------

  /** The skills of players with numeric skill. */
  function Skills(ps: seq<LegacyPlayer>): (r: seq<int>)
    requires AllSkilled(ps)
    ensures |r| == |ps| && forall i :: 0 <= i < |ps| ==> Some(r[i]) == ps[i].skill
  {
    seq(|ps|, i requires 0 <= i < |ps| => ps[i].skill.value)
  }

  /** Fielder `k` of the skill-sorted fielders, flagged on the lines the fill gave it. */
  function MarkFielders(ps: seq<LegacyPlayer>, lines: seq<seq<RoundRobin.Entry>>): (r: seq<LegacyPlayer>)
    ensures |r| == |ps| && forall k :: 0 <= k < |ps| ==> r[k] == ps[k].(lines := RoundRobin.Marks(lines, RoundRobin.Fielder(k)))
  {
    seq(|ps|, k requires 0 <= k < |ps| => ps[k].(lines := RoundRobin.Marks(lines, RoundRobin.Fielder(k))))
  }

  /** Goalie `k` of the skill-sorted goalies, flagged on the lines it was pushed onto. */
  function MarkGoalies(ps: seq<LegacyPlayer>, lines: seq<seq<RoundRobin.Entry>>): (r: seq<LegacyPlayer>)
    ensures |r| == |ps| && forall k :: 0 <= k < |ps| ==> r[k] == ps[k].(lines := RoundRobin.Marks(lines, RoundRobin.Goalie(k)))
  {
    seq(|ps|, k requires 0 <= k < |ps| => ps[k].(lines := RoundRobin.Marks(lines, RoundRobin.Goalie(k))))
  }

  /**
   * What `determineLineup` returns, apart from the float statistics. The entries of `lines`
   * name players by position in `fielders` and `goalies`, the skill-sorted arrays.
   */
  datatype Lineup = Lineup(
    fielders: seq<LegacyPlayer>, goalies: seq<LegacyPlayer>,
    lines: seq<seq<RoundRobin.Entry>>, players: seq<LegacyPlayer>, scores: seq<int>)

  /** Active players with numeric skill, whatever the inactive ones hold. */
  predicate ActiveSkilled(ps: seq<LegacyPlayer>) {
    forall i :: 0 <= i < |ps| && ps[i].active ==> ps[i].skill.Some?
  }

  /** The active players with their flags cleared. */
  function Cleared(ps: seq<LegacyPlayer>): (r: seq<LegacyPlayer>)
    requires ActiveSkilled(ps)
    ensures |r| == |FilterActive(ps)| && AllSkilled(r)
    ensures forall i :: 0 <= i < |r| ==> r[i] == ClearLines(FilterActive(ps)[i]).0
  {
    var active := FilterActive(ps);
    assert AllSkilled(active) by {
      forall i | 0 <= i < |active| ensures active[i].skill.Some? {
        assert active[i] in ps;
      }
    }
    seq(|active|, i requires 0 <= i < |active| => ClearLines(active[i]).0)
  }

  /** Fielders and goalies, each sorted by skill. */
  function Fielders(ps: seq<LegacyPlayer>): (r: seq<LegacyPlayer>)
    requires ActiveSkilled(ps)
    ensures AllSkilled(r)
  {
    var f := FilterFielders(Cleared(ps));
    SkilledMembers(Cleared(ps), Cleared(ps));
    assert AllSkilled(f) by {
      forall i | 0 <= i < |f| ensures f[i].skill.Some? {
        assert f[i] in Cleared(ps);
      }
    }
    SortPlayersBySkill(f)
  }

  function Goalies(ps: seq<LegacyPlayer>): (r: seq<LegacyPlayer>)
    requires ActiveSkilled(ps)
    ensures AllSkilled(r)
  {
    var g := FilterGoalies(Cleared(ps));
    assert AllSkilled(g) by {
      forall i | 0 <= i < |g| ensures g[i].skill.Some? {
        assert g[i] in Cleared(ps);
      }
    }
    SortPlayersBySkill(g)
  }

  /** The result object built from filled lines. */
  function Assemble(fielders: seq<LegacyPlayer>, goalies: seq<LegacyPlayer>, lines: seq<seq<RoundRobin.Entry>>): (r: Lineup)
    requires AllSkilled(fielders) && AllSkilled(goalies) && |lines| == RoundRobin.LineCount
    ensures r.lines == lines && |r.players| == |fielders| + |goalies|
    ensures multiset(r.players[..|fielders|]) == multiset(MarkFielders(fielders, lines))
    ensures forall i, j :: 0 <= i < j < |fielders| ==>
      !LineFlags.TextGreater(LineFlags.Text(r.players[j].lines), LineFlags.Text(r.players[i].lines))
    ensures r.players[|fielders|..] == MarkGoalies(goalies, lines)
    ensures |r.scores| == RoundRobin.LineCount
  {
    var marked := MarkFielders(fielders, lines);
    assert LineFlags.SameWidth(marked, Flags);
    Lineup(fielders, goalies, lines, SortPlayersByLines(marked) + MarkGoalies(goalies, lines),
           RoundRobin.Scores(lines, Skills(fielders), Skills(goalies)))
  }

  /**
   * `determineLineup(players)`, with the corrected fill: without an active goalie the goalie
   * loop reads `lines` of `undefined` and throws.
   */
  function DetermineLineup(ps: seq<LegacyPlayer>): (r: Result<Lineup, RoundRobin.Fault>)
    requires ActiveSkilled(ps)
    ensures r.Failure? <==> |Goalies(ps)| == 0
  {
    var f, g := Fielders(ps), Goalies(ps);
    match RoundRobin.Build(Skills(f), Skills(g))
    case Failure(e) => Failure(e)
    case Success(lines) => Success(Assemble(f, g, lines))
  }

  /** The same with the fill as written (see `RoundRobin.StepAsWritten`). */
  function DetermineLineupAsWritten(ps: seq<LegacyPlayer>): (r: Result<Lineup, RoundRobin.Fault>)
    requires ActiveSkilled(ps)
    ensures r.Failure? <==> |Goalies(ps)| == 0
  {
    var f, g := Fielders(ps), Goalies(ps);
    match RoundRobin.BuildAsWritten(Skills(f), Skills(g))
    case Failure(e) => Failure(e)
    case Success(lines) => Success(Assemble(f, g, lines))
  }

  /** Every active player is reported once: the fielders, then the goalies. */
  lemma ActiveCount(ps: seq<LegacyPlayer>)
    requires ActiveSkilled(ps)
    ensures |Fielders(ps)| + |Goalies(ps)| == |FilterActive(ps)|
  {
    FiltersPartition(Cleared(ps));
  }

  /** The lineup lists exactly as many players as are active, in either fill. */
  lemma PlayerCount(ps: seq<LegacyPlayer>)
    requires ActiveSkilled(ps)
    ensures DetermineLineup(ps).Success? ==> |DetermineLineup(ps).value.players| == |FilterActive(ps)|
    ensures DetermineLineupAsWritten(ps).Success? ==> |DetermineLineupAsWritten(ps).value.players| == |FilterActive(ps)|
  {
    ActiveCount(ps);
  }

  /** In the assembled lineup the goalies follow the fielders, flagged where they play. */
  lemma AssembledGoalie(fielders: seq<LegacyPlayer>, goalies: seq<LegacyPlayer>, lines: seq<seq<RoundRobin.Entry>>, k: nat, l: nat)
    requires AllSkilled(fielders) && AllSkilled(goalies) && |lines| == RoundRobin.LineCount
    requires k < |goalies| && l < RoundRobin.LineCount
    ensures var r := Assemble(fielders, goalies, lines);
      |fielders| + k < |r.players| && (r.players[|fielders| + k].lines[l] <==> RoundRobin.Goalie(k) in lines[l])
  {
    var r := Assemble(fielders, goalies, lines);
    assert r.players[|fielders| + k] == r.players[|fielders|..][k];
  }

  /**
   * The goalie `k` of the skill-sorted goalies is flagged on exactly the lines of the periods
   * `i` with `k == (i - 1) mod G`: one goalie per period, taking the periods in turn.
   */
  lemma GoalieFlags(ps: seq<LegacyPlayer>, k: nat, l: nat)
    requires ActiveSkilled(ps) && k < |Goalies(ps)| && l < RoundRobin.LineCount
    ensures DetermineLineup(ps).Success?
    ensures var r := DetermineLineup(ps).value;
      |Fielders(ps)| + k < |r.players|
      && (r.players[|Fielders(ps)| + k].lines[l] <==> k == (l / 3) % |Goalies(ps)|)
  {
    var f, g := Fielders(ps), Goalies(ps);
    var fs, gs := Skills(f), Skills(g);
    var lines := RoundRobin.Build(fs, gs).value;
    assert DetermineLineup(ps) == Success(Assemble(f, g, lines));
    AssembledGoalie(f, g, lines, k, l);
    RoundRobin.GoalieOnLine(lines[l], fs, gs, k, l, true);
  }

  lemma GoalieFlagsAsWritten(ps: seq<LegacyPlayer>, k: nat, l: nat)
    requires ActiveSkilled(ps) && k < |Goalies(ps)| && l < RoundRobin.LineCount
    ensures DetermineLineupAsWritten(ps).Success?
    ensures var r := DetermineLineupAsWritten(ps).value;
      |Fielders(ps)| + k < |r.players|
      && (r.players[|Fielders(ps)| + k].lines[l] <==> k == (l / 3) % |Goalies(ps)|)
  {
    var f, g := Fielders(ps), Goalies(ps);
    var fs, gs := Skills(f), Skills(g);
    var lines := RoundRobin.BuildAsWritten(fs, gs).value;
    assert DetermineLineupAsWritten(ps) == Success(Assemble(f, g, lines));
    AssembledGoalie(f, g, lines, k, l);
    RoundRobin.GoalieOnLine(lines[l], fs, gs, k, l, false);
  }

  /**
   * With the corrected fill every active fielder plays `45 / F` or `45 / F + 1` slots, so no
   * two fielders differ by more than one.
   */
  lemma EqualPlay(ps: seq<LegacyPlayer>, k: nat)
    requires ActiveSkilled(ps) && DetermineLineup(ps).Success?
    requires 0 < |Fielders(ps)| <= RoundRobin.SlotCount && k < |Fielders(ps)|
    ensures var n := RoundRobin.Occ(DetermineLineup(ps).value.lines, RoundRobin.Fielder(k));
      RoundRobin.SlotCount / |Fielders(ps)| <= n <= RoundRobin.SlotCount / |Fielders(ps)| + 1
  {
    RoundRobin.BuildEqualPlay(Skills(Fielders(ps)), Skills(Goalies(ps)), k);
  }

  /**
   * With the fill as written a fielder plays no slot at all or `45 / F` or `45 / F + 1`
   * slots, and a slot once holding a player or a goalie is never overwritten.
   */
  lemma AsWrittenPlay(ps: seq<LegacyPlayer>, k: nat, l: nat, j: nat)
    requires ActiveSkilled(ps) && DetermineLineupAsWritten(ps).Success?
    requires 0 < |Fielders(ps)| <= RoundRobin.SlotCount
    requires l < RoundRobin.LineCount && j < RoundRobin.SlotsPerLine + 1
    ensures var n := RoundRobin.Occ(DetermineLineupAsWritten(ps).value.lines, RoundRobin.Fielder(k));
      n == 0 || RoundRobin.SlotCount / |Fielders(ps)| <= n <= RoundRobin.SlotCount / |Fielders(ps)| + 1
    ensures var b := RoundRobin.Base(|Fielders(ps)|, |Goalies(ps)|).value[l][j];
      var e := DetermineLineupAsWritten(ps).value.lines[l][j];
      e == b || (b.Stub? && e.Fielder? && e.k < |Fielders(ps)|)
  {
    var fs, gs := Skills(Fielders(ps)), Skills(Goalies(ps));
    RoundRobin.AsWrittenPlay(fs, gs, k);
    RoundRobin.AsWrittenOnlyStubs(fs, gs, l, j);
  }

  // ---------------------------------------------------------------------------------------
  // The demo roster
  // ---------------------------------------------------------------------------------------

  function Skater(name: string, number: string, skill: int, active: bool): LegacyPlayer {
    NewPlayer(Js.Str(name), Js.Str(number), Js.Num(skill), Js.Bool(active), Js.Undefined)
  }

  function Keeper(name: string, number: string, skill: int, active: bool): LegacyPlayer {
    NewPlayer(Js.Str(name), Js.Str(number), Js.Num(skill), Js.Bool(active), Js.Str("Goalie"))
  }

  /** `demo()`, in three parts of five. */
  function DemoA(): seq<LegacyPlayer> {
    [ Skater("Ryan Getzlaf", "15", 86, true), Skater("Ryan Kesler", "17", 66, true),
      Skater("Corey Perry", "10", 94, true), Keeper("John Gibson", "36", 75, true),
      Skater("Rickard Rakell", "67", 83, true) ]
  }

  function DemoB(): seq<LegacyPlayer> {
    [ Skater("Andrew Cogliano", "7", 79, true), Skater("Cam Fowler", "4", 72, true),
      Skater("Hampus Lindholm", "47", 77, true), Skater("Kevin Bieksa", "3", 91, true),
      Skater("Jakob Silfverberg", "33", 88, true) ]
  }

  function DemoC(): seq<LegacyPlayer> {
    [ Keeper("Ryan Miller", "30", 85, false), Skater("Nick Ritchie", "37", 96, false),
      Skater("Antoine Vermette", "50", 67, true), Skater("Fran\U{E7}ois Beauchemin", "23", 87, true),
      Skater("Ond\U{159}ej Ka\U{161}e", "25", 74, true) ]
  }

  function Demo(): seq<LegacyPlayer> {
    DemoA() + DemoB() + DemoC()
  }

  /** Five players of which `n` are active, every one with a numeric skill. */
  lemma FiveActive(ps: seq<LegacyPlayer>, n: nat)
    requires |ps| == 5 && forall i :: 0 <= i < 5 ==> ps[i].skill.Some?
    requires n == (if ps[0].active then 1 else 0) + (if ps[1].active then 1 else 0) + (if ps[2].active then 1 else 0)
                + (if ps[3].active then 1 else 0) + (if ps[4].active then 1 else 0)
    ensures ActiveSkilled(ps) && |FilterActive(ps)| == n
  {
    var f := (p: LegacyPlayer) => p.active;
    assert ps[4..][1..] == [];
    assert ps[3..][1..] == ps[4..];
    assert ps[2..][1..] == ps[3..];
    assert ps[1..][1..] == ps[2..];
    assert ps[1..] == ps[1..];
    assert |Seqs.Filter(ps[4..], f)| == (if ps[4].active then 1 else 0);
    assert |Seqs.Filter(ps[3..], f)| == (if ps[3].active then 1 else 0) + |Seqs.Filter(ps[4..], f)|;
    assert |Seqs.Filter(ps[2..], f)| == (if ps[2].active then 1 else 0) + |Seqs.Filter(ps[3..], f)|;
    assert |Seqs.Filter(ps[1..], f)| == (if ps[1].active then 1 else 0) + |Seqs.Filter(ps[2..], f)|;
  }

  lemma DemoPartA()
    ensures ActiveSkilled(DemoA()) && |FilterActive(DemoA())| == 5
  {
    FiveActive(DemoA(), 5);
  }

  lemma DemoPartB()
    ensures ActiveSkilled(DemoB()) && |FilterActive(DemoB())| == 5
  {
    FiveActive(DemoB(), 5);
  }

  lemma DemoPartC()
    ensures ActiveSkilled(DemoC()) && |FilterActive(DemoC())| == 3
  {
    FiveActive(DemoC(), 3);
  }

  /** Active counts add up over a concatenation. */
  lemma ActiveAppend(a: seq<LegacyPlayer>, b: seq<LegacyPlayer>, c: seq<LegacyPlayer>, na: nat, nb: nat, nc: nat)
    requires ActiveSkilled(a) && |FilterActive(a)| == na
    requires ActiveSkilled(b) && |FilterActive(b)| == nb
    requires ActiveSkilled(c) && |FilterActive(c)| == nc
    ensures ActiveSkilled(a + b + c) && |FilterActive(a + b + c)| == na + nb + nc
  {
    var f := (p: LegacyPlayer) => p.active;
    Seqs.FilterAppend(a, b, f);
    Seqs.FilterAppend(a + b, c, f);
    forall i | 0 <= i < |a + b + c| && (a + b + c)[i].active ensures (a + b + c)[i].skill.Some? {
      if i < |a| {
        assert (a + b + c)[i] == a[i];
      } else if i < |a| + |b| {
        assert (a + b + c)[i] == b[i - |a|];
      } else {
        assert (a + b + c)[i] == c[i - |a| - |b|];
      }
    }
  }

  /** The demo roster's lineup lists its thirteen active players. */
  lemma DemoPlayerCount(ps: seq<LegacyPlayer>)
    requires ps == Demo()
    ensures ActiveSkilled(ps) && |FilterActive(ps)| == 13
    ensures DetermineLineup(ps).Success? ==> |DetermineLineup(ps).value.players| == 13
  {
    DemoPartA();
    DemoPartB();
    DemoPartC();
    ActiveAppend(DemoA(), DemoB(), DemoC(), 5, 5, 3);
    PlayerCount(ps);
  }
}
