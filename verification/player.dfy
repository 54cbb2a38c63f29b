/**
 * The player value object of the current generation (`src/player.js`): the constructor's
 * normalisation of its input, `isGoalie`, and the delimited `toString`/`fromString` encoding.
 */
module Players {
  import opened Wrappers
  import Js

  /** `PlayerPosition`: the two positions and their one-letter codes. */
  datatype Position = Goalie | Fielder

  function Code(p: Position): (r: string)
    ensures |r| == 1 && (r == "G" <==> p == Goalie)
  {
    match p
    case Goalie => "G"
    case Fielder => "F"
  }

  datatype Player = Player(id: string, name: string, number: string, skill: int, active: bool, position: Position)

  /** The skill of every player, by number. */
  function Skills(players: seq<Player>): (r: seq<int>)
    ensures |r| == |players| && forall i :: 0 <= i < |players| ==> r[i] == players[i].skill
  {
    seq(|players|, i requires 0 <= i < |players| => players[i].skill)
  }

  /**
   * What the constructor is given. An absent `name`, `number` or `position` (or `null`)
   * is `None`; `skill` and `active` may be any value.
   */
  datatype PlayerInput = PlayerInput(
    id: string, name: Option<string>, number: Option<string>,
    skill: Js.Value, active: Js.Value, position: Option<string>)

  /** A player the constructor could have produced. */
  predicate Normalised(p: Player) {
    0 <= p.skill <= 100
  }

  /** ASCII `toUpperCase` of one character. */
  function UpperChar(c: char): char {
    if 'a' <= c <= 'z' then (c as int - 32) as char else c
  }

  /** ASCII `toUpperCase`. */
  function Upper(s: string): (r: string)
    ensures |r| == |s| && forall i :: 0 <= i < |s| ==> r[i] == UpperChar(s[i])
  {
    if |s| == 0 then "" else [UpperChar(s[0])] + Upper(s[1..])
  }

  /** Only "G" and "g" upper-case to "G", and only "F" and "f" to "F". */
  lemma UpperCode(s: string, p: Position)
    ensures Upper(s) == Code(p) <==> s == Code(p) || s == [Code(p)[0] + ('a' - 'A')]
  {
    if Upper(s) == Code(p) {
      assert |s| == 1 && UpperChar(s[0]) == Code(p)[0];
    }
    if s == [Code(p)[0] + ('a' - 'A')] {
      assert UpperChar(s[0]) == Code(p)[0];
    }
  }

  /** The skill rule of the constructor: an integer input clamped to [0,100], else 50. */
  function NormaliseSkill(v: Js.Value): (r: int)
    ensures 0 <= r <= 100
    ensures !v.Num? ==> r == 50
    ensures v.Num? && 0 <= v.n <= 100 ==> r == v.n
    ensures v.Num? && v.n < 0 ==> r == 0
    ensures v.Num? && v.n > 100 ==> r == 100
  {
    var s := if v.Num? then v.n else 50;
    if s < 0 then 0 else if s > 100 then 100 else s
  }

  /** The position rule of the constructor: the upper-cased input if it is a code, else Fielder. */
  function NormalisePosition(pos: Option<string>): (r: Position)
    ensures r == Goalie <==> pos == Some("G") || pos == Some("g")
  {
    if pos.Some? then
      UpperCode(pos.value, Goalie);
      if Upper(pos.value) == "G" then Goalie else Fielder
    else Fielder
  }

  /** `new Player(input)`. */
  function NewPlayer(inp: PlayerInput): (r: Player)
    ensures Normalised(r)
    ensures r.id == inp.id
    ensures r.name == inp.name.GetOr("") && r.number == inp.number.GetOr("")
    ensures r.active <==> Js.Truthy(inp.active)
    ensures r.skill == NormaliseSkill(inp.skill)
    ensures r.position == NormalisePosition(inp.position)
    ensures r.position == Goalie <==> inp.position == Some("G") || inp.position == Some("g")
  {
    Player(inp.id, inp.name.GetOr(""), inp.number.GetOr(""), NormaliseSkill(inp.skill),
           Js.Truthy(inp.active), NormalisePosition(inp.position))
  }

  /** `isGoalie()`: the position code is "G". */
  predicate IsGoalie(p: Player) {
    Code(p.position) == "G"
  }

  /** The input that describes an already built player. */
  function AsInput(p: Player): PlayerInput {
    PlayerInput(p.id, Some(p.name), Some(p.number), Js.Num(p.skill), Js.Bool(p.active), Some(Code(p.position)))
  }

  /** Construction is idempotent: rebuilding a normalised player changes nothing. */
  lemma NewPlayerIdempotent(p: Player)
    requires Normalised(p)
    ensures NewPlayer(AsInput(p)) == p
  {
    UpperCode(Code(p.position), Goalie);
  }

  /** `toString(d)`: the six fields joined by `d`, active written as "1" or "0". */
  function Fields(p: Player): (r: seq<string>)
    ensures |r| == 6
  {
    [p.id, p.name, p.number, Js.IntToString(p.skill), Code(p.position), if p.active then "1" else "0"]
  }

  /** The delimiter `toString` and `fromString` use when none is given. */
  const DefaultDelimiter: char := ','

  function ToString(p: Player, d: char): string {
    Js.Join(Fields(p), d)
  }

  /** Part `i` of a split, `undefined` (`None`) past its end, as array destructuring reads it. */
  function Part(parts: seq<string>, i: nat): Option<string> {
    if i < |parts| then Some(parts[i]) else None
  }

  /** `Player.fromString(s, d)`. */
  function FromString(s: string, d: char): (r: Player)
    ensures Normalised(r)
    ensures r.active <==> Part(Js.Split(s, d), 5) == Some("1")
  {
    var parts := Js.Split(s, d);
    var skill := if 3 < |parts| && Js.ParseInt(parts[3]).Some? then Js.Num(Js.ParseInt(parts[3]).value) else Js.Undefined;
    NewPlayer(PlayerInput(parts[0], Part(parts, 1), Part(parts, 2), skill,
                          Js.Bool(Part(parts, 5) == Some("1")), Part(parts, 4)))
  }

  /**
   * A delimiter that can never occur inside an encoded skill, position or active flag. A
   * normalised skill is never negative, so its text has no sign.
   */
  predicate SafeDelimiter(d: char) {
    !Js.IsDigit(d) && d != 'G' && d != 'F'
  }

  /** `fromString` inverts `toString` when the free-text fields avoid the delimiter. */
  lemma FromStringToString(p: Player, d: char)
    requires Normalised(p) && SafeDelimiter(d)
    requires d !in p.id && d !in p.name && d !in p.number
    ensures FromString(ToString(p, d), d) == p
  {
    var f := Fields(p);
    var digits := Js.NatToString(p.skill);
    assert f[3] == digits;
    assert d !in digits;
    assert forall i :: 0 <= i < |f| ==> d !in f[i];
    Js.SplitJoin(f, d);
    Js.ParseIntToString(p.skill);
    UpperCode(Code(p.position), Goalie);
  }

  /** The constructor cases of player.test.js. */
  lemma ConstructorExamples()
    ensures NewPlayer(PlayerInput("1", Some("Test 1"), Some("01"), Js.Num(25), Js.Bool(true), Some("G")))
         == Player("1", "Test 1", "01", 25, true, Goalie)
    ensures !IsGoalie(NewPlayer(PlayerInput("2", Some("Test2"), Some("02"), Js.Num(15), Js.Bool(false), None)))
    ensures NewPlayer(PlayerInput("x", None, None, Js.Str("7"), Js.Undefined, Some("g"))) == Player("x", "", "", 50, false, Goalie)
    ensures NewPlayer(PlayerInput("y", None, None, Js.Num(-3), Js.Num(1), Some("Goalie"))) == Player("y", "", "", 0, true, Fielder)
  {
    assert Upper("G") == "G";
    assert Upper("g") == "G";
    UpperCode("Goalie", Goalie);
  }

  /** The `toString` case of player.test.js. */
  lemma ToStringExample()
    ensures ToString(NewPlayer(PlayerInput("3", Some("Test3"), Some("03"), Js.Num(5), Js.Undefined, None)), '~')
         == "3~Test3~03~5~F~0"
  {
    var p := Player("3", "Test3", "03", 5, false, Fielder);
    assert NewPlayer(PlayerInput("3", Some("Test3"), Some("03"), Js.Num(5), Js.Undefined, None)) == p;
    assert Js.IntToString(5) == "5";
    assert Fields(p) == ["3", "Test3", "03", "5", "F", "0"];
    var f := Fields(p);
    assert Js.Join(f[5..], '~') == "0";
    assert Js.Join(f[4..], '~') == "F~0";
    assert Js.Join(f[3..], '~') == "5~F~0";
    assert Js.Join(f[2..], '~') == "03~5~F~0";
    assert Js.Join(f[1..], '~') == "Test3~03~5~F~0";
  }

  /** The `fromString` case of player.test.js. */
  lemma FromStringExample()
    ensures FromString("4~Test 4~09~75~G~1", '~') == Player("4", "Test 4", "09", 75, true, Goalie)
  {
    var q := Player("4", "Test 4", "09", 75, true, Goalie);
    GoalieExampleString();
    FromStringToString(q, '~');
  }

  /** The serialisation of the player in the `fromString` case. */
  lemma GoalieExampleString()
    ensures ToString(Player("4", "Test 4", "09", 75, true, Goalie), '~') == "4~Test 4~09~75~G~1"
  {
    var q := Player("4", "Test 4", "09", 75, true, Goalie);
    SkillText75();
    var f := Fields(q);
    assert f == ["4", "Test 4", "09", "75", "G", "1"];
    assert Js.Join(f[5..], '~') == "1";
    assert Js.Join(f[4..], '~') == "G~1";
    assert Js.Join(f[3..], '~') == "75~G~1";
    assert Js.Join(f[2..], '~') == "09~75~G~1";
    assert Js.Join(f[1..], '~') == "Test 4~09~75~G~1";
  }

  /** The decimal text of the skill 75. */
  lemma SkillText75()
    ensures Js.IntToString(75) == "75"
  {
    assert Js.NatToString(7) == "7";
  }
}
