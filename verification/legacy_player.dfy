/**
 * The legacy `Player` class (player.js): a mutable record whose constructor and `populate`
 * coerce loosely typed input, plus nine line flags that `determineLineup` sets.
 */
module LegacyPlayers {
  import opened Wrappers
  import Js

  const LineCount: nat := 9

  /**
   * A legacy player. `skill` is the result of `parseInt`, `None` standing for NaN;
   * `position` keeps the input value when it is truthy and is `undefined` otherwise.
   */
  datatype LegacyPlayer = LegacyPlayer(
    name: Js.Value, number: Js.Value, skill: Option<int>, active: bool, position: Js.Value,
    lines: seq<bool>)

  /** A plain object handed to `populate`: a missing property reads as `undefined`. */
  datatype Fields = Fields(name: Js.Value, number: Js.Value, skill: Js.Value, active: Js.Value, position: Js.Value)

  /** What `create` accepts: an array of positional arguments or a plain object. */
  datatype Source = FromArray(args: seq<Js.Value>) | FromObject(obj: Fields)

  /**
   * `parseInt(v)`: the argument is first turned into a string. A number prints as its
   * decimal digits and parses back to itself; `undefined`, `null` and booleans print as
   * words and parse to NaN.
   */
  function ParseSkill(v: Js.Value): (r: Option<int>)
    ensures v.Num? ==> r == Some(v.n)
    ensures v.Str? ==> r == Js.ParseInt(v.s)
    ensures !v.Num? && !v.Str? ==> r.None?
  {
    match v
    case Num(n) => Js.ParseIntToString(n); Js.ParseInt(Js.IntToString(n))
    case Str(s) => Js.ParseInt(s)
    case _ => None
  }

  /**
   * `v == false` with JavaScript's loose equality: `false` is converted to the number 0,
   * then a string is converted to a number (the empty string is 0); `undefined` and `null`
   * equal only each other.
   */
  predicate LooseEqualsFalse(v: Js.Value) {
    match v
    case Bool(b) => !b
    case Num(n) => n == 0
    case Str(s) => s == "" || Js.ParseInt(s) == Some(0)
    case _ => false
  }

  /** `active == false || active == 'false' ? false : true`. */
  function ParseActive(v: Js.Value): (r: bool)
    ensures !r <==> LooseEqualsFalse(v) || v == Js.Str("false")
    ensures v == Js.Undefined || v == Js.Null || v == Js.Bool(true) ==> r
  {
    !(LooseEqualsFalse(v) || v == Js.Str("false"))
  }

  /** `position || undefined`. */
  function ParsePosition(v: Js.Value): (r: Js.Value)
    ensures Js.Truthy(v) ==> r == v
    ensures !Js.Truthy(v) ==> r == Js.Undefined
    ensures Js.Truthy(r) || r == Js.Undefined
  {
    if Js.Truthy(v) then v else Js.Undefined
  }

  /** `Array(9).fill(false)`. */
  function NoLines(): (r: seq<bool>)
    ensures |r| == LineCount && forall l :: 0 <= l < LineCount ==> !r[l]
  {
    seq(LineCount, _ => false)
  }

  /** `new Player(name, number, skill, active, position)`; absent arguments are `undefined`. */
  function NewPlayer(name: Js.Value, number: Js.Value, skill: Js.Value, active: Js.Value, position: Js.Value): (r: LegacyPlayer)
    ensures r.name == name && r.number == number
    ensures r.skill == ParseSkill(skill) && r.active == ParseActive(active) && r.position == ParsePosition(position)
    ensures |r.lines| == LineCount && forall l :: 0 <= l < LineCount ==> !r.lines[l]
  {
    LegacyPlayer(name, number, ParseSkill(skill), ParseActive(active), ParsePosition(position), NoLines())
  }

  /** `isGoalie()`: the position is exactly the string "Goalie". */
  predicate IsGoalie(p: LegacyPlayer) {
    p.position == Js.Str("Goalie")
  }

  /** A new player is a goalie exactly when it was given the position "Goalie". */
  lemma NewGoalie(name: Js.Value, number: Js.Value, skill: Js.Value, active: Js.Value, position: Js.Value)
    ensures IsGoalie(NewPlayer(name, number, skill, active, position)) <==> position == Js.Str("Goalie")
  {
    assert Js.Truthy(Js.Str("Goalie"));
  }

  /** `clearLines()`: nine cleared flags, returned as well as stored. */
  function ClearLines(p: LegacyPlayer): (r: (LegacyPlayer, seq<bool>))
    ensures r.1 == r.0.lines && |r.1| == LineCount && forall l :: 0 <= l < LineCount ==> !r.1[l]
    ensures r.0.(lines := p.lines) == p
  {
    var lines := NoLines();
    (p.(lines := lines), lines)
  }

  /** Clearing twice is clearing once, and a new player is already cleared. */
  lemma ClearLinesIdempotent(p: LegacyPlayer, name: Js.Value, number: Js.Value, skill: Js.Value, active: Js.Value, position: Js.Value)
    ensures ClearLines(ClearLines(p).0).0 == ClearLines(p).0
    ensures ClearLines(NewPlayer(name, number, skill, active, position)).0 == NewPlayer(name, number, skill, active, position)
  {
  }

  /** `populate(obj)`: every field is overwritten from `obj`, by the constructor's rules. */
  function Populate(p: LegacyPlayer, obj: Fields): (r: LegacyPlayer)
    ensures r == NewPlayer(obj.name, obj.number, obj.skill, obj.active, obj.position)
  {
    LegacyPlayer(obj.name, obj.number, ParseSkill(obj.skill), ParseActive(obj.active), ParsePosition(obj.position), ClearLines(p).1)
  }

  /** Argument `i` of an array truncated or padded to five entries (`obj.length = 5`). */
  function Arg(args: seq<Js.Value>, i: nat): Js.Value {
    if i < |args| then args[i] else Js.Undefined
  }

  /** `create(obj)`: an array supplies the five constructor arguments by position. */
  function Create(src: Source): (r: LegacyPlayer)
    ensures src.FromArray? ==> r == NewPlayer(Arg(src.args, 0), Arg(src.args, 1), Arg(src.args, 2), Arg(src.args, 3), Arg(src.args, 4))
    ensures src.FromObject? ==> r == NewPlayer(src.obj.name, src.obj.number, src.obj.skill, src.obj.active, src.obj.position)
  {
    match src
    case FromArray(args) => NewPlayer(Arg(args, 0), Arg(args, 1), Arg(args, 2), Arg(args, 3), Arg(args, 4))
    case FromObject(obj) =>
      var blank := NewPlayer(Js.Undefined, Js.Undefined, Js.Undefined, Js.Undefined, Js.Undefined);
      Populate(blank, obj)
  }

  /** Entries past the fifth are dropped, and an array and an object with the same fields agree. */
  lemma CreateForms(args: seq<Js.Value>)
    ensures |args| > 5 ==> Create(FromArray(args)) == Create(FromArray(args[..5]))
    ensures Create(FromArray(args)) == Create(FromObject(Fields(Arg(args, 0), Arg(args, 1), Arg(args, 2), Arg(args, 3), Arg(args, 4))))
  {
  }

  /** `createCollection(arr)`: one player per element, in order. */
  function CreateCollection(arr: seq<Source>): (r: seq<LegacyPlayer>)
    ensures |r| == |arr| && forall i :: 0 <= i < |arr| ==> r[i] == Create(arr[i])
  {
    seq(|arr|, i requires 0 <= i < |arr| => Create(arr[i]))
  }

  /** Creating a collection piecewise is creating it whole. */
  lemma CreateCollectionAppend(a: seq<Source>, b: seq<Source>)
    ensures CreateCollection(a + b) == CreateCollection(a) + CreateCollection(b)
  {
  }

  /** A skill given as a decimal string reads the same as the number. */
  lemma SkillFromText(n: int)
    ensures ParseSkill(Js.Str(Js.IntToString(n))) == ParseSkill(Js.Num(n)) == Some(n)
  {
    Js.ParseIntToString(n);
  }

  /** The player cases of test.js. */
  lemma Examples()
    ensures IsGoalie(NewPlayer(Js.Str("Test1"), Js.Str("01"), Js.Num(25), Js.Bool(true), Js.Str("Goalie")))
    ensures !IsGoalie(NewPlayer(Js.Str("Test2"), Js.Str("02"), Js.Num(15), Js.Str("false"), Js.Undefined))
    ensures !NewPlayer(Js.Str("Test2"), Js.Str("02"), Js.Num(15), Js.Str("false"), Js.Undefined).active
    ensures NewPlayer(Js.Str("C"), Js.Str("01"), Js.Num(20), Js.Bool(false), Js.Undefined).position == Js.Undefined
    ensures var p := Create(FromObject(Fields(Js.Str("Test3"), Js.Str("03"), Js.Num(5), Js.Undefined, Js.Undefined)));
      p.name == Js.Str("Test3") && p.number == Js.Str("03") && p.skill == Some(5) && p.active
    ensures var c := CreateCollection([FromArray([Js.Str("A")]), FromArray([Js.Str("B")])]);
      |c| == 2 && c[0].name == Js.Str("A")
  {
    NewGoalie(Js.Str("Test1"), Js.Str("01"), Js.Num(25), Js.Bool(true), Js.Str("Goalie"));
  }
}
