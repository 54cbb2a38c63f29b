# lineup — a Dafny model of the lineup scheduler

The lineup app plans a floor-hockey game for a Special Olympics team. The game has three
periods of three lines each, so nine lines. Each line has five fielder slots and one goalie.

The scheduler does two things:

- It gives every active fielder a share of the 45 fielder slots. No fielder plays more than
  one line more than any teammate (the equal-play rule).
- It keeps the skill sums of the lines close together. Each period gets one goalie, who plays
  all three of that period's lines.

The repository holds three generations of this code, and the model covers all three.

- **Current: `src/player.js`, `src/model.js`.**
  - A `Player` value object that normalises its input and has a `~`-delimited text form.
  - A roster store over an insertion-ordered `Map`, with a 32-player cap, create, update and
    delete, and active views.
  - A validator.
  - A greedy `buildLineup`:
    - fielders go, in descending skill order, onto the lowest-sum open line not already
      holding them;
    - goalies go onto the lowest-sum period still without a goalie;
    - rows come back ordered by each player's first line.
- **Transitional: root `model.js`, `helpers.js`.**
  - The same store.
  - An older builder: placeholders are stubbed round robin onto the lines, goalies rotate
    through the periods, and then each fielder in turn takes over all the slots of one
    placeholder.
  - The integer helpers.
- **Legacy: `lineup.js`, `player.js`, `array.js`.**
  - The same round-robin builder in `determineLineup`.
  - Filters, sorts and scoring.
  - A mutable legacy `Player`.
  - The same integer helpers.

## Modules

| module | file | models |
|---|---|---|
| `Wrappers` | wrappers.dfy | `Option` and `Result`: absent values and thrown errors |
| `Seqs` | seqs.dfy | filter, repeat, and sums over sequences; the laws the scheduler proofs use |
| `Sorting` | sorting.dfy | a stable insertion sort by an integer key, which stands for `Array.prototype.sort` with a numeric comparator |
| `Helpers` | helpers.dfy | `minimumIndex`, `generateArray`, `sum`, `wrapIndex` of helpers.js |
| `Arrays` | arrays.dfy | the same helpers under their array.js names |
| `Js` | js.dfy | JavaScript values and truthiness, `parseInt` on decimal text, `split` and `join` |
| `Players` | player.dfy | the current `Player` of src/player.js |
| `Roster` | roster.dfy | the roster store of src/model.js, which root model.js:95-122 repeats line for line; the active views; `validate` |
| `Tally` | tally.dfy | the bookkeeping of `buildLineup`: line members, line sums, occurrence counts, line flags and first lines |
| `Fielders` | fielders.dfy | the fielder fill of `buildLineup` |
| `Goalies` | goalies.dfy | the period sums and the goalie fill of `buildLineup` |
| `Schedule` | scheduler.dfy | the whole of `buildLineup` in src/model.js, as written and corrected |
| `LegacyPlayers` | legacy_player.dfy | the legacy `Player`, `create` and `createCollection` of player.js |
| `LineFlags` | line_flags.dfy | the `lines.toString()` comparator both older generations sort by |
| `RoundRobin` | round_robin.dfy | `buildLines`/`stubLinesForEqualPlay`, the goalie rotation and the placeholder fill shared by lineup.js and model.js |
| `LegacyLineup` | lineup.dfy | lineup.js: filters, sorts, scoring, `determineLineup` |
| `OldModel` | old_model.dfy | the `buildLineup` of root model.js |

### Modelling choices

- **Players as numbers.**
  - In `buildLineup` a player is its position in `fielders ++ goalies`, the order of
    `players` at src/model.js:146.
  - Each line is the sequence of such numbers in insertion order, standing for the line's
    `Map`.
  - Line sums, occurrence counts, line flags and first lines are the counters the source
    keeps beside the lines. `Tally.Tracks` ties each counter to the line contents.
- **Errors and non-termination.**
  - A thrown error is a `Failure`.
  - The `RangeError` of `Array(Infinity)` occurs when there are no fielders or no goalies.
  - The `TypeError` of `goalies[NaN].lines` occurs when there are no goalies.
  - A loop that can spin forever returns `None` in its as-written model.
- **Placeholder lines.** A line of the older builder is a sequence of `Entry` values: `Stub(v)`
  for placeholder number `v`, `Fielder(k)` and `Goalie(k)` for the `k`-th player of the
  skill-sorted fielders or goalies, and `Hole` for the `undefined` that `players[NaN]` gives
  when there are no fielders.
- **Flags beside players.** The older builders write nine line flags onto each player object.
  Here the flags come back beside the player, as a record (legacy) or a `Row` (root model.js).
- **Sorts.**
  - `sort` with the comparator `b.skill - a.skill` is a stable sort by descending skill.
  - The `lines.toString() > …` comparator is a stable sort by the flags read as a binary
    number, largest first. `LineFlags.TextOrderIsBits` proves that this is the same order as
    the text order for rows of one width.
  - The legacy comparator `(a, b) => a > b` at lineup.js:99 returns booleans rather than
    numbers. It is modelled as the ascending sort of model.js:154, which is what test.js:70
    expects of it.

Where the code and its documentation disagree, the model follows the code, with one
exception: the boolean comparator of lineup.js:99, whose engine behaviour is modelled by the
order its comment and test.js:70 ask for (see "## Left out"). Two places where the code
evidently misses its own intent are listed under "## Findings".

## Model

| member | source | states |
|---|---|---|
| `Helpers.MinimumIndex` | helpers.js:8 | 0 for an empty array; otherwise an index holding the minimum, and the first such index, because the comparison is a strict `<` |
| `Helpers.MinimumIndexUnique` | helpers.js:8 | the first minimal index is the only answer `minimumIndex` can give |
| `Helpers.GenerateArray` | helpers.js:14 | `generateArray(n)` has length `n` and element `i` equal to `i` |
| `Helpers.GenerateArrayCount` | helpers.js:14 | each number below `n` occurs exactly once and nothing else occurs |
| `Helpers.SumAppend` | helpers.js:20 | `sum` of a concatenation is the sum of the sums |
| `Helpers.SumExamples` | helpers.js:20 | `sum()` is 0 and `sum(1, 2, 3)` is 6 |
| `Helpers.WrapIndex` | helpers.js:48 | no index (`NaN`) for length 0; otherwise the Euclidean remainder |
| `Helpers.WrapIndexIsEuclidean` | helpers.js:48 | `((i % n) + n) % n` with JavaScript's truncating `%` equals the Euclidean `i mod n` for every integer `i`, negative ones included |
| `Helpers.WrapIndexLaws` | helpers.js:48 | the result is in `[0, n)`, `i` itself when `0 <= i < n`, and unchanged by adding `n` |
| `Helpers.WrapIndexExamples` | test.js:22-24 | `wrapIndex(0,4) = 0`, `wrapIndex(4,4) = 0`, `wrapIndex(9,4) = 1` |
| `Arrays.IndexOfMinValue` | array.js:5-7 | 0 for an empty array; otherwise the first index of a minimal element |
| `Arrays.Generate` | array.js:13-15 | `generate(n)` is `0, 1, …, n-1` |
| `Arrays.WrapIndex` | array.js:56-58 | for `n > 0` a number in `[0, n)` congruent to the index modulo `n`; no number for `n = 0` |
| `Arrays.TestVectors` | test.js:16-24 | the array.js assertions: minimum index 1, `generate(3)`, `sum([1,2,3]) = 6`, `sum([]) = 0`, the three `wrapIndex` cases |
| `Js.ParseIntToString` | src/player.js:64 | `parseInt` of an integer's decimal text gives the integer back |
| `Js.SplitJoin` | src/player.js:55-59 | `split(d)` undoes `join(d)` when no part contains `d` |
| `Players.Code` | src/player.js:5-8 | a position's code is one letter, and it is `"G"` exactly for the goalie |
| `Players.NormaliseSkill` | src/player.js:28-30 | an integer skill is kept and clamped to `[0, 100]`; anything else becomes 50 |
| `Players.UpperCode` | src/player.js:34-35 | the upper-cased input equals a position code exactly when the input is that code in either case |
| `Players.NormalisePosition` | src/player.js:32-36 | the position is goalie exactly for input `"G"` or `"g"`, otherwise fielder |
| `Players.NewPlayer` | src/player.js:24-37 | the constructor keeps the id, defaults name and number to `""`, normalises skill (an integer clamped to `[0, 100]`, 50 otherwise) and position (goalie exactly for "G" or "g"), and sets active to the input's truthiness |
| `Players.NewPlayerIdempotent` | src/player.js:24-37 | constructing again from a constructed player's fields changes nothing |
| `Players.FromString` | src/player.js:58-68 | `fromString` yields a normalised player, active exactly when the sixth field is `"1"` |
| `Players.FromStringToString` | src/player.js:47-68 | `fromString(toString(p, d), d) == p` for every normalised player whose id, name and number avoid the delimiter `d`, when `d` is neither a digit, `G` nor `F` |
| `Players.ConstructorExamples` | player.test.js:4-19 | the constructor cases of the tests, plus a lower-case `"g"`, a text skill and a negative skill |
| `Players.ToStringExample` | player.test.js:21-24 | player 3 prints as `"3~Test3~03~5~F~0"` |
| `Players.FromStringExample` | player.test.js:26-35 | `"4~Test 4~09~75~G~1"` reads as id 4, skill 75, goalie, active |
| `Players.GoalieExampleString` | src/player.js:47-56 | that player prints back to the same text |
| `Roster.Find` | src/model.js:98-100 | the position of the first entry with the key, or none exactly when no entry has it |
| `Roster.MapSet` | src/model.js:107 | `Map.set` appends a new key, and replaces an existing key's value in place, leaving every other entry alone |
| `Roster.GetAfterSet` | src/model.js:107 | after `set(p.id, p)` a lookup of `p.id` gives `p`, and a lookup of any other key is unchanged |
| `Roster.MapSetUnique` | src/model.js:107 | `set` keeps the keys distinct |
| `Roster.MapDelete` | src/model.js:121 | `delete` keeps exactly the entries with other keys, in their insertion order: the one entry with the key is spliced out, and deleting an absent key changes nothing |
| `Roster.MapDeleteProperties` | src/model.js:121 | after `delete(id)` the keys stay distinct, `id` is gone, and every other key looks up as before |
| `Roster.GetPlayer` | src/model.js:98-100 | `getPlayer(id)` is a stored player with that id, or `undefined` exactly when there is none |
| `Roster.CreatePlayer` | src/model.js:103-110 | throws exactly when 32 or more players are stored, even when the id is already stored; otherwise stores the player (appended when new), logs one `create` event, and keeps the ids unique |
| `Roster.UpdatePlayer` | src/model.js:113-117 | inserts or overwrites by id without a cap, logs one `update` event, and grows the roster exactly when the id was new |
| `Roster.DeletePlayer` | src/model.js:120-124 | removes the id, logs `delete` with the id either way, keeps the other players in their order, and changes nothing else when the id was absent |
| `Roster.OtherKeysUnchanged` | src/model.js:103-124 | create, update and delete leave every other id's player as it was |
| `Roster.ViewsPartition` | src/model.js:85-95 | the fielder and goalie views keep the active view's order, are disjoint, and together hold exactly the active players |
| `Roster.CheckCounts` | src/model.js:130-133 | the four checks are independent: each message is present exactly when its condition holds, in the fixed order |
| `Roster.Validate` | src/model.js:126-135 | no errors exactly when there are 1 to 3 active goalies and 6 to 16 active players |
| `Roster.ValidateEmpty` | src/model.js:126-135 | an empty roster gets both "No Goalie" and "Too few" |
| `Tally.CountTrue` | src/model.test.js:35 | `lines.filter((l) => l).length` counts the set flags: all nine exactly when every flag is set, none exactly when none is |
| `Tally.CountTrueSet` | src/model.js:205-206 | setting a cleared flag adds one to the count, as `playerOcc` is incremented beside it |
| `Tally.FirstTrue` | src/model.js:163-165 | the first line a player holds, or 9 (`lineCount`) when there is none |
| `Tally.FirstTrueSet` | src/model.js:207 | the `Math.min` update keeps the first-line entry equal to the first set flag |
| `Tally.Start` | src/model.js:163-174 | the initial state: nine empty lines with sum 0, every count 0, every first line 9, and every counter agrees with the lines |
| `Tally.Place` | src/model.js:203-207 | adding a player to a line adds its skill to that line's sum only, raises its count by one, lowers its first line to `min(first, l)`, and keeps every counter in agreement with the lines |
| `Tally.OccBound` | src/model.js:203-205 | a player's count is at most 9, and exactly 9 when the player is on every line |
| `Fielders.MaxOcc` | src/model.js:156-158 | `maxFielderOcc = floor(45 / F) + 1` |
| `Fielders.MinOcc` | src/model.js:156-157 | `minFielderOcc = ceil(45 / F) - 1` |
| `Fielders.Candidates` | src/model.js:190-193 | the lines with fewer than 5 fielders that do not hold the fielder, in line order |
| `Fielders.ChooseLine` | src/model.js:190-201 | no line exactly when no line is eligible; otherwise an eligible line with the smallest sum, and the first such line |
| `Fielders.ChooseLineFirstMin` | src/model.js:197-201 | the `reduce` over the candidates' sums picks the line `ChooseLine` describes |
| `Fielders.Step` | src/model.js:187-208 | one turn places the fielder exactly when its count is below the maximum and some line is eligible. A placement adds one to that fielder's count only. Otherwise nothing changes. Lines never exceed 5 fielders, no line holds a player twice, and no count exceeds the maximum |
| `Fielders.Pass` | src/model.js:187-209 | a pass over the stream keeps those bounds, never removes a player from a line, and changes nothing when it places nobody |
| `Fielders.PlacedAtMost` | src/model.js:208 | the counter never exceeds `9 * F` placements |
| `Fielders.Stream` | src/model.js:177-181 | `fieldersMax` lists every fielder exactly `maxFielderOcc` times |
| `Fielders.StreamOrder` | src/model.js:176-181 | `fieldersMax` is one run of the fielders repeated `maxFielderOcc` times; the run is in descending skill, with equal skills in roster order as the stable sort leaves them |
| `Fielders.FillAsWritten` | src/model.js:186-210 | when the loop ends, exactly 45 fielders have been placed and every bound holds |
| `Fielders.Fill` | src/model.js:186-210 | the fill that stops once a pass places nobody keeps every bound; it ends with 45 placed or with a pass that would change nothing |
| `Fielders.FillAsWrittenAgrees` | src/model.js:186-210 | the loop as written ends exactly when the corrected fill reaches 45 placements, and then both give the same lines |
| `Fielders.FillAsWrittenDiverges` | src/model.js:186-210 | with 4 or fewer fielders the loop never ends |
| `Fielders.FillCovers` | src/model.js:186-210 | with at most 5 fielders, whom the stream all lists, the corrected fill puts every fielder on every line (`9 * F` placements) |
| `Fielders.SmallRosterCovers` | src/model.js:177-210 | the same from the starting state with the real stream |
| `Fielders.FiveFieldersEnds` | src/model.js:186-210 | with exactly 5 fielders the loop as written ends |
| `Goalies.CeilDiv` | src/model.js:159 | `maxGoalieOcc = ceil(3 / G)` |
| `Goalies.PeriodIndex` | src/model.js:215 | line `i` belongs to period `ceil((i + 1) / 3) - 1` |
| `Goalies.PeriodSumsLines` | src/model.js:213-220 | each period sum is the sum of its three line sums |
| `Goalies.ChoosePeriod` | src/model.js:224-227 | a chosen period is one that has no goalie yet |
| `Goalies.ChoosePeriodMeaning` | src/model.js:224-227 | no period exactly when every period has a goalie; otherwise an open period with the smallest sum, and the first such period |
| `Goalies.SortedChoice` | src/model.js:224-227 | filtering the open periods and taking the head of their sort by sum yields an open period |
| `Goalies.ChoosePeriodIsSortedChoice` | src/model.js:224-227 | the one-scan choice and the filter-sort-head choice pick the same period on every input |
| `Goalies.ChoosePeriodFirstMin` | src/model.js:224-227 | the stable sort of the open periods by sum puts that period first |
| `Goalies.PeriodLines` | src/model.js:229-230 | the loop visits exactly the three lines of the period, each once |
| `Goalies.PlaceGoalieEffect` | src/model.js:229-237 | the goalie joins exactly the three lines of its period, and its count rises by 3 while no other count changes |
| `Goalies.GoalieStep` | src/model.js:223-238 | a goalie turn marks one more period unless every period is marked, and the lines of unmarked periods keep holding fielders only |
| `Goalies.GoalieStepOcc` | src/model.js:223-238 | a turn adds 3 to the goalie's count and to the total when a period was open, and adds nothing otherwise |
| `Goalies.GoaliePass` | src/model.js:223-238 | after `n` goalies the number of marked periods is `min(3, marked + n)` |
| `Goalies.GoaliePassPlaced` | src/model.js:223-238 | each marked period adds 3 line slots |
| `Goalies.GoaliePassOcc` | src/model.js:223-238 | a goalie plays at most 3 lines per appearance in the stream |
| `Goalies.GoaliePassAbsent` | src/model.js:223-238 | the goalie loop leaves the count of every player it does not iterate over unchanged, so every fielder's |
| `Goalies.GoalieStream` | src/model.js:178-182 | `goaliesMax` lists every goalie exactly `maxGoalieOcc` times and no one else |
| `Goalies.GoalieStreamOrder` | src/model.js:176-182 | `goaliesMax` is one run of the goalies repeated `maxGoalieOcc` times; the run is in descending skill, with equal skills in roster order |
| `Goalies.GoaliesCover` | src/model.js:223-238 | from no goalies, a stream of 3 or more goalies gives every period a goalie. Every line gains exactly one goalie, the same one for all three lines of a period, after its fielders |
| `Schedule.Plans` | src/model.js:141-238 | the two fill phases fail exactly when there are no active fielders or no active goalies (`Array(Infinity)`) |
| `Schedule.PlanPhases` | src/model.js:143-238 | the phases run on the active fielders then the active goalies, with `valid` being `validate()` returning no errors |
| `Schedule.BuildLineup` | src/model.js:141-252 | `buildLineup` fails exactly when a view is empty; its players are the active fielders followed by the active goalies |
| `Schedule.RowsMeaning` | src/model.js:163-165 | a player's row holds exactly the lines the player is on, and its first line; its count is the number of those lines |
| `Schedule.AssembleMeaning` | src/model.js:240-249 | `playerOcc` counts each player's lines and `lineSums[l]` is the skill sum of line `l`. `playerRows` holds one row per player, sorted by first line, with ties in roster order |
| `Schedule.GoalieStreamReaches` | src/model.js:159-182 | `goaliesMax` has at least 3 entries, enough for every period |
| `Schedule.GoaliePhaseShape` | src/model.js:213-238 | line `l` ends as the fielders it had followed by one goalie, the goalie of its period |
| `Schedule.PhaseLine` | src/model.js:186-238 | after both phases line `l` holds at most 5 fielders and then its period's goalie |
| `Schedule.PhaseKeeps` | src/model.js:229-236 | the goalie loop only adds to lines: everyone the fielder loop placed stays |
| `Schedule.PhaseCount` | src/model.js:155-159 | after the goalie phase a fielder's count is within `maxFielderOcc` and a goalie's within three lines per turn |
| `Schedule.LinesShape` | src/model.js:186-238 | each line of the built lineup holds at most 5 fielders and then exactly one goalie, the same across a period |
| `Schedule.CountsCapped` | src/model.js:155-159 | for each player: a fielder plays at most `maxFielderOcc` lines and a goalie at most `3 * maxGoalieOcc` |
| `Schedule.GoaliePhasePlaced` | src/model.js:223-238 | the goalie loop fills all three periods, 9 more slots |
| `Schedule.GoaliePhaseKeepsFielder` | src/model.js:223-238 | the goalie loop does not change a fielder's count |
| `Schedule.PhaseTotals` | src/model.js:186-238 | after both loops the fielders' counts add up to the fielder placements and the goalies' counts to 9 |
| `Schedule.OccTotals` | src/model.js:186-238 | the same for a built plan, with the fielder total 0 when `validate` fails, `9 * F` for `F <= 5` fielders on a valid roster, and never above 45 |
| `Schedule.BuildTotals` | src/model.test.js:48-50 | in the returned `playerOcc` the goalies' counts add up to 9 and all counts to the fielders' total plus 9; the fielders' total is at most 45, 0 on an invalid roster, `9 * F` for at most 5 fielders |
| `Schedule.InvalidRosterGoaliesOnly` | src/model.js:143-186 | when `validate` reports errors, no fielder is placed: line `l` holds just its goalie |
| `Schedule.SmallValidRosterCovers` | src/model.js:186-210 | with the corrected loop, a valid roster of at most 5 fielders puts fielder `f` on line `l`, for every `f` and `l` |
| `Schedule.FielderPhaseAsWritten` | src/model.js:186-210 | when the loop as written ends, every fill bound holds |
| `Schedule.FielderPhaseAgrees` | src/model.js:186-210 | the loop as written ends exactly when the roster is invalid or the corrected fill reaches 45, and then agrees with it |
| `Schedule.BuildLineupAsWritten` | src/model.js:141-252 | when it returns, `buildLineup` as written fails exactly when a view is empty |
| `Schedule.AsWrittenAgrees` | src/model.js:141-252 | when it returns, it returns what the corrected build returns |
| `Schedule.AsWrittenHangsWhen` | src/model.js:186 | it never returns exactly when the roster is valid and the fill stalls below 45 placements |
| `Schedule.ValidSmallRosterHangs` | src/model.js:186-210 | it never returns for a valid roster with 4 or fewer active fielders |
| `Schedule.ValidFiveFieldersReturns` | src/model.js:186-210 | it returns for a valid roster with exactly 5 active fielders |
| `LegacyPlayers.ParseSkill` | player.js:38 | `parseInt(skill)` keeps a number, parses decimal text, and is `NaN` for anything else |
| `LegacyPlayers.SkillFromText` | player.js:38 | a skill given as decimal text reads the same as the number |
| `LegacyPlayers.ParseActive` | player.js:39 | active is false exactly when the input loosely equals `false` or is `'false'`; absent input gives true |
| `LegacyPlayers.ParsePosition` | player.js:40 | a falsy position becomes `undefined`, and a truthy one is kept |
| `LegacyPlayers.NoLines` | player.js:58 | `Array(9).fill(false)` |
| `LegacyPlayers.NewPlayer` | player.js:35-43 | the constructor keeps name and number, parses skill, active and position, and starts with nine cleared lines |
| `LegacyPlayers.NewGoalie` | player.js:49-51 | a player is a goalie exactly when its position is `"Goalie"` |
| `LegacyPlayers.ClearLines` | player.js:57-60 | `clearLines` sets nine false flags, returns them, and changes nothing else |
| `LegacyPlayers.ClearLinesIdempotent` | player.js:57-60 | clearing twice is clearing once, and a new player is already cleared |
| `LegacyPlayers.Populate` | player.js:66-74 | `populate(obj)` gives the player the constructor gives for the same five fields |
| `LegacyPlayers.Create` | player.js:15-21 | an array is read positionally and an object through `populate` |
| `LegacyPlayers.CreateForms` | player.js:15-21 | entries past the fifth are ignored, and an array creates what the object with those fields creates |
| `LegacyPlayers.CreateCollection` | player.js:6-8 | `createCollection` creates one player per element, in order |
| `LegacyPlayers.CreateCollectionAppend` | player.js:6-8 | `createCollection` distributes over concatenation |
| `LegacyPlayers.Examples` | test.js:27-42 | the player.js assertions: goalie check, `'false'` as inactive, `populate`, collections of objects and arrays |
| `LineFlags.TextOrderIsBits` | lineup.js:27 | for flag rows of one width, comparing `toString()` texts with `>` orders the rows exactly as the rows read as binary numbers |
| `LineFlags.SortByFlags` | model.js:232 | the result is a permutation in which no row's flag text is greater than an earlier row's |
| `LineFlags.SortByFlagsStable` | model.js:232 | rows with equal flags keep their input order |
| `LineFlags.SortByFlagsHead` | model.js:232 | the first row is the first input row with the largest flags |
| `RoundRobin.Window` | model.js:145-150 | slot `j` of line `i` holds placeholder `wrapIndex(5i + j, n)` |
| `RoundRobin.StubLineSorted` | model.js:154 | each stub line is its window sorted ascending |
| `RoundRobin.SortedUnique` | model.js:154 | a sorted arrangement of a window is unique, so the ascending sort is determined |
| `RoundRobin.StubLinesExample` | test.js:70 | `buildLines(14)[2]` is `0,10,11,12,13` |
| `RoundRobin.StubLinesCount` | model.js:132-150 | over the nine stub lines each placeholder `v < n` occurs `45 / n` times, plus one when `v < 45 % n`, and nothing else occurs |
| `RoundRobin.StubLinesNoOther` | model.js:145-150 | stubbing puts no player or goalie on a line |
| `RoundRobin.Marks` | model.js:193 | a player's nine flags are set exactly on the lines holding it |
| `RoundRobin.GoalieLoopMeaning` | model.js:189-196 | after the double loop, line `l` has gained exactly `goalies[floor(l / 3) mod G]` at its end |
| `RoundRobin.Base` | model.js:186-196 | the stubbed lines with goalies fail exactly when there is no goalie, and otherwise are 9 lines of 6 entries |
| `RoundRobin.BaseLine` | lineup.js:122-133 | line `l` is stub line `l` followed by its period's goalie |
| `RoundRobin.FirstStub` | model.js:208-214 | the first slot of a line holding a placeholder, or the line's length when none does |
| `RoundRobin.Replace` | model.js:216-224 | every slot holding the chosen placeholder becomes the fielder, and every other slot is kept |
| `RoundRobin.BestOpen` | model.js:202-206 | the corrected choice: a line that still holds a placeholder and has the lowest score, first on ties |
| `RoundRobin.BuildAsWritten` | model.js:186-227 | the builder as written fails exactly when there is no goalie, and otherwise gives 9 lines of 6 entries |
| `RoundRobin.Build` | model.js:186-227 | the corrected builder has the same failure and shape |
| `RoundRobin.BuildHandsOut` | model.js:199-227 | with the corrected choice each placeholder goes to exactly one fielder, and the lines are the stub lines with every placeholder replaced by its owner |
| `RoundRobin.BuildLineShape` | model.js:199-227 | with the corrected choice every line ends as five fielders of the roster and its period's goalie |
| `RoundRobin.BuildEqualPlay` | model.js:132-137 | the equal-play rule: with the corrected choice each fielder plays `45 / F` or `45 / F + 1` slots |
| `RoundRobin.AsWrittenPlay` | model.js:199-227 | as written, each fielder plays no slot, or `45 / F` or `45 / F + 1` slots |
| `RoundRobin.AsWrittenOnlyStubs` | model.js:216-224 | as written, a fill only turns placeholders into fielders of the roster; players and goalies are never overwritten |
| `RoundRobin.AsWrittenGoalies` | model.js:189-196 | as written, the goalie of each line stays in its last slot |
| `RoundRobin.GoalieSlots` | model.js:189-196 | in either builder the goalie is exactly in slot 5 |
| `RoundRobin.GoalieOnLine` | model.js:189-196 | goalie `k` is on line `l` exactly when `k = floor(l / 3) mod G` |
| `RoundRobin.NoFielders` | model.js:199-200 | with no fielders the fill does nothing, and both builders agree |
| `RoundRobin.AsWrittenLeavesPlaceholder` | model.js:202-224 | the fill as written leaves placeholder 5 on line 1 and the sixth fielder without a line, for 6 fielders and 1 goalie all of skill 0 |
| `LegacyLineup.SortPlayersBySkill` | lineup.js:17-19 | a permutation in descending skill order |
| `LegacyLineup.SortPlayersBySkillStable` | lineup.js:17-19 | players of equal skill keep their order |
| `LegacyLineup.SortBySkillFirst` | lineup.js:17-19 | the first player after sorting has the largest skill |
| `LegacyLineup.SortBySkillExample` | test.js:64 | the mock players sort with skill 30 first |
| `LegacyLineup.FilterActive` | lineup.js:35-37 | exactly the active players are kept |
| `LegacyLineup.FilterFielders` | lineup.js:45-47 | exactly the non-goalies are kept, active or not |
| `LegacyLineup.FilterGoalies` | lineup.js:54-56 | exactly the goalies are kept, active or not |
| `LegacyLineup.FiltersPartition` | lineup.js:45-56 | the two filters split their input between them |
| `LegacyLineup.FilterExamples` | test.js:66-67 | the mock roster has two fielders and two goalies |
| `LegacyLineup.SortPlayersByLines` | lineup.js:26-28 | a permutation in which no player's flag text is greater than an earlier player's |
| `LegacyLineup.SortByLinesExample` | test.js:65 | the player with all three flags set sorts first |
| `LegacyLineup.ScoreLineSnoc` | lineup.js:72-74 | `scoreLine` adds a player's skill and ignores a placeholder number |
| `LegacyLineup.ScoreExamples` | test.js:68-69 | skills 1, 2, 3 score 6, and three such lines score `6,6,6` |
| `LegacyLineup.Cleared` | lineup.js:110-114 | the active players, each with cleared lines |
| `LegacyLineup.MarkGoalies` | lineup.js:130 | each goalie carries the flags of the lines it is on |
| `LegacyLineup.MarkFielders` | lineup.js:157 | each fielder carries the flags of the lines it is on |
| `LegacyLineup.Assemble` | lineup.js:166-174 | the result holds the fielders sorted by their flags and then the goalies in skill order, and nine scores |
| `LegacyLineup.DetermineLineup` | lineup.js:109-179 | the corrected `determineLineup` fails exactly when there is no active goalie |
| `LegacyLineup.DetermineLineupAsWritten` | lineup.js:109-179 | the same holds for `determineLineup` as written |
| `LegacyLineup.ActiveCount` | lineup.js:110-120 | the active fielders and active goalies together number the active players |
| `LegacyLineup.PlayerCount` | lineup.js:169 | the result lists exactly as many players as are active |
| `LegacyLineup.GoalieFlags` | lineup.js:126-133 | with a goalie, the build succeeds, and goalie `k` is flagged on line `l` exactly when `k = floor(l / 3) mod G` |
| `LegacyLineup.GoalieFlagsAsWritten` | lineup.js:126-133 | the same for `determineLineup` as written |
| `LegacyLineup.EqualPlay` | lineup.js:77-81 | the equal-play rule of the doc comment holds for the corrected fill |
| `LegacyLineup.AsWrittenPlay` | lineup.js:136-164 | as written, a fielder plays no slot or its fair share, and only placeholders are ever replaced |
| `LegacyLineup.DemoPlayerCount` | test.js:72 | the demo roster has 13 active players, and the lineup lists 13 |
| `OldModel.ScoreLine` | model.js:128-130 | the `{ skill = 0 }` reduce adds skills, counts placeholders as 0, and throws exactly on an empty slot |
| `OldModel.ScoreLines` | model.js:229 | scoring all lines throws exactly when some line has an empty slot, and otherwise gives each line's score |
| `OldModel.SortBySkill` | model.js:180-183 | a permutation in descending skill order |
| `OldModel.SortBySkillStable` | model.js:180-183 | players of equal skill keep their order |
| `OldModel.Fielders` | model.js:180 | the active fielders, sorted by descending skill |
| `OldModel.Goalies` | model.js:183 | the active goalies, sorted by descending skill |
| `OldModel.FielderRows` | model.js:220 | each fielder beside the flags of the lines it holds |
| `OldModel.GoalieRows` | model.js:193 | each goalie beside the flags of the lines it holds |
| `OldModel.Assemble` | model.js:232-239 | all fielders and goalies in one list, sorted so that no row's flag text is greater than an earlier row's |
| `OldModel.Finish` | model.js:229-239 | the final scoring throws exactly when a line has an empty slot; otherwise the result is assembled with those scores |
| `OldModel.EmptySlots` | model.js:186-227 | with a goalie, the corrected lines have an empty slot exactly when there are no fielders |
| `OldModel.EmptySlotsAsWritten` | model.js:186-227 | the same for the lines as written |
| `OldModel.BuildLineup` | model.js:174-240 | the corrected `buildLineup` throws exactly when there are no active fielders or no active goalies; otherwise it reports the sorted views and the built lines |
| `OldModel.BuildLineupAsWritten` | model.js:174-240 | the same for `buildLineup` as written |
| `OldModel.Reported` | model.js:229-239 | the report lists every active player once, beside its flags, with the final line scores |
| `OldModel.ReportedAsWritten` | model.js:229-239 | the same for `buildLineup` as written |
| `OldModel.GoalieRotation` | model.js:189-196 | goalie `k`'s row is reported, flagged exactly on the lines of the periods `i` with `k = (i - 1) mod G` |
| `OldModel.GoalieRotationAsWritten` | model.js:189-196 | the same for `buildLineup` as written |
| `OldModel.EqualPlay` | model.js:132-137 | the equal-play rule holds for the corrected fill |
| `OldModel.AsWrittenPlay` | model.js:199-227 | as written, a fielder plays no slot or its fair share, and only placeholders are ever replaced |

## Left out

- Floating point: `average`, `variance`, `standardDeviation` (helpers.js:26-41, array.js:29-49), the `standardDeviation` and `sd` fields (src/model.js:250, model.js:238), and `mean`, `var`, `sd` (lineup.js:175-177). The integer line sums they are computed from are modelled.
- Arrays.TestVectors: test.js:16 uses fractions (`[3.332, 0.11, 1]`). The vector is scaled by 1000 to integers, which keeps the order and so the answer.
- The URL and history half of both models (`#parse`, `#serialize`, `#commit`, `#load`, the `hashchange` listener), `toUrlParam` (player.js:80-83), datastore.js, view-model.js and main.js: browser I/O and UI.
- `xid` (wall clock), `t`, `$`, `$$` (DOM) in helpers.js.
- `sortPlayersByName` (lineup.js:8-10): it relies on the locale-dependent `localeCompare`.
- Listener callbacks. Notifications are an appended event log (`Roster.Event`); a listener's own effects are not modelled.
- `loadDemo` (src/model.js:254-276, model.js:242-264) is not an operation of the model. The legacy demo roster is a test vector (`LegacyLineup.Demo`). The demo scores of test.js:74 are not proved.
- `validate` of root model.js (model.js:159-168) has inverted and duplicated conditions, and the root model.js builder does not call it. The validator of src/model.js is the one modelled.
- Root model.js imports the legacy `Player` but reads `id` and the `~` encoding of the current one. `OldModel` uses the current player. The flags the builder writes onto player objects, including clearing them for inactive players, come back as `Row` values rather than being stored.
- Js.ParseIntToString: `parseInt` is modelled on optionally signed decimal digit strings only. Leniencies such as `"12abc"` giving 12, or leading spaces, are read as not a number.
- LegacyPlayers.ParseActive: loose equality with `false` is modelled for `false`, `0`, `""` and decimal digit strings of value 0. Other strings that convert to 0 (`" "`, `"0x0"`, `"0.0"`) are not modelled.
- LegacyPlayers.CreateForms: `obj.length = 5` also truncates the caller's array. That side effect is not modelled.
- LegacyLineup.DetermineLineup: it requires every active player to have a numeric skill (`ActiveSkilled`). With a `NaN` skill every score is `NaN` and the line choice degenerates; that case is not modelled.
- LegacyLineup.DetermineLineupAsWritten: it requires `ActiveSkilled` for the same reason.
- LegacyLineup.SortPlayersBySkill: it requires every player to have a numeric skill (`AllSkilled`), while lineup.js:17-19 accepts `NaN` skills. With `NaN` the comparator `b.skill - a.skill` is inconsistent and the resulting order is up to the engine, so that case is not modelled.
- Sorting ties: the source relies on the engine's sort, which is stable in current engines. The model sorts stably.
- Schedule.CountsCapped: the lower bound `minFielderOcc = ceil(45 / F) - 1` that src/model.test.js:47 asserts is not proved. Nothing in the loop enforces it: it would follow only from the order in which the greedy fill hands out lines, and every invariant the model keeps (`Fielders.FillSafe`) also holds in states far below it. Whether the fill always meets it for 6 to 16 players is left open.
- Schedule.BuildLineup: of the totals of src/model.test.js:48-50, the 9 goalie occurrences and "total = fielder occurrences + 9" are proved (`Schedule.BuildTotals`). The 45 fielder occurrences are proved only for at most 5 fielders. For 6 to 15 fielders they are left open, because the loop invariant admits a stalled state. Take 6 fielders, so `maxFielderOcc` = 8: eight full lines, and one line holding four fielders who have 7 lines each, while the other two fielders already have 8. No pass can place anyone there, and only 44 slots are filled. So reaching 45 depends on the skills and on the greedy's choices, not on an invariant; it is not proved.
- Players.NewPlayer: `PlayerInput` cannot express three inputs. With no argument (`new Player()`, which the JSDoc marks optional) the constructor throws a `TypeError` at src/player.js:25. A position that is present but not a string throws at src/player.js:34. A fractional skill becomes 50 (src/player.js:28). None of these is modelled: `Js.Value` numbers are integers, and a position is a string or absent.
- RoundRobin.StubLine: the legacy lines follow the intended ascending order (the comment at lineup.js:96-98 and test.js:70), not what an engine does with the boolean comparator `(a, b) => a > b` of lineup.js:99. That comparator never returns a negative number, so a TimSort engine such as current V8 leaves the window in its original order: `buildLines(14)[2]` stays `10,11,12,13,0` rather than becoming `0,10,11,12,13`. This changes which placeholder the legacy fill hands out first.
- Players.ToString: the delimiter is one character. src/player.js:47 and :58 accept any string and default to `","` (`Players.DefaultDelimiter`); longer delimiters are not modelled.
- Roster.UpdatePlayer: like the source, `updatePlayer` may grow the roster past 32. The cap is not an invariant of the store.
- Legacy players carry no id; `LegacyLineup` works on positions in the filtered lists.

## Findings

| source | as written | input that shows it | evidently intended | confidence | as-written member | corrected member |
|---|---|---|---|---|---|---|
| src/model.js:186-210 | the `while` loop repeats passes until 45 fielders are placed, and a pass that places nobody changes nothing | a valid roster of 4 active fielders and 2 active goalies: a line can take at most 4 distinct fielders, so at most 36 placements are possible and the loop never ends | stop once a pass places nobody; then every fielder of a roster of at most 5 fielders plays every line | not executed | `Schedule.ValidSmallRosterHangs` | `Schedule.SmallValidRosterCovers` |
| model.js:202-224 | the fill picks the lowest-scoring line even when it no longer holds a placeholder; then nothing is replaced and the fielder gets no line | 6 active fielders and 1 goalie, all of skill 0: line 0 always scores lowest, and after five fielders it holds no placeholder, so the sixth fielder plays no line and placeholder 5 stays on line 1 | choose the lowest-scoring line among those still holding a placeholder; then every fielder plays `45 / F` or `45 / F + 1` slots | not executed | `RoundRobin.AsWrittenLeavesPlaceholder` | `RoundRobin.BuildEqualPlay` |
