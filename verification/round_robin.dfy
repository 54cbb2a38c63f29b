/**
 * The line template and placeholder fill shared by the legacy `determineLineup` (lineup.js)
 * and the transitional `buildLineup` (model.js). Nine lines of five slots are stubbed with
 * placeholder numbers `0 .. n - 1` handed out round robin, one goalie per period is appended
 * to its three lines, and then each fielder in turn takes over every slot of one placeholder.
 * Fielders and goalies are named by their position in the skill-sorted fielder and goalie
 * arrays.
 */
module RoundRobin {
  import opened Wrappers
  import Helpers
  import Seqs
  import Sorting
  import Tally

  const LineCount: nat := 9
  const SlotsPerLine: nat := 5
  const SlotCount: nat := 45

  /**
   * A slot of a line: a placeholder number, an empty slot (`players[NaN]`, which is
   * `undefined`), a fielder or a goalie.
   */
  datatype Entry = Stub(v: nat) | Hole | Fielder(k: nat) | Goalie(k: nat)

  /** The error the goalie loop raises when there is no goalie to read `lines` from. */
  datatype Fault = TypeError

  /** A placeholder as a sort key. */
  function Id(x: nat): int {
    x
  }

  // ---------------------------------------------------------------------------------------
  // The template
  // ---------------------------------------------------------------------------------------

  /**
   * The placeholders the running `sequenceIndex` hands to line `i`, in slot order: slot
   * `5 i + j` gets `wrapIndex(5 i + j, n)`.
   */
  function Window(n: nat, i: nat): (r: seq<nat>)
    requires n > 0
    ensures |r| == SlotsPerLine
    ensures forall j :: 0 <= j < SlotsPerLine ==> Helpers.WrapIndex(SlotsPerLine * i + j, n) == Some(r[j])
  {
    seq(SlotsPerLine, j requires 0 <= j < SlotsPerLine => (SlotsPerLine * i + j) % n)
  }

  /** Placeholder numbers as slot entries. */
  function Stubs(s: seq<nat>): (r: seq<Entry>)
    ensures |r| == |s| && forall j :: 0 <= j < |s| ==> r[j] == Stub(s[j])
  {
    seq(|s|, j requires 0 <= j < |s| => Stub(s[j]))
  }

  /**
   * Line `i` of `buildLines(n)` / `stubLinesForEqualPlay(n)`: its five placeholders sorted
   * ascending; with no fielders every index is `NaN` and every slot is empty.
   */
  function StubLine(n: nat, i: nat): (r: seq<Entry>)
    ensures |r| == SlotsPerLine
  {
    if n == 0 then seq(SlotsPerLine, _ => Hole) else Stubs(Sorting.SortBy(Window(n, i), Id))
  }

  /** The nine stubbed lines. */
  function StubLines(n: nat): (r: seq<seq<Entry>>)
    ensures |r| == LineCount
    ensures forall i :: 0 <= i < LineCount ==> r[i] == StubLine(n, i)
  {
    seq(LineCount, i requires 0 <= i < LineCount => StubLine(n, i))
  }

  /** How many slots of `lines` hold `e`. */
  function Occ(lines: seq<seq<Entry>>, e: Entry): nat
    decreases |lines|
  {
    if |lines| == 0 then 0 else multiset(lines[0])[e] + Occ(lines[1..], e)
  }

  /**
   * Which of the lines hold `e`: the `lines` flags a lineup sets on that player, one per line
   * it is placed on.
   */
  function Marks(lines: seq<seq<Entry>>, e: Entry): (r: seq<bool>)
    ensures |r| == |lines| && forall l :: 0 <= l < |lines| ==> (r[l] <==> e in lines[l])
  {
    seq(|lines|, l requires 0 <= l < |lines| => e in lines[l])
  }

  lemma {:induction false} OccAppend(a: seq<seq<Entry>>, b: seq<seq<Entry>>, e: Entry)
    ensures Occ(a + b, e) == Occ(a, e) + Occ(b, e)
    decreases |a|
  {
    if |a| > 0 {
      assert (a + b)[0] == a[0];
      assert (a + b)[1..] == a[1..] + b;
      OccAppend(a[1..], b, e);
    } else {
      assert a + b == b;
    }
  }

  lemma {:induction false} StubsCount(s: seq<nat>, e: Entry)
    ensures multiset(Stubs(s))[e] == if e.Stub? then multiset(s)[e.v] else 0
    decreases |s|
  {
    if |s| > 0 {
      assert Stubs(s) == [Stub(s[0])] + Stubs(s[1..]);
      assert s == [s[0]] + s[1..];
      StubsCount(s[1..], e);
    }
  }

  /** Sorting keeps the placeholders: a stubbed line holds each one as often as its window. */
  lemma StubLineCount(n: nat, i: nat, e: Entry)
    requires n > 0
    ensures multiset(StubLine(n, i))[e] == if e.Stub? then multiset(Window(n, i))[e.v] else 0
  {
    StubsCount(Sorting.SortBy(Window(n, i), Id), e);
  }

  /** The slot numbers `0 .. m - 1` wrapped onto `n` placeholders. */
  function Residues(n: nat, m: nat): (r: seq<nat>)
    requires n > 0
    ensures |r| == m && forall s :: 0 <= s < m ==> r[s] == s % n
  {
    seq(m, s requires 0 <= s < m => s % n)
  }

  lemma DivModOf(x: nat, n: nat, q: nat, r: nat)
    requires n > 0 && r < n && x == q * n + r
    ensures x / n == q && x % n == r
  {
    Helpers.DivModUnique(x, n, q, r);
    assert (x / n - q) * n == 0;
  }

  /** One more slot number: the quotient and remainder of `k + 1` from those of `k`. */
  lemma DivModNext(k: nat, n: nat)
    requires n > 0
    ensures k % n + 1 < n ==> (k + 1) / n == k / n && (k + 1) % n == k % n + 1
    ensures k % n + 1 == n ==> (k + 1) / n == k / n + 1 && (k + 1) % n == 0
  {
    var q, r := k / n, k % n;
    assert k == q * n + r;
    if r + 1 < n {
      DivModOf(k + 1, n, q, r + 1);
    } else {
      assert k + 1 == (q + 1) * n + 0;
      DivModOf(k + 1, n, q + 1, 0);
    }
  }

  lemma ResiduesNext(n: nat, k: nat, v: nat)
    requires n > 0
    ensures multiset(Residues(n, k + 1))[v] == multiset(Residues(n, k))[v] + (if k % n == v then 1 else 0)
  {
    assert Residues(n, k + 1) == Residues(n, k) + [k % n];
  }

  /**
   * Among the first `m` slot numbers, placeholder `v` comes up `m / n` times, plus once
   * more when it is below the remainder.
   */
  lemma {:induction false} ResiduesCount(n: nat, m: nat, v: nat)
    requires n > 0 && v < n
    ensures multiset(Residues(n, m))[v] == m / n + (if v < m % n then 1 else 0)
    decreases m
  {
    if m > 0 {
      var k := m - 1;
      ResiduesCount(n, k, v);
      ResiduesNext(n, k, v);
      DivModNext(k, n);
      if k % n + 1 < n {
        assert m / n == k / n && m % n == k % n + 1;
      } else {
        assert m / n == k / n + 1 && m % n == 0;
      }
    }
  }

  lemma ResiduesWindow(n: nat, i: nat)
    requires n > 0
    ensures Residues(n, SlotsPerLine * (i + 1)) == Residues(n, SlotsPerLine * i) + Window(n, i)
  {
  }

  lemma OccSnoc(lines: seq<seq<Entry>>, i: nat, e: Entry)
    requires 0 < i <= |lines|
    ensures Occ(lines[..i], e) == Occ(lines[..i - 1], e) + multiset(lines[i - 1])[e]
  {
    assert lines[..i] == lines[..i - 1] + [lines[i - 1]];
    OccAppend(lines[..i - 1], [lines[i - 1]], e);
    assert Occ([lines[i - 1]], e) == multiset(lines[i - 1])[e] + Occ([], e);
  }

  /** The first `i` lines hold exactly the first `5 i` slot numbers. */
  lemma {:induction false} StubLinesPrefixCount(n: nat, i: nat, v: nat)
    requires n > 0 && i <= LineCount
    ensures Occ(StubLines(n)[..i], Stub(v)) == multiset(Residues(n, SlotsPerLine * i))[v]
    decreases i
  {
    if i > 0 {
      OccSnoc(StubLines(n), i, Stub(v));
      StubLinesPrefixCount(n, i - 1, v);
      StubLineCount(n, i - 1, Stub(v));
      ResiduesWindow(n, i - 1);
    }
  }

  /**
   * The equal-play promise of the template: placeholder `v` of `n` fills `45 / n` slots, one
   * more when it is below `45 % n`, so no two placeholders differ by more than one slot; the
   * template holds nothing else.
   */
  lemma StubLinesCount(n: nat, e: Entry)
    requires n > 0
    ensures e.Stub? && e.v < n ==> Occ(StubLines(n), e) == SlotCount / n + (if e.v < SlotCount % n then 1 else 0)
    ensures !(e.Stub? && e.v < n) ==> Occ(StubLines(n), e) == 0
  {
    var lines := StubLines(n);
    assert lines[..LineCount] == lines;
    if e.Stub? {
      StubLinesPrefixCount(n, LineCount, e.v);
      if e.v < n {
        ResiduesCount(n, SlotCount, e.v);
      } else {
        assert e.v !in multiset(Residues(n, SlotCount));
      }
    } else {
      StubLinesNoOther(n, LineCount, e);
    }
  }

  lemma {:induction false} StubLinesNoOther(n: nat, i: nat, e: Entry)
    requires n > 0 && i <= LineCount && !e.Stub?
    ensures Occ(StubLines(n)[..i], e) == 0
    decreases i
  {
    if i > 0 {
      OccSnoc(StubLines(n), i, e);
      StubLinesNoOther(n, i - 1, e);
      StubLineCount(n, i - 1, e);
    }
  }

  lemma SortedTail(a: seq<nat>)
    requires |a| > 0 && Sorting.SortedBy(a, Id)
    ensures Sorting.SortedBy(a[1..], Id)
  {
    forall i, j | 0 <= i < j < |a| - 1 ensures Id(a[1..][i]) <= Id(a[1..][j]) {
      assert a[1..][i] == a[i + 1] && a[1..][j] == a[j + 1];
    }
  }

  lemma SortedHead(a: seq<nat>, x: nat)
    requires Sorting.SortedBy(a, Id) && x in a
    ensures a[0] <= x
  {
    var i :| 0 <= i < |a| && a[i] == x;
    if i > 0 {
      assert Id(a[0]) <= Id(a[i]);
    }
  }

  lemma TailMultiset(a: seq<nat>)
    requires |a| > 0
    ensures multiset(a[1..]) == multiset(a) - multiset{a[0]}
  {
    assert a == [a[0]] + a[1..];
  }

  /** Two ascending sequences of the same placeholders are equal. */
  lemma {:induction false} SortedUnique(a: seq<nat>, b: seq<nat>)
    requires Sorting.SortedBy(a, Id) && Sorting.SortedBy(b, Id) && multiset(a) == multiset(b)
    ensures a == b
    decreases |a|
  {
    assert |a| == |multiset(a)| == |multiset(b)| == |b|;
    if |a| > 0 {
      assert a[0] == b[0] by {
        assert a[0] in multiset(b) && b[0] in multiset(a);
        SortedHead(b, a[0]);
        SortedHead(a, b[0]);
      }
      assert multiset(a[1..]) == multiset(b[1..]) by {
        TailMultiset(a);
        TailMultiset(b);
      }
      SortedTail(a);
      SortedTail(b);
      SortedUnique(a[1..], b[1..]);
      assert a == [a[0]] + a[1..] && b == [b[0]] + b[1..];
    }
  }

  lemma WindowExample(n: nat, i: nat)
    requires n == 14 && i == 2
    ensures Window(n, i) == [10, 11, 12, 13, 0]
    ensures multiset(Window(n, i)) == multiset([0, 10, 11, 12, 13])
  {
    assert Window(n, i) == [10, 11, 12, 13, 0];
  }

  lemma ExampleSorted()
    ensures Sorting.SortedBy<nat>([0, 10, 11, 12, 13], Id)
  {
  }

  /** A stubbed line is the ascending arrangement of its window. */
  lemma StubLineSorted(n: nat, i: nat, s: seq<nat>)
    requires n > 0 && Sorting.SortedBy(s, Id) && multiset(s) == multiset(Window(n, i))
    ensures StubLine(n, i) == Stubs(s)
  {
    SortedUnique(Sorting.SortBy(Window(n, i), Id), s);
  }

  /** The third line of the 14-fielder template: placeholder 0 sorts in front of 10 .. 13. */
  lemma StubLinesExample(n: nat, i: nat)
    requires n == 14 && i == 2
    ensures StubLines(n)[i] == Stubs([0, 10, 11, 12, 13])
  {
    WindowExample(n, i);
    ExampleSorted();
    StubLineSorted(n, i, [0, 10, 11, 12, 13]);
  }

  // ---------------------------------------------------------------------------------------
  // Goalies
  // ---------------------------------------------------------------------------------------

  /**
   * The goalie loop after `t` of its nine turns: turn `t` is period `i = t / 3 + 1`,
   * countdown `g = t % 3 + 1`, and pushes goalie `wrapIndex(i - 1, goalies)` onto line
   * `3 i - g`.
   */
  function GoalieLoop(lines: seq<seq<Entry>>, goalies: nat, t: nat): (r: seq<seq<Entry>>)
    requires |lines| == LineCount && goalies > 0 && t <= LineCount
    ensures |r| == LineCount
    decreases t
  {
    if t == 0 then lines
    else
      var prev := GoalieLoop(lines, goalies, t - 1);
      var i := (t - 1) / 3 + 1;
      var g := (t - 1) % 3 + 1;
      var l := i * 3 - g;
      Helpers.WrapIndexLaws(i - 1, goalies);
      prev[l := prev[l] + [Goalie(Helpers.WrapIndex(i - 1, goalies).value)]]
  }

  /**
   * The turn of the goalie loop that serves line `l`; the same formula gives the line that
   * turn `t` serves, since the loop visits each period's lines backwards.
   */
  function Turn(l: nat): nat {
    3 * (l / 3) + 2 - l % 3
  }

  lemma TurnInvolution(l: nat)
    requires l < LineCount
    ensures Turn(l) < LineCount && Turn(Turn(l)) == l && Turn(l) / 3 == l / 3
  {
  }

  /** Turn `t` of the loop (period `t / 3 + 1`, countdown `t % 3 + 1`) serves line `Turn(t)`. */
  lemma LoopLine(t: nat)
    requires t < LineCount
    ensures (t / 3 + 1) * 3 - (t % 3 + 1) == Turn(t)
  {
  }

  /** Turn `t` serves line `l` exactly when `l`'s turn is `t`, and then both share a period. */
  lemma TurnServes(t: nat, l: nat)
    requires t < LineCount && l < LineCount
    ensures (t / 3 + 1) * 3 - (t % 3 + 1) == Turn(t)
    ensures (l == Turn(t)) <==> (Turn(l) == t)
    ensures l == Turn(t) ==> t / 3 == l / 3
  {
    LoopLine(t);
    TurnInvolution(l);
    TurnInvolution(t);
  }

  /** One turn of the goalie loop, in terms of the line it serves. */
  lemma GoalieLoopStep(lines: seq<seq<Entry>>, goalies: nat, t: nat, l: nat)
    requires |lines| == LineCount && goalies > 0 && 0 < t <= LineCount && l < LineCount
    ensures GoalieLoop(lines, goalies, t)[l]
         == if Turn(l) == t - 1 then GoalieLoop(lines, goalies, t - 1)[l] + [Goalie((l / 3) % goalies)]
            else GoalieLoop(lines, goalies, t - 1)[l]
  {
    var u := t - 1;
    var prev := GoalieLoop(lines, goalies, u);
    var k := Turn(u);
    var q := u / 3;
    TurnServes(u, l);
    assert GoalieLoop(lines, goalies, t) == prev[k := prev[k] + [Goalie(Helpers.WrapIndex(q, goalies).value)]];
    if Turn(l) == u {
      assert l == k && q == l / 3;
    }
  }

  lemma {:induction false} GoalieLoopPartial(lines: seq<seq<Entry>>, goalies: nat, t: nat, l: nat)
    requires |lines| == LineCount && goalies > 0 && t <= LineCount && l < LineCount
    ensures GoalieLoop(lines, goalies, t)[l]
         == if Turn(l) < t then lines[l] + [Goalie((l / 3) % goalies)] else lines[l]
    decreases t
  {
    if t > 0 {
      GoalieLoopPartial(lines, goalies, t - 1, l);
      GoalieLoopStep(lines, goalies, t, l);
    }
  }

  /**
   * Every line keeps its stubs and gains exactly one goalie at the end: the goalie of its
   * period, `wrapIndex(period, goalies)`, so the goalies take the periods in turn.
   */
  lemma GoalieLoopMeaning(lines: seq<seq<Entry>>, goalies: nat, l: nat)
    requires |lines| == LineCount && goalies > 0 && l < LineCount
    ensures GoalieLoop(lines, goalies, LineCount)[l] == lines[l] + [Goalie((l / 3) % goalies)]
  {
    GoalieLoopPartial(lines, goalies, LineCount, l);
  }

  /** The template with its goalies; without a goalie `goalies[NaN].lines` throws. */
  function Base(fielders: nat, goalies: nat): (r: Result<seq<seq<Entry>>, Fault>)
    ensures r.Failure? <==> goalies == 0
    ensures r.Success? ==> |r.value| == LineCount
    ensures r.Success? ==> forall l :: 0 <= l < LineCount ==> |r.value[l]| == SlotsPerLine + 1
  {
    if goalies == 0 then Failure(TypeError)
    else
      GoalieLoopLengths(StubLines(fielders), goalies);
      Success(GoalieLoop(StubLines(fielders), goalies, LineCount))
  }

  lemma GoalieLoopLengths(lines: seq<seq<Entry>>, goalies: nat)
    requires |lines| == LineCount && goalies > 0
    requires forall l :: 0 <= l < LineCount ==> |lines[l]| == SlotsPerLine
    ensures forall l :: 0 <= l < LineCount ==> |GoalieLoop(lines, goalies, LineCount)[l]| == SlotsPerLine + 1
  {
    forall l | 0 <= l < LineCount ensures |GoalieLoop(lines, goalies, LineCount)[l]| == SlotsPerLine + 1 {
      GoalieLoopMeaning(lines, goalies, l);
    }
  }

  /** Line `l` of the base is the stubbed line followed by its period's goalie. */
  lemma BaseLine(fielders: nat, goalies: nat, l: nat)
    requires goalies > 0 && l < LineCount
    ensures Base(fielders, goalies).value[l] == StubLine(fielders, l) + [Goalie((l / 3) % goalies)]
  {
    GoalieLoopMeaning(StubLines(fielders), goalies, l);
  }

  // ---------------------------------------------------------------------------------------
  // The fill
  // ---------------------------------------------------------------------------------------

  /**
   * What a slot weighs in `scoreLine`: a player (an `object`) its skill; a placeholder
   * number or an empty slot nothing.
   */
  function Weight(fs: seq<int>, gs: seq<int>): Entry -> int {
    (e: Entry) =>
      match e
      case Fielder(k) => if k < |fs| then fs[k] else 0
      case Goalie(k) => if k < |gs| then gs[k] else 0
      case _ => 0
  }

  /** `scoreLine(line)`. */
  function Score(line: seq<Entry>, fs: seq<int>, gs: seq<int>): int {
    Seqs.SumOf(line, Weight(fs, gs))
  }

  /** `scoreLines(lines)`. */
  function Scores(lines: seq<seq<Entry>>, fs: seq<int>, gs: seq<int>): (r: seq<int>)
    ensures |r| == |lines| && forall l :: 0 <= l < |lines| ==> r[l] == Score(lines[l], fs, gs)
  {
    seq(|lines|, l requires 0 <= l < |lines| => Score(lines[l], fs, gs))
  }

  /** The first slot of `line` holding a placeholder number, or `|line|` when none does. */
  function FirstStub(line: seq<Entry>): (r: nat)
    ensures r <= |line|
    ensures r < |line| ==> line[r].Stub?
    ensures forall j :: 0 <= j < r ==> !line[j].Stub?
    decreases |line|
  {
    if |line| == 0 then 0 else if line[0].Stub? then 0 else 1 + FirstStub(line[1..])
  }

  /** The line still has a placeholder to hand out. */
  predicate Open(line: seq<Entry>) {
    FirstStub(line) < |line|
  }

  /** Every slot holding placeholder `v` is given to `e`; nothing else changes. */
  function Replace(lines: seq<seq<Entry>>, v: nat, e: Entry): (r: seq<seq<Entry>>)
    ensures |r| == |lines| && forall l :: 0 <= l < |lines| ==> |r[l]| == |lines[l]|
    ensures forall l, j :: 0 <= l < |lines| && 0 <= j < |lines[l]| ==>
      r[l][j] == if lines[l][j] == Stub(v) then e else lines[l][j]
  {
    seq(|lines|, l requires 0 <= l < |lines| =>
      seq(|lines[l]|, j requires 0 <= j < |lines[l]| => if lines[l][j] == Stub(v) then e else lines[l][j]))
  }

  /**
   * One turn of the fill loop as written: the first line with the smallest score is picked
   * whatever it holds, and its first placeholder (if it has one) goes to fielder `k`. A
   * line already full of players has no placeholder left, and then nothing is replaced.
   */
  function StepAsWritten(lines: seq<seq<Entry>>, fs: seq<int>, gs: seq<int>, k: nat): (r: seq<seq<Entry>>)
    requires |lines| == LineCount
    ensures |r| == LineCount && forall l :: 0 <= l < LineCount ==> |r[l]| == |lines[l]|
  {
    var l := Helpers.MinimumIndex(Scores(lines, fs, gs));
    var p := FirstStub(lines[l]);
    if p < |lines[l]| then Replace(lines, lines[l][p].v, Fielder(k)) else lines
  }

  /** The fill loop as written, from fielder `k` to the last. */
  function FillAsWritten(lines: seq<seq<Entry>>, fs: seq<int>, gs: seq<int>, k: nat): (r: seq<seq<Entry>>)
    requires |lines| == LineCount
    ensures |r| == LineCount && forall l :: 0 <= l < LineCount ==> |r[l]| == |lines[l]|
    decreases |fs| - k
  {
    if k >= |fs| then lines else FillAsWritten(StepAsWritten(lines, fs, gs, k), fs, gs, k + 1)
  }

  /**
   * Among the first `m` lines, the first of the smallest score among those that still have a
   * placeholder; none when no line has one.
   */
  function BestOpen(lines: seq<seq<Entry>>, fs: seq<int>, gs: seq<int>, m: nat): (r: Option<nat>)
    requires m <= |lines|
    ensures r.None? <==> forall l :: 0 <= l < m ==> !Open(lines[l])
    ensures r.Some? ==> r.value < m && Open(lines[r.value])
    ensures r.Some? ==> forall l :: 0 <= l < m && Open(lines[l]) ==> Score(lines[r.value], fs, gs) <= Score(lines[l], fs, gs)
    ensures r.Some? ==> forall l :: 0 <= l < r.value && Open(lines[l]) ==> Score(lines[r.value], fs, gs) < Score(lines[l], fs, gs)
    decreases m
  {
    if m == 0 then None
    else
      var prev := BestOpen(lines, fs, gs, m - 1);
      if !Open(lines[m - 1]) then prev
      else if prev.Some? && Score(lines[prev.value], fs, gs) <= Score(lines[m - 1], fs, gs) then prev
      else Some(m - 1)
  }

  /**
   * One turn of the corrected fill: the line is chosen among those that still have a
   * placeholder, so a fielder is only passed over when no placeholder is left anywhere.
   */
  function Step(lines: seq<seq<Entry>>, fs: seq<int>, gs: seq<int>, k: nat): (r: seq<seq<Entry>>)
    requires |lines| == LineCount
    ensures |r| == LineCount && forall l :: 0 <= l < LineCount ==> |r[l]| == |lines[l]|
  {
    match BestOpen(lines, fs, gs, LineCount)
    case None => lines
    case Some(l) => Replace(lines, lines[l][FirstStub(lines[l])].v, Fielder(k))
  }

  /** The corrected fill loop, from fielder `k` to the last. */
  function Fill(lines: seq<seq<Entry>>, fs: seq<int>, gs: seq<int>, k: nat): (r: seq<seq<Entry>>)
    requires |lines| == LineCount
    ensures |r| == LineCount && forall l :: 0 <= l < LineCount ==> |r[l]| == |lines[l]|
    decreases |fs| - k
  {
    if k >= |fs| then lines else Fill(Step(lines, fs, gs, k), fs, gs, k + 1)
  }

  /** Stub lines, goalies, then the fill as written: the lines of `determineLineup`. */
  function BuildAsWritten(fs: seq<int>, gs: seq<int>): (r: Result<seq<seq<Entry>>, Fault>)
    ensures r.Failure? <==> |gs| == 0
    ensures r.Success? ==> |r.value| == LineCount
    ensures r.Success? ==> forall l :: 0 <= l < LineCount ==> |r.value[l]| == SlotsPerLine + 1
  {
    match Base(|fs|, |gs|)
    case Failure(e) => Failure(e)
    case Success(base) => Success(FillAsWritten(base, fs, gs, 0))
  }

  /** The same with the corrected fill. */
  function Build(fs: seq<int>, gs: seq<int>): (r: Result<seq<seq<Entry>>, Fault>)
    ensures r.Failure? <==> |gs| == 0
    ensures r.Success? ==> |r.value| == LineCount
    ensures r.Success? ==> forall l :: 0 <= l < LineCount ==> |r.value[l]| == SlotsPerLine + 1
  {
    match Base(|fs|, |gs|)
    case Failure(e) => Failure(e)
    case Success(base) => Success(Fill(base, fs, gs, 0))
  }

  // ---------------------------------------------------------------------------------------
  // Placeholders handed to fielders
  // ---------------------------------------------------------------------------------------

  /** Slot `e` once the placeholders with an owner (`owner[v] >= 0`) went to their fielders. */
  function Assign(e: Entry, owner: seq<int>): Entry {
    match e
    case Stub(v) => if v < |owner| && owner[v] >= 0 then Fielder(owner[v]) else e
    case _ => e
  }

  function AssignLine(line: seq<Entry>, owner: seq<int>): (r: seq<Entry>)
    ensures |r| == |line| && forall j :: 0 <= j < |line| ==> r[j] == Assign(line[j], owner)
  {
    seq(|line|, j requires 0 <= j < |line| => Assign(line[j], owner))
  }

  /** The template with every owned placeholder handed over. */
  function Assigned(base: seq<seq<Entry>>, owner: seq<int>): (r: seq<seq<Entry>>)
    ensures |r| == |base| && forall l :: 0 <= l < |base| ==> r[l] == AssignLine(base[l], owner)
  {
    seq(|base|, l requires 0 <= l < |base| => AssignLine(base[l], owner))
  }

  /** Nine lines of placeholders below `m` and goalies. */
  predicate Template(base: seq<seq<Entry>>, m: nat) {
    |base| == LineCount
    && forall l, j :: 0 <= l < LineCount && 0 <= j < |base[l]| ==>
      (base[l][j].Stub? && base[l][j].v < m) || base[l][j].Goalie?
  }

  /** Owners are fielders below `k`, and no fielder owns two placeholders. */
  predicate Owners(owner: seq<int>, k: nat) {
    (forall v :: 0 <= v < |owner| ==> owner[v] < k)
    && (forall v, w :: 0 <= v < |owner| && 0 <= w < |owner| && owner[v] >= 0 && owner[v] == owner[w] ==> v == w)
  }

  /** Which placeholders have an owner. */
  function Taken(owner: seq<int>): (r: seq<bool>)
    ensures |r| == |owner| && forall v :: 0 <= v < |owner| ==> r[v] == (owner[v] >= 0)
  {
    seq(|owner|, v requires 0 <= v < |owner| => owner[v] >= 0)
  }

  /** Fielder `j` owns a placeholder. */
  predicate Serves(owner: seq<int>, j: nat) {
    exists v :: 0 <= v < |owner| && owner[v] == j
  }

  /** Handing placeholder `v` to fielder `k` is one replacement over the lines. */
  lemma ReplaceAssigned(base: seq<seq<Entry>>, owner: seq<int>, v: nat, k: nat)
    requires Template(base, |owner|) && v < |owner| && owner[v] < 0
    ensures Replace(Assigned(base, owner), v, Fielder(k)) == Assigned(base, owner[v := k])
  {
    var a := Assigned(base, owner);
    var r := Replace(a, v, Fielder(k));
    var b := Assigned(base, owner[v := k]);
    forall l | 0 <= l < LineCount ensures r[l] == b[l] {
      forall j | 0 <= j < |base[l]| ensures r[l][j] == b[l][j] {
        assert a[l][j] == Assign(base[l][j], owner);
      }
    }
  }

  /** A placeholder still in the lines has no owner yet. */
  lemma OpenUnowned(base: seq<seq<Entry>>, owner: seq<int>, l: nat) returns (v: nat)
    requires Template(base, |owner|) && l < LineCount && Open(Assigned(base, owner)[l])
    ensures v == Assigned(base, owner)[l][FirstStub(Assigned(base, owner)[l])].v
    ensures v < |owner| && owner[v] < 0
  {
    var line := Assigned(base, owner)[l];
    var p := FirstStub(line);
    assert line[p] == Assign(base[l][p], owner);
    v := line[p].v;
  }

  /** A placeholder nobody owns yet, and that the template holds, leaves its line open. */
  lemma UnownedOpen(base: seq<seq<Entry>>, owner: seq<int>, v: nat, l: nat)
    requires Template(base, |owner|) && l < LineCount && v < |owner| && owner[v] < 0
    requires Stub(v) in base[l]
    ensures Open(Assigned(base, owner)[l])
  {
    var j :| 0 <= j < |base[l]| && base[l][j] == Stub(v);
    assert Assigned(base, owner)[l][j] == Stub(v);
  }

  lemma {:induction false} OccPositive(lines: seq<seq<Entry>>, e: Entry) returns (l: nat)
    requires Occ(lines, e) > 0
    ensures l < |lines| && e in lines[l]
    decreases |lines|
  {
    if e in multiset(lines[0]) {
      l := 0;
    } else {
      var l' := OccPositive(lines[1..], e);
      l := l' + 1;
    }
  }

  /** Every placeholder below `m` is somewhere in the template. */
  predicate Covers(base: seq<seq<Entry>>, m: nat) {
    forall v: nat :: v < m ==> Occ(base, Stub(v)) > 0
  }

  function Min(a: nat, b: nat): nat {
    if a < b then a else b
  }

  /** Some line is open while a placeholder of the template has no owner. */
  lemma SomeOpen(base: seq<seq<Entry>>, owner: seq<int>, v: nat)
    requires Template(base, |owner|) && Covers(base, |owner|) && v < |owner| && owner[v] < 0
    ensures exists l :: 0 <= l < LineCount && Open(Assigned(base, owner)[l])
  {
    var l := OccPositive(base, Stub(v));
    UnownedOpen(base, owner, v, l);
  }

  /** Once every placeholder has an owner, no line is open. */
  lemma NoneOpen(base: seq<seq<Entry>>, owner: seq<int>, l: nat)
    requires Template(base, |owner|) && l < LineCount
    requires forall v :: 0 <= v < |owner| ==> owner[v] >= 0
    ensures !Open(Assigned(base, owner)[l])
  {
    var line := Assigned(base, owner)[l];
    if Open(line) {
      assert false;
    }
  }

  /** Handing a fresh placeholder to fielder `k` keeps the owners apart and counts one more. */
  lemma HandOver(owner: seq<int>, v: nat, k: nat)
    requires Owners(owner, k) && v < |owner| && owner[v] < 0
    ensures Owners(owner[v := k], k + 1)
    ensures Tally.CountTrue(Taken(owner[v := k])) == Tally.CountTrue(Taken(owner)) + 1
    ensures Serves(owner[v := k], k)
    ensures forall j :: Serves(owner, j) ==> Serves(owner[v := k], j)
  {
    var o := owner[v := k];
    assert Taken(o) == Taken(owner)[v := true];
    Tally.CountTrueSet(Taken(owner), v);
    forall j | Serves(owner, j) ensures Serves(o, j) {
      var w :| 0 <= w < |owner| && owner[w] == j;
      assert o[w] == j;
    }
    assert o[v] == k;
  }

  /** A turn of the corrected fill on handed-over lines hands over at most one placeholder. */
  lemma StepOwners(base: seq<seq<Entry>>, owner: seq<int>, fs: seq<int>, gs: seq<int>, k: nat) returns (next: seq<int>)
    requires Template(base, |owner|) && Owners(owner, k)
    ensures |next| == |owner| && Owners(next, k + 1)
    ensures Step(Assigned(base, owner), fs, gs, k) == Assigned(base, next)
    ensures (exists l :: 0 <= l < LineCount && Open(Assigned(base, owner)[l])) ==>
      Tally.CountTrue(Taken(next)) == Tally.CountTrue(Taken(owner)) + 1 && Serves(next, k)
    ensures (forall l :: 0 <= l < LineCount ==> !Open(Assigned(base, owner)[l])) ==> next == owner
    ensures forall j :: Serves(owner, j) ==> Serves(next, j)
  {
    var lines := Assigned(base, owner);
    match BestOpen(lines, fs, gs, LineCount)
    case None =>
      next := owner;
    case Some(l) =>
      var v := OpenUnowned(base, owner, l);
      ReplaceAssigned(base, owner, v, k);
      HandOver(owner, v, k);
      next := owner[v := k];
  }

  /** A turn of the fill as written also hands over at most one placeholder. */
  lemma StepAsWrittenOwners(base: seq<seq<Entry>>, owner: seq<int>, fs: seq<int>, gs: seq<int>, k: nat) returns (next: seq<int>)
    requires Template(base, |owner|) && Owners(owner, k)
    ensures |next| == |owner| && Owners(next, k + 1)
    ensures StepAsWritten(Assigned(base, owner), fs, gs, k) == Assigned(base, next)
  {
    var lines := Assigned(base, owner);
    var l := Helpers.MinimumIndex(Scores(lines, fs, gs));
    if Open(lines[l]) {
      var v := OpenUnowned(base, owner, l);
      assert Owners(owner[v := k], k + 1) by {
        HandOver(owner, v, k);
      }
      ReplaceAssigned(base, owner, v, k);
      next := owner[v := k];
    } else {
      next := owner;
    }
  }

  /**
   * After `k` turns of the corrected fill: the first `min(k, m)` fielders own one
   * placeholder each, and nobody else owns one.
   */
  predicate Handed(base: seq<seq<Entry>>, owner: seq<int>, k: nat) {
    Template(base, |owner|) && Covers(base, |owner|) && Owners(owner, k)
    && Tally.CountTrue(Taken(owner)) == Min(k, |owner|)
    && forall j :: 0 <= j < Min(k, |owner|) ==> Serves(owner, j)
  }

  /** One corrected turn keeps `Handed`: an open line exists exactly while placeholders remain. */
  lemma FillTurn(base: seq<seq<Entry>>, owner: seq<int>, fs: seq<int>, gs: seq<int>, k: nat) returns (next: seq<int>)
    requires Handed(base, owner, k)
    ensures |next| == |owner| && Handed(base, next, k + 1)
    ensures Step(Assigned(base, owner), fs, gs, k) == Assigned(base, next)
  {
    next := StepOwners(base, owner, fs, gs, k);
    if Tally.CountTrue(Taken(owner)) < |owner| {
      var v :| 0 <= v < |owner| && !Taken(owner)[v];
      SomeOpen(base, owner, v);
    } else {
      forall l | 0 <= l < LineCount ensures !Open(Assigned(base, owner)[l]) {
        NoneOpen(base, owner, l);
      }
    }
  }

  /**
   * The corrected fill hands out the placeholders one per fielder, in fielder order, until
   * fielders or placeholders run out.
   */
  lemma {:induction false} FillOwners(base: seq<seq<Entry>>, owner: seq<int>, fs: seq<int>, gs: seq<int>, k: nat)
    returns (final: seq<int>)
    requires Handed(base, owner, k) && k <= |fs|
    ensures |final| == |owner| && Handed(base, final, |fs|)
    ensures Fill(Assigned(base, owner), fs, gs, k) == Assigned(base, final)
    decreases |fs| - k
  {
    if k == |fs| {
      final := owner;
    } else {
      var next := FillTurn(base, owner, fs, gs, k);
      final := FillOwners(base, next, fs, gs, k + 1);
    }
  }

  /** The fill as written hands out at most one placeholder per fielder. */
  lemma {:induction false} FillAsWrittenOwners(base: seq<seq<Entry>>, owner: seq<int>, fs: seq<int>, gs: seq<int>, k: nat)
    returns (final: seq<int>)
    requires Template(base, |owner|) && Owners(owner, k)
    ensures |final| == |owner| && Owners(final, if k < |fs| then |fs| else k)
    ensures FillAsWritten(Assigned(base, owner), fs, gs, k) == Assigned(base, final)
    decreases |fs| - k
  {
    if k >= |fs| {
      final := owner;
    } else {
      var next := StepAsWrittenOwners(base, owner, fs, gs, k);
      final := FillAsWrittenOwners(base, next, fs, gs, k + 1);
    }
  }

  // ---------------------------------------------------------------------------------------
  // What the fill achieves
  // ---------------------------------------------------------------------------------------

  lemma ModBound(x: nat, n: nat)
    requires n > 0
    ensures x % n <= x && x % n < n
  {
    if x < n {
      DivModOf(x, n, 0, x);
    }
  }

  /** Every placeholder a window hands out is below the fielder count and below 45. */
  lemma WindowBound(n: nat, l: nat, i: nat)
    requires n > 0 && l < LineCount && i < SlotsPerLine
    ensures Window(n, l)[i] < Min(n, SlotCount)
  {
    var x := SlotsPerLine * l + i;
    Helpers.WrapIndexLaws(x, n);
    ModBound(x, n);
  }

  /** Every placeholder of a stubbed line is below the fielder count and below 45. */
  lemma StubLineBound(n: nat, l: nat, j: nat)
    requires n > 0 && l < LineCount && j < SlotsPerLine
    ensures StubLine(n, l)[j].Stub? && StubLine(n, l)[j].v < Min(n, SlotCount)
  {
    var w := Window(n, l);
    var s := Sorting.SortBy(w, Id);
    assert s[j] in multiset(w);
    var i :| 0 <= i < |w| && w[i] == s[j];
    WindowBound(n, l, i);
  }

  /** The base is a template over `min(fielders, 45)` placeholders. */
  lemma TemplateBase(fielders: nat, goalies: nat)
    requires fielders > 0 && goalies > 0
    ensures Template(Base(fielders, goalies).value, Min(fielders, SlotCount))
  {
    var base: seq<seq<Entry>> := Base(fielders, goalies).value;
    forall l, j | 0 <= l < LineCount && 0 <= j < |base[l]|
      ensures (base[l][j].Stub? && base[l][j].v < Min(fielders, SlotCount)) || base[l][j].Goalie?
    {
      BaseLine(fielders, goalies, l);
      if j < SlotsPerLine {
        StubLineBound(fielders, l, j);
      }
    }
  }

  lemma {:induction false} OccSame(a: seq<seq<Entry>>, b: seq<seq<Entry>>, e: Entry)
    requires |a| == |b| && forall l :: 0 <= l < |a| ==> multiset(a[l])[e] == multiset(b[l])[e]
    ensures Occ(a, e) == Occ(b, e)
    decreases |a|
  {
    if |a| > 0 {
      assert forall l :: 0 <= l < |a| - 1 ==> a[1..][l] == a[l + 1] && b[1..][l] == b[l + 1];
      OccSame(a[1..], b[1..], e);
    }
  }

  /** Apart from the goalies, the base holds what the template holds. */
  lemma BaseOcc(fielders: nat, goalies: nat, e: Entry)
    requires goalies > 0 && !e.Goalie?
    ensures Occ(Base(fielders, goalies).value, e) == Occ(StubLines(fielders), e)
  {
    var base: seq<seq<Entry>> := Base(fielders, goalies).value;
    forall l | 0 <= l < LineCount ensures multiset(base[l])[e] == multiset(StubLines(fielders)[l])[e] {
      BaseLine(fielders, goalies, l);
    }
    OccSame(base, StubLines(fielders), e);
  }

  lemma SharePositive(n: nat, v: nat)
    requires n > 0 && v < Min(n, SlotCount)
    ensures SlotCount / n + (if v < SlotCount % n then 1 else 0) > 0
  {
    if n > SlotCount {
      DivModOf(SlotCount, n, 0, SlotCount);
    } else {
      var q, r := SlotCount / n, SlotCount % n;
      assert SlotCount == q * n + r;
    }
  }

  /** Every placeholder below `min(fielders, 45)` is in the base. */
  lemma CoversBase(fielders: nat, goalies: nat)
    requires fielders > 0 && goalies > 0
    ensures Covers(Base(fielders, goalies).value, Min(fielders, SlotCount))
  {
    forall v: nat | v < Min(fielders, SlotCount)
      ensures Occ(Base(fielders, goalies).value, Stub(v)) > 0
    {
      BaseOcc(fielders, goalies, Stub(v));
      StubLinesCount(fielders, Stub(v));
      SharePositive(fielders, v);
    }
  }

  /** Nobody owns anything yet. */
  function NoOwners(m: nat): (r: seq<int>)
    ensures |r| == m && forall v :: 0 <= v < m ==> r[v] == -1
  {
    seq(m, _ => -1)
  }

  lemma AssignedNone(base: seq<seq<Entry>>, m: nat)
    requires Template(base, m)
    ensures Assigned(base, NoOwners(m)) == base
  {
    var a := Assigned(base, NoOwners(m));
    forall l | 0 <= l < LineCount ensures a[l] == base[l] {
      assert forall j :: 0 <= j < |base[l]| ==> a[l][j] == base[l][j];
    }
  }

  lemma HandedStart(base: seq<seq<Entry>>, m: nat)
    requires Template(base, m) && Covers(base, m)
    ensures Handed(base, NoOwners(m), 0)
  {
    assert Tally.CountTrue(Taken(NoOwners(m))) == 0;
  }

  /**
   * The corrected lines are the base with every placeholder below `min(fielders, 45)` handed
   * to one fielder, fielders and placeholders matched one to one as far as both go.
   */
  lemma BuildHandsOut(fs: seq<int>, gs: seq<int>) returns (owner: seq<int>)
    requires 0 < |fs| && 0 < |gs|
    ensures |owner| == Min(|fs|, SlotCount) && Owners(owner, |fs|)
    ensures Template(Base(|fs|, |gs|).value, |owner|)
    ensures forall v :: 0 <= v < |owner| ==> 0 <= owner[v] < |fs|
    ensures forall j :: 0 <= j < |owner| ==> Serves(owner, j)
    ensures Build(fs, gs).value == Assigned(Base(|fs|, |gs|).value, owner)
  {
    var m := Min(|fs|, SlotCount);
    var base: seq<seq<Entry>> := Base(|fs|, |gs|).value;
    TemplateBase(|fs|, |gs|);
    CoversBase(|fs|, |gs|);
    AssignedNone(base, m);
    HandedStart(base, m);
    owner := FillOwners(base, NoOwners(m), fs, gs, 0);
    HandedAll(base, owner, |fs|);
  }

  /**
   * With at least one fielder and one goalie, every line ends up with five fielders from the
   * roster (no placeholder is left) followed by the goalie of its period.
   */
  lemma BuildLineShape(fs: seq<int>, gs: seq<int>, l: nat)
    requires 0 < |fs| && 0 < |gs| && l < LineCount
    ensures var line := Build(fs, gs).value[l];
      && |line| == SlotsPerLine + 1
      && line[SlotsPerLine] == Goalie((l / 3) % |gs|)
      && forall j :: 0 <= j < SlotsPerLine ==> line[j].Fielder? && line[j].k < |fs|
  {
    var owner := BuildHandsOut(fs, gs);
    var base: seq<seq<Entry>> := Base(|fs|, |gs|).value;
    BaseLineStubs(|fs|, |gs|, l);
    AssignedShape(base, owner, |fs|, l, Goalie((l / 3) % |gs|));
  }

  lemma AssignedShape(base: seq<seq<Entry>>, owner: seq<int>, b: nat, l: nat, g: Entry)
    requires Template(base, |owner|) && l < LineCount
    requires forall v :: 0 <= v < |owner| ==> 0 <= owner[v] < b
    requires |base[l]| == SlotsPerLine + 1 && base[l][SlotsPerLine] == g && g.Goalie?
    requires forall j :: 0 <= j < SlotsPerLine ==> base[l][j].Stub?
    ensures var line := Assigned(base, owner)[l];
      && |line| == SlotsPerLine + 1
      && line[SlotsPerLine] == g
      && forall j :: 0 <= j < SlotsPerLine ==> line[j].Fielder? && line[j].k < b
  {
    AssignedLine(base, owner, b, l);
  }

  /** Line `l` of the base: five placeholders, then the goalie of its period. */
  lemma BaseLineStubs(fielders: nat, goalies: nat, l: nat)
    requires 0 < fielders && 0 < goalies && l < LineCount
    ensures |Base(fielders, goalies).value[l]| == SlotsPerLine + 1
    ensures Base(fielders, goalies).value[l][SlotsPerLine] == Goalie((l / 3) % goalies)
    ensures forall j :: 0 <= j < SlotsPerLine ==> Base(fielders, goalies).value[l][j].Stub?
  {
    BaseLine(fielders, goalies, l);
  }

  /** With every placeholder owned, each placeholder slot shows a fielder; goalies stay. */
  lemma AssignedLine(base: seq<seq<Entry>>, owner: seq<int>, b: nat, l: nat)
    requires Template(base, |owner|) && l < LineCount
    requires forall v :: 0 <= v < |owner| ==> 0 <= owner[v] < b
    ensures |Assigned(base, owner)[l]| == |base[l]|
    ensures forall j :: 0 <= j < |base[l]| && base[l][j].Stub? ==>
      Assigned(base, owner)[l][j].Fielder? && Assigned(base, owner)[l][j].k < b
    ensures forall j :: 0 <= j < |base[l]| && base[l][j].Goalie? ==> Assigned(base, owner)[l][j] == base[l][j]
  {
  }

  /** Once the fielders are at least as many as the placeholders, every placeholder is owned. */
  lemma HandedAll(base: seq<seq<Entry>>, owner: seq<int>, k: nat)
    requires Handed(base, owner, k) && |owner| <= k
    ensures forall v :: 0 <= v < |owner| ==> 0 <= owner[v] < k
  {
    assert forall v :: 0 <= v < |owner| ==> Taken(owner)[v];
  }

  /** A slot shows fielder `k` exactly where the template held `k`'s placeholder. */
  lemma {:induction false} AssignLineCount(line: seq<Entry>, owner: seq<int>, b: nat, v: nat, k: nat)
    requires Owners(owner, b) && v < |owner| && owner[v] == k
    requires forall j :: 0 <= j < |line| ==> (line[j].Stub? && line[j].v < |owner|) || line[j].Goalie?
    ensures multiset(AssignLine(line, owner))[Fielder(k)] == multiset(line)[Stub(v)]
    decreases |line|
  {
    if |line| > 0 {
      var head := Assign(line[0], owner);
      var rest := AssignLine(line[1..], owner);
      assert AssignLine(line, owner) == [head] + rest;
      assert line == [line[0]] + line[1..];
      AssignLineCount(line[1..], owner, b, v, k);
      AssignHead(line[0], owner, b, v, k);
      assert multiset([head] + rest)[Fielder(k)] == multiset([head])[Fielder(k)] + multiset(rest)[Fielder(k)];
      assert multiset([line[0]] + line[1..])[Stub(v)] == multiset([line[0]])[Stub(v)] + multiset(line[1..])[Stub(v)];
    }
  }

  /** Fielder `k` shows in a slot exactly where the template held `k`'s placeholder. */
  lemma AssignHead(e: Entry, owner: seq<int>, b: nat, v: nat, k: nat)
    requires Owners(owner, b) && v < |owner| && owner[v] == k
    requires (e.Stub? && e.v < |owner|) || e.Goalie?
    ensures (Assign(e, owner) == Fielder(k)) <==> (e == Stub(v))
  {
  }

  /** A fielder without a placeholder shows up nowhere. */
  lemma {:induction false} AssignLineNone(line: seq<Entry>, owner: seq<int>, k: nat)
    requires !Serves(owner, k)
    requires forall j :: 0 <= j < |line| ==> (line[j].Stub? && line[j].v < |owner|) || line[j].Goalie?
    ensures multiset(AssignLine(line, owner))[Fielder(k)] == 0
    decreases |line|
  {
    if |line| > 0 {
      assert AssignLine(line, owner) == [Assign(line[0], owner)] + AssignLine(line[1..], owner);
      AssignLineNone(line[1..], owner, k);
    }
  }

  /** Fielder `k`, owner of placeholder `v`, takes exactly the slots `v` had. */
  lemma OccAssigned(base: seq<seq<Entry>>, owner: seq<int>, b: nat, v: nat, k: nat)
    requires Template(base, |owner|) && Owners(owner, b) && v < |owner| && owner[v] == k
    ensures Occ(Assigned(base, owner), Fielder(k)) == Occ(base, Stub(v))
  {
    var a := Assigned(base, owner);
    forall l | 0 <= l < LineCount ensures multiset(a[l])[Fielder(k)] == multiset(base[l])[Stub(v)] {
      AssignLineCount(base[l], owner, b, v, k);
    }
    OccSameMapped(a, base, Fielder(k), Stub(v));
  }

  lemma {:induction false} OccSameMapped(a: seq<seq<Entry>>, b: seq<seq<Entry>>, e: Entry, d: Entry)
    requires |a| == |b| && forall l :: 0 <= l < |a| ==> multiset(a[l])[e] == multiset(b[l])[d]
    ensures Occ(a, e) == Occ(b, d)
    decreases |a|
  {
    if |a| > 0 {
      assert forall l :: 0 <= l < |a| - 1 ==> a[1..][l] == a[l + 1] && b[1..][l] == b[l + 1];
      OccSameMapped(a[1..], b[1..], e, d);
    }
  }

  lemma {:induction false} OccZero(a: seq<seq<Entry>>, e: Entry)
    requires forall l :: 0 <= l < |a| ==> multiset(a[l])[e] == 0
    ensures Occ(a, e) == 0
    decreases |a|
  {
    if |a| > 0 {
      assert forall l :: 0 <= l < |a| - 1 ==> a[1..][l] == a[l + 1];
      OccZero(a[1..], e);
    }
  }

  /**
   * The equal-play promise of the corrected fill: with 1 to 45 fielders, each fielder fills
   * `45 / F` or `45 / F + 1` of the 45 fielder slots, so no two differ by more than one.
   */
  lemma BuildEqualPlay(fs: seq<int>, gs: seq<int>, k: nat)
    requires 0 < |fs| <= SlotCount && 0 < |gs| && k < |fs|
    ensures SlotCount / |fs| <= Occ(Build(fs, gs).value, Fielder(k)) <= SlotCount / |fs| + 1
  {
    var owner := BuildHandsOut(fs, gs);
    var base: seq<seq<Entry>> := Base(|fs|, |gs|).value;
    assert Serves(owner, k);
    var v :| 0 <= v < |owner| && owner[v] == k;
    OccAssigned(base, owner, |fs|, v, k);
    BaseOcc(|fs|, |gs|, Stub(v));
    StubLinesCount(|fs|, Stub(v));
  }

  /**
   * The fill as written only ever hands whole placeholders to fielders: each fielder fills
   * the slots of one placeholder (`45 / F` or `45 / F + 1` of them) or none at all, and the
   * goalies keep the end of their lines.
   */
  lemma AsWrittenPlay(fs: seq<int>, gs: seq<int>, k: nat)
    requires 0 < |fs| <= SlotCount && 0 < |gs|
    ensures var n := Occ(BuildAsWritten(fs, gs).value, Fielder(k));
      n == 0 || SlotCount / |fs| <= n <= SlotCount / |fs| + 1
  {
    var base: seq<seq<Entry>> := Base(|fs|, |gs|).value;
    var m := Min(|fs|, SlotCount);
    TemplateBase(|fs|, |gs|);
    AssignedNone(base, m);
    var owner := FillAsWrittenOwners(base, NoOwners(m), fs, gs, 0);
    var lines: seq<seq<Entry>> := BuildAsWritten(fs, gs).value;
    if Serves(owner, k) {
      var v :| 0 <= v < |owner| && owner[v] == k;
      OccAssigned(base, owner, |fs|, v, k);
      BaseOcc(|fs|, |gs|, Stub(v));
      StubLinesCount(|fs|, Stub(v));
    } else {
      OccUnserved(base, owner, k);
    }
  }

  /** A fielder who owns no placeholder plays no line. */
  lemma OccUnserved(base: seq<seq<Entry>>, owner: seq<int>, k: nat)
    requires Template(base, |owner|) && !Serves(owner, k)
    ensures Occ(Assigned(base, owner), Fielder(k)) == 0
  {
    var lines := Assigned(base, owner);
    forall l | 0 <= l < LineCount ensures multiset(lines[l])[Fielder(k)] == 0 {
      AssignLineNone(base[l], owner, k);
    }
    OccZero(lines, Fielder(k));
  }

  /** The goalies keep the end of their lines under the fill as written too. */
  lemma AsWrittenGoalies(fs: seq<int>, gs: seq<int>, l: nat)
    requires 0 < |fs| && 0 < |gs| && l < LineCount
    ensures |BuildAsWritten(fs, gs).value[l]| == SlotsPerLine + 1
    ensures BuildAsWritten(fs, gs).value[l][SlotsPerLine] == Goalie((l / 3) % |gs|)
  {
    var base: seq<seq<Entry>> := Base(|fs|, |gs|).value;
    var m := Min(|fs|, SlotCount);
    TemplateBase(|fs|, |gs|);
    AssignedNone(base, m);
    var owner := FillAsWrittenOwners(base, NoOwners(m), fs, gs, 0);
    BaseLine(|fs|, |gs|, l);
    assert BuildAsWritten(fs, gs).value[l][SlotsPerLine] == Assign(base[l][SlotsPerLine], owner);
  }

  /**
   * The fill as written only ever overwrites placeholders, and only with fielders of the
   * roster: a player once placed, and every goalie, keeps the slot.
   */
  lemma AsWrittenOnlyStubs(fs: seq<int>, gs: seq<int>, l: nat, j: nat)
    requires 0 < |fs| && 0 < |gs| && l < LineCount && j < SlotsPerLine + 1
    ensures var b := Base(|fs|, |gs|).value[l][j];
      var e := BuildAsWritten(fs, gs).value[l][j];
      e == b || (b.Stub? && e.Fielder? && e.k < |fs|)
  {
    var base: seq<seq<Entry>> := Base(|fs|, |gs|).value;
    var m := Min(|fs|, SlotCount);
    TemplateBase(|fs|, |gs|);
    AssignedNone(base, m);
    var owner := FillAsWrittenOwners(base, NoOwners(m), fs, gs, 0);
    assert BuildAsWritten(fs, gs).value[l][j] == Assign(base[l][j], owner);
  }

  /** Without fielders nothing is filled: the lines are the template's empty slots and goalies. */
  lemma NoFielders(fs: seq<int>, gs: seq<int>, l: nat)
    requires |fs| == 0 && 0 < |gs| && l < LineCount
    ensures Build(fs, gs).value[l] == BuildAsWritten(fs, gs).value[l]
         == seq(SlotsPerLine, _ => Hole) + [Goalie((l / 3) % |gs|)]
  {
    BaseLine(|fs|, |gs|, l);
  }

  /** Only the last slot of a line holds a goalie, in either fill. */
  lemma GoalieSlots(fs: seq<int>, gs: seq<int>, l: nat, j: nat)
    requires 0 < |gs| && l < LineCount && j < SlotsPerLine + 1
    ensures var g := Goalie((l / 3) % |gs|);
      && (Build(fs, gs).value[l][j].Goalie? <==> j == SlotsPerLine)
      && (BuildAsWritten(fs, gs).value[l][j].Goalie? <==> j == SlotsPerLine)
      && Build(fs, gs).value[l][SlotsPerLine] == g
      && BuildAsWritten(fs, gs).value[l][SlotsPerLine] == g
  {
    if |fs| == 0 {
      NoFielders(fs, gs, l);
    } else {
      BuildLineShape(fs, gs, l);
      AsWrittenGoalies(fs, gs, l);
      BaseLineStubs(|fs|, |gs|, l);
      AsWrittenOnlyStubs(fs, gs, l, j);
    }
  }

  /** A line holds the goalie of its period and no other, in either fill. */
  lemma GoalieOnLine(line: seq<Entry>, fs: seq<int>, gs: seq<int>, k: nat, l: nat, corrected: bool)
    requires 0 < |gs| && l < LineCount
    requires line == if corrected then Build(fs, gs).value[l] else BuildAsWritten(fs, gs).value[l]
    ensures Goalie(k) in line <==> k == (l / 3) % |gs|
  {
    if Goalie(k) in line {
      var j :| 0 <= j < |line| && line[j] == Goalie(k);
      GoalieSlots(fs, gs, l, j);
    } else {
      GoalieSlots(fs, gs, l, SlotsPerLine);
    }
  }

  // ---------------------------------------------------------------------------------------
  // A placeholder left behind by the fill as written
  // ---------------------------------------------------------------------------------------

  /** Everybody's skill is zero. */
  predicate Unskilled(fs: seq<int>, gs: seq<int>) {
    (forall k :: 0 <= k < |fs| ==> fs[k] == 0) && (forall k :: 0 <= k < |gs| ==> gs[k] == 0)
  }

  /** With no skill anywhere every line scores zero, so the fill always picks line 0. */
  lemma UnskilledPicksFirst(lines: seq<seq<Entry>>, fs: seq<int>, gs: seq<int>)
    requires Unskilled(fs, gs) && |lines| == LineCount
    ensures Helpers.MinimumIndex(Scores(lines, fs, gs)) == 0
  {
    var scores := Scores(lines, fs, gs);
    forall l | 0 <= l < LineCount ensures scores[l] == 0 {
      Seqs.SumOfZero(lines[l], Weight(fs, gs));
    }
    Helpers.MinimumIndexUnique(scores, 0);
  }

  /** The first `k` of six placeholders handed to fielders `0 .. k - 1`. */
  function FirstOwners(k: nat): (r: seq<int>)
    ensures |r| == 6 && forall v :: 0 <= v < 6 ==> r[v] == if v < k then v else -1
  {
    seq(6, v requires 0 <= v < 6 => if v < k then v else -1)
  }

  /** The first two lines of the base for six fielders and one goalie. */
  lemma SixOneBase(n: nat, g: nat)
    requires n == 6 && g == 1
    ensures Base(n, g).value[0] == Stubs([0, 1, 2, 3, 4]) + [Goalie(0)]
    ensures Base(n, g).value[1] == Stubs([0, 1, 2, 3, 5]) + [Goalie(0)]
  {
    var s0: seq<nat> := [0, 1, 2, 3, 4];
    var s1: seq<nat> := [0, 1, 2, 3, 5];
    SixWindows(n);
    SixSorted();
    var w := Window(n, 1);
    RotateMultiset(w);
    assert w[1..] + [w[0]] == s1;
    StubLineSorted(n, 0, s0);
    StubLineSorted(n, 1, s1);
    BaseLine(n, g, 0);
    BaseLine(n, g, 1);
  }

  lemma SixWindows(n: nat)
    requires n == 6
    ensures Window(n, 0) == [0, 1, 2, 3, 4]
    ensures Window(n, 1) == [5, 0, 1, 2, 3]
  {
  }

  lemma SixSorted()
    ensures Sorting.SortedBy<nat>([0, 1, 2, 3, 4], Id) && Sorting.SortedBy<nat>([0, 1, 2, 3, 5], Id)
  {
  }

  lemma RotateMultiset(w: seq<nat>)
    requires |w| > 0
    ensures multiset(w[1..] + [w[0]]) == multiset(w)
  {
    assert w == [w[0]] + w[1..];
  }

  /** Line 0 with placeholders `0 .. k - 1` handed over: its first placeholder is `k`. */
  lemma FirstLineOwned(b0: seq<Entry>, k: nat)
    requires b0 == Stubs([0, 1, 2, 3, 4]) + [Goalie(0)] && k <= 5
    ensures var line := AssignLine(b0, FirstOwners(k));
      FirstStub(line) == (if k < 5 then k else |line|) && (k < 5 ==> line[k] == Stub(k))
  {
    var line := AssignLine(b0, FirstOwners(k));
    assert forall j :: 0 <= j < 5 ==> b0[j] == Stub(j);
    assert forall j :: 0 <= j < k && j < 5 ==> line[j] == Fielder(j);
    if k < 5 {
      assert line[k] == Stub(k);
    } else {
      assert line[5] == Goalie(0);
    }
  }

  lemma FirstOwnersNext(k: nat)
    requires k < 6
    ensures FirstOwners(k)[k := k] == FirstOwners(k + 1)
  {
  }

  /** A step that picks line `l`, whose first placeholder `v` is unowned, hands `v` to fielder `k`. */
  lemma StepAsWrittenPicks(base: seq<seq<Entry>>, owner: seq<int>, fs: seq<int>, gs: seq<int>, k: nat, l: nat, v: nat)
    requires Template(base, |owner|) && v < |owner| && owner[v] < 0 && l < LineCount
    requires Helpers.MinimumIndex(Scores(Assigned(base, owner), fs, gs)) == l
    requires FirstStub(Assigned(base, owner)[l]) < |Assigned(base, owner)[l]|
    requires Assigned(base, owner)[l][FirstStub(Assigned(base, owner)[l])] == Stub(v)
    ensures StepAsWritten(Assigned(base, owner), fs, gs, k) == Assigned(base, owner[v := k])
  {
    ReplaceAssigned(base, owner, v, k);
  }

  /** Turn `k < 5`: line 0 is picked and its first placeholder, `k`, goes to fielder `k`. */
  lemma UnskilledTurn(fs: seq<int>, gs: seq<int>, k: nat)
    requires |fs| == 6 && |gs| == 1 && Unskilled(fs, gs) && k < 5
    ensures StepAsWritten(Assigned(Base(|fs|, |gs|).value, FirstOwners(k)), fs, gs, k)
         == Assigned(Base(|fs|, |gs|).value, FirstOwners(k + 1))
  {
    var base: seq<seq<Entry>> := Base(|fs|, |gs|).value;
    var owner := FirstOwners(k);
    var lines := Assigned(base, owner);
    assert Helpers.MinimumIndex(Scores(lines, fs, gs)) == 0 by {
      UnskilledPicksFirst(lines, fs, gs);
    }
    assert FirstStub(lines[0]) == k && lines[0][k] == Stub(k) by {
      SixOneBase(|fs|, |gs|);
      FirstLineOwned(base[0], k);
    }
    assert Template(base, |owner|) by {
      TemplateBase(|fs|, |gs|);
    }
    StepAsWrittenPicks(base, owner, fs, gs, k, 0, k);
    FirstOwnersNext(k);
  }

  /** Turn 5: line 0 is picked again, but it has no placeholder left, and nothing happens. */
  lemma UnskilledStall(fs: seq<int>, gs: seq<int>, k: nat)
    requires |fs| == 6 && |gs| == 1 && Unskilled(fs, gs) && k == 5
    ensures StepAsWritten(Assigned(Base(|fs|, |gs|).value, FirstOwners(k)), fs, gs, k)
         == Assigned(Base(|fs|, |gs|).value, FirstOwners(k))
  {
    var base: seq<seq<Entry>> := Base(|fs|, |gs|).value;
    var lines := Assigned(base, FirstOwners(k));
    UnskilledPicksFirst(lines, fs, gs);
    SixOneBase(|fs|, |gs|);
    FirstLineOwned(base[0], k);
  }

  lemma {:induction false} UnskilledRun(fs: seq<int>, gs: seq<int>, k: nat)
    requires |fs| == 6 && |gs| == 1 && Unskilled(fs, gs) && k <= 5
    ensures FillAsWritten(Assigned(Base(|fs|, |gs|).value, FirstOwners(k)), fs, gs, k)
         == Assigned(Base(|fs|, |gs|).value, FirstOwners(5))
    decreases 5 - k
  {
    if k == 5 {
      UnskilledStall(fs, gs, k);
    } else {
      UnskilledTurn(fs, gs, k);
      UnskilledRun(fs, gs, k + 1);
    }
  }

  /**
   * Six fielders and one goalie, none of them skilled: the fill as written hands
   * placeholders 0 .. 4 of line 0 to fielders 0 .. 4, then picks line 0 again for fielder 5,
   * finds no placeholder there, and moves on. Placeholder 5 stays in line 1 and fielder 5
   * plays no line at all.
   */
  lemma AsWrittenLeavesPlaceholder(fs: seq<int>, gs: seq<int>)
    requires |fs| == 6 && |gs| == 1 && Unskilled(fs, gs)
    ensures BuildAsWritten(fs, gs).value[1][4] == Stub(5)
    ensures Occ(BuildAsWritten(fs, gs).value, Fielder(5)) == 0
  {
    var base: seq<seq<Entry>> := Base(|fs|, |gs|).value;
    UnskilledBuild(fs, gs);
    UnskilledLeft(base, |fs|, |gs|, 5);
  }

  /** The whole fill as written, for six unskilled fielders and one goalie. */
  lemma UnskilledBuild(fs: seq<int>, gs: seq<int>)
    requires |fs| == 6 && |gs| == 1 && Unskilled(fs, gs)
    ensures BuildAsWritten(fs, gs).value == Assigned(Base(|fs|, |gs|).value, FirstOwners(5))
  {
    var base: seq<seq<Entry>> := Base(|fs|, |gs|).value;
    assert Template(base, |fs|) by {
      TemplateBase(|fs|, |gs|);
    }
    AssignedNone(base, |fs|);
    FirstOwnersNone(|fs|);
    UnskilledRun(fs, gs, 0);
  }

  lemma FirstOwnersNone(n: nat)
    requires n == 6
    ensures FirstOwners(0) == NoOwners(n)
  {
  }

  /** Once placeholders 0 .. k - 1 are handed over, placeholder `k` still sits in line 1. */
  lemma UnskilledLeft(base: seq<seq<Entry>>, n: nat, g: nat, k: nat)
    requires n == 6 && g == 1 && k == 5 && Base(n, g).Success? && base == Base(n, g).value
    ensures Assigned(base, FirstOwners(k))[1][4] == Stub(k)
    ensures Occ(Assigned(base, FirstOwners(k)), Fielder(k)) == 0
  {
    var owner := FirstOwners(k);
    assert Template(base, |owner|) by {
      TemplateBase(n, g);
    }
    assert base[1][4] == Stub(k) by {
      SixOneBase(n, g);
    }
    FirstOwnersMiss(k);
    OccUnserved(base, owner, k);
  }

  lemma FirstOwnersMiss(k: nat)
    requires k < 6
    ensures !Serves(FirstOwners(k), k)
  {
  }
}
