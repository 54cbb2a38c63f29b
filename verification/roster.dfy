/**
 * The roster store of `src/model.js`: an insertion-ordered map from player id to player,
 * capped at 32 entries on creation, with an append-only log standing for the listener
 * notifications; the derived active views; and the pure roster validator.
 */
module Roster {
  import opened Wrappers
  import opened Players
  import Seqs

  /** What the listeners are told, in order. */
  datatype Event = Created(player: Player) | Updated(player: Player) | Deleted(id: string)

  /** The map's entries in iteration (insertion) order, and the notifications so far. */
  datatype Store = Store(players: seq<Player>, log: seq<Event>)

  const MaxRoster: nat := 32

  /** The error `createPlayer` throws. */
  datatype CreateError = RosterFull

  /** A map never holds two entries with the same key. */
  predicate UniqueIds(ps: seq<Player>) {
    forall i, j :: 0 <= i < j < |ps| ==> ps[i].id != ps[j].id
  }

  predicate Valid(s: Store) {
    UniqueIds(s.players)
  }

  /** The position of the first entry with key `id`, if any. */
  function Find(ps: seq<Player>, id: string): (r: Option<nat>)
    ensures r.None? <==> forall i :: 0 <= i < |ps| ==> ps[i].id != id
    ensures r.Some? ==> r.value < |ps| && ps[r.value].id == id
    ensures r.Some? ==> forall i :: 0 <= i < r.value ==> ps[i].id != id
    decreases |ps|
  {
    if |ps| == 0 then None
    else if ps[0].id == id then Some(0)
    else match Find(ps[1..], id)
      case None => None
      case Some(k) => Some(k + 1)
  }

  /** `map.get(id)`. */
  function Get(ps: seq<Player>, id: string): (r: Option<Player>)
    ensures r.Some? <==> exists i :: 0 <= i < |ps| && ps[i].id == id
    ensures r.Some? ==> r.value in ps && r.value.id == id
  {
    match Find(ps, id)
    case None => None
    case Some(k) => Some(ps[k])
  }

  /**
   * `map.set(p.id, p)`: an existing entry is overwritten where it stands, a new key is
   * appended at the end.
   */
  function MapSet(ps: seq<Player>, p: Player): (r: seq<Player>)
    ensures Find(ps, p.id).None? ==> r == ps + [p]
    ensures Find(ps, p.id).Some? ==>
      var k := Find(ps, p.id).value;
      |r| == |ps| && r[k] == p && forall i :: 0 <= i < |ps| && i != k ==> r[i] == ps[i]
    decreases |ps|
  {
    if |ps| == 0 then [p]
    else if ps[0].id == p.id then [p] + ps[1..]
    else [ps[0]] + MapSet(ps[1..], p)
  }

  /**
   * `map.delete(id)`: the entry with key `id` is removed, and the others keep their
   * insertion order.
   */
  function MapDelete(ps: seq<Player>, id: string): (r: seq<Player>)
    ensures forall q :: q in r <==> q in ps && q.id != id
    ensures UniqueIds(ps) && Find(ps, id).Some? ==>
      r == ps[..Find(ps, id).value] + ps[Find(ps, id).value + 1..]
    ensures Find(ps, id).None? ==> r == ps
  {
    var keep := (q: Player) => q.id != id;
    match Find(ps, id)
    case None =>
      Seqs.FilterKeepsAll(ps, keep);
      Seqs.Filter(ps, keep)
    case Some(k) =>
      if UniqueIds(ps) then Seqs.FilterDropsOne(ps, keep, k); Seqs.Filter(ps, keep)
      else Seqs.Filter(ps, keep)
  }

  /** The first position holding a key is what `Find` reports. */
  lemma FindFirst(ps: seq<Player>, id: string, k: nat)
    requires k < |ps| && ps[k].id == id
    requires forall i :: 0 <= i < k ==> ps[i].id != id
    ensures Find(ps, id) == Some(k)
  {
  }

  /** After `set`, the key reads back the new player and every other key reads as before. */
  lemma GetAfterSet(ps: seq<Player>, p: Player, id: string)
    ensures Get(MapSet(ps, p), id) == if id == p.id then Some(p) else Get(ps, id)
  {
    var r := MapSet(ps, p);
    assert forall i :: 0 <= i < |ps| ==> r[i] == ps[i] || (r[i] == p && ps[i].id == p.id);
    if id == p.id {
      var k := if Find(ps, id).Some? then Find(ps, id).value else |ps|;
      FindFirst(r, id, k);
    } else {
      assert forall i :: 0 <= i < |r| ==> (r[i].id == id <==> i < |ps| && ps[i].id == id);
      if Find(ps, id).Some? {
        var j := Find(ps, id).value;
        FindFirst(r, id, j);
      }
    }
  }

  /** Setting keeps keys unique. */
  lemma MapSetUnique(ps: seq<Player>, p: Player)
    ensures UniqueIds(ps) ==> UniqueIds(MapSet(ps, p))
  {
    var r := MapSet(ps, p);
    if UniqueIds(ps) && Find(ps, p.id).Some? {
      assert forall i :: 0 <= i < |r| ==> r[i].id == ps[i].id;
    }
  }

  /** Deleting removes the key, keeps every other key's entry, and keeps keys unique. */
  lemma MapDeleteProperties(ps: seq<Player>, id: string, other: string)
    requires UniqueIds(ps)
    ensures UniqueIds(MapDelete(ps, id))
    ensures Get(MapDelete(ps, id), id).None?
    ensures other != id ==> Get(MapDelete(ps, id), other) == Get(ps, other)
  {
    MapDeleteUnique(ps, id);
    MapDeleteOther(ps, id, other);
  }

  /** Deleting keeps keys unique. */
  lemma {:induction false} MapDeleteUnique(ps: seq<Player>, id: string)
    requires UniqueIds(ps)
    ensures UniqueIds(MapDelete(ps, id))
    decreases |ps|
  {
    if |ps| > 0 {
      var rest := MapDelete(ps[1..], id);
      assert UniqueIds(ps[1..]);
      MapDeleteUnique(ps[1..], id);
      if ps[0].id != id {
        assert MapDelete(ps, id) == [ps[0]] + rest;
        RestOtherIds(ps, id);
      }
    }
  }

  /** No entry left after the head of a unique-keyed sequence shares the head's key. */
  lemma RestOtherIds(ps: seq<Player>, id: string)
    requires UniqueIds(ps) && |ps| > 0
    ensures forall q :: q in MapDelete(ps[1..], id) ==> q.id != ps[0].id
  {
    forall q | q in MapDelete(ps[1..], id) ensures q.id != ps[0].id {
      var i :| 0 <= i < |ps[1..]| && ps[1..][i] == q;
      assert ps[i + 1] == q;
    }
  }

  /** After deleting, the key reads as missing and every other key reads as before. */
  lemma {:induction false} MapDeleteOther(ps: seq<Player>, id: string, other: string)
    requires UniqueIds(ps)
    ensures Get(MapDelete(ps, id), id).None?
    ensures other != id ==> Get(MapDelete(ps, id), other) == Get(ps, other)
    decreases |ps|
  {
    var r := MapDelete(ps, id);
    if |ps| > 0 {
      var rest := MapDelete(ps[1..], id);
      assert UniqueIds(ps[1..]);
      MapDeleteOther(ps[1..], id, other);
      if ps[0].id == id {
        assert r == rest;
      } else {
        assert r == [ps[0]] + rest;
        if other == ps[0].id {
          assert Find(r, other) == Some(0);
        } else {
          assert Find(r, other).Some? <==> Find(rest, other).Some?;
        }
      }
    }
  }

  /** `getPlayer(id)`. */
  function GetPlayer(s: Store, id: string): (r: Option<Player>)
    ensures r.Some? ==> r.value in s.players && r.value.id == id
    ensures r.None? <==> forall q :: q in s.players ==> q.id != id
  {
    Get(s.players, id)
  }

  /**
   * `createPlayer(p)`: refused when the roster already holds 32 entries, even when `p.id`
   * is one of them; otherwise a `set` followed by one `create` notification.
   */
  function CreatePlayer(s: Store, p: Player): (r: Result<Store, CreateError>)
    ensures r.Failure? <==> |s.players| >= MaxRoster
    ensures r.Success? ==> r.value.log == s.log + [Created(p)]
    ensures r.Success? ==> GetPlayer(r.value, p.id) == Some(p)
    ensures r.Success? && Valid(s) ==> Valid(r.value)
    ensures r.Success? && Find(s.players, p.id).None? ==> r.value.players == s.players + [p]
  {
    if |s.players| >= MaxRoster then Failure(RosterFull)
    else
      GetAfterSet(s.players, p, p.id);
      MapSetUnique(s.players, p);
      Success(Store(MapSet(s.players, p), s.log + [Created(p)]))
  }

  /** `updatePlayer(p)`: an unconditional `set` followed by one `update` notification. */
  function UpdatePlayer(s: Store, p: Player): (r: Store)
    ensures r.log == s.log + [Updated(p)]
    ensures GetPlayer(r, p.id) == Some(p)
    ensures Valid(s) ==> Valid(r)
    ensures |r.players| == |s.players| + (if Find(s.players, p.id).None? then 1 else 0)
  {
    GetAfterSet(s.players, p, p.id);
    MapSetUnique(s.players, p);
    Store(MapSet(s.players, p), s.log + [Updated(p)])
  }

  /** `deletePlayer(id)`: a `delete` followed by one `delete` notification, present or not. */
  function DeletePlayer(s: Store, id: string): (r: Store)
    ensures r.log == s.log + [Deleted(id)]
    ensures GetPlayer(r, id).None?
    ensures Valid(s) ==> Valid(r)
    ensures Find(s.players, id).None? ==> r.players == s.players
    ensures Valid(s) && Find(s.players, id).Some? ==>
      r.players == s.players[..Find(s.players, id).value] + s.players[Find(s.players, id).value + 1..]
  {
    var r := Store(MapDelete(s.players, id), s.log + [Deleted(id)]);
    if Valid(s) then MapDeleteProperties(s.players, id, id); r else r
  }

  /** Create, update and delete touch no other key. */
  lemma OtherKeysUnchanged(s: Store, p: Player, id: string, other: string)
    requires Valid(s) && other != p.id && other != id
    ensures CreatePlayer(s, p).Success? ==> GetPlayer(CreatePlayer(s, p).value, other) == GetPlayer(s, other)
    ensures GetPlayer(UpdatePlayer(s, p), other) == GetPlayer(s, other)
    ensures GetPlayer(DeletePlayer(s, id), other) == GetPlayer(s, other)
  {
    GetAfterSet(s.players, p, other);
    MapDeleteProperties(s.players, id, other);
  }

  /** `activePlayers`, `activeFielders`, `activeGoalies`: filters of the entries in map order. */
  function ActivePlayers(s: Store): seq<Player> {
    Seqs.Filter(s.players, (p: Player) => p.active)
  }

  function ActiveFielders(s: Store): seq<Player> {
    Seqs.Filter(s.players, (p: Player) => !IsGoalie(p) && p.active)
  }

  function ActiveGoalies(s: Store): seq<Player> {
    Seqs.Filter(s.players, (p: Player) => IsGoalie(p) && p.active)
  }

  /**
   * The fielder and goalie views are the non-goalies and the goalies of the active view, in
   * its order; together they hold exactly the active players.
   */
  lemma ViewsPartition(s: Store)
    ensures ActiveFielders(s) == Seqs.Filter(ActivePlayers(s), (p: Player) => !IsGoalie(p))
    ensures ActiveGoalies(s) == Seqs.Filter(ActivePlayers(s), (p: Player) => IsGoalie(p))
    ensures multiset(ActiveFielders(s)) + multiset(ActiveGoalies(s)) == multiset(ActivePlayers(s))
    ensures |ActiveFielders(s)| + |ActiveGoalies(s)| == |ActivePlayers(s)|
    ensures forall p :: p in ActiveFielders(s) ==> p !in ActiveGoalies(s)
  {
    var active := (p: Player) => p.active;
    var notGoalie := (p: Player) => !IsGoalie(p);
    var goalie := (p: Player) => IsGoalie(p);
    Seqs.FilterFilter(s.players, active, notGoalie, (p: Player) => !IsGoalie(p) && p.active);
    Seqs.FilterFilter(s.players, active, goalie, (p: Player) => IsGoalie(p) && p.active);
    Seqs.FilterSplitsMultiset(ActivePlayers(s), notGoalie, goalie);
    assert |multiset(ActiveFielders(s)) + multiset(ActiveGoalies(s))| == |multiset(ActivePlayers(s))|;
  }

  /** The validator's four messages, in the order it checks them. */
  datatype Problem = NoGoalie | TooManyGoalies | TooFewPlayers | TooManyPlayers {
    function Message(): string {
      match this
      case NoGoalie => "No Goalie! At least one Goalie is required."
      case TooManyGoalies => "Too many active goalies, maximum of 3 allowed."
      case TooFewPlayers => "Too few active players, minimum of 6 players."
      case TooManyPlayers => "Too many active players, maximum of 16 players."
    }
    function Rank(): nat {
      match this
      case NoGoalie => 0
      case TooManyGoalies => 1
      case TooFewPlayers => 2
      case TooManyPlayers => 3
    }
  }

  /** Whether one problem applies to the given active goalie and active player counts. */
  predicate Applies(e: Problem, goalies: nat, active: nat) {
    match e
    case NoGoalie => goalies == 0
    case TooManyGoalies => goalies > 3
    case TooFewPlayers => active < 6
    case TooManyPlayers => active > 16
  }

  /** The four independent checks of `validate`, on the two counts. */
  function CheckCounts(goalies: nat, active: nat): (r: seq<Problem>)
    ensures forall e :: e in r <==> Applies(e, goalies, active)
    ensures forall i, j :: 0 <= i < j < |r| ==> r[i].Rank() < r[j].Rank()
  {
    (if goalies == 0 then [NoGoalie] else [])
    + (if goalies > 3 then [TooManyGoalies] else [])
    + (if active < 6 then [TooFewPlayers] else [])
    + (if active > 16 then [TooManyPlayers] else [])
  }

  /** `validate()`. */
  function Validate(s: Store): (r: seq<Problem>)
    ensures r == [] <==> 1 <= |ActiveGoalies(s)| <= 3 && 6 <= |ActivePlayers(s)| <= 16
    ensures forall e :: e in r <==> Applies(e, |ActiveGoalies(s)|, |ActivePlayers(s)|)
  {
    var r := CheckCounts(|ActiveGoalies(s)|, |ActivePlayers(s)|);
    assert r == [] <==> forall e: Problem :: !Applies(e, |ActiveGoalies(s)|, |ActivePlayers(s)|) by {
      if r != [] { assert r[0] in r; }
    }
    assert !Applies(NoGoalie, |ActiveGoalies(s)|, |ActivePlayers(s)|) <==> |ActiveGoalies(s)| >= 1;
    r
  }

  /** An empty roster reports both the missing goalie and the short roster, in that order. */
  lemma ValidateEmpty(log: seq<Event>)
    ensures Validate(Store([], log)) == [NoGoalie, TooFewPlayers]
  {
    var s := Store([], log);
    assert ActivePlayers(s) == [] && ActiveGoalies(s) == [];
  }
}
