/**
 Waiting for the scores of a play. Time is counted in the half seconds that the loop sleeps. The loop holds on to slots, not to
 players, and looks each time at who is in the slot by then; what it sees is up to the outside world.
 */
module Polling {
  import opened Lists
  import opened MatchTypes
  import Scrim

  /** What a look at a slot shows: nobody, or a player, their side, and the metric of their most recent score if it is of this play. */
  datatype View = Empty | Taken(playerId: int, team: MatchTeams, score: Option<real>) {
    predicate Waiting() { Taken? && score.None? }

    function Player(): Option<int> { if Taken? then Some(playerId) else None }
  }

  /** The look at the i-th slot after so many half seconds. */
  type Look = (nat, nat) -> View

  /** 10 seconds, for all slots together. */
  const PATIENCE := 20

  /** How the wait for a slot ends: with a score, with whoever is in the slot when it is given up, or with a failed assertion. */
  datatype Outcome = Seen(playerId: int, team: MatchTeams, score: real) | GivenUp(player: Option<int>) | Died

  function SideOf(o: Outcome, ffa: bool): Side
    requires o.Seen?
  {
    if ffa then Someone(o.playerId) else Team(o.team)
  }

  /** The wait for the i-th slot from a time on, and the time at which it is over. */
  function Watch(look: Look, i: nat, time: nat): (Outcome, nat)
    decreases PATIENCE + 1 - time
  {
    match look(i, time)
    case Empty => (Died, time)
    case Taken(playerId, team, Some(score)) => (Seen(playerId, team, score), time)
    case Taken(_, _, None) =>
      if time >= PATIENCE then (GivenUp(look(i, time + 1).Player()), time + 1) else Watch(look, i, time + 1)
  }

  /** When the wait for the i-th slot begins, if it comes to that. */
  function Begins(look: Look, i: nat): nat {
    if i == 0 then 0 else Watch(look, i - 1, Begins(look, i - 1)).1
  }

  function OutcomeOf(look: Look, i: nat): Outcome { Watch(look, i, Begins(look, i)).0 }

  /** The assertion fails exactly if at some look, up to which there was no score, the slot is empty. */
  lemma {:induction false} WatchDies(look: Look, i: nat, time: nat)
    ensures Watch(look, i, time).0.Died? <==>
      exists t: nat :: time <= t && (t == time || t <= PATIENCE) && look(i, t).Empty? && forall u: nat | time <= u < t :: look(i, u).Waiting()
    decreases PATIENCE + 1 - time
  {
    if look(i, time).Waiting() && time < PATIENCE {
      WatchDies(look, i, time + 1);
      if t: nat :| time + 1 <= t && (t == time + 1 || t <= PATIENCE) && look(i, t).Empty? && forall u: nat | time + 1 <= u < t :: look(i, u).Waiting() {
        assert time <= t <= PATIENCE;
      }
      if t: nat :| time <= t && (t == time || t <= PATIENCE) && look(i, t).Empty? && forall u: nat | time <= u < t :: look(i, u).Waiting() {
        assert time + 1 <= t <= PATIENCE;
      }
    }
  }

  /** A score that is seen has been there to see, and giving up is a matter of time. */
  lemma {:induction false} WatchEnds(look: Look, i: nat, time: nat)
    ensures var (o, end) := Watch(look, i, time);
      && time <= end
      && (o.Seen? ==> look(i, end) == Taken(o.playerId, o.team, Some(o.score)) && (end == time || end <= PATIENCE))
      && (o.GivenUp? ==> end == (if time <= PATIENCE then PATIENCE else time) + 1 && o.player == look(i, end).Player())
    decreases PATIENCE + 1 - time
  {
    if look(i, time).Waiting() && time < PATIENCE { WatchEnds(look, i, time + 1); }
  }

  /** The inner loop: look, sleep, look again, until there is a score or the patience is used up. */
  method WaitFor(i: nat, start: nat, look: Look) returns (o: Outcome, sleeps: nat)
    ensures (o, sleeps) == Watch(look, i, start)
  {
    sleeps := start;
    while true
      invariant Watch(look, i, sleeps) == Watch(look, i, start)
      decreases PATIENCE + 1 - sleeps
    {
      var seen := look(i, sleeps);
      if seen.Empty? { return Died, sleeps; }
      if seen.score.Some? { return Seen(seen.playerId, seen.team, seen.score.value), sleeps; }
      sleeps := sleeps + 1;
      if sleeps > PATIENCE { return GivenUp(look(i, sleeps).Player()), sleeps; }
    }
  }

  /** scores[key] += v for a defaultdict. */
  function Add(scores: Scrim.Scores, key: Side, v: real): Scrim.Scores {
    if scores == [] then [(key, v)]
    else if scores[0].0 == key then [(key, scores[0].1 + v)] + scores[1..]
    else [scores[0]] + Add(scores[1..], key, v)
  }

  function Of(scores: Scrim.Scores, key: Side): real {
    if scores == [] then 0.0 else if scores[0].0 == key then scores[0].1 else Of(scores[1..], key)
  }

  predicate Has(scores: Scrim.Scores, key: Side) { exists i | 0 <= i < |scores| :: scores[i].0 == key }

  /** What an outcome counts for a side. */
  function Worth(o: Outcome, ffa: bool, key: Side): real { if o.Seen? && SideOf(o, ffa) == key then o.score else 0.0 }

  /** What the first n slots have to show for a side. */
  function Sum(look: Look, n: nat, ffa: bool, key: Side): real {
    if n == 0 then 0.0 else Sum(look, n - 1, ffa, key) + Worth(OutcomeOf(look, n - 1), ffa, key)
  }

  /** The scores seen in slots on the team. */
  ghost function TeamScores(look: Look, n: nat, team: MatchTeams): real {
    if n == 0 then 0.0
    else
      var o := OutcomeOf(look, n - 1);
      TeamScores(look, n - 1, team) + if o.Seen? && o.team == team then o.score else 0.0
  }

  /** The scores seen in slots with the player. */
  ghost function PlayerScores(look: Look, n: nat, playerId: int): real {
    if n == 0 then 0.0
    else
      var o := OutcomeOf(look, n - 1);
      PlayerScores(look, n - 1, playerId) + if o.Seen? && o.playerId == playerId then o.score else 0.0
  }

  /** Teams get what was seen on their side, and players what was seen of them. */
  lemma {:induction false} SidesGetTheirs(look: Look, n: nat)
    ensures forall team :: Sum(look, n, false, Team(team)) == TeamScores(look, n, team)
    ensures forall id :: Sum(look, n, true, Someone(id)) == PlayerScores(look, n, id)
  {
    hide OutcomeOf;
    if n > 0 { SidesGetTheirs(look, n - 1); }
  }

  /** Whoever was in the slots among the first n that were given up. */
  function GivenUps(look: Look, n: nat): seq<Option<int>> {
    if n == 0 then []
    else
      var o := OutcomeOf(look, n - 1);
      GivenUps(look, n - 1) + if o.GivenUp? then [o.player] else []
  }

  lemma {:induction false} AddAdds(scores: Scrim.Scores, key: Side, v: real)
    ensures forall k :: Of(Add(scores, key, v), k) == Of(scores, k) + if k == key then v else 0.0
    ensures forall k :: Has(Add(scores, key, v), k) <==> Has(scores, k) || k == key
    ensures Scrim.Distinct(scores) ==> Scrim.Distinct(Add(scores, key, v))
  {
    if scores == [] {
      assert [(key, v)][0].0 == key;
    } else {
      AddAdds(scores[1..], key, v);
      HasHead(scores);
      HasHead(Add(scores, key, v));
      if scores[0].0 == key {
        assert Add(scores, key, v)[1..] == scores[1..];
      } else {
        var more := Add(scores[1..], key, v);
        assert Add(scores, key, v)[1..] == more;
        if Scrim.Distinct(scores) { DistinctTail(scores); DistinctCons(scores[0], more); }
      }
    }
  }

  lemma HasHead(scores: Scrim.Scores)
    requires scores != []
    ensures forall k :: Has(scores, k) <==> scores[0].0 == k || Has(scores[1..], k)
  {
    forall k ensures Has(scores, k) <==> scores[0].0 == k || Has(scores[1..], k) {
      if i :| 0 <= i < |scores| && scores[i].0 == k {
        assert i == 0 || scores[1..][i - 1].0 == k;
      }
      if i :| 0 <= i < |scores| - 1 && scores[1..][i].0 == k {
        assert scores[i + 1].0 == k;
      }
    }
  }

  lemma DistinctTail(scores: Scrim.Scores)
    requires Scrim.Distinct(scores) && scores != []
    ensures Scrim.Distinct(scores[1..]) && !Has(scores[1..], scores[0].0)
  {
  }

  lemma DistinctCons(first: (Side, real), rest: Scrim.Scores)
    requires Scrim.Distinct(rest) && !Has(rest, first.0)
    ensures Scrim.Distinct([first] + rest)
  {
  }

  predicate OfKind(scores: Scrim.Scores, team: bool) { forall i | 0 <= i < |scores| :: scores[i].0.Team? == team }

  /** A score that is not zero adds for the side that the slot is on. */
  method Credit(scores: Scrim.Scores, ffa: bool, o: Outcome) returns (r: Scrim.Scores)
    requires Scrim.Distinct(scores) && OfKind(scores, !ffa)
    ensures Scrim.Distinct(r) && OfKind(r, !ffa)
    ensures forall k :: Of(r, k) == Of(scores, k) + Worth(o, ffa, k)
  {
    hide Add, Has, Of, Scrim.Distinct;
    r := scores;
    if o.Seen? && o.score != 0.0 {
      AddAdds(scores, SideOf(o, ffa), o.score);
      AddKeepsKind(scores, SideOf(o, ffa), o.score, !ffa);
      r := Add(scores, SideOf(o, ffa), o.score);
    }
  }

  /**
   await_submissions for n slots. It comes to its end exactly if no slot is found empty; then every slot has shown a score or is
   given up, not both, each side has what was seen in the slots on its side, and each further sleep beyond the patience costs
   one more slot.
   */
  method AwaitSubmissions(n: nat, ffa: bool, mapKnown: bool, look: Look)
    returns (ended: bool, scores: Scrim.Scores, missing: seq<Option<int>>, sleeps: nat)
    ensures ended <==> !mapKnown || forall i: nat | i < n :: !OutcomeOf(look, i).Died?
    ensures !mapKnown ==> scores == [] && missing == [] && sleeps == 0
    ensures ended && mapKnown ==> missing == GivenUps(look, n) && forall k :: Of(scores, k) == Sum(look, n, ffa, k)
    ensures ended && mapKnown && !ffa ==> forall team :: Of(scores, Team(team)) == TeamScores(look, n, team)
    ensures ended && mapKnown && ffa ==> forall id :: Of(scores, Someone(id)) == PlayerScores(look, n, id)
    ensures ended ==> sleeps <= 20 + |missing| && (missing != [] ==> sleeps == 20 + |missing|)
    ensures Scrim.Distinct(scores) && OfKind(scores, !ffa)
  {
    hide Of, Sum, Scrim.Distinct, Worth, OfKind, Watch, OutcomeOf, Begins, GivenUps;
    Nothing(look, ffa);
    SidesGetTheirs(look, n);
    scores, missing, sleeps := [], [], 0;
    if !mapKnown { return true, scores, missing, sleeps; }
    for i := 0 to n
      invariant sleeps == Begins(look, i) && missing == GivenUps(look, i)
      invariant sleeps <= PATIENCE + |missing| && (missing != [] ==> sleeps == PATIENCE + |missing|)
      invariant forall j: nat | j < i :: !OutcomeOf(look, j).Died?
      invariant forall k :: Of(scores, k) == Sum(look, i, ffa, k)
      invariant Scrim.Distinct(scores) && OfKind(scores, !ffa)
    {
      var o;
      o, sleeps := WaitFor(i, sleeps, look);
      WatchEnds(look, i, Begins(look, i));
      OneMore(look, i, ffa);
      if o.Died? { return false, scores, missing, sleeps; }
      scores := Credit(scores, ffa, o);
      if o.GivenUp? { missing := missing + [o.player]; }
    }
    return true, scores, missing, sleeps;
  }

  lemma Nothing(look: Look, ffa: bool)
    ensures Scrim.Distinct([]) && OfKind([], !ffa) && Begins(look, 0) == 0 && GivenUps(look, 0) == []
    ensures forall k :: Of([], k) == Sum(look, 0, ffa, k)
  {
  }

  lemma OneMore(look: Look, n: nat, ffa: bool)
    ensures Watch(look, n, Begins(look, n)) == (OutcomeOf(look, n), Begins(look, n + 1))
    ensures GivenUps(look, n + 1) == GivenUps(look, n) + if OutcomeOf(look, n).GivenUp? then [OutcomeOf(look, n).player] else []
    ensures forall k :: Sum(look, n + 1, ffa, k) == Sum(look, n, ffa, k) + Worth(OutcomeOf(look, n), ffa, k)
  {
  }

  lemma {:induction false} AddKeepsKind(scores: Scrim.Scores, key: Side, v: real, team: bool)
    requires key.Team? == team && OfKind(scores, team)
    ensures OfKind(Add(scores, key, v), team)
  {
    if scores != [] {
      AddKeepsKind(scores[1..], key, v, team);
    }
  }

  /** As long as the same player stays in each slot, the wait comes to its end, and it is that player who is seen or given up. */
  lemma {:induction false} WatchStays(look: Look, i: nat, time: nat, player: int)
    requires forall t: nat :: look(i, t).Player() == Some(player)
    ensures var o := Watch(look, i, time).0;
      !o.Died? && (o.Seen? ==> o.playerId == player) && (o.GivenUp? ==> o.player == Some(player))
    decreases PATIENCE + 1 - time
  {
    assert look(i, time).Player() == Some(player);
    if look(i, time).Waiting() && time < PATIENCE { WatchStays(look, i, time + 1, player); }
  }

  /** As long as different players stay in their slots, everybody is seen or given up, and nobody is both. */
  lemma FoundOrMissing(look: Look, players: seq<int>, i: nat, j: nat)
    requires NoDup(players) && i < |players| && j < |players|
    requires forall t: nat :: look(i, t).Player() == Some(players[i]) && look(j, t).Player() == Some(players[j])
    ensures var (mine, other) := (OutcomeOf(look, i), OutcomeOf(look, j));
      && (mine == GivenUp(Some(players[i])) || (mine.Seen? && mine.playerId == players[i]))
      && !(mine.Seen? && other == GivenUp(Some(players[i])))
  {
    WatchStays(look, i, Begins(look, i), players[i]);
    WatchStays(look, j, Begins(look, j), players[j]);
    if i < j { NoDupDiffer(players, i, j); }
    if j < i { NoDupDiffer(players, j, i); }
  }

  /** The second of two players leaves their slot before there is a score: the assertion fails, and nobody gets the point. */
  lemma LeftTooEarly()
    ensures var look: Look := (i, t) => if i == 0 then Taken(1, Red, Some(5.0)) else if t == 0 then Taken(2, Blue, None) else Empty;
      OutcomeOf(look, 0).Seen? && OutcomeOf(look, 1).Died?
  {
    var look: Look := (i, t) => if i == 0 then Taken(1, Red, Some(5.0)) else if t == 0 then Taken(2, Blue, None) else Empty;
    assert Watch(look, 0, 0) == (Seen(1, Red, 5.0), 0);
    assert Watch(look, 1, 1) == (Died, 1);
    assert Watch(look, 1, 0) == Watch(look, 1, 1);
  }

  /** The second of two players leaves, and the first one moves into that slot: the same score counts twice. */
  lemma CountedTwice()
    ensures var look: Look := (i, t) => if i == 0 then Taken(1, Red, Some(5.0)) else if t == 0 then Taken(2, Blue, None) else Taken(1, Red, Some(5.0));
      Sum(look, 2, true, Someone(1)) == 10.0
  {
    var look: Look := (i, t) => if i == 0 then Taken(1, Red, Some(5.0)) else if t == 0 then Taken(2, Blue, None) else Taken(1, Red, Some(5.0));
    assert Watch(look, 0, 0) == (Seen(1, Red, 5.0), 0);
    assert Watch(look, 1, 1) == (Seen(1, Red, 5.0), 1);
    assert Watch(look, 1, 0) == Watch(look, 1, 1);
    assert Sum(look, 1, true, Someone(1)) == 5.0;
  }
}
