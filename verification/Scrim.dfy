/**
 The score ledger of a scrim, as a value: is_scrimming, match_points, winners and winning_pts
 of app/objects/match.py, and what every operation on them does.
 */
module Scrim {
  import opened Lists
  import opened MatchTypes

  /** match_points is a defaultdict(int): a missing side has no points. */
  function PointsOf(points: map<Side, int>, w: Side): int {
    if w in points then points[w] else 0
  }

  function Count(winners: seq<Option<Side>>, w: Side): nat {
    if winners == [] then 0
    else Count(winners[..|winners| - 1], w) + if winners[|winners| - 1] == Some(w) then 1 else 0
  }

  /** The plays that had a winner. */
  function Decisive(winners: seq<Option<Side>>): nat {
    if winners == [] then 0
    else Decisive(winners[..|winners| - 1]) + if winners[|winners| - 1].Some? then 1 else 0
  }

  datatype Ledger = Ledger(on: bool, points: map<Side, int>, winners: seq<Option<Side>>, target: nat) {
    ghost predicate Agrees() {
      forall w :: PointsOf(points, w) == Count(winners, w)
    }

    /** What holds between any two operations. */
    ghost predicate Valid() {
      && Agrees()
      && (on ==> target > 0 && forall w :: PointsOf(points, w) < target)
      && (!on ==> winners == [])
    }
  }

  /** One play's scores in the order in which they came in; the keys of a dict are distinct. */
  type Scores = seq<(Side, real)>

  predicate Distinct(scores: Scores) {
    forall i, j | 0 <= i < j < |scores| :: scores[i].0 != scores[j].0
  }

  predicate AllEqual(scores: Scores) {
    forall i | 0 <= i < |scores| :: scores[i].1 == scores[0].1
  }

  /** max(scores, key=scores.get): the first index that holds the highest score. */
  function LeaderIndex(scores: Scores): (k: nat)
    requires scores != []
    ensures k < |scores|
    ensures forall i | 0 <= i < |scores| :: scores[i].1 <= scores[k].1
    ensures forall i | 0 <= i < k :: scores[i].1 < scores[k].1
  {
    var last := |scores| - 1;
    if last == 0 then 0 else
      var k := LeaderIndex(scores[..last]);
      assert forall i | 0 <= i < last :: scores[..last][i] == scores[i];
      if scores[last].1 > scores[k].1 then last else k
  }

  function Leader(scores: Scores): Side
    requires scores != []
  {
    scores[LeaderIndex(scores)].0
  }

  function Touch(points: map<Side, int>, w: Side): map<Side, int> {
    if w in points then points else points[w := 0]
  }

  function Loser(winner: Side): Side {
    if winner == Team(Blue) then Team(Red) else Team(Blue)
  }

  function Award(l: Ledger, winner: Side): Ledger {
    var points := l.points[winner := PointsOf(l.points, winner) + 1];
    // reading the loser's total also creates it
    var points := if winner.Team? then Touch(points, Loser(winner)) else points;
    if l.target != 0 && points[winner] == l.target then
      Ledger(false, map[], [], l.target)
    else
      l.(points := points, winners := l.winners + [Some(winner)])
  }

  predicate Tied(scores: Scores) { |scores| != 1 && AllEqual(scores) }

  /** A point for a winner who is no side of the current team type: it is counted, and then an exception keeps it from closing the scrim. */
  function AwardMisfit(l: Ledger, winner: Side): Ledger {
    l.(points := l.points[winner := PointsOf(l.points, winner) + 1], winners := l.winners + [Some(winner)])
  }

  /** What the scores of a play do, whether or not there is still a scrim when they arrive; fits says whether their winner is still a side. */
  function Settle(l: Ledger, scores: Scores, fits: bool): Ledger {
    if scores == [] then l
    else if Tied(scores) then l.(winners := l.winners + [None])
    else if fits then Award(l, Leader(scores))
    else AwardMisfit(l, Leader(scores))
  }

  /**
   Whether they do no harm: during a scrim, if they do not leave a misfit on the target; without one only nothing, or the one point
   that wins a best of one, leaves no trace.
   */
  predicate Harmless(l: Ledger, scores: Scores, fits: bool) {
    scores == [] ||
    if l.on then Tied(scores) || fits || PointsOf(l.points, Leader(scores)) + 1 < l.target
    else !Tied(scores) && fits && l.target == 1
  }

  /** Nobody has a higher score than the k-th side, and those before it have lower ones. */
  ghost predicate Leads(scores: Scores, k: nat) {
    && k < |scores|
    && (forall i | 0 <= i < |scores| :: scores[i].1 <= scores[k].1)
    && forall i | 0 <= i < k :: scores[i].1 < scores[k].1
  }

  lemma LeaderLeads(scores: Scores)
    requires scores != []
    ensures exists k: nat | k < |scores| :: Leads(scores, k) && Leader(scores) == scores[k].0
    ensures forall k: nat | Leads(scores, k) :: Leader(scores) == scores[k].0
  {
    var j := LeaderIndex(scores);
    assert Leads(scores, j);
    forall k: nat | Leads(scores, k) ensures k == j { assert scores[j].1 == scores[k].1; }
  }

  /** The sides between which points are counted. */
  ghost predicate IsSide(teamType: MatchTeamTypes, w: Side) {
    match teamType
    case HeadToHead | TagCoop => w.Someone?
    case TeamVs | TagTeamVs => w == Team(Red) || w == Team(Blue)
  }

  /** b is a with one point more for w. */
  ghost predicate OnePointMore(w: Side, a: map<Side, int>, b: map<Side, int>) {
    && w in b && b[w] == (if w in a then a[w] else 0) + 1
    && forall v | v != w :: (if v in b then b[v] else 0) == (if v in a then a[v] else 0)
  }

  /**
   What the scores of a play make of the books: nothing if there are none, a play without a winner if there are several and all are equal;
   otherwise the point and the entry among the winners are for the first side with the highest score, and the scrim is over and
   its books empty when that side has the points it takes.
   */
  ghost predicate Settled(scores: Scores, teamType: MatchTeamTypes, a: Ledger, b: Ledger) {
    if scores == [] then b == a
    else if |scores| > 1 && forall i, j | 0 <= i < |scores| && 0 <= j < |scores| :: scores[i].1 == scores[j].1 then
      b == a.(winners := a.winners + [None])
    else exists k: nat | k < |scores| && Leads(scores, k) ::
      var w := scores[k].0;
      if IsSide(teamType, w) && a.target != 0 && (if w in a.points then a.points[w] else 0) + 1 == a.target
      then b == Ledger(false, map[], [], a.target)
      else b == a.(points := b.points, winners := a.winners + [Some(w)]) && OnePointMore(w, a.points, b.points)
  }

  datatype Event =
    | Play(scores: Scores)
    | Start(bestOf: nat)
    | Rematch
    | ResetByTeams
    | End

  predicate StartAllowed(l: Ledger, bestOf: nat) {
    bestOf < 16 && !l.on && bestOf % 2 == 1
  }

  function Apply(l: Ledger, e: Event): Ledger {
    match e
    case Play(scores) => if l.on then Settle(l, scores, true) else l
    case Start(bestOf) =>
      if StartAllowed(l, bestOf) then l.(on := true, target := bestOf / 2 + 1) else l
    case Rematch =>
      if !l.on then
        if l.target == 0 then l else l.(on := true)
      else if l.winners == [] || l.winners[|l.winners| - 1].None? then l
      else
        var w := l.winners[|l.winners| - 1].value;
        l.(points := l.points[w := PointsOf(l.points, w) - 1], winners := l.winners[..|l.winners| - 1])
    case ResetByTeams =>
      if l.on then l.(points := map[], winners := []) else l
    case End =>
      if l.on then l.(on := false, points := map[], winners := []) else l
  }

  function Run(l: Ledger, events: seq<Event>): Ledger {
    if events == [] then l else Apply(Run(l, events[..|events| - 1]), events[|events| - 1])
  }

  const FRESH := Ledger(false, map[], [], 0)

  lemma CountSnoc(winners: seq<Option<Side>>, x: Option<Side>, w: Side)
    ensures Count(winners + [x], w) == Count(winners, w) + if x == Some(w) then 1 else 0
    ensures Decisive(winners + [x]) == Decisive(winners) + if x.Some? then 1 else 0
  {
    assert (winners + [x])[..|winners|] == winners;
  }

  lemma PointsAfterAward(l: Ledger, winner: Side)
    ensures var l' := Award(l, winner);
      if l.target != 0 && PointsOf(l.points, winner) + 1 == l.target
      then l' == Ledger(false, map[], [], l.target)
      else l' == l.(points := l'.points, winners := l.winners + [Some(winner)])
           && forall w :: PointsOf(l'.points, w) == PointsOf(l.points, w) + if w == winner then 1 else 0
  {
  }

  lemma CountsAfter(winners: seq<Option<Side>>, x: Option<Side>)
    ensures forall w :: Count(winners + [x], w) == Count(winners, w) + if x == Some(w) then 1 else 0
  {
    assert (winners + [x])[..|winners|] == winners;
  }

  lemma AwardKeepsValid(l: Ledger, winner: Side)
    requires l.Valid() && l.on
    ensures Award(l, winner).Valid()
    ensures Award(l, winner).on <==> PointsOf(l.points, winner) + 1 < l.target
  {
    hide Award, Count, PointsOf;
    PointsAfterAward(l, winner);
    CountsAfter(l.winners, Some(winner));
    NoPoints();
  }

  lemma NoPoints()
    ensures forall w :: PointsOf(map[], w) == Count([], w) == 0
  {
  }

  lemma PointsAfterMisfit(l: Ledger, winner: Side)
    ensures forall w :: PointsOf(AwardMisfit(l, winner).points, w) == PointsOf(l.points, w) + if w == winner then 1 else 0
  {
  }

  /** Scores keep the books exactly if they are Harmless(). */
  lemma SettledInTime(l: Ledger, scores: Scores, fits: bool)
    requires l.Valid()
    ensures Settle(l, scores, fits).Valid() <==> Harmless(l, scores, fits)
  {
    hide Award, Count, PointsOf, Tied;
    if scores != [] && !Tied(scores) {
      var winner := Leader(scores);
      PointsAfterAward(l, winner);
      PointsAfterMisfit(l, winner);
      CountsAfter(l.winners, Some(winner));
      NoPoints();
      if l.on && fits { AwardKeepsValid(l, winner); }
    } else if l.on {
      ApplyKeepsValid(l, Play(scores));
    }
  }

  /** Each operation keeps the ledger's books. */
  lemma ApplyKeepsValid(l: Ledger, e: Event)
    requires l.Valid()
    ensures Apply(l, e).Valid()
  {
    hide Award, Count, Tied, PointsOf;
    NoPoints();
    match e
    case Play(scores) =>
      if l.on && scores != [] {
        if Tied(scores) {
          CountsAfter(l.winners, None);
        } else {
          AwardKeepsValid(l, Leader(scores));
        }
      }
    case Rematch =>
      if l.on && l.winners != [] && l.winners[|l.winners| - 1].Some? {
        var rest, last := l.winners[..|l.winners| - 1], l.winners[|l.winners| - 1];
        assert l.winners == rest + [last];
        CountsAfter(rest, last);
        PointsAfterRollback(l.points, last.value);
        forall w ensures PointsOf(Apply(l, e).points, w) == Count(rest, w) { assert PointsOf(l.points, w) == Count(rest + [last], w); }
      }
    case _ =>
  }

  /** The operations that begin and end scrims, and the rollback of a play. */
  lemma BooksAfter(l: Ledger, bestOf: nat, last: Option<Side>)
    ensures Apply(l, ResetByTeams) == if l.on then Ledger(true, map[], [], l.target) else l
    ensures Apply(l, End) == if l.on then Ledger(false, map[], [], l.target) else l
    ensures Apply(l, Start(bestOf)) ==
            if l.on || bestOf !in {1, 3, 5, 7, 9, 11, 13, 15} then l else Ledger(true, l.points, l.winners, (bestOf + 1) / 2)
    ensures !l.on ==> Apply(l, Rematch) == l.(on := l.target != 0)
    ensures var ended := l.(on := true, winners := l.winners + [last]);
      match last
      case None => Apply(ended, Rematch) == ended
      case Some(w) => Apply(ended, Rematch) == ended.(points := Apply(ended, Rematch).points, winners := l.winners)
                      && OnePointMore(w, Apply(ended, Rematch).points, l.points[w := PointsOf(l.points, w)])
  {
    assert (l.winners + [last])[..|l.winners|] == l.winners;
  }

  lemma PointsAfterRollback(points: map<Side, int>, winner: Side)
    ensures forall w :: PointsOf(points[winner := PointsOf(points, winner) - 1], w) == PointsOf(points, w) - if w == winner then 1 else 0
  {
  }

  /** Over every run: points are the recorded wins, nobody sits on the target, a closed scrim is blank. */
  lemma {:induction false} EveryRunIsValid(events: seq<Event>)
    ensures Run(FRESH, events).Valid()
  {
    if events != [] {
      var before := events[..|events| - 1];
      EveryRunIsValid(before);
      ApplyKeepsValid(Run(FRESH, before), events[|events| - 1]);
    }
  }

  /** A play closes a running scrim exactly when its winner lacked one point, and then nobody else could have. */
  lemma PlayClosesAtTarget(l: Ledger, scores: Scores)
    requires l.Valid() && l.on
    ensures Apply(l, Play(scores)).on <==>
            (scores == [] || Tied(scores) || PointsOf(l.points, Leader(scores)) + 1 < l.target)
  {
    if scores != [] && !(|scores| != 1 && AllEqual(scores)) {
      AwardKeepsValid(l, Leader(scores));
    }
  }

  ghost predicate BetweenTeams(scores: Scores) {
    forall i | 0 <= i < |scores| :: scores[i].0 == Team(Blue) || scores[i].0 == Team(Red)
  }

  ghost predicate TeamPlays(events: seq<Event>) {
    forall i | 0 <= i < |events| :: events[i].Play? && BetweenTeams(events[i].scores)
  }

  /** The plays of the run that had a winner, whether or not the scrim was still running. */
  function DecisivePlays(events: seq<Event>): nat {
    if events == [] then 0
    else
      var e := events[|events| - 1];
      DecisivePlays(events[..|events| - 1]) +
      if e.Play? && e.scores != [] && !Tied(e.scores) then 1 else 0
  }

  ghost predicate OnlyTeams(winners: seq<Option<Side>>) {
    forall i | 0 <= i < |winners| :: winners[i] == None || winners[i] == Some(Team(Blue)) || winners[i] == Some(Team(Red))
  }

  lemma {:induction false} TwoSidesShareTheWins(winners: seq<Option<Side>>)
    requires OnlyTeams(winners)
    ensures Decisive(winners) == Count(winners, Team(Blue)) + Count(winners, Team(Red))
  {
    if winners != [] {
      TwoSidesShareTheWins(winners[..|winners| - 1]);
    }
  }

  lemma TeamPlay(l: Ledger, scores: Scores)
    requires l.Valid() && BetweenTeams(scores) && (l.on ==> OnlyTeams(l.winners))
    ensures var l' := Apply(l, Play(scores));
      l'.on ==> l.on && l'.target == l.target && OnlyTeams(l'.winners)
                && Decisive(l'.winners) == Decisive(l.winners) + if scores != [] && !Tied(scores) then 1 else 0
  {
    hide Award, Count, Decisive, PointsOf, Tied;
    if l.on && scores != [] {
      CountSnoc(l.winners, None, Team(Blue));
      CountSnoc(l.winners, Some(Leader(scores)), Team(Blue));
      PointsAfterAward(l, Leader(scores));
    }
  }

  lemma {:induction false} TeamRun(start: Ledger, events: seq<Event>)
    requires start.Valid() && start.on && start.winners == [] && TeamPlays(events)
    ensures var l := Run(start, events);
            && l.Valid()
            && (l.on ==> l.target == start.target && OnlyTeams(l.winners) && Decisive(l.winners) == DecisivePlays(events))
  {
    if events != [] {
      var before, e := events[..|events| - 1], events[|events| - 1];
      TeamRun(start, before);
      var l := Run(start, before);
      ApplyKeepsValid(l, e);
      TeamPlay(l, e.scores);
    }
  }

  /**
   A team scrim without rollbacks, however it was begun, is over after 2 * target - 1 decisive plays at the latest; for a
   best-of-n that is n.
   */
  lemma TeamScrimEnds(closed: Ledger, begin: Event, events: seq<Event>)
    requires closed.Valid() && !closed.on && Apply(closed, begin).on && TeamPlays(events)
    ensures var start := Apply(closed, begin);
      && (Run(start, events).on ==> DecisivePlays(events) < 2 * start.target - 1)
      && (begin.Start? ==> 2 * start.target - 1 == begin.bestOf)
      && (begin.Rematch? ==> start.target == closed.target)
  {
    var start := Apply(closed, begin);
    ApplyKeepsValid(closed, begin);
    TeamRun(start, events);
    var l := Run(start, events);
    if l.on {
      TwoSidesShareTheWins(l.winners);
      assert PointsOf(l.points, Team(Blue)) < l.target && PointsOf(l.points, Team(Red)) < l.target;
    }
  }

  /** A rematch takes back the last play exactly, unless that play was a tie or ended the scrim. */
  lemma RematchUndoesPlay(l: Ledger, scores: Scores)
    requires l.Valid() && l.on && scores != []
    ensures var played := Apply(l, Play(scores));
            var undone := Apply(played, Rematch);
            if !played.on then undone.on && undone.winners == []
            else if Tied(scores) then undone == played && |played.winners| == |l.winners| + 1
            else undone.on && undone.target == l.target && undone.winners == l.winners
                 && forall w :: PointsOf(undone.points, w) == PointsOf(l.points, w)
  {
    var played := Apply(l, Play(scores));
    if played.on {
      assert played.winners[..|l.winners|] == l.winners;
    }
  }
}
