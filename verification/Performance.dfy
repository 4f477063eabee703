/** What a submission does to the player's total pp: the table of scores meets the weighted sum. */
module Performance {
  import opened Lists
  import opened Scores
  import opened Weighted

  /** SELECT pp … WHERE userid = … AND mode = … AND status = 2 AND the map is ranked or approved. */
  function BestPps(table: seq<Row>, who: Who): seq<real> {
    if table == [] then []
    else
      var last := table[|table| - 1];
      BestPps(table[..|table| - 1], who) + if Ranks(last, who) then [last.s.pp] else []
  }

  /** What a row adds to them. */
  function Own(r: Row, who: Who): multiset<real> { if Ranks(r, who) then multiset{r.s.pp} else multiset{} }

  lemma SnocPps(table: seq<Row>, r: Row, who: Who)
    ensures BestPps(table + [r], who) == BestPps(table, who) + if Ranks(r, who) then [r.s.pp] else []
    ensures multiset(BestPps(table + [r], who)) == multiset(BestPps(table, who)) + Own(r, who)
  {
    assert (table + [r])[..|table|] == table;
  }

  /** The pp that demoting takes away. */
  function Lost(table: seq<Row>, s: Score, who: Who): multiset<real> {
    var prev := PrevBest(table, s);
    if prev.Some? then Own(prev.value, who) else multiset{}
  }

  lemma Reorder(a: multiset<real>, lost: multiset<real>, r: multiset<real>)
    requires lost <= a
    ensures (a - lost) + r == (a + r) - lost && lost <= a + r
  {
  }

  lemma DemoteSnoc(front: seq<Row>, last: Row, s: Score)
    ensures Demote(front + [last], s) == Demote(front, s) + [if IsBestOf(last, s) then last.(status := SUBMITTED) else last]
  {
  }

  lemma Back(a: multiset<real>, b: multiset<real>)
    ensures (a + b) - b == a && b <= a + b && a + multiset{} == a
  {
  }

  /** Demoting takes away what the best row counted for, and nothing else. */
  ghost predicate Takes(table: seq<Row>, s: Score, who: Who) {
    && Lost(table, s, who) <= multiset(BestPps(table, who))
    && multiset(BestPps(Demote(table, s), who)) == multiset(BestPps(table, who)) - Lost(table, s, who)
  }

  lemma PrevBestSnoc(front: seq<Row>, last: Row, s: Score)
    ensures PrevBest(front + [last], s) == if IsBestOf(last, s) then Some(last) else PrevBest(front, s)
  {
    assert (front + [last])[..|front|] == front;
  }

  lemma TakesLast(front: seq<Row>, last: Row, s: Score, who: Who)
    requires IsBestOf(last, s) && NoBestOf(front, s)
    ensures Takes(front + [last], s, who)
  {
    hide Own, PrevBest, Demote, BestPps, NoBestOf, IsBestOf;
    var row := last.(status := SUBMITTED);
    PrevBestSnoc(front, last, s);
    DemoteSnoc(front, last, s);
    NothingToDemote(front, s);
    SnocPps(front, row, who);
    SnocPps(front, last, who);
    assert Own(row, who) == multiset{};
    Back(multiset(BestPps(front, who)), Own(last, who));
  }

  lemma TakesEarlier(front: seq<Row>, last: Row, s: Score, who: Who)
    requires !IsBestOf(last, s) && Takes(front, s, who)
    ensures Takes(front + [last], s, who)
  {
    hide Own, PrevBest, Demote, BestPps, IsBestOf;
    PrevBestSnoc(front, last, s);
    DemoteSnoc(front, last, s);
    SnocPps(Demote(front, s), last, who);
    SnocPps(front, last, who);
    Reorder(multiset(BestPps(front, who)), Lost(front, s, who), Own(last, who));
  }

  lemma {:induction false} DemotePps(table: seq<Row>, s: Score, who: Who)
    requires OneBest(table)
    ensures Takes(table, s, who)
  {
    if table != [] {
      hide Takes;
      var front, last := table[..|table| - 1], table[|table| - 1];
      assert table == front + [last];
      if IsBestOf(last, s) {
        TakesLast(front, last, s, who);
      } else {
        DemotePps(front, s, who);
        TakesEarlier(front, last, s, who);
      }
    }
  }

  lemma {:induction false} AllNonNegative(table: seq<Row>, who: Who)
    requires forall r <- table :: r.s.pp >= 0.0
    ensures NonNegative(BestPps(table, who))
  {
    if table != [] {
      AllNonNegative(table[..|table| - 1], who);
    }
  }

  lemma TotalOf(a: seq<real>, b: seq<real>)
    requires multiset(a) == multiset(b)
    ensures TotalPp(a) == TotalPp(b)
  {
    SortOf(a, b);
    assert |a| == |multiset(a)| == |b|;
  }

  /** A new best score adds its pp and takes away that of the one it replaces. */
  lemma PpsAfterBest(table: seq<Row>, s: Score, who: Who)
    requires OneBest(table) && Status(table, s).BEST?
    ensures multiset(BestPps(Insert(table, s), who))
         == multiset(BestPps(table, who)) - Lost(table, s, who) + if Ranks(Row(s, BEST), who) then multiset{s.pp} else multiset{}
    ensures Lost(table, s, who) <= multiset(BestPps(table, who))
  {
    hide OneBest, Demote, PrevBest, Ranks, Lost, BestPps;
    SnocPps(Demote(table, s), Row(s, BEST), who);
    DemotePps(table, s, who);
  }

  /** What is taken away is less, and belongs to the same player. */
  lemma LostIsLess(table: seq<Row>, s: Score, who: Who)
    requires OneStatus(table, s) && Status(table, s).BEST?
    ensures Lost(table, s, who) == multiset{} || (Ranks(Row(s, BEST), who) && exists v :: Lost(table, s, who) == multiset{v} && v <= s.pp)
  {
    hide OneStatus;
    if PrevBest(table, s).Some? { PrevIsOnTheMap(table, s); }
  }

  /** No submission lowers anybody's total pp, before or after rounding. */
  lemma PpNeverFalls(table: seq<Row>, s: Score, who: Who)
    requires OneBest(table) && OneStatus(table, s)
    requires s.pp >= 0.0 && forall r <- table :: r.s.pp >= 0.0
    ensures TotalPp(BestPps(Insert(table, s), who)) >= TotalPp(BestPps(table, who))
    ensures Round(TotalPp(BestPps(Insert(table, s), who))) >= Round(TotalPp(BestPps(table, who)))
  {
    hide OneBest, OneStatus, Demote, PrevBest, Lost, BestPps, TotalPp, Round;
    var status, before := Status(table, s), BestPps(table, who);
    AllNonNegative(table, who);
    var now := BestPps(Insert(table, s), who);
    if status.BEST? {
      PpsAfterBest(table, s, who);
      LostIsLess(table, s, who);
      Exchange(before, now, s.pp, Lost(table, s, who), Ranks(Row(s, status), who));
    } else {
      SnocPps(table, Row(s, status), who);
      assert now == before;
    }
    RoundIsMonotone(TotalPp(before), TotalPp(now));
  }

  /** The three ways in which the scores that count can change. */
  lemma Exchange(before: seq<real>, now: seq<real>, pp: real, lost: multiset<real>, counts: bool)
    requires NonNegative(before) && pp >= 0.0 && lost <= multiset(before)
    requires multiset(now) == multiset(before) - lost + if counts then multiset{pp} else multiset{}
    requires lost == multiset{} || (counts && exists v :: lost == multiset{v} && v <= pp)
    ensures TotalPp(now) >= TotalPp(before)
  {
    if !counts {
      TotalOf(now, before);
    } else if lost == multiset{} {
      TotalOf(now, before + [pp]);
      MoreScoresMorePp(before, pp);
    } else {
      var v :| lost == multiset{v} && v <= pp;
      assert v in multiset(before);
      var i :| 0 <= i < |before| && before[i] == v;
      TotalOf(now, before[i := pp]);
      BetterScoreMorePp(before, i, pp);
    }
  }

  /** The last submission of a run, as a step. */
  lemma LastInsert(scores: seq<Score>)
    requires MapsStay(scores) && scores != []
    ensures MapsStay(scores[..|scores| - 1])
    ensures var table, last := Run(scores[..|scores| - 1]).table, scores[|scores| - 1];
      Run(scores).table == Insert(table, last) && OneBest(table) && OneStatus(table, last)
  {
    hide MapsStay, OneStatus, OneBest, BestIsBest, Agree, Insert;
    MapsStayed(scores, |scores| - 1);
    MapIsTheSame(scores, Run(scores[..|scores| - 1]).table);
  }

  lemma LastStep(scores: seq<Score>)
    requires MapsStay(scores) && scores != [] && forall i | 0 <= i < |scores| :: scores[i].pp >= 0.0
    ensures MapsStay(scores[..|scores| - 1])
    ensures var table, last := Run(scores[..|scores| - 1]).table, scores[|scores| - 1];
      && Run(scores).table == Insert(table, last)
      && OneBest(table) && OneStatus(table, last)
      && last.pp >= 0.0 && forall r <- table :: r.s.pp >= 0.0
  {
    hide MapsStay, OneStatus, OneBest, Insert;
    LastInsert(scores);
  }

  ghost function PpAfter(scores: seq<Score>, who: Who): real
    requires MapsStay(scores)
  {
    TotalPp(BestPps(Run(scores).table, who))
  }

  lemma LastStepGrows(scores: seq<Score>, who: Who)
    requires MapsStay(scores) && scores != [] && forall i | 0 <= i < |scores| :: scores[i].pp >= 0.0
    ensures MapsStay(scores[..|scores| - 1]) && PpAfter(scores[..|scores| - 1], who) <= PpAfter(scores, who)
  {
    hide MapsStay, OneStatus, OneBest, Consistent, Insert, TotalPp, BestPps, Round, Run;
    LastStep(scores);
    PpNeverFalls(Run(scores[..|scores| - 1]).table, scores[|scores| - 1], who);
  }

  /** Over every run, a player's total pp only grows. */
  lemma {:induction false} PpOnlyGrows(scores: seq<Score>, n: nat, who: Who)
    requires MapsStay(scores) && n <= |scores| && forall i | 0 <= i < |scores| :: scores[i].pp >= 0.0
    ensures MapsStay(scores[..n]) && PpAfter(scores[..n], who) <= PpAfter(scores, who)
    decreases |scores|
  {
    hide PpAfter, MapsStay;
    if n == |scores| {
      assert scores[..n] == scores;
    } else {
      var front := scores[..|scores| - 1];
      LastStepGrows(scores, who);
      assert front[..n] == scores[..n];
      PpOnlyGrows(front, n, who);
    }
  }

  /** The row just inserted is among those the accuracy is taken over, so there is no division by zero. */
  lemma JustInserted(table: seq<Row>, s: Score)
    requires Status(table, s).BEST? && s.bmap.status.AwardsRankedPp()
    ensures BestPps(Insert(table, s), s.who) != [] && Weights(|BestPps(Insert(table, s), s.who)|) != 0.0
  {
    SnocPps(Demote(table, s), Row(s, BEST), s.who);
    WeightsAreBounded(|BestPps(Insert(table, s), s.who)|);
  }
}
