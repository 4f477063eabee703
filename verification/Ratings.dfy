/**
 The two statistics that are not kept by deltas: total pp and accuracy are taken anew over the best rows whenever
 a ranked best comes in, and stored until the next one does.
 */
module Ratings {
  import opened Scores
  import opened Weighted
  import opened Performance

  datatype Rating = Rating(pp: int, acc: real)

  const NO_RATING := Rating(0, 0.0)

  /** The best scores on ranked and approved maps. */
  function BestScores(table: seq<Row>, who: Who): seq<Score> {
    if table == [] then []
    else
      var last := table[|table| - 1];
      BestScores(table[..|table| - 1], who) + if Ranks(last, who) then [last.s] else []
  }

  function Pps(s: seq<Score>): seq<real> { seq(|s|, i requires 0 <= i < |s| => s[i].pp) }
  function Accs(s: seq<Score>): seq<real> { seq(|s|, i requires 0 <= i < |s| => s[i].acc) }

  function Place(x: Score, s: seq<Score>): (r: seq<Score>)
    ensures |r| == |s| + 1 && forall y :: y in r <==> y == x || y in s
  {
    if s == [] || x.pp >= s[0].pp then [x] + s
    else
      assert s == [s[0]] + s[1..];
      [s[0]] + Place(x, s[1..])
  }

  /** ORDER BY pp DESC, in one of the orders that scores with equal pp can be in. */
  function ByPp(s: seq<Score>): (r: seq<Score>)
    ensures |r| == |s| && forall y :: y in r <==> y in s
  {
    if s == [] then []
    else
      assert s == [s[0]] + s[1..];
      Place(s[0], ByPp(s[1..]))
  }

  /** What a ranked best makes of pp and accuracy. */
  function Rate(table: seq<Row>, who: Who): Rating
    requires BestScores(table, who) != []
  {
    var best := ByPp(BestScores(table, who));
    WeightsAreBounded(|best|);
    Rating(Round(WeightedSum(Pps(best)) + Bonus(|best|)), Accuracy(Accs(best)))
  }

  lemma {:induction false} PpsOfBest(table: seq<Row>, who: Who)
    ensures Pps(BestScores(table, who)) == BestPps(table, who)
  {
    if table != [] {
      PpsOfBest(table[..|table| - 1], who);
    }
  }

  lemma PpsCons(x: Score, s: seq<Score>)
    ensures Pps([]) == [] && Pps([x] + s) == [x.pp] + Pps(s) && Pps([x] + s)[1..] == Pps(s)
  {
  }

  lemma {:induction false} PpsPlaced(x: Score, s: seq<Score>)
    ensures Pps(Place(x, s)) == Ins(x.pp, Pps(s))
  {
    PpsCons(x, s);
    hide Desc;
    if s != [] {
      assert s == [s[0]] + s[1..];
      PpsCons(s[0], s[1..]);
      if x.pp < s[0].pp {
        PpsPlaced(x, s[1..]);
        PpsCons(s[0], Place(x, s[1..]));
      }
      hide Pps;
    }
  }

  lemma {:induction false} PpsSorted(s: seq<Score>)
    ensures Pps(ByPp(s)) == Sort(Pps(s))
  {
    hide Desc, Ins, Place;
    if s != [] {
      assert s == [s[0]] + s[1..];
      PpsCons(s[0], s[1..]);
      PpsSorted(s[1..]);
      PpsPlaced(s[0], ByPp(s[1..]));
      hide Pps;
    }
  }

  ghost predicate Between(s: seq<Score>, lo: real, hi: real) { forall x <- s :: lo <= x.acc <= hi }

  /** The same scores in descending order of pp. */
  ghost predicate Ordered(best: seq<Score>, scores: seq<Score>) {
    multiset(best) == multiset(scores) && forall i, j | 0 <= i < j < |best| :: best[i].pp >= best[j].pp
  }

  /** acc is the mean of those of best, the first one with weight 1 and each other one with 95% of the weight before. */
  ghost predicate IsMean(acc: real, best: seq<Score>) {
    acc * W(seq(|best|, _ => 1.0)) == W(Accs(best))
  }

  /** pp is what a computation from scratch gives, and so is the accuracy, if there is a score that counts. */
  ghost predicate Fair(r: Rating, table: seq<Row>, who: Who) {
    && r.pp == Round(TotalPp(BestPps(table, who)))
    && (BestScores(table, who) != [] ==> exists best: seq<Score> :: Ordered(best, BestScores(table, who)) && IsMean(r.acc, best))
  }

  lemma {:induction false} SamePlaced(x: Score, s: seq<Score>)
    ensures multiset(Place(x, s)) == multiset([x] + s)
  {
    if s != [] && x.pp < s[0].pp {
      SamePlaced(x, s[1..]);
      assert [x] + s == [x] + ([s[0]] + s[1..]);
    }
  }

  lemma {:induction false} SameByPp(s: seq<Score>)
    ensures multiset(ByPp(s)) == multiset(s)
  {
    if s != [] {
      SameByPp(s[1..]);
      SamePlaced(s[0], ByPp(s[1..]));
      assert s == [s[0]] + s[1..];
    }
  }

  lemma Descending(s: seq<Score>)
    ensures Ordered(ByPp(s), s)
  {
    hide ByPp, Sort;
    PpsSorted(s);
    SameByPp(s);
    var best, pps := ByPp(s), Pps(ByPp(s));
    forall i, j | 0 <= i < j < |best| ensures best[i].pp >= best[j].pp { assert pps[i] >= pps[j]; }
  }

  /** A mean lies between the extremes. */
  lemma MeanIsBetween(r: Rating, table: seq<Row>, who: Who, lo: real, hi: real)
    requires Fair(r, table, who) && BestScores(table, who) != [] && Between(BestScores(table, who), lo, hi)
    ensures lo <= r.acc <= hi
  {
    hide TotalPp, BestPps, BestScores, Round, W, Weights;
    var scores := BestScores(table, who);
    var best: seq<Score> :| Ordered(best, scores) && IsMean(r.acc, best);
    assert |best| == |multiset(best)| == |scores|;
    forall i | 0 <= i < |best| ensures lo <= best[i].acc <= hi { assert best[i] in multiset(best); assert best[i] in scores; }
    WeightsAreBounded(|best|);
    WeightsAddUp(|best|);
    Weighted.Between(Accs(best), lo, hi);
    Quotient(r.acc, Weights(|best|), W(Accs(best)), lo, hi);
  }

  lemma RateIsFair(table: seq<Row>, who: Who)
    requires BestScores(table, who) != []
    ensures Fair(Rate(table, who), table, who)
  {
    hide Round, WeightedSum, Bonus, ByPp, Accuracy, Weights, Sort, BestPps, BestScores, Ordered, W;
    PpsOfBest(table, who);
    PpsSorted(BestScores(table, who));
    Descending(BestScores(table, who));
    AccuracyIsTheMean(Accs(ByPp(BestScores(table, who))));
    assert IsMean(Rate(table, who).acc, ByPp(BestScores(table, who)));
  }

  /** Which scores count: the best ones on ranked and on approved maps. */
  lemma {:induction false} WhoCounts(table: seq<Row>, who: Who)
    ensures forall x :: x in BestScores(table, who) <==>
      exists r <- table :: r.s.who == who && r.status == BEST && r.s.bmap.status in {Ranked, Approved} && r.s == x
  {
    if table != [] {
      var front, last := table[..|table| - 1], table[|table| - 1];
      WhoCounts(front, who);
      assert table == front + [last];
    }
  }

  /** Whether the submission of s changes the stored statistics of its player. */
  predicate Rerates(table: seq<Row>, s: Score) { Status(table, s).BEST? && s.bmap.status.AwardsRankedPp() }

  lemma BestSnoc(table: seq<Row>, r: Row, who: Who)
    ensures BestScores(table + [r], who) == BestScores(table, who) + if Ranks(r, who) then [r.s] else []
  {
    assert (table + [r])[..|table|] == table;
  }

  /** The rows that are demoted do not count for who, if the new row counts for somebody else or nobody. */
  lemma {:induction false} DemoteKeepsBest(table: seq<Row>, s: Score, who: Who)
    requires forall r <- table | IsBestOf(r, s) :: !Ranks(r, who)
    ensures BestScores(Demote(table, s), who) == BestScores(table, who)
  {
    if table != [] {
      var front, last := table[..|table| - 1], table[|table| - 1];
      assert table == front + [last];
      DemoteKeepsBest(front, s, who);
      DemoteSnoc(front, last, s);
      BestSnoc(Demote(front, s), if IsBestOf(last, s) then last.(status := SUBMITTED) else last, who);
    }
  }

  lemma SameScoresCount(table: seq<Row>, s: Score, who: Who)
    requires OneStatus(table, s) && !(Rerates(table, s) && s.who == who)
    ensures BestScores(Insert(table, s), who) == BestScores(table, who)
  {
    hide Demote, PrevBest, BestScores;
    BestSnoc(if Status(table, s).BEST? then Demote(table, s) else table, Row(s, Status(table, s)), who);
    if Status(table, s).BEST? { DemoteKeepsBest(table, s, who); }
  }

  lemma SamePps(table: seq<Row>, s: Score, who: Who)
    requires OneBest(table) && OneStatus(table, s) && !(Rerates(table, s) && s.who == who)
    ensures TotalPp(BestPps(Insert(table, s), who)) == TotalPp(BestPps(table, who))
  {
    hide OneBest, Demote, PrevBest, Lost, BestPps, TotalPp, OneStatus, Status;
    if Status(table, s).BEST? {
      PpsAfterBest(table, s, who);
      LostIsLess(table, s, who);
      TotalOf(BestPps(Insert(table, s), who), BestPps(table, who));
    } else {
      SnocPps(table, Row(s, Status(table, s)), who);
      assert BestPps(Insert(table, s), who) == BestPps(table, who);
    }
  }

  /** The stored statistics of who after the submission of s. */
  function Rerate(r: Rating, table: seq<Row>, s: Score, who: Who): Rating
    requires OneBest(table)
  {
    if Rerates(table, s) && s.who == who then
      JustInserted(table, s);
      CountsItself(table, s);
      Rate(Insert(table, s), who)
    else r
  }

  lemma CountsItself(table: seq<Row>, s: Score)
    requires Rerates(table, s)
    ensures BestScores(Insert(table, s), s.who) != []
  {
    PpsOfBest(Insert(table, s), s.who);
    JustInserted(table, s);
  }

  lemma RerateIsFair(r: Rating, table: seq<Row>, s: Score, who: Who)
    requires OneBest(table) && OneStatus(table, s) && Fair(r, table, who)
    ensures Fair(Rerate(r, table, s, who), Insert(table, s), who)
  {
    hide OneBest, OneStatus, Insert, Rate, TotalPp, BestPps, BestScores, Round, Status;
    if Rerates(table, s) && s.who == who {
      CountsItself(table, s);
      RateIsFair(Insert(table, s), who);
    } else {
      SamePps(table, s, who);
      SameScoresCount(table, s, who);
    }
  }

  /** The stored statistics of who after a run of submissions. */
  ghost function After(scores: seq<Score>, who: Who): (r: Rating)
    requires MapsStay(scores)
    ensures Fair(r, Run(scores).table, who)
  {
    if scores == [] then
      Unrated(who);
      NO_RATING
    else
      var front, last := scores[..|scores| - 1], scores[|scores| - 1];
      LastInsert(scores);
      var before := After(front, who);
      RerateIsFair(before, Run(front).table, last, who);
      Rerate(before, Run(front).table, last, who)
  }

  lemma Unrated(who: Who)
    ensures Fair(NO_RATING, [], who)
  {
  }

  /**
   Over every run: total pp is what a computation from scratch gives, and only grows; the accuracy is the weighted mean over those that
   count, in descending order of pp, and so between the extremes.
   */
  lemma StoredIsFromScratch(scores: seq<Score>, n: nat, who: Who)
    requires MapsStay(scores) && n <= |scores| && forall i | 0 <= i < |scores| :: scores[i].pp >= 0.0
    ensures MapsStay(scores[..n])
    ensures After(scores, who).pp == Round(PpAfter(scores, who))
    ensures After(scores[..n], who).pp <= After(scores, who).pp
    ensures var counting := BestScores(Run(scores).table, who);
      counting != [] ==>
        && (exists best: seq<Score> :: Ordered(best, counting) && IsMean(After(scores, who).acc, best))
        && forall lo, hi | Between(counting, lo, hi) :: lo <= After(scores, who).acc <= hi
  {
    hide Round, IsMean, Ordered, TotalPp;
    PpOnlyGrows(scores, n, who);
    RoundIsMonotone(PpAfter(scores[..n], who), PpAfter(scores, who));
    var r, table := After(scores, who), Run(scores).table;
    forall lo, hi | BestScores(table, who) != [] && Between(BestScores(table, who), lo, hi) ensures lo <= r.acc <= hi {
      MeanIsBetween(r, table, who, lo, hi);
    }
  }

  /** A score on a map that is neither ranked nor approved leaves the stored pp and accuracy of everybody as they were. */
  lemma UnrankedRatesNobody(r: Rating, table: seq<Row>, s: Score, who: Who)
    requires OneBest(table)
    ensures s.bmap.status !in {Ranked, Approved} || s.who != who ==> Rerate(r, table, s, who) == r
  {
  }
}
