/**
 Score submission: the table of scores, and the statistics that are kept by adding and subtracting.
 One submission is one step; the ranked status of a map does not change.
 */
module Scores {
  import opened Lists

  datatype Grade = N | F | D | C | B | A | S | SH | X | XH {
    /** grade >= Grade.A, the grades that have a column. */
    predicate Counted() { A? || S? || SH? || X? || XH? }
  }

  datatype SubmissionStatus = FAILED | SUBMITTED | BEST

  datatype RankedStatus = NotSubmitted | Pending | UpdateAvailable | Ranked | Approved | Qualified | Loved {
    predicate HasLeaderboard() { Ranked? || Approved? || Loved? }
    predicate AwardsRankedPp() { Ranked? || Approved? }
  }

  /** A player in a game mode: whom a set of statistics belongs to. */
  datatype Who = Who(userId: int, mode: nat) {
    function AsVanilla(): nat { mode % 4 }
  }

  datatype Map = Map(md5: string, status: RankedStatus)

  datatype Score = Score(who: Who, bmap: Map, passed: bool, score: nat, pp: real, acc: real, maxCombo: nat,
                         n300: nat, n100: nat, n50: nat, ngeki: nat, nkatu: nat, grade: Grade, timeElapsed: int)

  datatype Row = Row(s: Score, status: SubmissionStatus)

  datatype Stats = Stats(plays: nat, playtime: int, tscore: int, totalHits: nat, maxCombo: nat, rscore: int, grades: map<Grade, int>)

  const NO_STATS := Stats(0, 0, 0, 0, 0, 0, map[A := 0, S := 0, SH := 0, X := 0, XH := 0])

  predicate HasColumns(stats: Stats) { forall g: Grade | g.Counted() :: g in stats.grades }

  /** WHERE userid = … AND map_md5 = … AND mode = … */
  predicate SameKey(a: Score, b: Score) { a.who == b.who && a.bmap.md5 == b.bmap.md5 }

  predicate IsBestOf(r: Row, s: Score) { r.status.BEST? && SameKey(r.s, s) }

  // the step

  /** The best score so far on the map of s. */
  function PrevBest(table: seq<Row>, s: Score): (r: Option<Row>)
    ensures r.Some? ==> r.value in table && IsBestOf(r.value, s)
    ensures r.None? ==> forall x <- table :: !IsBestOf(x, s)
  {
    if table == [] then None
    else
      var last := table[|table| - 1];
      assert table == table[..|table| - 1] + [last];
      if IsBestOf(last, s) then Some(last) else PrevBest(table[..|table| - 1], s)
  }

  function Status(table: seq<Row>, s: Score): SubmissionStatus {
    if !s.passed then FAILED
    else match PrevBest(table, s)
      case None => BEST
      case Some(rec) => if s.pp > rec.s.pp then BEST else SUBMITTED
  }

  /** UPDATE scores SET status = 1 WHERE status = 2 and the key is that of s. */
  function Demote(table: seq<Row>, s: Score): (r: seq<Row>)
    ensures |r| == |table|
    ensures forall i | 0 <= i < |r| :: r[i] == if IsBestOf(table[i], s) then table[i].(status := SUBMITTED) else table[i]
  {
    if table == [] then []
    else
      var last := table[|table| - 1];
      Demote(table[..|table| - 1], s) + [if IsBestOf(last, s) then last.(status := SUBMITTED) else last]
  }

  function Insert(table: seq<Row>, s: Score): seq<Row> {
    var status := Status(table, s);
    (if status.BEST? then Demote(table, s) else table) + [Row(s, status)]
  }

  function Hits(s: Score): nat {
    s.n300 + s.n100 + s.n50 + if s.who.AsVanilla() in {1, 3} then s.ngeki + s.nkatu else 0
  }

  function Bump(grades: map<Grade, int>, g: Grade, delta: int): map<Grade, int>
    requires g.Counted() ==> g in grades
  {
    if g.Counted() then grades[g := grades[g] + delta] else grades
  }

  function NewGrades(grades: map<Grade, int>, g: Grade, prev: Option<Row>): map<Grade, int>
    requires forall c: Grade | c.Counted() :: c in grades
  {
    match prev
    case None => Bump(grades, g, 1)
    case Some(best) => if g == best.s.grade then grades else Bump(Bump(grades, g, 1), best.s.grade, -1)
  }

  /** What the submission of s adds to the statistics of its player and mode. */
  function Update(stats: Stats, table: seq<Row>, s: Score): Stats
    requires HasColumns(stats)
  {
    var stats := stats.(playtime := stats.playtime + s.timeElapsed / 1000, plays := stats.plays + 1,
                        tscore := stats.tscore + s.score, totalHits := stats.totalHits + Hits(s));
    if !s.passed || !s.bmap.status.HasLeaderboard() then stats
    else
      var stats := if s.maxCombo > stats.maxCombo then stats.(maxCombo := s.maxCombo) else stats;
      if !s.bmap.status.AwardsRankedPp() || !Status(table, s).BEST? then stats
      else
        var prev := PrevBest(table, s);
        stats.(rscore := stats.rscore + s.score - (if prev.Some? then prev.value.s.score else 0),
               grades := NewGrades(stats.grades, s.grade, prev))
  }

  /** r is the best row of s's player, mode and map. */
  ghost predicate HoldsBest(r: Row, s: Score) {
    r.status == BEST && r.s.who == s.who && r.s.bmap.md5 == s.bmap.md5
  }

  /**
   b is a with one play more, given the best row so far: only a pass on a ranked, approved or loved map can raise the maximal combo,
   and only a new best one on a ranked or approved map counts for the ranked score and the grades, in exchange for the best row so far.
   */
  ghost predicate Credited(a: Stats, b: Stats, s: Score, prev: Option<Row>) {
    && b.plays == a.plays + 1 && b.tscore == a.tscore + s.score && b.playtime == a.playtime + s.timeElapsed / 1000
    && b.totalHits == a.totalHits + s.n300 + s.n100 + s.n50
                      + (if s.who.mode % 4 == 1 || s.who.mode % 4 == 3 then s.ngeki + s.nkatu else 0)
    && b.maxCombo == (if s.passed && s.bmap.status in {Ranked, Approved, Loved} && s.maxCombo > a.maxCombo then s.maxCombo else a.maxCombo)
    && var counts := s.passed && s.bmap.status in {Ranked, Approved} && (prev.Some? ==> s.pp > prev.value.s.pp);
       && b.rscore == a.rscore + (if !counts then 0 else if prev.Some? then s.score - prev.value.s.score else s.score)
       && forall g | g in {A, S, SH, X, XH} ::
            g in a.grades && g in b.grades
            && b.grades[g] == a.grades[g] + (if counts && s.grade == g then 1 else 0)
                              - (if counts && prev.Some? && prev.value.s.grade == g then 1 else 0)
  }

  /** prev is the row that holds the best, if one does. */
  ghost predicate BestSoFar(prev: Option<Row>, table: seq<Row>, s: Score) {
    if prev.Some? then prev.value in table && HoldsBest(prev.value, s) else forall r <- table :: !HoldsBest(r, s)
  }

  /** after is before with a row for s, who takes over from whoever held the best if s is a pass with more pp. */
  ghost predicate Recorded(before: seq<Row>, after: seq<Row>, s: Score) {
    var best := s.passed && forall r <- before | HoldsBest(r, s) :: s.pp > r.s.pp;
    && |after| == |before| + 1
    && after[|before|] == Row(s, if !s.passed then FAILED else if best then BEST else SUBMITTED)
    && forall i | 0 <= i < |before| :: after[i] == if best && HoldsBest(before[i], s) then Row(before[i].s, SUBMITTED) else before[i]
  }

  datatype Books = Books(table: seq<Row>, stats: map<Who, Stats>) {
    function Of(who: Who): Stats { if who in stats then stats[who] else NO_STATS }
  }

  // the aggregates, from scratch

  function Total(table: seq<Row>, f: Row -> int): int {
    if table == [] then 0 else Total(table[..|table| - 1], f) + f(table[|table| - 1])
  }

  function One(who: Who): Row -> int { (r: Row) => if r.s.who == who then 1 else 0 }
  function ItsTime(who: Who): Row -> int { (r: Row) => if r.s.who == who then r.s.timeElapsed / 1000 else 0 }
  function ItsScore(who: Who): Row -> int { (r: Row) => if r.s.who == who then r.s.score else 0 }
  function ItsHits(who: Who): Row -> int { (r: Row) => if r.s.who == who then Hits(r.s) else 0 }

  predicate Ranks(r: Row, who: Who) { r.s.who == who && r.status.BEST? && r.s.bmap.status.AwardsRankedPp() }

  function ItsRankedScore(who: Who): Row -> int { (r: Row) => if Ranks(r, who) then r.s.score else 0 }
  function ItsGrade(who: Who, g: Grade): Row -> int { (r: Row) => if Ranks(r, who) && r.s.grade == g then 1 else 0 }

  function MaxCombo(table: seq<Row>, who: Who): nat {
    if table == [] then 0
    else
      var before, last := MaxCombo(table[..|table| - 1], who), table[|table| - 1].s;
      if last.who == who && last.passed && last.bmap.status.HasLeaderboard() && last.maxCombo > before then last.maxCombo else before
  }

  /** The statistics are what the table says. */
  ghost predicate Agree(stats: Stats, table: seq<Row>, who: Who) {
    && stats.plays == Total(table, One(who))
    && stats.playtime == Total(table, ItsTime(who))
    && stats.tscore == Total(table, ItsScore(who))
    && stats.totalHits == Total(table, ItsHits(who))
    && stats.maxCombo == MaxCombo(table, who)
    && stats.rscore == Total(table, ItsRankedScore(who))
    && HasColumns(stats)
    && forall g: Grade | g.Counted() :: stats.grades[g] == Total(table, ItsGrade(who, g))
  }

  /** At most one best row per player, map and mode. */
  ghost predicate OneBest(table: seq<Row>) {
    table == [] ||
    (var front, last := table[..|table| - 1], table[|table| - 1];
     OneBest(front) && (last.status.BEST? ==> NoBestOf(front, last.s)))
  }

  ghost predicate NoBestOf(table: seq<Row>, s: Score) { forall r <- table :: !IsBestOf(r, s) }

  /** Whoever has passed a map has a best row on it, with no less pp than any pass; and best rows are passes. */
  ghost predicate BestIsBest(table: seq<Row>) {
    && (forall r <- table | r.s.passed :: PrevBest(table, r.s).Some? && PrevBest(table, r.s).value.s.pp >= r.s.pp)
    && (forall r <- table :: r.status.FAILED? <==> !r.s.passed)
  }

  /** A map has one status. */
  ghost predicate OneStatus(table: seq<Row>, s: Score) {
    forall r <- table | r.s.bmap.md5 == s.bmap.md5 :: r.s.bmap == s.bmap
  }

  // how inserting changes an aggregate

  lemma {:induction false} DemoteKeepsTotal(table: seq<Row>, s: Score, f: Row -> int)
    requires forall r: Row :: f(r) == f(r.(status := SUBMITTED))
    ensures Total(Demote(table, s), f) == Total(table, f)
  {
    if table != [] {
      DemoteKeepsTotal(table[..|table| - 1], s, f);
      assert Demote(table, s)[..|table| - 1] == Demote(table[..|table| - 1], s);
    }
  }

  lemma {:induction false} DemoteKeepsMaxCombo(table: seq<Row>, s: Score, who: Who)
    ensures MaxCombo(Demote(table, s), who) == MaxCombo(table, who)
  {
    if table != [] {
      DemoteKeepsMaxCombo(table[..|table| - 1], s, who);
      assert Demote(table, s)[..|table| - 1] == Demote(table[..|table| - 1], s);
    }
  }

  lemma {:induction false} NothingToDemote(table: seq<Row>, s: Score)
    requires NoBestOf(table, s)
    ensures Demote(table, s) == table
  {
  }

  /** An aggregate over best rows loses the row that is demoted. */
  lemma {:induction false} DemoteTakesBest(table: seq<Row>, s: Score, f: Row -> int)
    requires OneBest(table) && forall r: Row :: f(r.(status := SUBMITTED)) == 0
    ensures Total(Demote(table, s), f) == Total(table, f) - (if PrevBest(table, s).Some? then f(PrevBest(table, s).value) else 0)
  {
    if table != [] {
      var front, last := table[..|table| - 1], table[|table| - 1];
      assert Demote(table, s)[..|table| - 1] == Demote(front, s);
      if IsBestOf(last, s) {
        NothingToDemote(front, s);
      } else {
        DemoteTakesBest(front, s, f);
      }
    }
  }

  lemma TotalSnoc(table: seq<Row>, r: Row, f: Row -> int)
    ensures Total(table + [r], f) == Total(table, f) + f(r)
  {
    assert (table + [r])[..|table|] == table;
  }

  /** What every row counts for whatever its status adds up. */
  lemma InsertAdds(table: seq<Row>, s: Score, f: Row -> int)
    requires forall r: Row :: f(r) == f(r.(status := SUBMITTED))
    ensures Total(Insert(table, s), f) == Total(table, f) + f(Row(s, SUBMITTED))
  {
    var status := Status(table, s);
    DemoteKeepsTotal(table, s, f);
    TotalSnoc(if status.BEST? then Demote(table, s) else table, Row(s, status), f);
    assert f(Row(s, status)) == f(Row(s, status).(status := SUBMITTED));
  }

  /** What only best rows count for is exchanged. */
  lemma InsertExchanges(table: seq<Row>, s: Score, f: Row -> int)
    requires OneBest(table) && forall r: Row | !r.status.BEST? :: f(r) == 0
    ensures Total(Insert(table, s), f) == Total(table, f)
            + if !Status(table, s).BEST? then 0
              else f(Row(s, BEST)) - (if PrevBest(table, s).Some? then f(PrevBest(table, s).value) else 0)
  {
    var status := Status(table, s);
    if status.BEST? { DemoteTakesBest(table, s, f); }
    TotalSnoc(if status.BEST? then Demote(table, s) else table, Row(s, status), f);
  }

  lemma MaxComboSnoc(table: seq<Row>, r: Row, who: Who)
    ensures MaxCombo(table + [r], who) == MaxCombo([r], who) || MaxCombo(table + [r], who) == MaxCombo(table, who)
    ensures MaxCombo(table + [r], who) >= MaxCombo([r], who) && MaxCombo(table + [r], who) >= MaxCombo(table, who)
    ensures MaxCombo([r], who) == MaxCombo([r.(status := FAILED)], who)
  {
    assert (table + [r])[..|table|] == table && [r][..0] == [];
  }

  lemma InsertMaxCombo(table: seq<Row>, s: Score, who: Who)
    ensures MaxCombo(Insert(table, s), who) == MaxCombo(table + [Row(s, FAILED)], who)
  {
    hide MaxCombo, Demote, Status, PrevBest;
    var t := if Status(table, s).BEST? then Demote(table, s) else table;
    DemoteKeepsMaxCombo(table, s, who);
    MaxComboSnoc(t, Row(s, Status(table, s)), who);
    MaxComboSnoc(table, Row(s, FAILED), who);
  }

  // one submission

  ghost predicate Consistent(books: Books) {
    && OneBest(books.table) && BestIsBest(books.table)
    && forall who :: Agree(books.Of(who), books.table, who)
  }

  function Submit(books: Books, s: Score): Books
    requires HasColumns(books.Of(s.who))
  {
    Books(Insert(books.table, s), books.stats[s.who := Update(books.Of(s.who), books.table, s)])
  }

  /** Somebody else's statistics are still what the table says. */
  lemma OthersStillAgree(stats: Stats, table: seq<Row>, s: Score, who: Who)
    requires OneBest(table) && Agree(stats, table, who) && who != s.who
    ensures Agree(stats, Insert(table, s), who)
  {
    InsertAdds(table, s, One(who));
    InsertAdds(table, s, ItsTime(who));
    InsertAdds(table, s, ItsScore(who));
    InsertAdds(table, s, ItsHits(who));
    InsertMaxCombo(table, s, who);
    assert (table + [Row(s, FAILED)])[..|table|] == table;
    InsertExchanges(table, s, ItsRankedScore(who));
    forall g: Grade | g.Counted() ensures Total(Insert(table, s), ItsGrade(who, g)) == Total(table, ItsGrade(who, g)) {
      InsertExchanges(table, s, ItsGrade(who, g));
    }
  }

  lemma BumpCounts(grades: map<Grade, int>, g: Grade, delta: int, c: Grade)
    requires c.Counted() && forall d: Grade | d.Counted() :: d in grades
    ensures forall d: Grade | d.Counted() :: d in Bump(grades, g, delta)
    ensures Bump(grades, g, delta)[c] == grades[c] + if c == g then delta else 0
  {
  }

  /** A grade's count goes up for the new best score and down for the one it replaces. */
  lemma GradeCount(grades: map<Grade, int>, added: Grade, prev: Option<Row>, g: Grade)
    requires g.Counted() && forall c: Grade | c.Counted() :: c in grades
    ensures forall c: Grade | c.Counted() :: c in NewGrades(grades, added, prev)
    ensures NewGrades(grades, added, prev)[g]
         == grades[g] + (if added == g then 1 else 0) - (if prev.Some? && prev.value.s.grade == g then 1 else 0)
  {
    hide Bump, Grade.Counted;
    BumpCounts(grades, added, 1, g);
    if prev.Some? && added != prev.value.s.grade {
      BumpCounts(Bump(grades, added, 1), prev.value.s.grade, -1, g);
    }
  }

  lemma PrevIsOnTheMap(table: seq<Row>, s: Score)
    requires OneStatus(table, s) && PrevBest(table, s).Some?
    ensures PrevBest(table, s).value.s.who == s.who && PrevBest(table, s).value.s.bmap == s.bmap && PrevBest(table, s).value.status.BEST?
  {
  }

  lemma UpdatedGrades(stats: Stats, table: seq<Row>, s: Score)
    requires HasColumns(stats)
    ensures Update(stats, table, s).grades ==
            if Status(table, s).BEST? && s.bmap.status.AwardsRankedPp() then NewGrades(stats.grades, s.grade, PrevBest(table, s)) else stats.grades
  {
  }

  lemma GradesAgree(stats: Stats, table: seq<Row>, s: Score, g: Grade)
    requires OneBest(table) && OneStatus(table, s) && HasColumns(stats)
    requires g.Counted() && stats.grades[g] == Total(table, ItsGrade(s.who, g))
    ensures HasColumns(Update(stats, table, s))
    ensures Update(stats, table, s).grades[g] == Total(Insert(table, s), ItsGrade(s.who, g))
  {
    hide Insert, Total, PrevBest, OneBest, OneStatus, NewGrades, Status, Update, Grade.Counted;
    InsertExchanges(table, s, ItsGrade(s.who, g));
    GradeCount(stats.grades, s.grade, PrevBest(table, s), g);
    UpdatedGrades(stats, table, s);
    if PrevBest(table, s).Some? { PrevIsOnTheMap(table, s); }
  }

  lemma RankedScoreAgrees(stats: Stats, table: seq<Row>, s: Score)
    requires OneBest(table) && OneStatus(table, s) && HasColumns(stats) && stats.rscore == Total(table, ItsRankedScore(s.who))
    ensures Update(stats, table, s).rscore == Total(Insert(table, s), ItsRankedScore(s.who))
  {
    hide Insert, Total, PrevBest, OneBest, OneStatus, NewGrades, Hits;
    InsertExchanges(table, s, ItsRankedScore(s.who));
    if PrevBest(table, s).Some? { PrevIsOnTheMap(table, s); }
  }

  lemma ComboAgrees(stats: Stats, table: seq<Row>, s: Score)
    requires HasColumns(stats) && stats.maxCombo == MaxCombo(table, s.who)
    ensures Update(stats, table, s).maxCombo == MaxCombo(Insert(table, s), s.who)
  {
    hide Insert, PrevBest, Status, Hits, NewGrades;
    InsertMaxCombo(table, s, s.who);
    assert (table + [Row(s, FAILED)])[..|table|] == table;
  }

  lemma SumsAgree(stats: Stats, table: seq<Row>, s: Score)
    requires Agree(stats, table, s.who)
    ensures var stats, table := Update(stats, table, s), Insert(table, s);
      && stats.plays == Total(table, One(s.who))
      && stats.playtime == Total(table, ItsTime(s.who))
      && stats.tscore == Total(table, ItsScore(s.who))
      && stats.totalHits == Total(table, ItsHits(s.who))
  {
    hide Insert, Total, PrevBest, MaxCombo, NewGrades, Hits;
    InsertAdds(table, s, One(s.who));
    InsertAdds(table, s, ItsTime(s.who));
    InsertAdds(table, s, ItsScore(s.who));
    InsertAdds(table, s, ItsHits(s.who));
  }

  lemma OwnStillAgree(stats: Stats, table: seq<Row>, s: Score)
    requires OneBest(table) && OneStatus(table, s) && Agree(stats, table, s.who)
    ensures Agree(Update(stats, table, s), Insert(table, s), s.who)
  {
    hide Insert, Total, MaxCombo, Update, OneBest, OneStatus;
    SumsAgree(stats, table, s);
    RankedScoreAgrees(stats, table, s);
    ComboAgrees(stats, table, s);
    forall g: Grade | g.Counted()
      ensures HasColumns(Update(stats, table, s)) && Update(stats, table, s).grades[g] == Total(Insert(table, s), ItsGrade(s.who, g))
    {
      GradesAgree(stats, table, s, g);
    }
    GradesAgree(stats, table, s, A);
  }

  lemma {:induction false} DemoteKeepsOneBest(table: seq<Row>, s: Score)
    requires OneBest(table)
    ensures OneBest(Demote(table, s)) && NoBestOf(Demote(table, s), s)
  {
    if table != [] {
      var front, last := table[..|table| - 1], table[|table| - 1];
      DemoteKeepsOneBest(front, s);
      assert Demote(table, s)[..|front|] == Demote(front, s);
      if last.status.BEST? {
        forall r | r in Demote(front, s) ensures !IsBestOf(r, last.s) {
          var i :| 0 <= i < |front| && Demote(front, s)[i] == r;
          assert front[i] in front;
        }
      }
    }
  }

  lemma InsertKeepsOneBest(table: seq<Row>, s: Score)
    requires OneBest(table)
    ensures OneBest(Insert(table, s))
  {
    DemoteKeepsOneBest(table, s);
    assert Insert(table, s)[..|table|] == if Status(table, s).BEST? then Demote(table, s) else table;
  }

  /** The last row for a key is the one PrevBest finds. */
  lemma {:induction false} TheBest(table: seq<Row>, s: Score, i: nat)
    requires OneBest(table) && i < |table| && IsBestOf(table[i], s)
    ensures PrevBest(table, s) == Some(table[i])
  {
    var front, last := table[..|table| - 1], table[|table| - 1];
    if i < |front| {
      if IsBestOf(last, s) { OnlyBest(table, s, i, |front|); }
      TheBest(front, s, i);
    }
  }

  /** What the best score of a key is after an insertion. */
  lemma BestAfter(table: seq<Row>, s: Score, t: Score)
    requires OneBest(table)
    ensures PrevBest(Insert(table, s), t) == if Status(table, s).BEST? && SameKey(s, t) then Some(Row(s, BEST)) else PrevBest(table, t)
  {
    var after := Insert(table, s);
    InsertKeepsOneBest(table, s);
    if Status(table, s).BEST? && SameKey(s, t) {
      TheBest(after, t, |table|);
    } else if PrevBest(table, t).Some? {
      var i :| 0 <= i < |table| && table[i] == PrevBest(table, t).value;
      TheBest(after, t, i);
    }
  }

  /** A best score gives way only to one with more pp. */
  lemma BestNeverFalls(table: seq<Row>, s: Score, t: Score)
    requires OneBest(table) && PrevBest(table, t).Some?
    ensures var after := PrevBest(Insert(table, s), t);
      after.Some? && after.value.s.pp >= PrevBest(table, t).value.s.pp
      && (after != PrevBest(table, t) ==> after.value.s.pp > PrevBest(table, t).value.s.pp)
  {
    BestAfter(table, s, t);
    if SameKey(s, t) { SameKeySameBest(table, s, t); }
  }

  lemma {:induction false} SameKeySameBest(table: seq<Row>, s: Score, t: Score)
    requires SameKey(s, t)
    ensures PrevBest(table, s) == PrevBest(table, t)
  {
    if table != [] {
      SameKeySameBest(table[..|table| - 1], s, t);
    }
  }

  lemma InsertKeepsBestIsBest(table: seq<Row>, s: Score)
    requires OneBest(table) && BestIsBest(table)
    ensures BestIsBest(Insert(table, s))
  {
    hide OneBest, Insert, PrevBest;
    var after := Insert(table, s);
    InsertKeepsScores(table, s);
    StatusesAfter(table, s);
    forall r | r in after && r.s.passed ensures PrevBest(after, r.s).Some? && PrevBest(after, r.s).value.s.pp >= r.s.pp {
      var i :| 0 <= i < |after| && after[i] == r;
      if i < |table| {
        BestStaysBest(table, s, i);
      } else {
        BestIsNoLess(table, s);
      }
    }
  }

  lemma BestStaysBest(table: seq<Row>, s: Score, i: nat)
    requires OneBest(table) && BestIsBest(table) && i < |table| && table[i].s.passed
    ensures var best := PrevBest(Insert(table, s), table[i].s); best.Some? && best.value.s.pp >= table[i].s.pp
  {
    hide OneBest, Insert, PrevBest;
    assert table[i] in table;
    BestNeverFalls(table, s, table[i].s);
  }

  lemma StatusesAfter(table: seq<Row>, s: Score)
    requires forall r <- table :: r.status.FAILED? <==> !r.s.passed
    ensures forall r <- Insert(table, s) :: r.status.FAILED? <==> !r.s.passed
  {
    var t := if Status(table, s).BEST? then Demote(table, s) else table;
    forall i | 0 <= i < |table| ensures t[i].status.FAILED? <==> !t[i].s.passed {
      assert table[i] in table;
    }
  }

  lemma BestIsNoLess(table: seq<Row>, s: Score)
    requires OneBest(table) && s.passed
    ensures var best := PrevBest(Insert(table, s), s); best.Some? && best.value.s.pp >= s.pp
  {
    BestAfter(table, s, s);
  }

  /** A consistent state stays consistent, whatever is submitted. */
  lemma SubmitKeepsConsistent(books: Books, s: Score)
    requires Consistent(books) && OneStatus(books.table, s)
    ensures Consistent(Submit(books, s))
  {
    InsertKeepsOneBest(books.table, s);
    InsertKeepsBestIsBest(books.table, s);
    forall who ensures Agree(Submit(books, s).Of(who), Submit(books, s).table, who) {
      if who == s.who { OwnStillAgree(books.Of(who), books.table, s); } else { OthersStillAgree(books.Of(who), books.table, s, who); }
    }
  }

  // every run

  /** Nobody changes a map's status between two submissions. */
  ghost predicate MapsStay(scores: seq<Score>) {
    forall i, j | 0 <= i < |scores| && 0 <= j < |scores| && scores[i].bmap.md5 == scores[j].bmap.md5 :: scores[i].bmap == scores[j].bmap
  }

  lemma MapsStayed(scores: seq<Score>, n: nat)
    requires MapsStay(scores) && n <= |scores|
    ensures MapsStay(scores[..n])
  {
  }

  lemma MapIsTheSame(scores: seq<Score>, table: seq<Row>)
    requires MapsStay(scores) && scores != [] && |table| == |scores| - 1 && forall i | 0 <= i < |table| :: table[i].s == scores[i]
    ensures OneStatus(table, scores[|scores| - 1])
  {
  }

  lemma NothingIsConsistent()
    ensures Consistent(Books([], map[]))
  {
  }

  lemma InsertKeepsScores(table: seq<Row>, s: Score)
    ensures var r := Insert(table, s);
      |r| == |table| + 1 && (forall i | 0 <= i < |table| :: r[i].s == table[i].s) && r[|table|].s == s
  {
  }

  /** The table has one row per submission. */
  ghost predicate Records(table: seq<Row>, scores: seq<Score>) {
    |table| == |scores| && forall i | 0 <= i < |scores| :: table[i].s == scores[i]
  }

  lemma OneMoreSubmission(scores: seq<Score>, before: Books)
    requires MapsStay(scores) && scores != [] && Consistent(before) && Records(before.table, scores[..|scores| - 1])
    ensures var last := scores[|scores| - 1];
      && HasColumns(before.Of(last.who))
      && Consistent(Submit(before, last)) && Records(Submit(before, last).table, scores)
  {
    hide MapsStay, Consistent, OneStatus, HasColumns, Insert, Update;
    var last := scores[|scores| - 1];
    MapIsTheSame(scores, before.table);
    SubmitKeepsConsistent(before, last);
    ColumnsOf(before, last.who);
    InsertKeepsScores(before.table, last);
  }

  /** The state after any sequence of submissions, by any players in any modes, is consistent. */
  ghost function Run(scores: seq<Score>): (r: Books)
    requires MapsStay(scores)
    ensures Consistent(r) && Records(r.table, scores)
  {
    hide MapsStay, Consistent, HasColumns, Insert, Update;
    NothingIsConsistent();
    if scores == [] then Books([], map[])
    else
      MapsStayed(scores, |scores| - 1);
      var before := Run(scores[..|scores| - 1]);
      OneMoreSubmission(scores, before);
      Submit(before, scores[|scores| - 1])
  }

  lemma {:induction false} TotalIsNonNegative(table: seq<Row>, f: Row -> int)
    requires forall r: Row :: f(r) >= 0
    ensures Total(table, f) >= 0
  {
    if table != [] {
      TotalIsNonNegative(table[..|table| - 1], f);
    }
  }

  /** No grade count and no ranked score ever goes negative, although they are decremented. */
  lemma CountsAreNonNegative(scores: seq<Score>, who: Who, g: Grade)
    requires MapsStay(scores) && g.Counted()
    ensures Run(scores).Of(who).grades[g] >= 0 && Run(scores).Of(who).rscore >= 0
  {
    TotalIsNonNegative(Run(scores).table, ItsGrade(who, g));
    TotalIsNonNegative(Run(scores).table, ItsRankedScore(who));
  }

  /** k is the one best row for the key of s; it is a pass, and no pass on the key has more pp. */
  ghost predicate IsTheBest(table: seq<Row>, k: nat, s: Score) {
    && k < |table| && IsBestOf(table[k], s) && table[k].s.passed
    && (forall j | 0 <= j < |table| && IsBestOf(table[j], s) :: j == k)
    && (forall r <- table | r.s.passed && SameKey(r.s, s) :: r.s.pp <= table[k].s.pp)
  }

  lemma BestOfTable(table: seq<Row>, s: Score) returns (k: nat)
    requires OneBest(table) && BestIsBest(table) && PrevBest(table, s).Some?
    ensures IsTheBest(table, k, s)
  {
    hide PrevBest, OneBest;
    var best := PrevBest(table, s).value;
    k :| 0 <= k < |table| && table[k] == best;
    forall r | r in table && r.s.passed && SameKey(r.s, s) ensures r.s.pp <= best.s.pp {
      SameKeySameBest(table, r.s, s);
    }
    forall j | 0 <= j < |table| && IsBestOf(table[j], s) ensures j == k { OnlyBest(table, s, j, k); }
  }

  lemma {:induction false} OnlyBest(table: seq<Row>, s: Score, i: nat, j: nat)
    requires OneBest(table) && i < |table| && j < |table| && IsBestOf(table[i], s) && IsBestOf(table[j], s)
    ensures i == j
  {
    var front, last := table[..|table| - 1], table[|table| - 1];
    if i < |front| && j < |front| {
      OnlyBest(front, s, i, j);
    } else if i != j {
      var k := if i < j then i else j;
      assert front[k] in front && IsBestOf(front[k], last.s);
    }
  }

  /** After any run, whoever has passed a map has one best row on it. */
  lemma BestOfRun(scores: seq<Score>, i: nat)
    requires MapsStay(scores) && i < |scores| && scores[i].passed
    ensures exists k: nat :: IsTheBest(Run(scores).table, k, scores[i])
  {
    var table := Run(scores).table;
    assert table[i] in table;
    var k := BestOfTable(table, scores[i]);
  }

  /** Whether the i-th submission was the best of its key when it came in. */
  ghost predicate BestAt(scores: seq<Score>, i: nat)
    requires MapsStay(scores) && i < |scores|
  {
    Status(Run(scores[..i]).table, scores[i]).BEST?
  }

  /** Once there is a best score on a key, its pp never falls. */
  lemma {:induction false} BestStays(scores: seq<Score>, i: nat)
    requires MapsStay(scores) && i < |scores| && BestAt(scores, i)
    ensures var best := PrevBest(Run(scores).table, scores[i]); best.Some? && best.value.s.pp >= scores[i].pp
    decreases |scores|
  {
    hide MapsStay, OneBest, BestIsBest, Agree, PrevBest, Insert;
    var front, last := scores[..|scores| - 1], scores[|scores| - 1];
    MapsStayed(scores, |front|);
    MapsStayed(scores, i);
    if i == |front| {
      BestAfter(Run(front).table, last, last);
    } else {
      assert front[..i] == scores[..i];
      BestStays(front, i);
      BestNeverFalls(Run(front).table, last, scores[i]);
    }
  }

  lemma BeatsTheBest(table: seq<Row>, s: Score)
    requires Status(table, s).BEST? && PrevBest(table, s).Some?
    ensures PrevBest(table, s).value.s.pp < s.pp
  {
  }

  /** Successive best scores on a key have strictly more pp. */
  lemma SuccessiveBests(scores: seq<Score>, i: nat, j: nat)
    requires MapsStay(scores) && i < j < |scores| && SameKey(scores[i], scores[j])
    requires BestAt(scores, i) && BestAt(scores, j)
    ensures scores[i].pp < scores[j].pp
  {
    hide MapsStay, PrevBest, Status, SameKey, Consistent;
    var before := scores[..j];
    MapsStayed(scores, j);
    MapsStayed(scores, i);
    assert before[..i] == scores[..i];
    BestStays(before, i);
    SameKeySameBest(Run(before).table, scores[i], scores[j]);
    BeatsTheBest(Run(before).table, scores[j]);
  }

  /** The submission handler on the live objects. */
  class Submissions {
    var table: seq<Row>
    var stats: map<Who, Stats>

    ghost function Contents(): Books
      reads this
    {
      Books(table, stats)
    }

    constructor ()
      ensures Contents() == Books([], map[]) && Consistent(Contents())
    {
      table, stats := [], map[];
      new;
      NothingIsConsistent();
    }

    /** fetch_many(…, status = BEST)[0], if there is one. */
    method FetchBest(s: Score) returns (r: Option<Row>)
      ensures r == PrevBest(table, s)
    {
      var i := |table|;
      assert table[..|table|] == table;
      while i > 0
        invariant 0 <= i <= |table| && PrevBest(table, s) == PrevBest(table[..i], s)
      {
        assert table[..i][..i - 1] == table[..i - 1];
        if IsBestOf(table[i - 1], s) { return Some(table[i - 1]); }
        i := i - 1;
      }
      return None;
    }

    /** calculate_status. */
    method CalculateStatus(s: Score) returns (status: SubmissionStatus, prevBest: Option<Row>)
      ensures status == Status(table, s)
      ensures s.passed ==> prevBest == PrevBest(table, s)
    {
      prevBest := None;
      if !s.passed { return FAILED, prevBest; }
      prevBest := FetchBest(s);
      if prevBest == None { return BEST, prevBest; }
      if s.pp > prevBest.value.s.pp { return BEST, prevBest; }
      return SUBMITTED, prevBest;
    }

    /** From the status of the score to the update of the player's statistics. */
    method SubmitScore(s: Score)
      requires Consistent(Contents()) && OneStatus(table, s)
      modifies this
      ensures Contents() == Submit(old(Contents()), s)
      ensures Consistent(Contents())
      ensures Recorded(old(table), table, s)
      ensures forall prev | BestSoFar(prev, old(table), s) :: Credited(old(Contents().Of(s.who)), Contents().Of(s.who), s, prev)
      ensures forall who | who != s.who :: Contents().Of(who) == old(Contents().Of(who))
    {
      hide Consistent, OneStatus, Demote, PrevBest, HasColumns, Recorded, Credited, BestSoFar;
      SubmitKeepsConsistent(Contents(), s);
      SubmitRecords(Contents(), s);
      ColumnsOf(Contents(), s.who);
      var status, prevBest := CalculateStatus(s);
      var st := if s.who in stats then stats[s.who] else NO_STATS;
      st := Counted(st, s, status, prevBest, table);
      if status.BEST? { table := Demote(table, s); }
      table := table + [Row(s, status)];
      stats := stats[s.who := st];
    }
  }

  /** The update of the statistics, given the status of the score and the best one before it. */
  method Counted(stats: Stats, s: Score, status: SubmissionStatus, prevBest: Option<Row>, ghost table: seq<Row>) returns (st: Stats)
    requires HasColumns(stats) && status == Status(table, s) && (s.passed ==> prevBest == PrevBest(table, s))
    ensures st == Update(stats, table, s)
  {
    hide PrevBest;
    st := stats.(playtime := stats.playtime + s.timeElapsed / 1000, plays := stats.plays + 1,
                 tscore := stats.tscore + s.score, totalHits := stats.totalHits + Hits(s));
    if s.passed && s.bmap.status.HasLeaderboard() {
      if s.maxCombo > st.maxCombo { st := st.(maxCombo := s.maxCombo); }
      if s.bmap.status.AwardsRankedPp() && status.BEST? {
        var additional: int := s.score;
        var grades := st.grades;
        if prevBest.Some? {
          additional := additional - prevBest.value.s.score;
          if s.grade != prevBest.value.s.grade {
            if s.grade.Counted() { grades := grades[s.grade := grades[s.grade] + 1]; }
            if prevBest.value.s.grade.Counted() { grades := grades[prevBest.value.s.grade := grades[prevBest.value.s.grade] - 1]; }
          }
        } else {
          if s.grade.Counted() { grades := grades[s.grade := grades[s.grade] + 1]; }
        }
        st := st.(rscore := st.rscore + additional, grades := grades);
      }
    }
  }

  lemma BestSoFarIsFound(prev: Option<Row>, table: seq<Row>, s: Score)
    requires OneBest(table) && BestSoFar(prev, table, s)
    ensures PrevBest(table, s) == prev
  {
    hide PrevBest, OneBest;
    if prev.Some? {
      var i :| 0 <= i < |table| && table[i] == prev.value;
      TheBest(table, s, i);
    }
  }

  lemma UpdateCredits(stats: Stats, table: seq<Row>, s: Score, prev: Option<Row>)
    requires HasColumns(stats) && OneBest(table) && BestSoFar(prev, table, s)
    ensures Credited(stats, Update(stats, table, s), s, prev)
  {
    BestSoFarIsFound(prev, table, s);
    hide PrevBest, OneBest, BestSoFar, NewGrades, HoldsBest, Bump;
    forall g: Grade | g.Counted() { GradeCount(stats.grades, s.grade, prev, g); }
  }

  lemma InsertRecords(table: seq<Row>, s: Score)
    requires OneBest(table)
    ensures Recorded(table, Insert(table, s), s)
  {
    hide PrevBest, Demote, OneBest;
    forall r | r in table && HoldsBest(r, s) ensures PrevBest(table, s) == Some(r) {
      var i :| 0 <= i < |table| && table[i] == r;
      TheBest(table, s, i);
    }
  }

  lemma SubmitRecords(books: Books, s: Score)
    requires Consistent(books)
    ensures HasColumns(books.Of(s.who))
    ensures var (a, b) := (books.Of(s.who), Submit(books, s).Of(s.who));
      && Recorded(books.table, Submit(books, s).table, s)
      && forall prev | BestSoFar(prev, books.table, s) :: Credited(a, b, s, prev)
  {
    ColumnsOf(books, s.who);
    hide Recorded, Credited, BestSoFar, Insert, Update, Agree, OneBest, BestIsBest, HasColumns;
    InsertRecords(books.table, s);
    forall prev | BestSoFar(prev, books.table, s) { UpdateCredits(books.Of(s.who), books.table, s, prev); }
  }

  lemma ColumnsOf(books: Books, who: Who)
    requires Consistent(books)
    ensures HasColumns(books.Of(who))
  {
  }
}
