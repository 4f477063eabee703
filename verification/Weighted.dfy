/**
 Total pp and overall accuracy: the scores in descending order of pp, each weighing 5% less than the
 one before. Floats are modelled as reals.
 */
module Weighted {
  function Exp(x: real, n: nat): real {
    if n == 0 then 1.0 else x * Exp(x, n - 1)
  }

  /** sum(v * 0.95**i for i, v in enumerate(s)), up to but without index n. */
  function SumTo(s: seq<real>, n: nat): real
    requires n <= |s|
  {
    if n == 0 then 0.0 else SumTo(s, n - 1) + s[n - 1] * Exp(0.95, n - 1)
  }

  function WeightedSum(s: seq<real>): real { SumTo(s, |s|) }

  /** The same sum, one factor at a time. */
  function W(s: seq<real>): real {
    if s == [] then 0.0 else s[0] + 0.95 * W(s[1..])
  }

  lemma {:induction false} SumToOfTail(s: seq<real>, n: nat)
    requires 0 < n <= |s|
    ensures SumTo(s, n) == s[0] + 0.95 * SumTo(s[1..], n - 1)
  {
    if n > 1 {
      SumToOfTail(s, n - 1);
    }
  }

  lemma {:induction false} HornerForm(s: seq<real>)
    ensures WeightedSum(s) == W(s)
  {
    if s != [] {
      SumToOfTail(s, |s|);
      HornerForm(s[1..]);
    }
  }

  // powers

  lemma {:induction false} ExpShrinks(x: real, n: nat)
    requires 0.0 < x < 1.0
    ensures 0.0 < Exp(x, n) <= 1.0 && (n > 0 ==> Exp(x, n) < 1.0)
  {
    if n > 0 {
      ExpShrinks(x, n - 1);
    }
  }

  // sorting

  ghost predicate Desc(s: seq<real>) { forall i, j | 0 <= i < j < |s| :: s[i] >= s[j] }

  function Ins(x: real, s: seq<real>): (r: seq<real>)
    ensures multiset(r) == multiset([x] + s)
    ensures Desc(s) ==> Desc(r)
  {
    if s == [] || x >= s[0] then [x] + s
    else
      assert s == [s[0]] + s[1..];
      var r := Ins(x, s[1..]);
      InsDesc(x, s, r);
      Behind(x, s[0], s[1..], r);
      [s[0]] + r
  }

  lemma Behind(x: real, y: real, s: seq<real>, r: seq<real>)
    requires multiset(r) == multiset([x] + s)
    ensures multiset([y] + r) == multiset([x] + ([y] + s))
  {
  }

  lemma InsDesc(x: real, s: seq<real>, r: seq<real>)
    requires s != [] && x < s[0] && multiset(r) == multiset([x] + s[1..]) && (Desc(s[1..]) ==> Desc(r))
    ensures Desc(s) ==> Desc([s[0]] + r)
  {
    if Desc(s) {
      forall i | 0 <= i < |r| ensures r[i] <= s[0] {
        assert r[i] in multiset(r);
        assert r[i] in [x] + s[1..];
        var k :| 0 <= k < |s| && ([x] + s[1..])[k] == r[i];
      }
    }
  }

  /** ORDER BY pp DESC */
  function Sort(s: seq<real>): (r: seq<real>)
    ensures multiset(r) == multiset(s) && Desc(r) && |r| == |s|
  {
    if s == [] then []
    else
      assert s == [s[0]] + s[1..];
      var r := Ins(s[0], Sort(s[1..]));
      assert |r| == |multiset(r)| == |multiset(s)| == |s|;
      r
  }

  lemma FirstIsMax(s: seq<real>, v: real)
    requires Desc(s) && v in multiset(s)
    ensures s != [] && v <= s[0]
  {
    var i :| 0 <= i < |s| && s[i] == v;
  }

  lemma DescTail(s: seq<real>)
    requires Desc(s) && s != []
    ensures Desc(s[1..])
  {
  }

  lemma TailMultiset(s: seq<real>)
    requires s != []
    ensures multiset(s[1..]) == multiset(s) - multiset{s[0]} && s[0] in multiset(s)
  {
    assert s == [s[0]] + s[1..];
  }

  /** There is only one descending order. */
  lemma {:induction false} DescIsUnique(a: seq<real>, b: seq<real>)
    requires Desc(a) && Desc(b) && multiset(a) == multiset(b)
    ensures a == b
  {
    assert |a| == |multiset(a)| == |multiset(b)| == |b|;
    if a != [] {
      SameHead(a, b);
      DescIsUnique(a[1..], b[1..]);
      Whole(a, b);
    }
  }

  lemma SameHead(a: seq<real>, b: seq<real>)
    requires Desc(a) && Desc(b) && multiset(a) == multiset(b) && a != [] && b != []
    ensures a[0] == b[0] && Desc(a[1..]) && Desc(b[1..]) && multiset(a[1..]) == multiset(b[1..])
  {
    hide Desc;
    TailMultiset(a);
    FirstIsMax(b, a[0]);
    TailMultiset(b);
    FirstIsMax(a, b[0]);
    DescTail(a);
    DescTail(b);
  }

  lemma Whole(a: seq<real>, b: seq<real>)
    requires a != [] && b != [] && a[0] == b[0] && a[1..] == b[1..]
    ensures a == b
  {
    assert a == [a[0]] + a[1..] && b == [b[0]] + b[1..];
  }

  predicate Within(s: seq<real>, lo: real, hi: real) { forall i | 0 <= i < |s| :: lo <= s[i] <= hi }

  predicate NonNegative(s: seq<real>) { forall i | 0 <= i < |s| :: s[i] >= 0.0 }

  /** What holds of all scores holds of them in any order. */
  lemma SameScores(a: seq<real>, b: seq<real>, lo: real, hi: real)
    requires multiset(a) == multiset(b)
    ensures Within(a, lo, hi) ==> Within(b, lo, hi)
    ensures NonNegative(a) ==> NonNegative(b)
  {
    forall i | 0 <= i < |b| ensures b[i] in a {
      assert b[i] in multiset(b);
    }
  }

  // descending order is the best order

  lemma {:induction false} InsGains(x: real, s: seq<real>)
    ensures W(Ins(x, s)) >= x + 0.95 * W(s)
  {
    if s == [] || x >= s[0] {
      assert ([x] + s)[1..] == s;
    } else {
      InsGains(x, s[1..]);
      assert ([s[0]] + Ins(x, s[1..]))[1..] == Ins(x, s[1..]);
    }
  }

  lemma {:induction false} SortGains(s: seq<real>)
    ensures W(Sort(s)) >= W(s)
  {
    if s != [] {
      SortGains(s[1..]);
      InsGains(s[0], Sort(s[1..]));
    }
  }

  /** No order of the same scores has a larger weighted sum than the descending one. */
  lemma DescendingIsMaximal(best: seq<real>, other: seq<real>)
    requires Desc(best) && multiset(best) == multiset(other)
    ensures WeightedSum(best) >= WeightedSum(other)
  {
    DescIsUnique(best, Sort(other));
    SortGains(other);
    HornerForm(best);
    HornerForm(other);
  }

  // bounds

  /** The weights of n scores add up to 20 * (1 - 0.95**n). */
  function Weights(n: nat): real { 20.0 * (1.0 - Exp(0.95, n)) }

  lemma {:induction false} WeightsAddUp(n: nat)
    ensures W(seq(n, _ => 1.0)) == Weights(n)
  {
    if n > 0 {
      WeightsAddUp(n - 1);
      assert seq(n, _ => 1.0)[1..] == seq(n - 1, _ => 1.0);
    }
  }

  lemma BetweenStep(x: real, t: real, w: real, lo: real, hi: real)
    requires lo <= x <= hi && lo * w <= t <= hi * w
    ensures lo * (1.0 + 0.95 * w) <= x + 0.95 * t <= hi * (1.0 + 0.95 * w)
  {
    assert lo * (1.0 + 0.95 * w) == lo + 0.95 * (lo * w);
    assert hi * (1.0 + 0.95 * w) == hi + 0.95 * (hi * w);
  }

  lemma {:induction false} Between(s: seq<real>, lo: real, hi: real)
    requires Within(s, lo, hi)
    ensures lo * Weights(|s|) <= W(s) <= hi * Weights(|s|)
  {
    if s != [] {
      Between(s[1..], lo, hi);
      assert Weights(|s|) == 1.0 + 0.95 * Weights(|s| - 1);
      BetweenStep(s[0], W(s[1..]), Weights(|s| - 1), lo, hi);
      hide Weights;
    }
  }

  lemma WeightsAreBounded(n: nat)
    ensures 0.0 <= Weights(n) < 20.0 && (n > 0 ==> Weights(n) > 0.0)
  {
    ExpShrinks(0.95, n);
  }

  lemma Scale(a: real, b: real, c: real)
    requires a <= b && c >= 0.0
    ensures c * a <= c * b
  {
  }

  // more or better scores

  lemma FirstIsNoLoss(x: real, s: seq<real>)
    requires Desc(s) && NonNegative(s) && s != [] && x >= s[0]
    ensures x + 0.95 * W(s) >= W(s)
  {
    Between(s, 0.0, s[0]);
    WeightsAreBounded(|s|);
    Scale(Weights(|s|), 20.0, s[0]);
    hide W, Weights, Desc;
  }

  /** A further score does not lower the sum. */
  lemma {:induction false} InsIsNoLoss(x: real, s: seq<real>)
    requires x >= 0.0 && Desc(s) && NonNegative(s)
    ensures W(Ins(x, s)) >= W(s)
  {
    if s == [] {
    } else if x >= s[0] {
      assert ([x] + s)[1..] == s;
      FirstIsNoLoss(x, s);
    } else {
      InsIsNoLoss(x, s[1..]);
      assert ([s[0]] + Ins(x, s[1..]))[1..] == Ins(x, s[1..]);
    }
  }

  lemma {:induction false} Pointwise(a: seq<real>, b: seq<real>)
    requires |a| == |b| && forall i | 0 <= i < |a| :: a[i] <= b[i]
    ensures W(a) <= W(b)
  {
    if a != [] {
      Pointwise(a[1..], b[1..]);
    }
  }

  /** Only the scores matter, not the order in which they come. */
  lemma SortOf(a: seq<real>, b: seq<real>)
    requires multiset(a) == multiset(b)
    ensures Sort(a) == Sort(b)
  {
    DescIsUnique(Sort(a), Sort(b));
  }

  lemma AddedScore(s: seq<real>, x: real)
    requires x >= 0.0 && NonNegative(s)
    ensures W(Sort(s + [x])) >= W(Sort(s))
  {
    SortOf(s + [x], [x] + s);
    assert ([x] + s)[1..] == s;
    assert Sort([x] + s) == Ins(x, Sort(s));
    SameScores(s, Sort(s), 0.0, 0.0);
    InsIsNoLoss(x, Sort(s));
  }

  lemma BetterScore(s: seq<real>, i: nat, x: real)
    requires i < |s| && s[i] <= x
    ensures W(Sort(s[i := x])) >= W(Sort(s))
  {
    var sorted := Sort(s);
    hide Sort, W, Ins, Desc;
    assert s[i] in multiset(sorted) by { assert s[i] in multiset(s); }
    var j :| 0 <= j < |sorted| && sorted[j] == s[i];
    var raised := sorted[j := x];
    SortOf(s[i := x], raised);
    Pointwise(sorted, raised);
    SortGains(raised);
  }

  // total pp

  function Bonus(n: nat): real { 416.6667 * (1.0 - Exp(0.9994, n)) }

  /** No score, no bonus; and every further score adds 0.06% less than the one before. */
  lemma BonusSteps(n: nat)
    ensures Bonus(0) == 0.0 && Bonus(1) == 416.6667 * 0.0006
    ensures Bonus(n + 2) - Bonus(n + 1) == 0.9994 * (Bonus(n + 1) - Bonus(n))
  {
    assert Exp(0.9994, n + 2) == 0.9994 * Exp(0.9994, n + 1) && Exp(0.9994, n + 1) == 0.9994 * Exp(0.9994, n);
  }

  lemma {:induction false} BonusGrows(m: nat, n: nat)
    requires m <= n
    ensures 0.0 <= Bonus(m) <= Bonus(n) < 416.6667
    decreases n
  {
    ExpShrinks(0.9994, n);
    ExpShrinks(0.9994, m);
    if m < n {
      BonusGrows(m, n - 1);
      ExpShrinks(0.9994, n - 1);
    }
  }

  /** The total before rounding, from the scores in any order. */
  function TotalPp(pps: seq<real>): real { WeightedSum(Sort(pps)) + Bonus(|pps|) }

  /** Python's round: to the nearest integer, and to the even one of two. */
  function Round(x: real): (r: int)
    ensures x - 0.5 <= r as real <= x + 0.5
    ensures r as real - x == 0.5 || x - r as real == 0.5 ==> r % 2 == 0
  {
    var f := x.Floor;
    var d := x - f as real;
    if d < 0.5 || (d == 0.5 && f % 2 == 0) then f else f + 1
  }

  lemma RoundIsMonotone(x: real, y: real)
    requires x <= y
    ensures Round(x) <= Round(y)
  {
  }

  lemma MoreScoresMorePp(s: seq<real>, x: real)
    requires x >= 0.0 && NonNegative(s)
    ensures TotalPp(s + [x]) >= TotalPp(s)
  {
    AddedScore(s, x);
    HornerForm(Sort(s));
    HornerForm(Sort(s + [x]));
    BonusGrows(|s|, |s| + 1);
  }

  lemma BetterScoreMorePp(s: seq<real>, i: nat, x: real)
    requires i < |s| && s[i] <= x
    ensures TotalPp(s[i := x]) >= TotalPp(s)
  {
    BetterScore(s, i, x);
    HornerForm(Sort(s));
    HornerForm(Sort(s[i := x]));
  }

  lemma SumIsBounded(s: seq<real>, max: real)
    requires max >= 0.0 && Within(s, 0.0, max)
    ensures 0.0 <= WeightedSum(s) <= 20.0 * max
  {
    hide *;
    Between(s, 0.0, max);
    WeightsAreBounded(|s|);
    HornerForm(s);
    InProduct(W(s), Weights(|s|), max);
  }

  lemma InProduct(sum: real, weights: real, max: real)
    requires 0.0 <= weights <= 20.0 && max >= 0.0 && 0.0 * weights <= sum <= max * weights
    ensures 0.0 <= sum <= 20.0 * max
  {
  }

  /** The total stays below twenty times the best score and the full bonus. */
  lemma TotalIsBounded(s: seq<real>, max: real)
    requires max >= 0.0 && Within(s, 0.0, max)
    ensures 0.0 <= TotalPp(s) < 20.0 * max + 416.6667
  {
    hide Sort, Bonus, WeightedSum, Within;
    SameScores(s, Sort(s), 0.0, max);
    SumIsBounded(Sort(s), max);
    BonusGrows(|s|, |s|);
  }

  // accuracy

  /** bonus_acc is only defined when there is a score. */
  function Accuracy(accs: seq<real>): real
    requires Weights(|accs|) != 0.0
  {
    var bonusAcc := 100.0 / Weights(|accs|);
    WeightedSum(accs) * bonusAcc / 100.0
  }

  /** With at least one score the divisor is not zero, and the accuracy is the mean by the weights. */
  lemma AccuracyIsTheMean(accs: seq<real>)
    requires accs != []
    ensures Weights(|accs|) != 0.0
    ensures Accuracy(accs) * W(seq(|accs|, _ => 1.0)) == W(accs)
  {
    WeightsAreBounded(|accs|);
    WeightsAddUp(|accs|);
    HornerForm(accs);
    PercentOfPercent(WeightedSum(accs), Weights(|accs|));
    hide W, WeightedSum, Weights;
  }

  lemma PercentOfPercent(sum: real, w: real)
    requires w > 0.0
    ensures sum * (100.0 / w) / 100.0 == sum / w
    ensures sum / w * w == sum
  {
    var q := 100.0 / w;
    assert q * w == 100.0;
    assert sum * q / 100.0 * w == sum * (q * w) / 100.0;
  }

  /** So it lies between the extremes. */
  lemma AccuracyIsAMean(accs: seq<real>, lo: real, hi: real)
    requires accs != [] && Within(accs, lo, hi)
    ensures Weights(|accs|) != 0.0
    ensures lo <= Accuracy(accs) <= hi
  {
    hide *;
    WeightsAreBounded(|accs|);
    WeightsAddUp(|accs|);
    AccuracyIsTheMean(accs);
    Between(accs, lo, hi);
    Quotient(Accuracy(accs), Weights(|accs|), W(accs), lo, hi);
  }

  lemma Quotient(q: real, w: real, sum: real, lo: real, hi: real)
    requires w > 0.0 && q * w == sum && lo * w <= sum <= hi * w
    ensures lo <= q <= hi
  {
    Cancel(lo, q, w);
    Cancel(q, hi, w);
  }

  lemma Cancel(a: real, b: real, w: real)
    requires w > 0.0 && a * w <= b * w
    ensures a <= b
  {
  }
}
