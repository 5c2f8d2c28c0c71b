/**
 The garage records of the dashboard and the per-garage derivation that both
 versions of `calculateStats` share: total, extremes with their days, progress
 against the target and the estimated days to reach it. The two versions differ
 only in how they obtain the average, so the average is an input here.
 */
module Garages {
  import opened SpendMath

  /** A garage as the dataset lists it; day 1 is `dailySpend[0]`. */
  datatype Garage = Garage(name: string, account: string, dailySpend: seq<real>)

  /** Estimated days to target: a whole number of days, or the `'∞'` sentinel. */
  datatype Eta = Days(days: int) | Unreachable

  /** A garage with its fields kept (`...garage`) and the derived statistics. */
  datatype GarageStats = GarageStats(
    garage: Garage,
    total: real,
    average: real,
    highest: real,
    highestDay: int,
    lowest: real,
    lowestDay: int,
    progressPercent: real,
    estDaysToTarget: Eta)

  /** Spending `average` a day, `total` reaches `target` after n days and not after n - 1. */
  ghost predicate ReachesTargetIn(n: int, target: real, total: real, average: real)
  {
    total + (n - 1) as real * average < target <= total + n as real * average
  }

  /**
   What a derived record means, stated without the computation: the record
   keeps the garage, its total is the sum of the series, the highest value
   bounds the series and first occurs on its day, the lowest value is bounded
   by the series and last occurs on its day, the progress is the share of the
   target capped at 100, and the estimate is the sentinel exactly when the
   average is not positive and otherwise the number of days the average needs.
   */
  ghost predicate Describes(r: GarageStats, g: Garage, target: real)
  {
    var s := g.dailySpend;
    && r.garage == g
    && r.total == Sum(s)
    && 1 <= r.highestDay <= |s| && s[r.highestDay - 1] == r.highest
    && (forall j :: 0 <= j < |s| ==> s[j] <= r.highest)
    && (forall j :: 0 <= j < r.highestDay - 1 ==> s[j] < r.highest)
    && 1 <= r.lowestDay <= |s| && s[r.lowestDay - 1] == r.lowest
    && (forall j :: 0 <= j < |s| ==> r.lowest <= s[j])
    && (forall j :: r.lowestDay - 1 < j < |s| ==> r.lowest < s[j])
    && r.progressPercent <= 100.0
    && (r.progressPercent == 100.0 <==> r.total >= target)
    && (r.total < target ==> r.progressPercent * target == r.total * 100.0)
    && (r.estDaysToTarget == Unreachable <==> r.average <= 0.0)
    && (r.estDaysToTarget.Days? ==>
          ReachesTargetIn(r.estDaysToTarget.days, target, r.total, r.average))
  }

  /** `highestIndex + 1`: the day of the first occurrence of the highest spend. */
  function HighestDay(s: seq<real>): (day: int)
    requires |s| > 0
    ensures 1 <= day <= |s| && s[day - 1] == Max(s)
    ensures forall j :: 0 <= j < day - 1 ==> s[j] < s[day - 1]
  {
    IndexOf(s, Max(s)) + 1
  }

  /** `lowestIndex + 1`: the day of the last occurrence of the lowest spend. */
  function LowestDay(s: seq<real>): (day: int)
    requires |s| > 0
    ensures 1 <= day <= |s| && s[day - 1] == Min(s)
    ensures forall j :: day - 1 < j < |s| ==> s[day - 1] < s[j]
  {
    LastIndexOf(s, Min(s)) + 1
  }

  /** `Math.min((total / target) * 100, 100)`: the share of the target, capped at 100. */
  function ProgressPercent(total: real, target: real): (p: real)
    requires target > 0.0
    ensures p <= 100.0
    ensures p == 100.0 <==> total >= target
    ensures total < target ==> p * target == total * 100.0
    ensures total >= 0.0 ==> p >= 0.0
  {
    var share := total / target * 100.0;
    if share < 100.0 then share else 100.0
  }

  /**
   `average > 0 ? Math.ceil((target - total) / average) : '∞'`. The estimate is
   not clamped: it is zero or negative exactly when the target is already met.
   */
  function EstimatedDays(target: real, total: real, average: real): (eta: Eta)
    ensures eta == Unreachable <==> average <= 0.0
    ensures eta.Days? ==> ReachesTargetIn(eta.days, target, total, average)
    ensures eta.Days? ==> (eta.days <= 0 <==> total >= target)
  {
    if average > 0.0 then
      var n := Ceil((target - total) / average);
      DaysToTargetBounds(n, (target - total) / average, target - total, average);
      Days(n)
    else
      Unreachable
  }

  /** From `n - 1 < x <= n` with `x = remaining / average` to the same bounds on whole amounts. */
  lemma DaysToTargetBounds(n: int, x: real, remaining: real, average: real)
    requires average > 0.0 && x == remaining / average
    requires n as real - 1.0 < x <= n as real
    ensures (n - 1) as real * average < remaining <= n as real * average
    ensures n <= 0 <==> remaining <= 0.0
  {
    assert x * average == remaining;
    assert (n - 1) as real * average < x * average;
    assert x * average <= n as real * average;
    if n <= 0 {
      assert n as real * average <= 0.0;
    }
    if remaining <= 0.0 {
      assert (n - 1) as real * average < 0.0;
    }
  }

  /**
   The record `calculateStats` builds for one garage, given the average the
   version at hand derives from the total.
   */
  function Enrich(g: Garage, target: real, average: real): (r: GarageStats)
    requires target > 0.0 && |g.dailySpend| > 0
    ensures Describes(r, g, target) && r.average == average
  {
    var s := g.dailySpend;
    var total := Sum(s);
    GarageStats(
      g,
      total,
      average,
      Max(s),
      HighestDay(s),
      Min(s),
      LowestDay(s),
      ProgressPercent(total, target),
      EstimatedDays(target, total, average))
  }

  /** The description leaves no freedom: for a given average at most one record meets it. */
  lemma DescribesDetermines(r1: GarageStats, r2: GarageStats, g: Garage, target: real)
    requires target > 0.0
    requires Describes(r1, g, target) && Describes(r2, g, target)
    requires r1.average == r2.average
    ensures r1 == r2
  {
    var s := g.dailySpend;
    assert r1.highest == r2.highest by {
      assert s[r2.highestDay - 1] <= r1.highest;
      assert s[r1.highestDay - 1] <= r2.highest;
    }
    assert r1.lowest == r2.lowest by {
      assert r1.lowest <= s[r2.lowestDay - 1];
      assert r2.lowest <= s[r1.lowestDay - 1];
    }
    if r1.total < target {
      assert r1.progressPercent * target == r2.progressPercent * target;
    }
    if r1.estDaysToTarget.Days? {
      var n1, n2 := r1.estDaysToTarget.days, r2.estDaysToTarget.days;
      EtaUnique(n1, n2, target, r1.total, r1.average);
    }
  }

  /** Two day counts that both reach the target just in time are the same count. */
  lemma EtaUnique(n1: int, n2: int, target: real, total: real, average: real)
    requires average > 0.0
    requires ReachesTargetIn(n1, target, total, average)
    requires ReachesTargetIn(n2, target, total, average)
    ensures n1 == n2
  {
  }

  /** With a positive average the estimate is `Math.ceil((target - total) / average)` and nothing else. */
  lemma EtaIsCeil(r: GarageStats, g: Garage, target: real)
    requires Describes(r, g, target) && r.average > 0.0
    ensures r.estDaysToTarget == Days(Ceil((target - r.total) / r.average))
  {
    var eta := EstimatedDays(target, r.total, r.average);
    EtaUnique(r.estDaysToTarget.days, eta.days, target, r.total, r.average);
  }

  /** With no negative spend the progress lies in [0, 100], even when the total passes the target. */
  lemma ProgressInRange(r: GarageStats, g: Garage, target: real)
    requires target > 0.0 && Describes(r, g, target)
    requires forall i :: 0 <= i < |g.dailySpend| ==> g.dailySpend[i] >= 0.0
    ensures 0.0 <= r.progressPercent <= 100.0
  {
    SumNonNegative(g.dailySpend);
    if r.total < target {
      assert r.progressPercent * target >= 0.0;
    }
  }

  /** A garage that spent nothing has no positive average and gets the sentinel, whatever the target. */
  lemma ZeroSpendIsUnreachable(r: GarageStats, g: Garage, target: real, totalWeight: real)
    requires Describes(r, g, target)
    requires forall i :: 0 <= i < |g.dailySpend| ==> g.dailySpend[i] == 0.0
    requires r.average == 0.0 || (totalWeight != 0.0 && r.average == r.total / totalWeight)
    ensures r.estDaysToTarget == Unreachable
  {
    SumOfZeros(g.dailySpend);
  }
}
