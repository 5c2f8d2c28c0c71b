/**
 The earlier single-branch dashboard (`app.js`). Its `calculateStats` counts
 only the weights of the days whose key compares `<= 8` as a number, and divides
 by that total weight without a guard.
 */
module App {
  import opened Wrappers
  import opened SpendMath
  import opened Garages

  /** One own property of the `dayWeights` object: its key and its weight. */
  datatype DayWeight = DayWeight(day: string, weight: real)

  /**
   The parsed document: the target, the entries of `dayWeights` in the order
   `Object.keys` lists them, and the garages.
   */
  datatype Dataset = Dataset(target: real, dayWeights: seq<DayWeight>, garages: seq<Garage>)

  predicate IsDigits(s: string)
  {
    forall i :: 0 <= i < |s| ==> '0' <= s[i] <= '9'
  }

  /** The value of a string of decimal digits, read left to right; the empty string reads 0. */
  function DigitsValue(s: string): nat
    requires IsDigits(s)
  {
    if |s| == 0 then 0 else DigitsValue(s[..|s| - 1]) * 10 + (s[|s| - 1] as int - '0' as int)
  }

  /**
   The number a key becomes when `d <= 8` compares it with a number: a string
   of decimal digits gives its value (the empty string gives 0), anything else
   gives `NaN`, shown here as `None`.
   */
  function KeyNumber(key: string): (n: Option<real>)
    ensures n.Some? <==> IsDigits(key)
    ensures n.Some? ==> n.value >= 0.0
  {
    if IsDigits(key) then Some(DigitsValue(key) as real) else None
  }

  /** The filter `d => d <= 8`: a `NaN` key compares false, so only digit keys worth at most 8 pass. */
  predicate IsCurrentDay(day: string)
    ensures IsCurrentDay(day) <==> IsDigits(day) && DigitsValue(day) <= 8
  {
    match KeyNumber(day)
    case Some(v) => v <= 8.0
    case None => false
  }

  /** The key a day number has in the document: its decimal digits, without leading zeros. */
  function DayKey(n: nat): (s: string)
    ensures |s| > 0 && IsDigits(s)
  {
    if n < 10 then [('0' as int + n) as char]
    else DayKey(n / 10) + [('0' as int + n % 10) as char]
  }

  /** Reading a day's key back as a number gives the day. */
  lemma {:induction false} DayKeyRoundTrip(n: nat)
    ensures KeyNumber(DayKey(n)) == Some(n as real)
  {
    if n >= 10 {
      DayKeyRoundTrip(n / 10);
      var s := DayKey(n);
      assert s[..|s| - 1] == DayKey(n / 10);
      assert DigitsValue(s) == DigitsValue(DayKey(n / 10)) * 10 + n % 10;
    } else {
      assert DigitsValue(DayKey(n)) == DigitsValue([]) * 10 + n by {
        assert DayKey(n)[..0] == [];
      }
    }
  }

  /** A day counts towards the weight exactly when its number is at most 8; `"10"` is not current although it sorts before `"8"` as text. */
  lemma DayKeyIsCurrent(n: nat)
    ensures IsCurrentDay(DayKey(n)) <==> n <= 8
  {
    DayKeyRoundTrip(n);
  }

  /** `Object.keys(dayWeights).filter(d => d <= 8)`, kept with the weights the keys look up. */
  function CurrentDays(w: seq<DayWeight>): (r: seq<DayWeight>)
    ensures |r| <= |w|
    ensures forall e :: multiset(r)[e] == if IsCurrentDay(e.day) then multiset(w)[e] else 0
    ensures forall e :: e in r ==> e in w && IsCurrentDay(e.day)
    ensures forall e :: e in w && IsCurrentDay(e.day) ==> e in r
  {
    if |w| == 0 then []
    else
      var rest := CurrentDays(w[..|w| - 1]);
      var last := w[|w| - 1];
      assert w == w[..|w| - 1] + [last];
      assert forall e :: e in w ==> e in w[..|w| - 1] || e == last;
      if IsCurrentDay(last.day) then rest + [last] else rest
  }

  /** The weights of a list of entries, in order. */
  function Weights(w: seq<DayWeight>): (r: seq<real>)
    ensures |r| == |w| && forall i :: 0 <= i < |w| ==> r[i] == w[i].weight
  {
    seq(|w|, i requires 0 <= i < |w| => w[i].weight)
  }

  /**
   `currentDay.reduce((sum, day) => sum + parseFloat(dayWeights[day]), 0)`.
   With no current day listed it is 0, the divisor the source then divides by.
   */
  function TotalWeight(w: seq<DayWeight>): (total: real)
    ensures (forall i :: 0 <= i < |w| ==> !IsCurrentDay(w[i].day)) ==> total == 0.0
    ensures (forall i :: 0 <= i < |w| ==> w[i].weight >= 0.0) ==> total >= 0.0
  {
    var current := CurrentDays(w);
    assert forall k :: 0 <= k < |current| ==> current[k] in w;
    if forall i :: 0 <= i < |w| ==> w[i].weight >= 0.0 then
      SumNonNegative(Weights(current));
      Sum(Weights(current))
    else
      Sum(Weights(current))
  }

  /** The total weight adds up entry by entry: a current day adds its weight, any other day adds nothing. */
  lemma {:induction false} TotalWeightAppend(w: seq<DayWeight>, e: DayWeight)
    ensures TotalWeight(w + [e]) == TotalWeight(w) + (if IsCurrentDay(e.day) then e.weight else 0.0)
  {
    assert (w + [e])[..|w + [e]| - 1] == w;
    var rest := CurrentDays(w);
    if IsCurrentDay(e.day) {
      assert Weights(rest + [e]) == Weights(rest) + [e.weight];
      SumAppend(Weights(rest), [e.weight]);
      SumSingleton(e.weight);
    }
  }

  /** A weight listed under day 9 or later leaves the total weight as it was. */
  lemma LaterDayIgnored(w: seq<DayWeight>, n: nat, weight: real)
    requires n > 8
    ensures TotalWeight(w + [DayWeight(DayKey(n), weight)]) == TotalWeight(w)
  {
    TotalWeightAppend(w, DayWeight(DayKey(n), weight));
    DayKeyIsCurrent(n);
  }

  /** The weights of a concatenation are the weights of its parts, in order. */
  lemma WeightsAppend(a: seq<DayWeight>, b: seq<DayWeight>)
    ensures Weights(a + b) == Weights(a) + Weights(b)
  {
  }

  /** When every key is a current day the filter keeps everything and all weights count. */
  lemma {:induction false} AllCurrentTotalWeight(w: seq<DayWeight>)
    requires forall i :: 0 <= i < |w| ==> IsCurrentDay(w[i].day)
    ensures TotalWeight(w) == Sum(Weights(w))
  {
    if |w| > 0 {
      var init, last := w[..|w| - 1], w[|w| - 1];
      assert w == init + [last];
      AllCurrentTotalWeight(init);
      TotalWeightAppend(init, last);
      WeightsAppend(init, [last]);
      SumAppend(Weights(init), Weights([last]));
      SumSingleton(last.weight);
    }
  }

  /**
   `calculateStats(data)`: one record per garage, in order, each keeping its
   garage; the average is the total over the current days' weight, with no
   zero guard, so that weight must not be zero.
   */
  function CalculateStats(data: Dataset): (stats: seq<GarageStats>)
    requires data.target > 0.0
    requires TotalWeight(data.dayWeights) != 0.0
    requires forall i :: 0 <= i < |data.garages| ==> |data.garages[i].dailySpend| > 0
    ensures |stats| == |data.garages|
    ensures forall i :: 0 <= i < |stats| ==>
              Describes(stats[i], data.garages[i], data.target)
              && stats[i].average == stats[i].total / TotalWeight(data.dayWeights)
  {
    var totalWeight := TotalWeight(data.dayWeights);
    seq(|data.garages|, i requires 0 <= i < |data.garages| =>
      Enrich(data.garages[i], data.target, Sum(data.garages[i].dailySpend) / totalWeight))
  }
}
