/**
 The branch dashboard (`mondello_app.js`): per-garage statistics for the
 selected branch, the colour of a progress bar, and the sort applied to a copy
 of the current statistics before they are shown.
 */
module MondelloApp {
  import opened Wrappers
  import opened SpendMath
  import opened Garages

  // ---------------------------------------------------------------------------
  // Statistics

  /** `totalWeight > 0 ? total / totalWeight : 0`: never a division by zero. */
  function Average(total: real, totalWeight: real): (avg: real)
    ensures totalWeight > 0.0 ==> avg * totalWeight == total
    ensures totalWeight <= 0.0 ==> avg == 0.0
  {
    if totalWeight > 0.0 then total / totalWeight else 0.0
  }

  /**
   `calculateStats(branchData, target, dayWeights)`: one record per garage of
   the branch, in the branch's order, each keeping its garage. The weight of
   every listed day counts towards the average's denominator.
   */
  function CalculateStats(garages: seq<Garage>, target: real, dayWeights: seq<real>): (stats: seq<GarageStats>)
    requires target > 0.0
    requires forall i :: 0 <= i < |garages| ==> |garages[i].dailySpend| > 0
    ensures |stats| == |garages|
    ensures forall i :: 0 <= i < |stats| ==>
              Describes(stats[i], garages[i], target)
              && stats[i].average == Average(stats[i].total, Sum(dayWeights))
  {
    var totalWeight := Sum(dayWeights);
    seq(|garages|, i requires 0 <= i < |garages| =>
      Enrich(garages[i], target, Average(Sum(garages[i].dailySpend), totalWeight)))
  }

  // ---------------------------------------------------------------------------
  // Progress-bar colour

  /** A colour as the `rgb(r,g,b)` string gives it. */
  datatype Rgb = Rgb(red: int, green: int, blue: int)

  /** `Math.min(Math.max(pct, 0), 100)`. */
  function ClampPercent(pct: real): (p: real)
    ensures 0.0 <= p <= 100.0
    ensures 0.0 <= pct <= 100.0 ==> p == pct
    ensures pct < 0.0 ==> p == 0.0
    ensures pct > 100.0 ==> p == 100.0
  {
    var atLeastZero := if pct > 0.0 then pct else 0.0;
    if atLeastZero < 100.0 then atLeastZero else 100.0
  }

  /**
   `getColorForPercent(pct)`: red fading to yellow over the first half, yellow
   fading to green over the second; blue is never used.
   */
  function ColorForPercent(pct: real): (c: Rgb)
    ensures c.blue == 0
    ensures 0 <= c.red <= 255 && 0 <= c.green <= 255
    ensures ClampPercent(pct) < 50.0 ==> c.red == 255
    ensures ClampPercent(pct) < 50.0 ==> -0.5 < c.green as real - 255.0 * ClampPercent(pct) / 50.0 <= 0.5
    ensures ClampPercent(pct) >= 50.0 ==> c.green == 255
    ensures ClampPercent(pct) >= 50.0 ==> -0.5 < c.red as real - 255.0 * (100.0 - ClampPercent(pct)) / 50.0 <= 0.5
  {
    var percent := ClampPercent(pct) / 100.0;
    if percent < 0.5 then
      var ratio := percent / 0.5;
      Rgb(255, Round(255.0 * ratio), 0)
    else
      var ratio := (percent - 0.5) / 0.5;
      Rgb(Round(255.0 * (1.0 - ratio)), 255, 0)
  }

  /** Percentages outside [0, 100] get the colour of the nearer end: pure red or pure green. */
  lemma ColorOutsideRange(pct: real)
    ensures pct <= 0.0 ==> ColorForPercent(pct) == Rgb(255, 0, 0)
    ensures pct >= 100.0 ==> ColorForPercent(pct) == Rgb(0, 255, 0)
  {
  }

  /** Half way the bar is yellow. */
  lemma ColorAtHalf()
    ensures ColorForPercent(50.0) == Rgb(255, 255, 0)
  {
  }

  /** More progress never makes the bar redder nor less green. */
  lemma ColorMonotone(p: real, q: real)
    requires p <= q
    ensures ColorForPercent(q).red <= ColorForPercent(p).red
    ensures ColorForPercent(p).green <= ColorForPercent(q).green
  {
    var a, b := ClampPercent(p) / 100.0, ClampPercent(q) / 100.0;
    assert a <= b;
    if b < 0.5 {
      RoundMonotone(255.0 * (a / 0.5), 255.0 * (b / 0.5));
    } else if 0.5 <= a {
      RoundMonotone(255.0 * (1.0 - (b - 0.5) / 0.5), 255.0 * (1.0 - (a - 0.5) / 0.5));
    }
  }

  // ---------------------------------------------------------------------------
  // Sorting

  /** The six entries of the sort drop-down. */
  datatype SortOrder = PercentDesc | PercentAsc | AverageDesc | AverageAsc | EtaAsc | EtaDesc

  /** The value of each drop-down entry. */
  function SortValue(order: SortOrder): string
  {
    match order
    case PercentDesc => "percent-desc"
    case PercentAsc => "percent-asc"
    case AverageDesc => "average-desc"
    case AverageAsc => "average-asc"
    case EtaAsc => "eta-asc"
    case EtaDesc => "eta-desc"
  }

  /** The `switch` of `applySortAndRender`: which entry, if any, a value selects. */
  function ParseSortValue(value: string): (order: Option<SortOrder>)
    ensures order.Some? ==> SortValue(order.value) == value
    ensures order.None? ==> forall o :: SortValue(o) != value
  {
    if value == "percent-desc" then Some(PercentDesc)
    else if value == "percent-asc" then Some(PercentAsc)
    else if value == "average-desc" then Some(AverageDesc)
    else if value == "average-asc" then Some(AverageAsc)
    else if value == "eta-asc" then Some(EtaAsc)
    else if value == "eta-desc" then Some(EtaDesc)
    else None
  }

  /** Every entry's value selects that entry. */
  lemma {:induction false} ParseSortValueRoundTrip(order: SortOrder)
    ensures ParseSortValue(SortValue(order)) == Some(order)
  {
    match order
    case PercentDesc =>
    case PercentAsc =>
    case AverageDesc =>
    case AverageAsc =>
    case EtaAsc =>
    case EtaDesc =>
  }

  /**
   The comparator handed to `sort`: positive means b goes first. For the ETA
   orders a `'∞'` first argument answers 1 and a `'∞'` second argument -1,
   whatever the direction; two `'∞'` answer 1 both ways.
   */
  function Compare(order: SortOrder, a: GarageStats, b: GarageStats): (r: real)
    ensures r == 0.0 <==> SameKey(order, a, b)
  {
    match order
    case PercentDesc => b.progressPercent - a.progressPercent
    case PercentAsc => a.progressPercent - b.progressPercent
    case AverageDesc => b.average - a.average
    case AverageAsc => a.average - b.average
    case EtaAsc =>
      if a.estDaysToTarget.Unreachable? then 1.0
      else if b.estDaysToTarget.Unreachable? then -1.0
      else (a.estDaysToTarget.days - b.estDaysToTarget.days) as real
    case EtaDesc =>
      if a.estDaysToTarget.Unreachable? then 1.0
      else if b.estDaysToTarget.Unreachable? then -1.0
      else (b.estDaysToTarget.days - a.estDaysToTarget.days) as real
  }

  /**
   x may stand before y in a list ordered by `order`. For the ETA orders every
   finite estimate comes before every `'∞'`, and the finite ones follow the
   direction; nothing is said about the order among `'∞'` records.
   */
  predicate NotAfter(order: SortOrder, x: GarageStats, y: GarageStats)
  {
    match order
    case PercentDesc => x.progressPercent >= y.progressPercent
    case PercentAsc => x.progressPercent <= y.progressPercent
    case AverageDesc => x.average >= y.average
    case AverageAsc => x.average <= y.average
    case EtaAsc =>
      y.estDaysToTarget.Unreachable?
      || (x.estDaysToTarget.Days? && x.estDaysToTarget.days <= y.estDaysToTarget.days)
    case EtaDesc =>
      y.estDaysToTarget.Unreachable?
      || (x.estDaysToTarget.Days? && x.estDaysToTarget.days >= y.estDaysToTarget.days)
  }

  /** The first n records are in order: each may stand before every later one among them. */
  ghost predicate SortedPrefix(s: seq<GarageStats>, n: int, order: SortOrder)
    requires 0 <= n <= |s|
  {
    forall p, q :: 0 <= p < q < n ==> NotAfter(order, s[p], s[q])
  }

  /** The whole list is in order. */
  ghost predicate Sorted(s: seq<GarageStats>, order: SortOrder)
  {
    SortedPrefix(s, |s|, order)
  }

  /**
   x and y have the same key, so a stable sort keeps them in their input
   order. A `'∞'` estimate ties with nothing: the ETA comparators answer 1
   for two of them both ways round, so no order among them is consistent.
   */
  predicate SameKey(order: SortOrder, x: GarageStats, y: GarageStats)
  {
    match order
    case PercentDesc => x.progressPercent == y.progressPercent
    case PercentAsc => x.progressPercent == y.progressPercent
    case AverageDesc => x.average == y.average
    case AverageAsc => x.average == y.average
    case EtaAsc => x.estDaysToTarget.Days? && x.estDaysToTarget == y.estDaysToTarget
    case EtaDesc => x.estDaysToTarget.Days? && x.estDaysToTarget == y.estDaysToTarget
  }

  /** The records of s that have the same key as x, in the order s lists them. */
  ghost function Ties(s: seq<GarageStats>, order: SortOrder, x: GarageStats): seq<GarageStats>
  {
    if |s| == 0 then []
    else Ties(s[..|s| - 1], order, x) + (if SameKey(order, s[|s| - 1], x) then [s[|s| - 1]] else [])
  }

  /** Same-key records keep their relative order: for every key, the records with it appear in the same sequence. */
  ghost predicate Stable(t: seq<GarageStats>, s: seq<GarageStats>, order: SortOrder)
  {
    forall x :: Ties(t, order, x) == Ties(s, order, x)
  }

  /** Picking out a key's records distributes over concatenation. */
  lemma {:induction false} TiesAppend(a: seq<GarageStats>, b: seq<GarageStats>, order: SortOrder, x: GarageStats)
    ensures Ties(a + b, order, x) == Ties(a, order, x) + Ties(b, order, x)
  {
    if |b| == 0 {
      assert a + b == a;
    } else {
      assert (a + b)[..|a + b| - 1] == a + b[..|b| - 1];
      TiesAppend(a, b[..|b| - 1], order, x);
    }
  }

  /** Two records with the same key as a third have the same key as each other. */
  lemma SameKeyShared(order: SortOrder, x: GarageStats, y: GarageStats, z: GarageStats)
    requires SameKey(order, x, z) && SameKey(order, y, z)
    ensures SameKey(order, x, y)
  {
  }

  /** Two records with different keys give the same picks in either order. */
  lemma TiesOfPair(x: GarageStats, y: GarageStats, order: SortOrder, z: GarageStats)
    requires !SameKey(order, x, y)
    ensures Ties([x, y], order, z) == Ties([y, x], order, z)
  {
    assert [x, y][..1] == [x] && [y, x][..1] == [y];
    assert [x][..0] == [] && [y][..0] == [];
    if SameKey(order, x, z) && SameKey(order, y, z) {
      SameKeyShared(order, x, y, z);
    }
  }

  /** Exchanging two neighbours with different keys moves no record past one with its key. */
  lemma TiesExchange(t: seq<GarageStats>, j: int, order: SortOrder)
    requires 0 <= j < |t| - 1
    requires !SameKey(order, t[j], t[j + 1])
    ensures Stable(t[j := t[j + 1]][j + 1 := t[j]], t, order)
  {
    var x, y := t[j], t[j + 1];
    var front, back := t[..j], t[j + 2..];
    assert t == front + [x, y] + back;
    assert t[j := y][j + 1 := x] == front + [y, x] + back;
    forall z
      ensures Ties(front + [y, x] + back, order, z) == Ties(front + [x, y] + back, order, z)
    {
      TiesAppend(front + [x, y], back, order, z);
      TiesAppend(front, [x, y], order, z);
      TiesAppend(front + [y, x], back, order, z);
      TiesAppend(front, [y, x], order, z);
      TiesOfPair(x, y, order, z);
    }
  }

  /** No neighbouring pair that the comparator would exchange. */
  ghost predicate NoInversions(s: seq<GarageStats>, order: SortOrder)
  {
    forall k :: 0 < k < |s| ==> Compare(order, s[k - 1], s[k]) <= 0.0
  }

  /** The comparator agrees with the ordering: kept pairs are in order, exchanged pairs are in order once exchanged. */
  lemma CompareMeansNotAfter(order: SortOrder, x: GarageStats, y: GarageStats)
    ensures Compare(order, x, y) <= 0.0 ==> NotAfter(order, x, y)
    ensures Compare(order, x, y) > 0.0 ==> NotAfter(order, y, x)
  {
  }

  /** The ordering is transitive, which lets one comparison stand for many. */
  lemma NotAfterTransitive(order: SortOrder, x: GarageStats, y: GarageStats, z: GarageStats)
    requires NotAfter(order, x, y) && NotAfter(order, y, z)
    ensures NotAfter(order, x, z)
  {
  }

  /** In either ETA order a `'∞'` record is followed only by `'∞'` records. */
  lemma UnreachableLast(s: seq<GarageStats>, order: SortOrder, i: int, j: int)
    requires order == EtaAsc || order == EtaDesc
    requires Sorted(s, order) && 0 <= i < j < |s|
    requires s[i].estDaysToTarget.Unreachable?
    ensures s[j].estDaysToTarget.Unreachable?
  {
    assert NotAfter(order, s[i], s[j]);
  }

  /**
   A list ordered by a numeric key, or by ETA with at most one `'∞'`, has no
   pair the comparator would exchange: sorting it again changes nothing.
   */
  lemma SortedHasNoInversions(s: seq<GarageStats>, order: SortOrder)
    requires Sorted(s, order)
    requires forall i, j :: 0 <= i < j < |s| ==>
               !(s[i].estDaysToTarget.Unreachable? && s[j].estDaysToTarget.Unreachable?)
    ensures NoInversions(s, order)
  {
    forall k | 0 < k < |s|
      ensures Compare(order, s[k - 1], s[k]) <= 0.0
    {
      assert NotAfter(order, s[k - 1], s[k]);
    }
  }

  /**
   `sortedStats.sort(compare)` on the copy: a stable insertion sort driven by
   the comparator. The array ends up a permutation of what it held, ordered by
   `order`, with records of equal key in their original order, and untouched
   when no neighbouring pair needed exchanging.
   */
  method SortInPlace(a: array<GarageStats>, order: SortOrder)
    modifies a
    ensures Sorted(a[..], order)
    ensures multiset(a[..]) == multiset(old(a[..]))
    ensures Stable(a[..], old(a[..]), order)
    ensures NoInversions(old(a[..]), order) ==> a[..] == old(a[..])
  {
    var i := 0;
    while i < a.Length
      invariant 0 <= i <= a.Length
      invariant SortedPrefix(a[..], i, order)
      invariant multiset(a[..]) == multiset(old(a[..]))
      invariant Stable(a[..], old(a[..]), order)
      invariant NoInversions(old(a[..]), order) ==> a[..] == old(a[..])
    {
      InsertLast(a, i, order);
      i := i + 1;
    }
  }

  /**
   One step of the insertion sort: a[i] moves left past every record the
   comparator puts after it, so that a[..i+1] is ordered when a[..i] was; the
   records after position i stay where they are.
   */
  method InsertLast(a: array<GarageStats>, i: int, order: SortOrder)
    requires 0 <= i < a.Length
    requires SortedPrefix(a[..], i, order)
    modifies a
    ensures exists j :: 0 <= j <= i && a[..] == Inserted(old(a[..]), j, i)
    ensures a[i + 1..] == old(a[i + 1..])
    ensures SortedPrefix(a[..], i + 1, order)
    ensures multiset(a[..]) == multiset(old(a[..]))
    ensures Stable(a[..], old(a[..]), order)
    ensures i == 0 || Compare(order, old(a[i - 1]), old(a[i])) <= 0.0 ==> a[..] == old(a[..])
  {
    ghost var s := a[..];
    var j := i;
    while j > 0 && Compare(order, a[j - 1], a[j]) > 0.0
      invariant 0 <= j <= i
      invariant a[..] == Inserted(s, j, i)
      invariant forall q :: j <= q < i ==> Compare(order, s[q], s[i]) > 0.0
      invariant i == 0 || Compare(order, s[i - 1], s[i]) <= 0.0 ==> j == i
    {
      InsertedStep(s, j, i);
      a[j - 1], a[j] := a[j], a[j - 1];
      j := j - 1;
    }
    InsertionDone(s, j, i, order);
  }

  /** One exchange moves the record one place further left. */
  lemma InsertedStep(s: seq<GarageStats>, j: int, i: int)
    requires 0 < j <= i < |s|
    ensures Inserted(s, j, i)[j - 1] == s[j - 1] && Inserted(s, j, i)[j] == s[i]
    ensures Inserted(s, j - 1, i) == Inserted(s, j, i)[j - 1 := s[i]][j := s[j - 1]]
  {
    InsertedAt(s, j, i, j);
    InsertedAt(s, j, i, j - 1);
  }

  /**
   Once the moving record meets a neighbour it may stand after, or the front,
   the first i + 1 records are ordered, are the records there were, keep the
   order of equal keys, and the records after i have not moved.
   */
  lemma InsertionDone(s: seq<GarageStats>, j: int, i: int, order: SortOrder)
    requires 0 <= j <= i < |s|
    requires SortedPrefix(s, i, order)
    requires forall q :: j <= q < i ==> Compare(order, s[q], s[i]) > 0.0
    requires j == 0 || Compare(order, Inserted(s, j, i)[j - 1], Inserted(s, j, i)[j]) <= 0.0
    ensures SortedPrefix(Inserted(s, j, i), i + 1, order)
    ensures multiset(Inserted(s, j, i)) == multiset(s)
    ensures Stable(Inserted(s, j, i), s, order)
    ensures Inserted(s, j, i)[i + 1..] == s[i + 1..]
  {
    if j > 0 {
      InsertedAt(s, j, i, j);
      InsertedAt(s, j, i, j - 1);
    }
    forall k | i < k < |s|
      ensures Inserted(s, j, i)[k] == s[k]
    {
      InsertedAt(s, j, i, k);
    }
    InsertedPermutes(s, j, i);
    InsertedStable(s, j, i, order);
    InsertedOrdered(s, j, i, order);
  }

  /**
   s with its record at i moved left to position j by exchanges with its left
   neighbour, one place at a time.
   */
  function Inserted(s: seq<GarageStats>, j: int, i: int): (t: seq<GarageStats>)
    requires 0 <= j <= i < |s|
    ensures |t| == |s|
    decreases i - j
  {
    if j == i then s
    else
      var t := Inserted(s, j + 1, i);
      t[j := t[j + 1]][j + 1 := t[j]]
  }

  /** Where each record stands once the record at i has moved to j: the records between shift right. */
  lemma {:induction false} InsertedAt(s: seq<GarageStats>, j: int, i: int, k: int)
    requires 0 <= j <= i < |s| && 0 <= k < |s|
    ensures Inserted(s, j, i)[k] ==
              if k < j then s[k] else if k == j then s[i] else if k <= i then s[k - 1] else s[k]
    decreases i - j
  {
    if j < i {
      InsertedAt(s, j + 1, i, k);
      InsertedAt(s, j + 1, i, j);
      InsertedAt(s, j + 1, i, j + 1);
    }
  }

  /** Moving a record keeps the same records. */
  lemma {:induction false} InsertedPermutes(s: seq<GarageStats>, j: int, i: int)
    requires 0 <= j <= i < |s|
    ensures multiset(Inserted(s, j, i)) == multiset(s)
    decreases i - j
  {
    if j < i {
      InsertedPermutes(s, j + 1, i);
      var t: seq<GarageStats> := Inserted(s, j + 1, i);
      assert multiset(t[j := t[j + 1]][j + 1 := t[j]]) == multiset(t);
    }
  }

  /** Moving a record only past records with other keys keeps equal keys in order. */
  lemma {:induction false} InsertedStable(s: seq<GarageStats>, j: int, i: int, order: SortOrder)
    requires 0 <= j <= i < |s|
    requires forall q :: j <= q < i ==> Compare(order, s[q], s[i]) > 0.0
    ensures Stable(Inserted(s, j, i), s, order)
    decreases i - j
  {
    if j < i {
      InsertedStable(s, j + 1, i, order);
      var t: seq<GarageStats> := Inserted(s, j + 1, i);
      InsertedAt(s, j + 1, i, j);
      InsertedAt(s, j + 1, i, j + 1);
      TiesExchange(t, j, order);
    }
  }

  /**
   A record placed after the ordered records it may not precede and before
   the ones it precedes leaves the first i + 1 records ordered.
   */
  lemma InsertedOrdered(s: seq<GarageStats>, j: int, i: int, order: SortOrder)
    requires 0 <= j <= i < |s|
    requires SortedPrefix(s, i, order)
    requires forall q :: j <= q < i ==> Compare(order, s[q], s[i]) > 0.0
    requires j == 0 || Compare(order, s[j - 1], s[i]) <= 0.0
    ensures SortedPrefix(Inserted(s, j, i), i + 1, order)
  {
    var t := Inserted(s, j, i);
    forall p, q | 0 <= p < q <= i
      ensures NotAfter(order, t[p], t[q])
    {
      InsertedAt(s, j, i, p);
      InsertedAt(s, j, i, q);
      if q == j {
        CompareMeansNotAfter(order, s[j - 1], s[i]);
        if p < j - 1 {
          NotAfterTransitive(order, s[p], s[j - 1], s[i]);
        }
      } else if p == j {
        CompareMeansNotAfter(order, s[q - 1], s[i]);
      }
    }
  }

  /**
   The sort part of `applySortAndRender(sortValue)`: `[...currentStats]` sorted
   by the selected entry. The caller's list is a value and is left as it was;
   the result holds the same records, records of equal key keep their order,
   and a value that selects no entry leaves the order as it was.
   */
  method ApplySort(currentStats: seq<GarageStats>, sortValue: string) returns (sorted: seq<GarageStats>)
    ensures multiset(sorted) == multiset(currentStats)
    ensures ParseSortValue(sortValue).None? ==> sorted == currentStats
    ensures ParseSortValue(sortValue).Some? ==> Sorted(sorted, ParseSortValue(sortValue).value)
    ensures ParseSortValue(sortValue).Some? ==> Stable(sorted, currentStats, ParseSortValue(sortValue).value)
    ensures ParseSortValue(sortValue).Some? ==>
              NoInversions(currentStats, ParseSortValue(sortValue).value) ==> sorted == currentStats
  {
    var copy := new GarageStats[|currentStats|](i requires 0 <= i < |currentStats| => currentStats[i]);
    assert copy[..] == currentStats;
    match ParseSortValue(sortValue) {
      case Some(order) => SortInPlace(copy, order);
      case None =>
    }
    sorted := copy[..];
  }
}
