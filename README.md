# Race to Mondello — statistics and sort model

A Dafny model of the logic behind the Race to Mondello sales dashboard.
Each garage of a branch has a daily spend series. The dashboard turns it into
a record: the total, the average per weighted day, the highest and lowest day
with their positions, the progress towards the branch target, and the
estimated days left (`'∞'` when the average is not positive). It then orders
these records by one of six drop-down entries and colours each progress bar
from red through yellow to green.

Two versions of the statistics exist:

- `mondello_app.js` divides by the sum of all day weights, and uses 0 as the
  average when that sum is not positive.
- The earlier `app.js` counts only the weights of days whose key is at most 8,
  and divides without a guard.

Modules:

- `Wrappers`: `Option`.
- `SpendMath`: sum, maximum, minimum, first and last index, `Math.ceil`,
  `Math.round`, on exact reals.
- `Garages`: the garage and record datatypes, the `'∞'` sentinel, and the
  per-garage derivation both versions share. `Describes` states what a
  correct record is without computing it; `Enrich` computes one and is proved
  to meet it; `DescribesDetermines` shows the description fixes the record.
- `MondelloApp`: `calculateStats`, `getColorForPercent`, and the sort in
  `applySortAndRender`. The sort copies the list into an array and sorts the
  copy in place with an insertion sort driven by the source's comparators.
- `App`: `calculateStats` of `app.js`, with its `d <= 8` day filter.
- `Versions`: when the two versions agree, and an input on which they differ.
- `Scenarios`: worked cases (ties in the extremes, a full record, the progress
  cap, the place of `'∞'` in both ETA orders).

Numbers are Dafny `real`, so sums and quotients are exact. `'∞'` is the
`Unreachable` case of `Eta`.

## Model

| member | source | states |
|---|---|---|
| SpendMath.Sum | mondello_app.js:48 | the left fold `reduce((sum, val) => sum + val, 0)`; what it computes is stated by the lemmas below (SumSingleton, SumAppend, SumNonNegative, SumOfZeros) |
| SpendMath.SumSingleton | app.js:17 | a one-day series sums to that day's amount |
| SpendMath.SumAppend | mondello_app.js:48 | the sum of a concatenation is the sum of the parts, so the order of the fold does not matter |
| SpendMath.SumNonNegative | mondello_app.js:48 | a series with no negative amount has a non-negative total |
| SpendMath.SumOfZeros | mondello_app.js:48 | a series of zeros totals zero |
| SpendMath.Max | mondello_app.js:50 | `Math.max(...spend)` is an element of the series that no element exceeds |
| SpendMath.Min | mondello_app.js:51 | `Math.min(...spend)` is an element of the series that exceeds no element |
| SpendMath.IndexOf | mondello_app.js:52 | `indexOf` is -1 exactly when the value is absent; otherwise it is the first position holding the value |
| SpendMath.LastIndexOf | mondello_app.js:53 | `lastIndexOf` is -1 exactly when the value is absent; otherwise it is the last position holding the value |
| SpendMath.Ceil | mondello_app.js:55 | `Math.ceil(x)` is the integer n with n - 1 < x <= n |
| SpendMath.Round | mondello_app.js:78 | `Math.round(x)` is the integer n with x - 0.5 < n <= x + 0.5, halves going up |
| SpendMath.RoundMonotone | mondello_app.js:78 | rounding keeps the order of its arguments |
| Garages.HighestDay | mondello_app.js:52 | `highestIndex + 1` lies in 1..len, holds the maximum, and every earlier day is strictly lower |
| Garages.LowestDay | mondello_app.js:53 | `lowestIndex + 1` lies in 1..len, holds the minimum, and every later day is strictly higher |
| Garages.ProgressPercent | mondello_app.js:65 | the progress never exceeds 100; it is 100 exactly when the total reaches the target; below the target it is total/target*100; it is non-negative for a non-negative total |
| Garages.EstimatedDays | mondello_app.js:54-55 | the estimate is `'∞'` exactly when the average is not positive; otherwise n days reach the target and n - 1 do not; n <= 0 exactly when the target is already met (no clamping) |
| Garages.DaysToTargetBounds | mondello_app.js:54-55 | the bounds of `Math.ceil(remaining / average)` carried over to `remaining` itself |
| Garages.Enrich | mondello_app.js:57-67 | the record built for one garage keeps the garage and meets every clause of `Describes` for the given average |
| Garages.DescribesDetermines | mondello_app.js:57-67 | two records meeting `Describes` for the same garage, target and average are equal |
| Garages.EtaUnique | mondello_app.js:55 | only one day count reaches the target just in time |
| Garages.EtaIsCeil | mondello_app.js:54-55 | with a positive average the estimate of any record meeting `Describes` is `Math.ceil((target - total) / average)` |
| Garages.ProgressInRange | mondello_app.js:65 | with no negative spend the progress lies in [0, 100], even past the target |
| Garages.ZeroSpendIsUnreachable | mondello_app.js:49-55 | a garage that spent nothing gets `'∞'` in either version |
| MondelloApp.Average | mondello_app.js:49 | with a positive total weight the average times the weight is the total; otherwise the average is 0, so there is no division by zero |
| MondelloApp.CalculateStats | mondello_app.js:43-69 | one record per garage, in order; each meets `Describes` and its average is the guarded quotient of its total by the sum of all day weights |
| MondelloApp.ClampPercent | mondello_app.js:73 | the clamped percent lies in [0, 100] and equals the input inside that range, 0 below it, 100 above it |
| MondelloApp.ColorForPercent | mondello_app.js:72-87 | blue is 0; red and green lie in [0, 255]; below 50% red is 255 and green is 255·p/50 rounded to the nearest integer; from 50% green is 255 and red is 255·(100 − p)/50 rounded, where p is the clamped percent |
| MondelloApp.ColorOutsideRange | mondello_app.js:73 | percentages at or below 0 give pure red, at or above 100 pure green |
| MondelloApp.ColorAtHalf | mondello_app.js:80-84 | at 50% the colour is yellow |
| MondelloApp.ColorMonotone | mondello_app.js:75-85 | more progress never raises red and never lowers green |
| MondelloApp.ParseSortValue | mondello_app.js:136-155 | a value selects an entry only if it is that entry's value; a value matching no entry selects nothing |
| MondelloApp.ParseSortValueRoundTrip | mondello_app.js:136-155 | every entry's value selects that entry |
| MondelloApp.Compare | mondello_app.js:137-153 | each of the six comparators answers 0 exactly for two records with the same key; two `'∞'` estimates never tie |
| MondelloApp.CompareMeansNotAfter | mondello_app.js:137-153 | when a comparator keeps a pair, the pair is in order; when it exchanges a pair, the exchanged pair is in order |
| MondelloApp.NotAfterTransitive | mondello_app.js:137-153 | the ordering each comparator induces is transitive |
| MondelloApp.UnreachableLast | mondello_app.js:141-154 | in either ETA order, nothing finite follows a `'∞'` record |
| MondelloApp.SortedHasNoInversions | mondello_app.js:137-153 | an ordered list with at most one `'∞'` has no neighbouring pair the comparator would exchange |
| MondelloApp.SameKeyShared | mondello_app.js:137-153 | having the same key is transitive through a third record |
| MondelloApp.TiesAppend | mondello_app.js:137-153 | picking out the records of one key distributes over concatenation |
| MondelloApp.TiesOfPair | mondello_app.js:137-153 | two records with different keys give the same picks for every key in either order |
| MondelloApp.TiesExchange | mondello_app.js:137-153 | exchanging two neighbours with different keys keeps, for every key, the sequence of records with that key |
| MondelloApp.SortInPlace | mondello_app.js:137-153 | the array ends up ordered and holds the same records; for every key, the records with that key appear in their original order (a stable sort); the array is left as it was when no neighbouring pair needed exchanging |
| MondelloApp.InsertLast | mondello_app.js:137-153 | one insertion step: the new array is the old one with a[i] moved left to some position j; the records after i stay in place; the first i + 1 records become ordered; the records stay the same; equal keys keep their order; nothing moves when the new record is already in place |
| MondelloApp.InsertedStep | mondello_app.js:137-153 | one exchange moves the inserted record one place to the left |
| MondelloApp.InsertionDone | mondello_app.js:137-153 | once the inserted record stops, the prefix is ordered, the records are the same, equal keys keep their order, and the records after i have not moved |
| MondelloApp.InsertedAt | mondello_app.js:137-153 | where each record stands after the insertion: the records it passed each shift one place right |
| MondelloApp.InsertedPermutes | mondello_app.js:137-153 | moving a record by exchanges keeps the same records |
| MondelloApp.InsertedStable | mondello_app.js:137-153 | moving a record only past records the comparator puts after it keeps equal keys in their order |
| MondelloApp.InsertedOrdered | mondello_app.js:137-153 | a record placed after those it may not precede and before those it precedes leaves the prefix ordered |
| MondelloApp.ApplySort | mondello_app.js:133-155 | the result holds the same records as `currentStats`; an unknown value leaves the order as it was; a known value gives a list ordered by that entry in which records of equal key keep their input order; a list with no inversions comes back unchanged |
| App.KeyNumber | app.js:12 | a key reads as a number exactly when it is a string of decimal digits, and that number is non-negative; anything else is `NaN` |
| App.IsCurrentDay | app.js:12 | a key passes `d <= 8` exactly when it is a string of digits whose value is at most 8 |
| App.DayKey | app.js:12 | a day's key is a non-empty string of digits |
| App.DayKeyRoundTrip | app.js:12 | reading a day's key as a number gives back the day |
| App.DayKeyIsCurrent | app.js:12 | a day passes `d <= 8` exactly when its number is at most 8, even though `"10"` sorts before `"8"` as text |
| App.CurrentDays | app.js:12 | the filter keeps each entry whose day passes `d <= 8` as many times as it is listed, and no other entry |
| App.WeightsAppend | app.js:13 | the weights of a concatenation are the weights of its parts, in order |
| App.TotalWeight | app.js:13 | with no current day listed the total weight is 0; with no negative weight it is not negative |
| App.TotalWeightAppend | app.js:12-13 | one more entry adds its weight when its day is current and nothing otherwise |
| App.LaterDayIgnored | app.js:12-13 | a weight listed under day 9 or later leaves the total weight unchanged |
| App.AllCurrentTotalWeight | app.js:12-13 | when every day is current, the total weight is the sum of all weights |
| App.CalculateStats | app.js:9-39 | one record per garage, in order; each meets `Describes`, and its average is its total divided by the current days' weight |
| Versions.AgreeOnCurrentDays | app.js:12-18 | when every weighted day is current and the weight is positive, both versions give the same records |
| Versions.DayOneCurrentNineNot | app.js:12 | the key `"1"` passes `d <= 8` and `"9"` does not |
| Versions.CurrentWeightOfDayOneAndNine | app.js:12-13 | with weights on days 1 and 9, `app.js` counts a total weight of 1 |
| Versions.AllWeightsOfDayOneAndNine | mondello_app.js:44 | with weights on days 1 and 9, `mondello_app.js` counts a total weight of 2 |
| Versions.DifferPastDayEight | app.js:12-18 | with weights on days 1 and 9 and a total of 10, `app.js` reports an average of 10 and `mondello_app.js` reports 5 |
| Scenarios.TiesInExtremes | mondello_app.js:50-53 | the series 5,10,3,10,1 has its highest on day 2; the series 5,1,3,1,7 has its lowest on day 4 |
| Scenarios.ThreeDayRecord | mondello_app.js:43-69 | 600 spent of 1000 over three days of weight 1 gives an average of 200, 60% progress and 2 days left |
| Scenarios.ProgressCapped | mondello_app.js:65 | 600 spent of a 500 target shows 100% |
| Scenarios.SortedOfThree | mondello_app.js:141-154 | ETAs 5, `'∞'` and 2 can be ordered only as 2, 5, `'∞'` ascending and 5, 2, `'∞'` descending |

## Left out

- Rendering: `renderStats`, `showSpinner`, `showError`, `populateBranchDropdown`, and the `renderStats` call that ends `applySortAndRender`. These are HTML templating, `toFixed` formatting and `Date` localisation.
- Loading: `loadData` in both files (fetch and JSON parsing) and the top-level promise chain of `app.js`.
- Wiring: `updateDisplay`'s `setTimeout`, the change listeners and `DOMContentLoaded`, which set the globals `data`, `currentStats` and `currentBranch`. The model passes the current list and the sort value as parameters.
- Numbers are exact reals, not IEEE doubles. Rounding error, `NaN` and `Infinity` are not modelled.
- `Number(...)` and `parseFloat` coercion of spreadsheet strings is not modelled: every spend value and weight is already a number. `app.js` sums `dailySpend` without coercion, so a string in the series would concatenate there; that is not modelled either.
- An empty spend series and a target of 0 or less are excluded by preconditions. The source then produces `-Infinity`, day 0 or `Infinity`.
- App.CalculateStats: requires a non-zero current-day weight, because the source divides by it unguarded. A negative weight is allowed, since the quotient is then well defined.
- App.KeyNumber: reads only strings of decimal digits as numbers. JavaScript's conversion also accepts surrounding white space, signs, fractions, exponents and hexadecimal; the model reads those keys as `NaN` and drops them. This matters only for keys a dataset would not use as day numbers.
- The order of `Object.keys` does not matter here, because exact real sums do not depend on the order of their terms.
- MondelloApp.ColorForPercent: returns the colour as a triple, not the `rgb(r,g,b)` string.
- MondelloApp.SortInPlace: states nothing about the order among records whose estimate is `'∞'` under the ETA orders. The ETA comparators answer 1 for two `'∞'` records both ways round, so they are not consistent comparators, and for those the ECMAScript specification of `Array.prototype.sort` leaves the resulting order implementation-defined. For consistent comparators (the four percent and average orders, and the ETA orders with at most one `'∞'`) the language requires a stable sort, and the contract states that stability. The insertion sort puts later `'∞'` records before earlier ones, which an engine need not do.
- MondelloApp.ApplySort: states nothing about the order among `'∞'` records, for the reason given for SortInPlace.

## Source facts the model keeps

- An unknown sort value is not an error: the `switch` in mondello_app.js:136-155 has no `default`, so the copy is left in its original order.
- The estimate is not clamped: mondello_app.js:55 and app.js:25 give zero or a negative number of days to a garage already past its target.
- Only app.js:12 limits the weights to days whose key is at most 8; mondello_app.js:44 sums every weight it is given.
