/**
 The arithmetic the dashboard performs on a daily-spend series: the sum that
 `reduce` computes, `Math.max`/`Math.min` over a spread series, the searches
 `indexOf`/`lastIndexOf`, and `Math.ceil`. Numbers are exact reals, so none of
 these statements depend on floating-point rounding.
 */
module SpendMath {

  /**
   The sum of a series, folded from the left as `reduce((sum, v) => sum + v, 0)`
   does. A series with no negative amount has a non-negative sum.
   */
  function Sum(s: seq<real>): (total: real)
  {
    if |s| == 0 then 0.0 else Sum(s[..|s| - 1]) + s[|s| - 1]
  }

  /** A series of one amount sums to that amount. */
  lemma SumSingleton(x: real)
    ensures Sum([x]) == x
  {
    assert [x][..0] == [];
  }

  /** Summing is additive over concatenation, so the fold order never matters. */
  lemma {:induction false} SumAppend(a: seq<real>, b: seq<real>)
    ensures Sum(a + b) == Sum(a) + Sum(b)
  {
    if |b| == 0 {
      assert a + b == a;
    } else {
      assert (a + b)[..|a + b| - 1] == a + b[..|b| - 1];
      SumAppend(a, b[..|b| - 1]);
    }
  }

  /** A series of non-negative amounts has a non-negative sum. */
  lemma {:induction false} SumNonNegative(s: seq<real>)
    requires forall i :: 0 <= i < |s| ==> s[i] >= 0.0
    ensures Sum(s) >= 0.0
  {
    if |s| > 0 {
      SumNonNegative(s[..|s| - 1]);
    }
  }

  /** A series of zeros sums to zero. */
  lemma {:induction false} SumOfZeros(s: seq<real>)
    requires forall i :: 0 <= i < |s| ==> s[i] == 0.0
    ensures Sum(s) == 0.0
  {
    if |s| > 0 {
      SumOfZeros(s[..|s| - 1]);
    }
  }

  /** `Math.max(...s)` for a non-empty series: an element that no element exceeds. */
  function Max(s: seq<real>): (m: real)
    requires |s| > 0
    ensures m in s
    ensures forall i :: 0 <= i < |s| ==> s[i] <= m
  {
    if |s| == 1 then s[0]
    else
      var rest := Max(s[..|s| - 1]);
      assert rest in s[..|s| - 1];
      if s[|s| - 1] > rest then s[|s| - 1] else rest
  }

  /** `Math.min(...s)` for a non-empty series: an element that exceeds no element. */
  function Min(s: seq<real>): (m: real)
    requires |s| > 0
    ensures m in s
    ensures forall i :: 0 <= i < |s| ==> m <= s[i]
  {
    if |s| == 1 then s[0]
    else
      var rest := Min(s[..|s| - 1]);
      assert rest in s[..|s| - 1];
      if s[|s| - 1] < rest then s[|s| - 1] else rest
  }

  /** `s.indexOf(x)`: the first position holding x, or -1 when there is none. */
  function IndexOf(s: seq<real>, x: real): (k: int)
    ensures -1 <= k < |s|
    ensures k == -1 <==> x !in s
    ensures 0 <= k ==> s[k] == x && forall j :: 0 <= j < k ==> s[j] != x
  {
    if |s| == 0 then -1
    else if s[0] == x then 0
    else
      var k := IndexOf(s[1..], x);
      assert x in s[1..] <==> x in s;
      if k < 0 then -1 else k + 1
  }

  /** `s.lastIndexOf(x)`: the last position holding x, or -1 when there is none. */
  function LastIndexOf(s: seq<real>, x: real): (k: int)
    ensures -1 <= k < |s|
    ensures k == -1 <==> x !in s
    ensures 0 <= k ==> s[k] == x && forall j :: k < j < |s| ==> s[j] != x
  {
    if |s| == 0 then -1
    else if s[|s| - 1] == x then |s| - 1
    else
      assert x in s[..|s| - 1] <==> x in s;
      LastIndexOf(s[..|s| - 1], x)
  }

  /** `Math.ceil(x)`: the least integer that is not below x. */
  function Ceil(x: real): (n: int)
    ensures n as real - 1.0 < x <= n as real
  {
    -((-x).Floor)
  }

  /** `Math.round(x)`: the nearest integer, halves rounded up. */
  function Round(x: real): (n: int)
    ensures x - 0.5 < n as real <= x + 0.5
  {
    (x + 0.5).Floor
  }

  /** Rounding never reverses the order of two values. */
  lemma RoundMonotone(x: real, y: real)
    requires x <= y
    ensures Round(x) <= Round(y)
  {
  }
}
