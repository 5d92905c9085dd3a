/** Small shared vocabulary: optional values, results with an error side,
    and the rounding helpers the simulation drivers use on exact reals. */
module Basics {

  datatype Option<T> = None | Some(value: T)

  datatype Result<T, E> = Ok(value: T) | Err(error: E)

  /** Python's math.ceil on an exact real: the least integer not below x. */
  function Ceil(x: real): (n: int)
    ensures x <= n as real < x + 1.0
  {
    -((-x).Floor)
  }

  /** math.ceil never decreases: a larger argument rounds up to at least as much. */
  lemma CeilMonotone(x: real, y: real)
    requires x <= y
    ensures Ceil(x) <= Ceil(y)
  {
    assert Ceil(x) < Ceil(y) + 1;
  }

  function AbsReal(x: real): (r: real)
    ensures r >= 0.0 && (r == x || r == -x)
  {
    if x < 0.0 then -x else x
  }

  /** The number of iterations of Python's range(n): negative counts give none. */
  function RangeLength(n: int): (r: nat)
    ensures r as int >= n && (n >= 0 ==> r == n) && (n < 0 ==> r == 0)
  {
    if n < 0 then 0 else n
  }

  predicate Distinct<T(==)>(s: seq<T>)
  {
    forall i, j :: 0 <= i < j < |s| ==> s[i] != s[j]
  }

  /** Equal elements of a distinct sequence sit at the same index. */
  lemma DistinctAt<T>(s: seq<T>, i: nat, j: nat)
    requires Distinct(s) && i < |s| && j < |s| && s[i] == s[j]
    ensures i == j
  {
  }

  function Sum(s: seq<real>): real
  {
    if |s| == 0 then 0.0 else Sum(s[..|s| - 1]) + s[|s| - 1]
  }

  /** numpy's mean on exact reals; None is the NaN an empty array gives. */
  function Mean(s: seq<real>): (m: Option<real>)
    ensures m.None? <==> |s| == 0
  {
    if |s| == 0 then None else Some(Sum(s) / |s| as real)
  }

  lemma {:induction false} SumBetween(s: seq<real>, lo: real, hi: real)
    requires forall k :: 0 <= k < |s| ==> lo <= s[k] <= hi
    ensures |s| as real * lo <= Sum(s) <= |s| as real * hi
  {
    if |s| > 0 {
      SumBetween(s[..|s| - 1], lo, hi);
    }
  }

  /** The mean of values in [lo, hi] lies in [lo, hi]. */
  lemma MeanBetween(s: seq<real>, lo: real, hi: real)
    requires |s| > 0 && forall k :: 0 <= k < |s| ==> lo <= s[k] <= hi
    ensures lo <= Mean(s).value <= hi
  {
    SumBetween(s, lo, hi);
    var n := |s| as real;
    var m := Sum(s) / n;
    assert m * n == Sum(s);
    if m < lo {
      assert (lo - m) * n > 0.0;
    }
    if m > hi {
      assert (m - hi) * n > 0.0;
    }
  }
}
