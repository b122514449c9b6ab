/** The arithmetic the read-side derivations use on prices: `Math.abs`,
    `Math.min(...xs)` and `Math.max(...xs)`, a left-to-right sum, and
    `Math.round(x * 100) / 100`, all on exact reals. */
module Arith {

  function Abs(x: real): real { if x < 0.0 then -x else x }

  /** `Math.min(...xs)` on a non-empty list. */
  function MinOf(xs: seq<real>): real
    requires |xs| > 0
  {
    if |xs| == 1 then xs[0]
    else
      var m := MinOf(xs[..|xs| - 1]);
      if xs[|xs| - 1] < m then xs[|xs| - 1] else m
  }

  /** `Math.max(...xs)` on a non-empty list. */
  function MaxOf(xs: seq<real>): real
    requires |xs| > 0
  {
    if |xs| == 1 then xs[0]
    else
      var m := MaxOf(xs[..|xs| - 1]);
      if xs[|xs| - 1] > m then xs[|xs| - 1] else m
  }

  /** `xs.reduce((sum, x) => sum + x, 0)`. */
  function Sum(xs: seq<real>): real {
    if xs == [] then 0.0 else Sum(xs[..|xs| - 1]) + xs[|xs| - 1]
  }

  /** The minimum is one of the values and lies below all of them. */
  lemma {:induction false} MinOfIsLeast(xs: seq<real>)
    requires |xs| > 0
    ensures MinOf(xs) in xs
    ensures forall k :: 0 <= k < |xs| ==> MinOf(xs) <= xs[k]
  {
    if |xs| > 1 {
      var init := xs[..|xs| - 1];
      MinOfIsLeast(init);
      assert forall k :: 0 <= k < |init| ==> init[k] == xs[k];
      assert MinOf(init) in init ==> MinOf(init) in xs;
    }
  }

  /** The maximum is one of the values and lies above all of them. */
  lemma {:induction false} MaxOfIsGreatest(xs: seq<real>)
    requires |xs| > 0
    ensures MaxOf(xs) in xs
    ensures forall k :: 0 <= k < |xs| ==> xs[k] <= MaxOf(xs)
    ensures forall x :: x in xs ==> x <= MaxOf(xs)
  {
    if |xs| > 1 {
      var init := xs[..|xs| - 1];
      MaxOfIsGreatest(init);
      assert forall k :: 0 <= k < |init| ==> init[k] == xs[k];
      assert MaxOf(init) in init ==> MaxOf(init) in xs;
    }
  }

  /** The sum of values that all lie between `lo` and `hi` lies between
      `|xs| * lo` and `|xs| * hi`. */
  lemma {:induction false} SumBounds(xs: seq<real>, lo: real, hi: real)
    requires forall k :: 0 <= k < |xs| ==> lo <= xs[k] <= hi
    ensures |xs| as real * lo <= Sum(xs) <= |xs| as real * hi
  {
    if xs != [] {
      var init := xs[..|xs| - 1];
      assert forall k :: 0 <= k < |init| ==> init[k] == xs[k];
      SumBounds(init, lo, hi);
      assert |xs| as real * lo == |init| as real * lo + lo;
      assert |xs| as real * hi == |init| as real * hi + hi;
    }
  }

  /** The mean of a non-empty list lies between its least and its greatest value. */
  lemma MeanBetween(xs: seq<real>)
    requires |xs| > 0
    ensures MinOf(xs) <= Sum(xs) / |xs| as real <= MaxOf(xs)
  {
    MinOfIsLeast(xs);
    MaxOfIsGreatest(xs);
    var lo, hi, sum, n := MinOf(xs), MaxOf(xs), Sum(xs), |xs| as real;
    SumBounds(xs, lo, hi);
    DivideBounds(sum, n, lo, hi);
  }

  lemma DivideBounds(s: real, n: real, lo: real, hi: real)
    requires n > 0.0 && n * lo <= s <= n * hi
    ensures lo <= s / n <= hi
  {
    assert s / n * n == s;
  }

  /** `Math.round(x * 100) / 100`: `Math.round` rounds halves up, so it is
      the floor of the value plus one half. */
  function Round2(x: real): (r: real)
    ensures -0.005 < r - x <= 0.005
  {
    var n := (x * 100.0 + 0.5).Floor;
    assert n as real <= x * 100.0 + 0.5 < n as real + 1.0;
    n as real / 100.0
  }

  /** Rounding to cents keeps a value that already has at most two decimals. */
  lemma Round2Cents(n: int)
    ensures Round2(n as real / 100.0) == n as real / 100.0
  {
    assert (n as real / 100.0) * 100.0 + 0.5 == n as real + 0.5;
    assert (n as real + 0.5).Floor == n;
  }
}
