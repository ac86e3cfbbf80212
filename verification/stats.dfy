/** Whole-series reductions used by the trait computation: the minimum, the sum
    and the arithmetic mean of a series, as pandas' `min()` and `mean()` and
    numpy's `mean` compute them (exactly, over reals). */
module Stats {

  /** The smallest element of a non-empty series. */
  function MinOf(s: seq<real>): (m: real)
    requires |s| > 0
    ensures forall i :: 0 <= i < |s| ==> m <= s[i]
    ensures exists i :: 0 <= i < |s| && m == s[i]
  {
    if |s| == 1 then s[0]
    else
      var rest := MinOf(s[1..]);
      assert forall i :: 1 <= i < |s| ==> s[i] == s[1..][i - 1];
      if s[0] <= rest then s[0] else rest
  }

  /** A value the series attains and that no element is below is its minimum. */
  lemma MinOfIs(s: seq<real>, m: real, i: nat)
    requires i < |s| && s[i] == m
    requires forall j :: 0 <= j < |s| ==> m <= s[j]
    ensures MinOf(s) == m
  {
  }

  /** The sum of a series of reals. */
  function Sum(s: seq<real>): real
  {
    if |s| == 0 then 0.0 else s[0] + Sum(s[1..])
  }

  /** Sum of a series that starts with x. */
  lemma SumCons(x: real, s: seq<real>)
    ensures Sum([x] + s) == x + Sum(s)
  {
    assert ([x] + s)[1..] == s;
  }

  /** The arithmetic mean of a non-empty series of reals. */
  function Mean(s: seq<real>): real
    requires |s| > 0
  {
    Sum(s) / (|s| as real)
  }

  /** The sum of a series of counts. */
  function NatSum(s: seq<nat>): nat
  {
    if |s| == 0 then 0 else s[0] + NatSum(s[1..])
  }

  /** A series of counts read as reals. */
  function Reals(s: seq<nat>): seq<real>
  {
    seq(|s|, i requires 0 <= i < |s| => s[i] as real)
  }

  /** The arithmetic mean of a non-empty series of counts: the mean of the series read as reals. */
  function NatMean(s: seq<nat>): real
    requires |s| > 0
  {
    Mean(Reals(s))
  }

  /** Reading counts as reals does not change their sum. */
  lemma {:induction false} SumReals(s: seq<nat>)
    ensures Sum(Reals(s)) == NatSum(s) as real
  {
    if |s| > 0 {
      SumReals(s[1..]);
      assert Reals(s)[1..] == Reals(s[1..]);
    }
  }

  /** The mean of counts is their integer sum divided by their number. */
  lemma NatMeanIsQuotient(s: seq<nat>)
    requires |s| > 0
    ensures NatMean(s) == (NatSum(s) as real) / (|s| as real)
  {
    SumReals(s);
  }

  /** A sum of values that all lie in [lo, hi] lies in [|s| * lo, |s| * hi]. */
  lemma {:induction false} SumBounds(s: seq<real>, lo: real, hi: real)
    requires forall i :: 0 <= i < |s| ==> lo <= s[i] <= hi
    ensures (|s| as real) * lo <= Sum(s) <= (|s| as real) * hi
  {
    if |s| > 0 {
      SumBounds(s[1..], lo, hi);
      MulStep((|s| - 1) as real, lo);
      MulStep((|s| - 1) as real, hi);
    }
  }

  /** One more copy of x: (n + 1) * x == n * x + x. */
  lemma MulStep(n: real, x: real)
    ensures (n + 1.0) * x == n * x + x
  {
  }

  /** Dividing a total bounded by n * lo and n * hi by n gives a value in [lo, hi]. */
  lemma QuotientBetween(total: real, n: real, lo: real, hi: real)
    requires n > 0.0
    requires n * lo <= total <= n * hi
    ensures lo <= total / n <= hi
  {
    var q := total / n;
    assert q * n == total;
  }

  /** The mean of values that all lie in [lo, hi] lies in [lo, hi]. */
  lemma MeanBounds(s: seq<real>, lo: real, hi: real)
    requires |s| > 0
    requires forall i :: 0 <= i < |s| ==> lo <= s[i] <= hi
    ensures lo <= Mean(s) <= hi
  {
    SumBounds(s, lo, hi);
    QuotientBetween(Sum(s), |s| as real, lo, hi);
  }

  /** The mean of counts that all lie in [lo, hi] lies in [lo, hi]. */
  lemma NatMeanBounds(s: seq<nat>, lo: nat, hi: nat)
    requires |s| > 0
    requires forall i :: 0 <= i < |s| ==> lo <= s[i] <= hi
    ensures lo as real <= NatMean(s) <= hi as real
  {
    MeanBounds(Reals(s), lo as real, hi as real);
  }
}
