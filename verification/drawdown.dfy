/** The drawdown series of one asset: the running peak of its closing prices
    (pandas `cummax`) and the drawdown ratio (close - peak) / peak at every
    position. Positions are the indices 0 .. |close| - 1 of the series. */
module PeakDrawdown {

  /** A price series the computation accepts: at least one close, the first close
      positive (so every peak is positive) and no close negative. */
  predicate ValidPrices(close: seq<real>)
  {
    |close| >= 1 && close[0] > 0.0 && forall i :: 0 <= i < |close| ==> close[i] >= 0.0
  }

  function Max(a: real, b: real): real
  {
    if a >= b then a else b
  }

  /** The running peak at position i: the cumulative maximum of close[0..i]. */
  function Peak(close: seq<real>, i: nat): real
    requires i < |close|
  {
    if i == 0 then close[0] else Max(Peak(close, i - 1), close[i])
  }

  /** The peak at i is the maximum of the closes up to and including i. */
  lemma {:induction false} PeakIsPrefixMax(close: seq<real>, i: nat)
    requires i < |close|
    ensures forall k :: 0 <= k <= i ==> close[k] <= Peak(close, i)
    ensures exists k :: 0 <= k <= i && Peak(close, i) == close[k]
  {
    if i > 0 {
      PeakIsPrefixMax(close, i - 1);
      var k :| 0 <= k <= i - 1 && Peak(close, i - 1) == close[k];
      assert Peak(close, i) == close[if close[i] <= Peak(close, i - 1) then k else i];
    } else {
      assert Peak(close, 0) == close[0];
    }
  }

  /** The peak never decreases along the series. */
  lemma {:induction false} PeakNonDecreasing(close: seq<real>, i: nat, j: nat)
    requires i <= j < |close|
    ensures Peak(close, i) <= Peak(close, j)
    decreases j - i
  {
    if i < j {
      PeakNonDecreasing(close, i, j - 1);
    }
  }

  /** The peak of a valid series is positive and at least the close at the same position. */
  lemma PeakPositive(close: seq<real>, i: nat)
    requires ValidPrices(close) && i < |close|
    ensures 0.0 <= close[i] <= Peak(close, i) && 0.0 < Peak(close, i)
  {
    PeakIsPrefixMax(close, i);
  }

  /** The drawdown ratio at position i: (close - peak) / peak. */
  function Drawdown(close: seq<real>, i: nat): real
    requires ValidPrices(close) && i < |close|
  {
    PeakPositive(close, i);
    (close[i] - Peak(close, i)) / Peak(close, i)
  }

  /** The drawdown series, one ratio per position. */
  function DrawdownSeries(close: seq<real>): seq<real>
    requires ValidPrices(close)
  {
    seq(|close|, i requires 0 <= i < |close| => Drawdown(close, i))
  }

  /** A drawdown lies in [-1, 0]; it is zero exactly when the close is at its
      peak, negative exactly when the close is below its peak, and -1 exactly when
      the close is zero. */
  lemma DrawdownSign(close: seq<real>, i: nat)
    requires ValidPrices(close) && i < |close|
    ensures -1.0 <= Drawdown(close, i) <= 0.0
    ensures Drawdown(close, i) == 0.0 <==> close[i] == Peak(close, i)
    ensures Drawdown(close, i) < 0.0 <==> close[i] < Peak(close, i)
    ensures Drawdown(close, i) == -1.0 <==> close[i] == 0.0
  {
    PeakPositive(close, i);
    var c, p := close[i], Peak(close, i);
    var d := Drawdown(close, i);
    assert d * p == c - p;
    ScaledSign(d, p);
    ScaledSign(d + 1.0, p);
  }

  /** Multiplying by a positive factor keeps the sign. */
  lemma ScaledSign(x: real, p: real)
    requires p > 0.0
    ensures x * p > 0.0 <==> x > 0.0
    ensures x * p == 0.0 <==> x == 0.0
  {
  }

  /** The first position is always at its own peak, so its drawdown is zero. */
  lemma FirstDrawdownZero(close: seq<real>)
    requires ValidPrices(close)
    ensures DrawdownSeries(close)[0] == 0.0
  {
    DrawdownSign(close, 0);
  }

  /** Every entry of the drawdown series lies in [-1, 0]. */
  lemma DrawdownSeriesBounds(close: seq<real>)
    requires ValidPrices(close)
    ensures |DrawdownSeries(close)| == |close|
    ensures forall i :: 0 <= i < |close| ==> -1.0 <= DrawdownSeries(close)[i] <= 0.0
  {
    forall i | 0 <= i < |close|
      ensures -1.0 <= DrawdownSeries(close)[i] <= 0.0
    {
      DrawdownSign(close, i);
    }
  }
}
