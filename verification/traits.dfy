/** Traits 1 to 3 of the drawdown genome: the worst drawdown, the mean drawdown
    over every position, and the mean length of the underwater episodes. */
module Traits {
  import opened Stats
  import opened PeakDrawdown
  import opened Segmentation

  /** Trait 1: the minimum of the drawdown series. */
  function MaxDrawdown(close: seq<real>): real
    requires ValidPrices(close)
  {
    MinOf(DrawdownSeries(close))
  }

  /** Trait 2: the mean of the drawdown series over every position, underwater or not. */
  function AvgDrawdownDepth(close: seq<real>): real
    requires ValidPrices(close)
  {
    Mean(DrawdownSeries(close))
  }

  /** Trait 3: the mean episode length, or 0 when there is no episode. */
  function AvgDrawdownDuration(eps: seq<Episode>): real
    requires forall a :: 0 <= a < |eps| ==> eps[a].start <= eps[a].end
  {
    if |eps| == 0 then 0.0 else NatMean(Lengths(eps))
  }

  /** Trait 1 is a drawdown the series attains, no larger than any other, and lies in [-1, 0]. */
  lemma MaxDrawdownBounds(close: seq<real>)
    requires ValidPrices(close)
    ensures forall i :: 0 <= i < |close| ==> MaxDrawdown(close) <= DrawdownSeries(close)[i]
    ensures exists i :: 0 <= i < |close| && MaxDrawdown(close) == DrawdownSeries(close)[i]
    ensures -1.0 <= MaxDrawdown(close) <= 0.0
  {
    DrawdownSeriesBounds(close);
    FirstDrawdownZero(close);
  }

  /** Trait 2 lies between trait 1 and 0. */
  lemma AvgDrawdownDepthBounds(close: seq<real>)
    requires ValidPrices(close)
    ensures MaxDrawdown(close) <= AvgDrawdownDepth(close) <= 0.0
  {
    var dd := DrawdownSeries(close);
    DrawdownSeriesBounds(close);
    MeanBounds(dd, MinOf(dd), 0.0);
  }

  /** Trait 3 is 0 exactly when there is no episode; otherwise it is the number of
      underwater positions divided by the number of episodes, and lies in [1, n - 1]. */
  lemma AvgDrawdownDurationBounds(close: seq<real>)
    requires ValidPrices(close)
    ensures forall a :: 0 <= a < |Episodes(DrawdownSeries(close))| ==>
      Episodes(DrawdownSeries(close))[a].start <= Episodes(DrawdownSeries(close))[a].end
    ensures |Episodes(DrawdownSeries(close))| == 0 ==> AvgDrawdownDuration(Episodes(DrawdownSeries(close))) == 0.0
    ensures |Episodes(DrawdownSeries(close))| > 0 ==>
      AvgDrawdownDuration(Episodes(DrawdownSeries(close))) ==
        (UnderwaterFrom(DrawdownSeries(close), 0) as real) / (|Episodes(DrawdownSeries(close))| as real) &&
      1.0 <= AvgDrawdownDuration(Episodes(DrawdownSeries(close))) <= (|close| - 1) as real
  {
    var dd := DrawdownSeries(close);
    var eps := Episodes(dd);
    FirstDrawdownZero(close);
    LengthsSumToUnderwaterDays(dd);
    if |eps| > 0 {
      LengthsBounds(eps, |close| - 1);
      NatMeanIsQuotient(Lengths(eps));
      NatMeanBounds(Lengths(eps), 1, |close| - 1);
    }
  }

  /** Each length in Lengths(eps) is the length of the episode at the same index. */
  lemma {:induction false} LengthsBounds(eps: seq<Episode>, hi: nat)
    requires forall a :: 0 <= a < |eps| ==> eps[a].start <= eps[a].end && eps[a].Length() <= hi
    ensures |Lengths(eps)| == |eps|
    ensures forall a :: 0 <= a < |eps| ==> 1 <= Lengths(eps)[a] <= hi
  {
    if eps != [] {
      LengthsBounds(eps[1..], hi);
    }
  }
}
