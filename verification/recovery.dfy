/** Trait 4 of the drawdown genome, the recovery speed: for every major episode
    (trough drawdown at most -20%), the number of positions from the trough to
    the first close that retraces half of the loss; then the ordered policy that
    turns those samples into one value. */
module Recovery {
  import opened Stats
  import opened PeakDrawdown
  import opened Segmentation
  import opened Traits

  datatype Option<T> = None | Some(value: T)

  /** An episode is major when its worst drawdown is at most this. */
  const MajorThreshold: real := -0.20

  /** The share of the peak-to-trough loss that counts as a recovery. */
  const RetracementShare: real := 0.5

  /** The price that retraces half of the loss between the peak and the close at t. */
  function Target(close: seq<real>, t: nat): real
    requires t < |close|
  {
    close[t] + RetracementShare * (Peak(close, t) - close[t])
  }

  /** Below its peak, the close at t lies strictly under the target, which lies
      strictly under the peak. */
  lemma TargetBetween(close: seq<real>, t: nat)
    requires ValidPrices(close) && t < |close|
    requires Drawdown(close, t) < 0.0
    ensures close[t] < Target(close, t) < Peak(close, t)
  {
    DrawdownSign(close, t);
  }

  /** The first position at or after `from` whose close reaches `target`
      (pandas `idxmax` of the mask `close[from:] >= target`), or None if no
      close from there on reaches it. */
  function FirstRecovery(close: seq<real>, from: nat, target: real): (r: Option<nat>)
    requires from <= |close|
    ensures r.Some? ==>
      from <= r.value < |close| && close[r.value] >= target &&
      (forall k :: from <= k < r.value ==> close[k] < target)
    ensures r.None? ==> forall k :: from <= k < |close| ==> close[k] < target
    decreases |close| - from
  {
    if from == |close| then None
    else if close[from] >= target then Some(from)
    else FirstRecovery(close, from + 1, target)
  }

  /** The forward scan for the first close at or above the target. */
  method ScanForRecovery(close: seq<real>, from: nat, target: real) returns (r: Option<nat>)
    requires from <= |close|
    ensures r == FirstRecovery(close, from, target)
  {
    var j := from;
    while j < |close| && close[j] < target
      invariant from <= j <= |close|
      invariant FirstRecovery(close, j, target) == FirstRecovery(close, from, target)
    {
      j := j + 1;
    }
    r := if j < |close| then Some(j) else None;
  }

  /** The episode is major: its trough drawdown, which is its worst, is at most -20%. */
  predicate IsMajor(close: seq<real>, ep: Episode)
    requires ValidPrices(close) && ep.trough < |close|
  {
    Drawdown(close, ep.trough) <= MajorThreshold
  }

  /** The recovery sample of one episode: [days to recover] for a major episode
      that retraces half of its loss, [] otherwise. */
  function SampleOf(close: seq<real>, ep: Episode): seq<nat>
    requires ValidPrices(close) && ep.trough < |close|
  {
    if !IsMajor(close, ep) then []
    else match FirstRecovery(close, ep.trough, Target(close, ep.trough))
      case Some(j) => [j - ep.trough]
      case None => []
  }

  /** The recovery samples of a list of episodes, in episode order. */
  function Samples(close: seq<real>, eps: seq<Episode>): seq<nat>
    requires ValidPrices(close)
    requires forall a :: 0 <= a < |eps| ==> eps[a].trough < |close|
  {
    if eps == [] then []
    else Samples(close, eps[..|eps| - 1]) + SampleOf(close, eps[|eps| - 1])
  }

  /** The ordered aggregation policy: the mean of the samples if there is any;
      otherwise the series length n if the worst drawdown is major (never
      recovered); otherwise 0 (no major drawdown). */
  function RecoverySpeed(samples: seq<nat>, maxDrawdown: real, n: nat): real
  {
    if |samples| > 0 then NatMean(samples)
    else if maxDrawdown <= MajorThreshold then n as real
    else 0.0
  }

  /** Extending the episode prefix by one episode appends that episode's sample. */
  lemma SamplesExtend(close: seq<real>, eps: seq<Episode>, a: nat)
    requires ValidPrices(close)
    requires forall b :: 0 <= b < |eps| ==> eps[b].trough < |close|
    requires a < |eps|
    ensures Samples(close, eps[..a + 1]) == Samples(close, eps[..a]) + SampleOf(close, eps[a])
  {
    assert eps[..a + 1][..a] == eps[..a];
  }

  /** Trait 4: the loop over the episodes collecting recovery samples, then the
      ordered aggregation policy. */
  method RecoverySpeedRatio(close: seq<real>, eps: seq<Episode>, maxDrawdown: real) returns (r: real)
    requires ValidPrices(close)
    requires forall a :: 0 <= a < |eps| ==> eps[a].trough < |close|
    ensures r == RecoverySpeed(Samples(close, eps), maxDrawdown, |close|)
  {
    var samples: seq<nat> := [];
    var a := 0;
    while a < |eps|
      invariant 0 <= a <= |eps|
      invariant samples == Samples(close, eps[..a])
    {
      var ep := eps[a];
      SamplesExtend(close, eps, a);
      if Drawdown(close, ep.trough) <= MajorThreshold {
        var target := Target(close, ep.trough);
        var found := ScanForRecovery(close, ep.trough, target);
        if found.Some? {
          samples := samples + [found.value - ep.trough];
        }
      }
      a := a + 1;
    }
    assert eps[..a] == eps;
    if |samples| > 0 {
      r := NatMean(samples);
    } else if maxDrawdown <= MajorThreshold {
      r := |close| as real;
    } else {
      r := 0.0;
    }
  }

  /** One episode's sample: a major episode whose close later reaches the target
      yields exactly one sample d, the distance from the trough to the first such
      close, with 1 <= d <= n - 1 - trough; any other episode yields none. */
  lemma SampleOfMeaning(close: seq<real>, ep: Episode)
    requires ValidPrices(close)
    requires IsEpisodeOf(DrawdownSeries(close), ep)
    ensures |SampleOf(close, ep)| <= 1
    ensures |SampleOf(close, ep)| == 1 <==>
      IsMajor(close, ep) &&
      exists j :: ep.trough <= j < |close| && close[j] >= Target(close, ep.trough)
    ensures |SampleOf(close, ep)| == 1 ==>
      var d := SampleOf(close, ep)[0];
      1 <= d <= |close| - 1 - ep.trough &&
      close[ep.trough + d] >= Target(close, ep.trough) &&
      forall k :: ep.trough <= k < ep.trough + d ==> close[k] < Target(close, ep.trough)
  {
    var dd := DrawdownSeries(close);
    assert Underwater(dd, ep.trough);
    TargetBetween(close, ep.trough);
    var r := FirstRecovery(close, ep.trough, Target(close, ep.trough));
    if IsMajor(close, ep) && r.Some? {
      assert r.value != ep.trough;
    }
  }

  /** Every sample of the episodes of a valid series lies in [1, n - 2]: the
      trough is never the first position, and the recovering close comes
      strictly after the trough. */
  lemma {:induction false} SamplesBounds(close: seq<real>, eps: seq<Episode>)
    requires ValidPrices(close)
    requires forall a :: 0 <= a < |eps| ==> IsEpisodeOf(DrawdownSeries(close), eps[a])
    ensures forall a :: 0 <= a < |eps| ==> eps[a].trough < |close|
    ensures forall i :: 0 <= i < |Samples(close, eps)| ==> 1 <= Samples(close, eps)[i] <= |close| - 2
  {
    if eps != [] {
      var ep := eps[|eps| - 1];
      assert forall a :: 0 <= a < |eps| - 1 ==> eps[..|eps| - 1][a] == eps[a];
      SamplesBounds(close, eps[..|eps| - 1]);
      SampleOfMeaning(close, ep);
      FirstDrawdownZero(close);
      assert Underwater(DrawdownSeries(close), ep.start);
    }
  }

  /** Samples come only from major episodes. */
  lemma {:induction false} SamplesFromMajor(close: seq<real>, eps: seq<Episode>)
    requires ValidPrices(close)
    requires forall a :: 0 <= a < |eps| ==> eps[a].trough < |close|
    ensures |Samples(close, eps)| > 0 ==> exists a :: 0 <= a < |eps| && IsMajor(close, eps[a])
  {
    if eps != [] {
      var last := |eps| - 1;
      SamplesFromMajor(close, eps[..last]);
      if |Samples(close, eps[..last])| > 0 {
        var a :| 0 <= a < last && IsMajor(close, eps[..last][a]);
        assert eps[a] == eps[..last][a];
      }
    }
  }

  /** Some episode of the series is major exactly when trait 1 is at most -20%. */
  lemma MajorIffMaxDrawdown(close: seq<real>)
    requires ValidPrices(close)
    ensures forall a :: 0 <= a < |Episodes(DrawdownSeries(close))| ==>
      Episodes(DrawdownSeries(close))[a].trough < |close|
    ensures (exists a :: 0 <= a < |Episodes(DrawdownSeries(close))| &&
               IsMajor(close, Episodes(DrawdownSeries(close))[a]))
            <==> MaxDrawdown(close) <= MajorThreshold
  {
    var dd := DrawdownSeries(close);
    var eps := Episodes(dd);
    EpisodesFromBounds(dd, 0);
    var m := MaxDrawdown(close);
    if m <= MajorThreshold {
      var i :| 0 <= i < |close| && m == dd[i];
      var a := EpisodeCovering(dd, i);
      EpisodeAt(dd, a);
      assert dd[eps[a].trough] <= dd[i];
      assert IsMajor(close, eps[a]);
    } else {
      forall a | 0 <= a < |eps|
        ensures !IsMajor(close, eps[a])
      {
        assert m <= dd[eps[a].trough];
      }
    }
  }

  /** When the episodes of a valid series yield samples, some episode is major
      and the mean of the samples lies in [1, n - 2]. */
  lemma SeriesSamplesMean(close: seq<real>)
    requires ValidPrices(close)
    ensures forall a :: 0 <= a < |Episodes(DrawdownSeries(close))| ==>
      Episodes(DrawdownSeries(close))[a].trough < |close|
    ensures
      var eps := Episodes(DrawdownSeries(close));
      var samples := Samples(close, eps);
      |samples| > 0 ==>
        (exists a :: 0 <= a < |eps| && IsMajor(close, eps[a])) &&
        1.0 <= NatMean(samples) <= (|close| - 2) as real
  {
    var dd := DrawdownSeries(close);
    var eps := Episodes(dd);
    EpisodesFromValid(dd, 0);
    SamplesBounds(close, eps);
    var samples := Samples(close, eps);
    if |samples| > 0 {
      SamplesFromMajor(close, eps);
      NatMeanBounds(samples, 1, |close| - 2);
    }
  }

  /** The policy applied to a valid series: trait 4 is never negative; it is 0
      exactly when no episode is major; it is the mean of the samples, in
      [1, n - 2], when some major episode recovers; and it is the series length
      when some episode is major but none recovers. */
  lemma RecoverySpeedPolicy(close: seq<real>)
    requires ValidPrices(close)
    ensures forall a :: 0 <= a < |Episodes(DrawdownSeries(close))| ==>
      Episodes(DrawdownSeries(close))[a].trough < |close|
    ensures
      var eps := Episodes(DrawdownSeries(close));
      var samples := Samples(close, eps);
      var r := RecoverySpeed(samples, MaxDrawdown(close), |close|);
      var major := exists a :: 0 <= a < |eps| && IsMajor(close, eps[a]);
      r >= 0.0 &&
      (r == 0.0 <==> !major) &&
      (|samples| > 0 ==> 1.0 <= r <= (|close| - 2) as real) &&
      (|samples| == 0 && major ==> r == |close| as real)
  {
    MajorIffMaxDrawdown(close);
    SeriesSamplesMean(close);
  }
}
