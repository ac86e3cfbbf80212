/** The drawdown genome of one asset: its four traits computed from its closing
    prices, and the per-asset computation that produces them. */
module DrawdownGenome {
  import opened Stats
  import opened PeakDrawdown
  import opened Segmentation
  import opened Traits
  import opened Recovery

  /** One output row: the asset's symbol and its four drawdown traits. */
  datatype Genome = Genome(
    symbol: string,
    maxDrawdown: real,
    avgDrawdownDepth: real,
    avgDrawdownDuration: real,
    recoverySpeedRatio: real)

  /** The genome of an asset with the given closing prices. */
  function GenomeOf(symbol: string, close: seq<real>): Genome
    requires ValidPrices(close)
  {
    var dd := DrawdownSeries(close);
    var eps := Episodes(dd);
    EpisodesFromBounds(dd, 0);
    Genome(symbol,
      MaxDrawdown(close),
      AvgDrawdownDepth(close),
      AvgDrawdownDuration(eps),
      RecoverySpeed(Samples(close, eps), MaxDrawdown(close), |close|))
  }

  /** The per-asset body: drawdown series, traits 1 and 2, segmentation, trait 3,
      and the recovery loop with its policy for trait 4. */
  method ComputeGenome(symbol: string, close: seq<real>) returns (g: Genome)
    requires ValidPrices(close)
    ensures g == GenomeOf(symbol, close)
  {
    var dd := DrawdownSeries(close);
    var maxDrawdown := MinOf(dd);
    var avgDrawdown := Mean(dd);
    var eps := Segment(dd);
    EpisodesFromBounds(dd, 0);
    var avgDuration := AvgDrawdownDuration(eps);
    var recoverySpeed := RecoverySpeedRatio(close, eps, maxDrawdown);
    g := Genome(symbol, maxDrawdown, avgDrawdown, avgDuration, recoverySpeed);
  }

  /** The ranges of the four traits: -1 <= trait 1 <= trait 2 <= 0; trait 3 is 0
      or lies in [1, n - 1]; trait 4 is 0, lies in [1, n - 2], or is n. */
  lemma GenomeBounds(symbol: string, close: seq<real>)
    requires ValidPrices(close)
    ensures var g := GenomeOf(symbol, close);
      g.symbol == symbol &&
      -1.0 <= g.maxDrawdown <= g.avgDrawdownDepth <= 0.0 &&
      (g.avgDrawdownDuration == 0.0 || 1.0 <= g.avgDrawdownDuration <= (|close| - 1) as real) &&
      (g.recoverySpeedRatio == 0.0 || 1.0 <= g.recoverySpeedRatio <= (|close| - 2) as real ||
       g.recoverySpeedRatio == |close| as real)
  {
    MaxDrawdownBounds(close);
    AvgDrawdownDepthBounds(close);
    AvgDrawdownDurationBounds(close);
    RecoverySpeedPolicy(close);
  }

  /** Every running peak of a constant series is that constant. */
  lemma {:induction false} ConstPeak(close: seq<real>, c: real, i: nat)
    requires i < |close|
    requires forall k :: 0 <= k < |close| ==> close[k] == c
    ensures Peak(close, i) == c
  {
    if i > 0 {
      ConstPeak(close, c, i - 1);
    }
  }

  /** A series with no underwater position has no episode from any position on. */
  lemma {:induction false} NoEpisodesFrom(dd: seq<real>, i: nat)
    requires i <= |dd|
    requires forall k :: 0 <= k < |dd| ==> dd[k] == 0.0
    ensures EpisodesFrom(dd, i) == []
    decreases |dd| - i
  {
    if i < |dd| {
      NoEpisodesFrom(dd, i + 1);
    }
  }

  /** Every flat series (one positive close repeated) has all drawdowns 0 and
      no episode. */
  lemma FlatDrawdowns(close: seq<real>, c: real)
    requires |close| >= 1 && c > 0.0
    requires forall k :: 0 <= k < |close| ==> close[k] == c
    ensures ValidPrices(close)
    ensures |DrawdownSeries(close)| == |close|
    ensures forall k :: 0 <= k < |close| ==> DrawdownSeries(close)[k] == 0.0
    ensures Episodes(DrawdownSeries(close)) == []
  {
    forall k | 0 <= k < |close|
      ensures DrawdownSeries(close)[k] == 0.0
    {
      ConstPeak(close, c, k);
    }
    NoEpisodesFrom(DrawdownSeries(close), 0);
  }

  /** Traits 1 and 2 of every flat series are 0. */
  lemma FlatDepths(close: seq<real>, c: real)
    requires |close| >= 1 && c > 0.0
    requires forall k :: 0 <= k < |close| ==> close[k] == c
    ensures ValidPrices(close)
    ensures MaxDrawdown(close) == 0.0
    ensures AvgDrawdownDepth(close) == 0.0
  {
    FlatDrawdowns(close, c);
    MinOfIs(DrawdownSeries(close), 0.0, 0);
    SumBounds(DrawdownSeries(close), 0.0, 0.0);
  }

  /** A flat series is never underwater, so all four of its traits are 0. */
  lemma FlatGenome(symbol: string, close: seq<real>, c: real)
    requires |close| >= 1 && c > 0.0
    requires forall k :: 0 <= k < |close| ==> close[k] == c
    ensures ValidPrices(close)
    ensures GenomeOf(symbol, close) == Genome(symbol, 0.0, 0.0, 0.0, 0.0)
  {
    FlatDrawdowns(close, c);
    FlatDepths(close, c);
  }

  /** The flat series 100, 100, 100, 100: all four traits are 0. */
  lemma FlatSeries()
    ensures GenomeOf("FLAT", [100.0, 100.0, 100.0, 100.0]) == Genome("FLAT", 0.0, 0.0, 0.0, 0.0)
  {
    FlatGenome("FLAT", [100.0, 100.0, 100.0, 100.0], 100.0);
  }

  /** The drawdowns of the steady decline 100, 90, 80, 70, 60. */
  lemma SteadyDeclineDrawdowns()
    ensures ValidPrices([100.0, 90.0, 80.0, 70.0, 60.0])
    ensures DrawdownSeries([100.0, 90.0, 80.0, 70.0, 60.0]) == [0.0, -0.1, -0.2, -0.3, -0.4]
  {
    var close := [100.0, 90.0, 80.0, 70.0, 60.0];
    assert Peak(close, 1) == 100.0 && Peak(close, 2) == 100.0;
    assert Peak(close, 3) == 100.0 && Peak(close, 4) == 100.0;
  }

  /** Traits 1 and 2 of the steady decline: worst drawdown -40%, mean -20%. */
  lemma SteadyDeclineDepths()
    ensures ValidPrices([100.0, 90.0, 80.0, 70.0, 60.0])
    ensures MaxDrawdown([100.0, 90.0, 80.0, 70.0, 60.0]) == -0.4
    ensures AvgDrawdownDepth([100.0, 90.0, 80.0, 70.0, 60.0]) == -0.2
  {
    var dd := [0.0, -0.1, -0.2, -0.3, -0.4];
    SteadyDeclineDrawdowns();
    MinOfIs(dd, -0.4, 4);
    SumCons(-0.4, []);
    SumCons(-0.3, [-0.4]);
    SumCons(-0.2, [-0.3, -0.4]);
    SumCons(-0.1, [-0.2, -0.3, -0.4]);
    SumCons(0.0, [-0.1, -0.2, -0.3, -0.4]);
  }

  /** The one episode of the steady decline: positions 1..4, trough at 4. */
  lemma SteadyDeclineEpisodes()
    ensures Episodes([0.0, -0.1, -0.2, -0.3, -0.4]) == [Episode(1, 4, 4)]
  {
    var dd := [0.0, -0.1, -0.2, -0.3, -0.4];
    assert FirstArgMin(dd, 1, 4) == 4;
    EpisodesFromSkip(dd, 0);
    EpisodesFromRun(dd, 1, 4);
  }

  /** The steady decline's only episode is major, but its target 80 is never
      reached after the trough: no recovery sample. */
  lemma SteadyDeclineSamples()
    ensures ValidPrices([100.0, 90.0, 80.0, 70.0, 60.0])
    ensures Target([100.0, 90.0, 80.0, 70.0, 60.0], 4) == 80.0
    ensures FirstRecovery([100.0, 90.0, 80.0, 70.0, 60.0], 4, 80.0) == None
    ensures Samples([100.0, 90.0, 80.0, 70.0, 60.0], [Episode(1, 4, 4)]) == []
  {
    var close := [100.0, 90.0, 80.0, 70.0, 60.0];
    var ep := Episode(1, 4, 4);
    SteadyDeclineDrawdowns();
    assert Peak(close, 4) == 100.0;
    assert Target(close, 4) == 80.0;
    assert FirstRecovery(close, 4, 80.0) == None;
    assert [ep][..0] == [];
  }

  /** Trait 3 of the steady decline: its one episode lasts 4 positions. */
  lemma SteadyDeclineDuration()
    ensures AvgDrawdownDuration([Episode(1, 4, 4)]) == 4.0
  {
    assert Lengths([Episode(1, 4, 4)]) == [4];
    NatMeanIsQuotient([4]);
  }

  /** The steady decline 100, 90, 80, 70, 60 never recovers: worst drawdown
      -40%, one episode over positions 1..4 with its trough at 4, the target 80
      never reached, so trait 4 is the series length 5. */
  lemma SteadyDecline()
    ensures GenomeOf("DECL", [100.0, 90.0, 80.0, 70.0, 60.0]) == Genome("DECL", -0.4, -0.2, 4.0, 5.0)
  {
    SteadyDeclineDrawdowns();
    SteadyDeclineDepths();
    SteadyDeclineEpisodes();
    SteadyDeclineSamples();
    SteadyDeclineDuration();
  }

  /** The drawdowns of the dip 100, 70, 100. */
  lemma DipDrawdowns()
    ensures ValidPrices([100.0, 70.0, 100.0])
    ensures DrawdownSeries([100.0, 70.0, 100.0]) == [0.0, -0.3, 0.0]
  {
    var close := [100.0, 70.0, 100.0];
    assert Peak(close, 1) == 100.0 && Peak(close, 2) == 100.0;
  }

  /** The dip's one episode is position 1, with its trough there. */
  lemma DipEpisodes()
    ensures Episodes([0.0, -0.3, 0.0]) == [Episode(1, 1, 1)]
  {
    var dd := [0.0, -0.3, 0.0];
    EpisodesFromSkip(dd, 0);
    EpisodesFromRun(dd, 1, 1);
    EpisodesFromSkip(dd, 2);
  }

  /** Traits 1 and 2 of the dip: worst drawdown -30%, mean -10%. */
  lemma DipDepths()
    ensures ValidPrices([100.0, 70.0, 100.0])
    ensures MaxDrawdown([100.0, 70.0, 100.0]) == -0.3
    ensures AvgDrawdownDepth([100.0, 70.0, 100.0]) == -0.1
  {
    DipDrawdowns();
    MinOfIs([0.0, -0.3, 0.0], -0.3, 1);
    SumCons(0.0, []);
    SumCons(-0.3, [0.0]);
    SumCons(0.0, [-0.3, 0.0]);
  }

  /** The dip's episode is major; its target 85 is first reached one position
      after the trough. */
  lemma DipSamples()
    ensures ValidPrices([100.0, 70.0, 100.0])
    ensures Target([100.0, 70.0, 100.0], 1) == 85.0
    ensures FirstRecovery([100.0, 70.0, 100.0], 1, 85.0) == Some(2)
    ensures Samples([100.0, 70.0, 100.0], [Episode(1, 1, 1)]) == [1]
  {
    var close := [100.0, 70.0, 100.0];
    var ep := Episode(1, 1, 1);
    DipDrawdowns();
    assert Target(close, 1) == 85.0;
    assert FirstRecovery(close, 1, 85.0) == Some(2);
    assert [ep][..0] == [];
  }

  /** Traits 3 and 4 of the dip from its episode and its sample: both means are 1. */
  lemma DipMeans()
    ensures AvgDrawdownDuration([Episode(1, 1, 1)]) == 1.0
    ensures RecoverySpeed([1], -0.3, 3) == 1.0
  {
    assert Lengths([Episode(1, 1, 1)]) == [1];
    NatMeanIsQuotient([1]);
  }

  /** A dip to 70 and a return to 100: trough -30% at position 1, target 85 first
      reached at position 2, so one recovery sample of 1 day and trait 4 is 1. */
  lemma DipAndRecovery()
    ensures GenomeOf("DIP", [100.0, 70.0, 100.0]) == Genome("DIP", -0.3, -0.1, 1.0, 1.0)
  {
    DipDrawdowns();
    DipEpisodes();
    DipDepths();
    DipSamples();
    DipMeans();
  }

  /** The drawdowns and the one episode of the minor dip 100, 95, 100. */
  lemma MinorDipEpisodes()
    ensures ValidPrices([100.0, 95.0, 100.0])
    ensures DrawdownSeries([100.0, 95.0, 100.0]) == [0.0, -0.05, 0.0]
    ensures Episodes([0.0, -0.05, 0.0]) == [Episode(1, 1, 1)]
  {
    var close := [100.0, 95.0, 100.0];
    var dd := [0.0, -0.05, 0.0];
    assert Peak(close, 1) == 100.0 && Peak(close, 2) == 100.0;
    EpisodesFromSkip(dd, 0);
    EpisodesFromRun(dd, 1, 1);
    EpisodesFromSkip(dd, 2);
  }

  /** A 5% dip is not major: no samples, and since the worst drawdown is above
      -20%, trait 4 is 0. */
  lemma MinorDip()
    ensures GenomeOf("MINOR", [100.0, 95.0, 100.0]).maxDrawdown == -0.05
    ensures GenomeOf("MINOR", [100.0, 95.0, 100.0]).recoverySpeedRatio == 0.0
  {
    var close := [100.0, 95.0, 100.0];
    var ep := Episode(1, 1, 1);
    MinorDipEpisodes();
    MinOfIs([0.0, -0.05, 0.0], -0.05, 1);
    assert Samples(close, [ep]) == [] by {
      assert !IsMajor(close, ep);
      assert [ep][..0] == [];
    }
  }

  /** The drawdowns and the one episode of a coin that drops to zero: 100, 0. */
  lemma DeadCoinEpisodes()
    ensures ValidPrices([100.0, 0.0])
    ensures DrawdownSeries([100.0, 0.0]) == [0.0, -1.0]
    ensures Episodes([0.0, -1.0]) == [Episode(1, 1, 1)]
  {
    var close := [100.0, 0.0];
    var dd := [0.0, -1.0];
    assert Peak(close, 1) == 100.0;
    EpisodesFromSkip(dd, 0);
    EpisodesFromRun(dd, 1, 1);
  }

  /** A coin whose close drops to zero has the worst possible drawdown, -100%;
      its target 50 is never reached, so trait 4 is the series length 2. */
  lemma DeadCoin()
    ensures GenomeOf("DEAD", [100.0, 0.0]).maxDrawdown == -1.0
    ensures Target([100.0, 0.0], 1) == 50.0
    ensures FirstRecovery([100.0, 0.0], 1, 50.0) == None
    ensures GenomeOf("DEAD", [100.0, 0.0]).recoverySpeedRatio == 2.0
  {
    var close := [100.0, 0.0];
    var ep := Episode(1, 1, 1);
    DeadCoinEpisodes();
    MinOfIs([0.0, -1.0], -1.0, 1);
    assert Samples(close, [ep]) == [] by {
      assert Target(close, 1) == 50.0;
      assert FirstRecovery(close, 1, 50.0) == None;
      assert [ep][..0] == [];
    }
  }
}
