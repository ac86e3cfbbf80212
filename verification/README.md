# Drawdown genome: a verified Dafny model

The drawdown dimension of the asset "genome" turns one asset's daily closing
prices into four traits:

1. **max drawdown**: the worst drawdown of the series;
2. **average drawdown depth**: the mean drawdown over every position;
3. **average drawdown duration**: the mean length of the underwater episodes, or 0 when there are none;
4. **recovery speed ratio**: for every major episode (trough drawdown at most -20%), the days from the trough to the first close that retraces half of the loss. Trait 4 is then decided by an ordered policy:
   - the mean of those day counts, if there are any;
   - otherwise the series length, if the worst drawdown is major (the asset never recovered);
   - otherwise 0.

The drawdown at position i is `(close[i] - peak[i]) / peak[i]`, where `peak` is the running maximum of the closes. Underwater episodes are the maximal runs of positions with a negative drawdown.

The model follows the per-asset body of
`datasets/standardized_datasets/build_dim1.py` (lines 24-92):

- `stats.dfy`, module `Stats`: minimum, sum and mean of a series, with their bounds.
- `drawdown.dfy`, module `PeakDrawdown`: the running peak (`cummax`), the drawdown ratio and the drawdown series.
- `episodes.dfy`, module `Segmentation`: the underwater episodes as maximal runs with a first-occurrence trough (`idxmin`). It also has:
  - the change-point group key `(flag != flag.shift()).cumsum()` and the per-group flag sums, with proofs that every episode is exactly one group, that the groups with a positive sum are exactly the episodes' groups, and that each such sum is the episode's length;
  - the single-pass scan `Segment`, proved equal to the episode definition.
- `traits.dfy`, module `Traits`: traits 1 to 3.
- `recovery.dfy`, module `Recovery`: the recovery target, the forward search for the first close at or above it, the per-episode samples, and the three-way policy of trait 4. The loops are methods proved against those functions.
- `genome.dfy`, module `DrawdownGenome`: the four-trait `Genome` row, the per-asset computation `ComputeGenome`, the ranges of the traits, and worked examples.

Positions are the indices 0 .. n-1, which is the default index of a frame read from CSV. Prices are exact reals.

Two points about the code's behaviour:

- The per-asset body raises no error of its own. With a positive first close every peak is positive, so a later close of zero only gives a drawdown of -1. Zero closes are therefore modelled: `ValidPrices` requires a positive first close and no negative close.
- The recovery scan starts at the trough itself (`close.loc[trough_idx:]` is inclusive). Because the close at the trough is always below its target, every recorded sample is at least 1 (`Recovery.SampleOfMeaning`).

## Model

| member | source | states |
|---|---|---|
| Stats.MinOf | datasets/standardized_datasets/build_dim1.py:33 | the minimum of a non-empty series is no larger than any element and is attained by one |
| Stats.Sum | datasets/standardized_datasets/build_dim1.py:36 | defines the sum of the drawdowns behind `mean()`; bounded by `Stats.SumBounds` |
| Stats.Mean | datasets/standardized_datasets/build_dim1.py:36 | defines `mean()` as the sum divided by the count; bounded by `Stats.MeanBounds` |
| Stats.NatSum | datasets/standardized_datasets/build_dim1.py:42-45 | defines the integer sum of counts; `Segmentation.LengthsSumToUnderwaterDays` proves the episode lengths sum to the underwater days |
| Stats.NatMean | datasets/standardized_datasets/build_dim1.py:45 | defines `dd_lengths.mean()` as the mean of the counts read as reals; bounded by `Stats.NatMeanBounds` |
| Stats.MeanBounds | datasets/standardized_datasets/build_dim1.py:36 | the mean of values that all lie in [lo, hi] lies in [lo, hi] |
| Stats.SumBounds | datasets/standardized_datasets/build_dim1.py:36 | a sum of n values in [lo, hi] lies in [n*lo, n*hi] |
| Stats.NatMeanBounds | datasets/standardized_datasets/build_dim1.py:45 | the mean of counts that all lie in [lo, hi] lies in [lo, hi] |
| Stats.Reals | datasets/standardized_datasets/build_dim1.py:45 | defines the counts read as reals (the int-to-float step of the mean); `Stats.SumReals` relates their sum |
| Stats.SumReals | datasets/standardized_datasets/build_dim1.py:45 | the real sum of the counts read as reals equals their integer sum |
| Stats.NatMeanIsQuotient | datasets/standardized_datasets/build_dim1.py:45 | the mean of counts is their integer sum divided by their number |
| PeakDrawdown.PeakIsPrefixMax | datasets/standardized_datasets/build_dim1.py:26 | the running peak at i is at least every close up to i and equals one of them (a cumulative maximum) |
| PeakDrawdown.Peak | datasets/standardized_datasets/build_dim1.py:26 | defines `cummax` position by position: the larger of the previous peak and the current close; `PeakIsPrefixMax` proves it is the prefix maximum |
| PeakDrawdown.Drawdown | datasets/standardized_datasets/build_dim1.py:28 | defines the ratio (close - peak) / peak at one position; `DrawdownSign` proves its range and sign |
| PeakDrawdown.PeakNonDecreasing | datasets/standardized_datasets/build_dim1.py:26 | the running peak never decreases along the series |
| PeakDrawdown.PeakPositive | datasets/standardized_datasets/build_dim1.py:26-28 | with a positive first close every peak is positive and at least the close at its position, so the division by the peak is defined |
| PeakDrawdown.DrawdownSeries | datasets/standardized_datasets/build_dim1.py:28 | defines the drawdown series, line 28's ratio at every position; `DrawdownSeriesBounds` gives its length and range |
| PeakDrawdown.DrawdownSign | datasets/standardized_datasets/build_dim1.py:27-28 | a drawdown lies in [-1, 0]; it is 0 exactly at the peak, negative exactly below it, and -1 exactly at a zero close |
| PeakDrawdown.FirstDrawdownZero | datasets/standardized_datasets/build_dim1.py:26-28 | the first position is its own peak, so its drawdown is 0 and it is never underwater |
| PeakDrawdown.DrawdownSeriesBounds | datasets/standardized_datasets/build_dim1.py:27-28 | every drawdown of the series lies in [-1, 0] |
| Segmentation.RunEnd | datasets/standardized_datasets/build_dim1.py:40-41 | the end of the underwater run through i: every position up to it is underwater and the next one is not |
| Segmentation.Underwater | datasets/standardized_datasets/build_dim1.py:40 | defines the flag `drawdown < 0` at one position |
| Segmentation.RunEndAt | datasets/standardized_datasets/build_dim1.py:40-41 | a maximal underwater run s..e has end e |
| Segmentation.FirstArgMin | datasets/standardized_datasets/build_dim1.py:57 | the trough is the first position in the range holding its smallest drawdown (ties go to the earliest) |
| Segmentation.EpisodesFromValid | datasets/standardized_datasets/build_dim1.py:40-43 | every episode found from a run boundary on is a maximal underwater run with its first minimum as trough |
| Segmentation.EpisodesFrom | datasets/standardized_datasets/build_dim1.py:40-43 | defines the underwater episodes starting at or after a position, in order, each with its first-minimum trough |
| Segmentation.Episodes | datasets/standardized_datasets/build_dim1.py:40-43 | defines the underwater groups kept by the positive-sum filter as the episodes from position 0; `EpisodesPartition` and `GroupFlagSums` prove what they are |
| Segmentation.EpisodesFromBounds | datasets/standardized_datasets/build_dim1.py:40-43 | episodes found from i on start at or after i, on an underwater position, with start <= trough <= end inside the series |
| Segmentation.EpisodesFromOrdered | datasets/standardized_datasets/build_dim1.py:40-43 | the episodes are in position order, separated by at least one position above water |
| Segmentation.EpisodesFromCover | datasets/standardized_datasets/build_dim1.py:40-43 | every underwater position from a run boundary on lies in some episode found from there |
| Segmentation.EpisodesPartition | datasets/standardized_datasets/build_dim1.py:40-43 | the episodes partition the underwater positions: each is a maximal run with its first-minimum trough; they are ordered and disjoint; a position is underwater if and only if some episode contains it, and then exactly one does |
| Segmentation.EpisodeAt | datasets/standardized_datasets/build_dim1.py:40-43 | each listed episode is a genuine underwater episode of the series |
| Segmentation.EpisodeCovering | datasets/standardized_datasets/build_dim1.py:40-43 | each underwater position is covered by a listed episode |
| Segmentation.GroupKeyStep | datasets/standardized_datasets/build_dim1.py:41 | the change-point group key never decreases, and two positions share it exactly when the underwater flag does not change between them |
| Segmentation.GroupKey | datasets/standardized_datasets/build_dim1.py:41 | defines the change-point key `(flag != flag.shift()).cumsum()`: 1 at position 0, one more at each flag change |
| Segmentation.GroupFlagSum | datasets/standardized_datasets/build_dim1.py:42 | defines the per-group flag sum `is_in_dd.groupby(dd_groups).sum()` of one group key |
| Segmentation.FlagSumOfRange | datasets/standardized_datasets/build_dim1.py:42 | when a group's underwater positions are exactly s..e, its flag sum is e - s + 1 |
| Segmentation.FlagSumWitness | datasets/standardized_datasets/build_dim1.py:42-43 | a group with a positive flag sum has an underwater position |
| Segmentation.GroupFlagSums | datasets/standardized_datasets/build_dim1.py:42-45 | the groups with a positive flag sum are exactly the episodes' groups, each one's sum is that episode's length in `Lengths(Episodes(dd))`, and the keys increase in episode order, so the kept sums are the episode lengths one to one and in order |
| Segmentation.EpisodeKeysIncrease | datasets/standardized_datasets/build_dim1.py:41-43 | a later episode has a strictly larger group key, so distinct episodes are distinct groups, visited in episode order |
| Segmentation.EpisodeIsGroup | datasets/standardized_datasets/build_dim1.py:40-43 | a position has an episode's group key if and only if the episode contains it: the episodes are exactly the underwater groups |
| Segmentation.TroughIsPeriodMin | datasets/standardized_datasets/build_dim1.py:52-57 | the trough's drawdown equals the minimum over the episode's positions, so testing the trough is testing the period minimum |
| Segmentation.UnderwaterRun | datasets/standardized_datasets/build_dim1.py:42 | an underwater run i..e adds e - i + 1 underwater positions |
| Segmentation.UnderwaterFrom | datasets/standardized_datasets/build_dim1.py:42 | defines the number of underwater positions at or after a position |
| Segmentation.Lengths | datasets/standardized_datasets/build_dim1.py:42-43 | defines the episode lengths in episode order; `GroupFlagSums` proves they are the kept group sums |
| Segmentation.LengthsAt | datasets/standardized_datasets/build_dim1.py:42-43 | there is one length per episode, and each is that episode's length |
| Segmentation.UnderwaterFromAtMost | datasets/standardized_datasets/build_dim1.py:42 | at most n - i positions from i on are underwater |
| Segmentation.LengthsFromSum | datasets/standardized_datasets/build_dim1.py:42-43 | the episode lengths from a run boundary on add up to the number of underwater positions from there |
| Segmentation.LengthsSumToUnderwaterDays | datasets/standardized_datasets/build_dim1.py:42-45 | every episode has length in [1, n - 1], and the lengths add up to the number of underwater positions, at most n - 1 |
| Segmentation.EpisodesFromSkip | datasets/standardized_datasets/build_dim1.py:40-43 | a position above water opens no episode |
| Segmentation.EpisodesFromRun | datasets/standardized_datasets/build_dim1.py:40-43 | a maximal underwater run is the next episode, with its first-minimum trough |
| Segmentation.ScanRunEnd | datasets/standardized_datasets/build_dim1.py:40-41 | the forward walk from an underwater position returns the last position of its run, as `RunEnd` |
| Segmentation.Segment | datasets/standardized_datasets/build_dim1.py:40-43 | the scan over the flags, walking each underwater run to its end, returns exactly the underwater episodes, in order |
| Traits.MaxDrawdownBounds | datasets/standardized_datasets/build_dim1.py:33 | trait 1 is no larger than any drawdown, is attained, and lies in [-1, 0] |
| Traits.MaxDrawdown | datasets/standardized_datasets/build_dim1.py:33 | defines trait 1 as the minimum of the drawdown series |
| Traits.AvgDrawdownDepthBounds | datasets/standardized_datasets/build_dim1.py:36 | trait 2, the mean over every position, lies between trait 1 and 0 |
| Traits.AvgDrawdownDepth | datasets/standardized_datasets/build_dim1.py:36 | defines trait 2 as the mean of the drawdown series over every position |
| Traits.AvgDrawdownDurationBounds | datasets/standardized_datasets/build_dim1.py:38-45 | trait 3 is 0 when there is no episode; otherwise it is the number of underwater positions divided by the number of episodes, in [1, n - 1] |
| Traits.AvgDrawdownDuration | datasets/standardized_datasets/build_dim1.py:45 | defines trait 3: 0 with no episode, otherwise the mean of the episode lengths |
| Traits.LengthsBounds | datasets/standardized_datasets/build_dim1.py:42-43 | there is one length per episode, each in [1, hi] |
| Recovery.TargetBetween | datasets/standardized_datasets/build_dim1.py:58-62 | below its peak, the trough close lies strictly under the 50% target, which lies strictly under the peak |
| Recovery.Target | datasets/standardized_datasets/build_dim1.py:58-62 | defines the target as the trough close plus half of the peak-to-trough gap, with the peak taken at the trough |
| Recovery.FirstRecovery | datasets/standardized_datasets/build_dim1.py:64-70 | the result is the first position at or after the trough whose close reaches the target, or None exactly when no close from there on reaches it |
| Recovery.IsMajor | datasets/standardized_datasets/build_dim1.py:53-56 | defines a major episode: its trough drawdown is at most -0.20 (`TroughIsPeriodMin` makes this the period minimum) |
| Recovery.SampleOf | datasets/standardized_datasets/build_dim1.py:56-72 | defines the sample of one episode: [days from trough to the first close at or above the target] if it is major and recovers, else [] |
| Recovery.Samples | datasets/standardized_datasets/build_dim1.py:48-72 | defines `recovery_days_list`: the samples of the episodes, in episode order |
| Recovery.RecoverySpeed | datasets/standardized_datasets/build_dim1.py:74-83 | defines the ordered policy: the mean of the samples, else n when trait 1 <= -0.20, else 0 |
| Recovery.ScanForRecovery | datasets/standardized_datasets/build_dim1.py:64-70 | the forward scan returns the first recovering position, as `FirstRecovery` |
| Recovery.SamplesExtend | datasets/standardized_datasets/build_dim1.py:51-72 | one more episode appends exactly that episode's sample, in episode order |
| Recovery.RecoverySpeedRatio | datasets/standardized_datasets/build_dim1.py:48-83 | the loop over the episodes collects exactly the recovery samples, and the result follows the ordered policy: mean, else n when trait 1 <= -0.20, else 0 |
| Recovery.SampleOfMeaning | datasets/standardized_datasets/build_dim1.py:56-72 | an episode yields one sample exactly when it is major and some close from the trough on reaches the target. The sample d is then in [1, n - 1 - trough], the close d days after the trough reaches the target, and none before it does |
| Recovery.SamplesBounds | datasets/standardized_datasets/build_dim1.py:64-72 | every recovery sample of the series' episodes lies in [1, n - 2] |
| Recovery.SamplesFromMajor | datasets/standardized_datasets/build_dim1.py:51-72 | samples come only from major episodes |
| Recovery.MajorIffMaxDrawdown | datasets/standardized_datasets/build_dim1.py:53-56 | some episode is major if and only if trait 1 is at most -0.20 |
| Recovery.SeriesSamplesMean | datasets/standardized_datasets/build_dim1.py:51-76 | when the episodes of a series yield samples, some episode is major and the mean of the samples lies in [1, n - 2] |
| Recovery.RecoverySpeedPolicy | datasets/standardized_datasets/build_dim1.py:74-83 | trait 4 is never negative and is 0 exactly when no episode is major; with samples it lies in [1, n - 2]; with a major episode but no sample it is n |
| DrawdownGenome.ComputeGenome | datasets/standardized_datasets/build_dim1.py:24-92 | the per-asset computation returns the symbol and the four traits as `GenomeOf` defines them from the closes |
| DrawdownGenome.GenomeOf | datasets/standardized_datasets/build_dim1.py:24-92 | defines the output row: the symbol and traits 1-4 of the closes |
| DrawdownGenome.GenomeBounds | datasets/standardized_datasets/build_dim1.py:30-92 | keeps the symbol; -1 <= trait 1 <= trait 2 <= 0; trait 3 is 0 or in [1, n - 1]; trait 4 is 0, in [1, n - 2], or n |
| DrawdownGenome.ConstPeak | datasets/standardized_datasets/build_dim1.py:26 | every running peak of a constant series is that constant |
| DrawdownGenome.NoEpisodesFrom | datasets/standardized_datasets/build_dim1.py:40-43 | a drawdown series that is 0 everywhere has no underwater episode from any position on |
| DrawdownGenome.FlatDrawdowns | datasets/standardized_datasets/build_dim1.py:24-43 | every series of one positive close repeated has all drawdowns 0 and no episode |
| DrawdownGenome.FlatDepths | datasets/standardized_datasets/build_dim1.py:33-36 | every series of one positive close repeated has traits 1 and 2 equal to 0 |
| DrawdownGenome.FlatGenome | datasets/standardized_datasets/build_dim1.py:24-92 | every series of one positive close repeated has all four traits 0 |
| DrawdownGenome.FlatSeries | datasets/standardized_datasets/build_dim1.py:24-92 | the flat series 100, 100, 100, 100 has all four traits 0 |
| DrawdownGenome.SteadyDeclineDrawdowns | datasets/standardized_datasets/build_dim1.py:24-28 | 100, 90, 80, 70, 60 has drawdowns 0, -0.1, -0.2, -0.3, -0.4 |
| DrawdownGenome.SteadyDeclineDepths | datasets/standardized_datasets/build_dim1.py:33-36 | the steady decline has trait 1 -0.4 and trait 2 -0.2 |
| DrawdownGenome.SteadyDeclineEpisodes | datasets/standardized_datasets/build_dim1.py:40-43 | the steady decline has one episode over positions 1..4, trough at 4 |
| DrawdownGenome.SteadyDeclineSamples | datasets/standardized_datasets/build_dim1.py:51-72 | its major episode never reaches the target 80, so no sample |
| DrawdownGenome.SteadyDeclineDuration | datasets/standardized_datasets/build_dim1.py:38-45 | the steady decline's one episode of 4 positions gives trait 3 = 4 |
| DrawdownGenome.SteadyDecline | datasets/standardized_datasets/build_dim1.py:24-92 | the steady decline's genome is (-0.4, -0.2, 4, 5): never recovered, so trait 4 is the series length |
| DrawdownGenome.DipDrawdowns | datasets/standardized_datasets/build_dim1.py:24-28 | 100, 70, 100 has drawdowns 0, -0.3, 0 |
| DrawdownGenome.DipEpisodes | datasets/standardized_datasets/build_dim1.py:40-43 | the dip has one episode, position 1, trough at 1 |
| DrawdownGenome.DipDepths | datasets/standardized_datasets/build_dim1.py:33-36 | the dip has trait 1 -0.3 and trait 2 -0.1 |
| DrawdownGenome.DipSamples | datasets/standardized_datasets/build_dim1.py:56-72 | the dip's target is 85, first reached one day after the trough: one sample of 1 |
| DrawdownGenome.DipMeans | datasets/standardized_datasets/build_dim1.py:45-76 | the dip's one episode of length 1 and its one sample of 1 give traits 3 and 4 both equal to 1 |
| DrawdownGenome.DipAndRecovery | datasets/standardized_datasets/build_dim1.py:24-92 | the dip's genome is (-0.3, -0.1, 1, 1) |
| DrawdownGenome.MinorDipEpisodes | datasets/standardized_datasets/build_dim1.py:24-43 | 100, 95, 100 has drawdowns 0, -0.05, 0 and one episode at position 1 |
| DrawdownGenome.MinorDip | datasets/standardized_datasets/build_dim1.py:33-83 | the 5% dip has trait 1 -0.05 and, with no major episode, trait 4 0 |
| DrawdownGenome.DeadCoinEpisodes | datasets/standardized_datasets/build_dim1.py:24-43 | 100, 0 has drawdowns 0, -1 and one episode at position 1 |
| DrawdownGenome.DeadCoin | datasets/standardized_datasets/build_dim1.py:33-83 | a close of zero gives trait 1 -1; the target 50 is never reached, so trait 4 is the series length 2 |

## Left out

- Listing the input directory, reading each CSV file and taking the symbol from its first row (lines 14-22) are out. The symbol and the ordered closes are parameters of `ComputeGenome`.
- The batch accumulator, the `except` handler that counts failed assets, writing the output CSV and the console report (lines 9-12, 94-110) are out. They are I/O around the per-asset body.
- An empty series is excluded by `ValidPrices`. In the source it fails when the symbol is read from the first row, before the per-asset body runs, and the batch handler absorbs it.
- `ValidPrices` excludes a negative close and a first close of zero. Closes are prices and never negative. After a positive first close a negative close would give a finite drawdown below -1, outside the [-1, 0] range the lemmas state. A first close of zero gives 0/0, which pandas turns into NaN.
- IEEE double arithmetic is replaced by exact reals. Rounding in the drawdown ratio, the 50% target and the means is not modelled, so a comparison against -0.20 or the target can differ at the last bit.
- The pandas index is taken to be the default 0 .. n-1 range, so `idxmin`, `idxmax` and the day difference work on positions.
- The integer 0 (trait 3 with no episode, trait 4 with no major drawdown) and the integer `len(close)` are modelled as the reals 0.0 and n. Their numeric value is the same as the Python int/float mix.
- The computation is a pure function of the closes, so running it twice gives the same genome; no separate lemma states this.
- DrawdownGenome.MinorDip: states only traits 1 and 4 of the example, the two the minor-dip scenario is about.
- DrawdownGenome.DeadCoin: states traits 1 and 4 and the recovery target of the example, not traits 2 and 3, which the example is not about.
