/** Underwater episodes: the maximal runs of consecutive positions whose drawdown
    is negative. The source finds them by change-point grouping on the
    underwater flag (a new group key wherever the flag differs from the previous
    position's) and keeps the groups whose flag is set; this module defines the
    runs directly, relates them to that group key, and gives the single-pass
    scan that produces them. */
module Segmentation {
  import opened Stats

  /** One underwater run: first and last position (both inclusive) and the trough,
      the first position in the run holding the run's smallest drawdown. */
  datatype Episode = Episode(start: nat, end: nat, trough: nat)
  {
    predicate Contains(i: int)
    {
      start <= i <= end
    }

    function Length(): nat
      requires start <= end
    {
      end - start + 1
    }
  }

  /** The underwater flag of position i (`drawdown < 0`). */
  predicate Underwater(dd: seq<real>, i: nat)
    requires i < |dd|
  {
    dd[i] < 0.0
  }

  /** The last position of the underwater run that contains position i: every
      position from i to the result is underwater, and the next one is not. */
  function RunEnd(dd: seq<real>, i: nat): (e: nat)
    requires i < |dd| && Underwater(dd, i)
    ensures i <= e < |dd|
    ensures forall k :: i <= k <= e ==> Underwater(dd, k)
    ensures e + 1 == |dd| || !Underwater(dd, e + 1)
    decreases |dd| - i
  {
    if i + 1 < |dd| && Underwater(dd, i + 1) then RunEnd(dd, i + 1) else i
  }

  /** The first position in lo..hi (inclusive) that holds the smallest value there
      (pandas `idxmin`, which breaks ties by first occurrence). */
  function FirstArgMin(dd: seq<real>, lo: nat, hi: nat): (t: nat)
    requires lo <= hi < |dd|
    ensures lo <= t <= hi
    ensures forall k :: lo <= k <= hi ==> dd[t] <= dd[k]
    ensures forall k :: lo <= k < t ==> dd[t] < dd[k]
    decreases hi - lo
  {
    if lo == hi then lo
    else
      var t := FirstArgMin(dd, lo + 1, hi);
      if dd[lo] <= dd[t] then lo else t
  }

  /** ep is an underwater episode of dd: a non-empty run of underwater positions
      that cannot be extended on either side, with its first minimum as trough. */
  predicate IsEpisodeOf(dd: seq<real>, ep: Episode)
  {
    ep.start <= ep.end < |dd| &&
    (forall k :: ep.start <= k <= ep.end ==> Underwater(dd, k)) &&
    (ep.start == 0 || !Underwater(dd, ep.start - 1)) &&
    (ep.end + 1 == |dd| || !Underwater(dd, ep.end + 1)) &&
    ep.start <= ep.trough <= ep.end &&
    ep.trough == FirstArgMin(dd, ep.start, ep.end)
  }

  /** Position i does not split an underwater run: a run cannot both
      end at i - 1 and continue at i. */
  predicate AtBoundary(dd: seq<real>, i: nat)
    requires i <= |dd|
  {
    i == 0 || i == |dd| || !Underwater(dd, i - 1) || !Underwater(dd, i)
  }

  /** The episodes that start at or after position i, in position order. */
  function EpisodesFrom(dd: seq<real>, i: nat): seq<Episode>
    requires i <= |dd|
    decreases |dd| - i
  {
    if i == |dd| then []
    else if !Underwater(dd, i) then EpisodesFrom(dd, i + 1)
    else
      var e := RunEnd(dd, i);
      [Episode(i, e, FirstArgMin(dd, i, e))] + EpisodesFrom(dd, e + 1)
  }

  /** All underwater episodes of a drawdown series, in position order. */
  function Episodes(dd: seq<real>): seq<Episode>
  {
    EpisodesFrom(dd, 0)
  }

  /** A run's last position is determined by the run: if s..e are underwater
      and e + 1 is not, RunEnd from s is e. */
  lemma {:induction false} RunEndAt(dd: seq<real>, s: nat, e: nat)
    requires s <= e < |dd|
    requires forall k :: s <= k <= e ==> Underwater(dd, k)
    requires e + 1 == |dd| || !Underwater(dd, e + 1)
    ensures RunEnd(dd, s) == e
    decreases e - s
  {
    if s < e {
      RunEndAt(dd, s + 1, e);
    }
  }

  /** The episodes from a boundary position on are genuine episodes that start at
      or after it. */
  lemma {:induction false} EpisodesFromValid(dd: seq<real>, i: nat)
    requires i <= |dd| && AtBoundary(dd, i)
    ensures forall a :: 0 <= a < |EpisodesFrom(dd, i)| ==>
      IsEpisodeOf(dd, EpisodesFrom(dd, i)[a]) && i <= EpisodesFrom(dd, i)[a].start
    decreases |dd| - i
  {
    if i == |dd| {
    } else if !Underwater(dd, i) {
      EpisodesFromValid(dd, i + 1);
    } else {
      var e := RunEnd(dd, i);
      var ep := Episode(i, e, FirstArgMin(dd, i, e));
      var rest := EpisodesFrom(dd, e + 1);
      EpisodesFromValid(dd, e + 1);
      assert EpisodesFrom(dd, i) == [ep] + rest;
      assert IsEpisodeOf(dd, ep);
    }
  }

  /** The episodes from position i on start at or after i, on an underwater
      position, and end inside the series with the trough between start and end. */
  lemma {:induction false} EpisodesFromBounds(dd: seq<real>, i: nat)
    requires i <= |dd|
    ensures forall a :: 0 <= a < |EpisodesFrom(dd, i)| ==>
      var ep := EpisodesFrom(dd, i)[a];
      i <= ep.start <= ep.trough <= ep.end < |dd| && Underwater(dd, ep.start)
    decreases |dd| - i
  {
    if i == |dd| {
    } else if !Underwater(dd, i) {
      EpisodesFromBounds(dd, i + 1);
    } else {
      EpisodesFromBounds(dd, RunEnd(dd, i) + 1);
    }
  }

  /** The episodes from a boundary position on are in increasing position order,
      with at least one position between neighbours. */
  lemma {:induction false} EpisodesFromOrdered(dd: seq<real>, i: nat)
    requires i <= |dd| && AtBoundary(dd, i)
    ensures forall a, b :: 0 <= a < b < |EpisodesFrom(dd, i)| ==>
      EpisodesFrom(dd, i)[a].end + 1 < EpisodesFrom(dd, i)[b].start
    decreases |dd| - i
  {
    if i == |dd| {
    } else if !Underwater(dd, i) {
      EpisodesFromOrdered(dd, i + 1);
    } else {
      var e := RunEnd(dd, i);
      var ep := Episode(i, e, FirstArgMin(dd, i, e));
      var rest := EpisodesFrom(dd, e + 1);
      var eps := EpisodesFrom(dd, i);
      EpisodesFromOrdered(dd, e + 1);
      EpisodesFromBounds(dd, e + 1);
      assert eps == [ep] + rest;
      forall a, b | 0 <= a < b < |eps|
        ensures eps[a].end + 1 < eps[b].start
      {
        assert eps[b] == rest[b - 1];
        if a == 0 {
          assert Underwater(dd, rest[b - 1].start);
        } else {
          assert eps[a] == rest[a - 1];
        }
      }
    }
  }

  /** Every underwater position at or after a boundary position lies in one of the
      episodes from there on. */
  lemma {:induction false} EpisodesFromCover(dd: seq<real>, i: nat, k: nat)
    requires i <= k < |dd| && Underwater(dd, k)
    ensures exists a :: 0 <= a < |EpisodesFrom(dd, i)| && EpisodesFrom(dd, i)[a].Contains(k)
    decreases |dd| - i
  {
    if !Underwater(dd, i) {
      assert EpisodesFrom(dd, i) == EpisodesFrom(dd, i + 1);
      EpisodesFromCover(dd, i + 1, k);
    } else {
      var e := RunEnd(dd, i);
      var ep := Episode(i, e, FirstArgMin(dd, i, e));
      var rest := EpisodesFrom(dd, e + 1);
      var eps := EpisodesFrom(dd, i);
      assert eps == [ep] + rest;
      if k <= e {
        assert eps[0].Contains(k);
      } else {
        EpisodesFromCover(dd, e + 1, k);
        var a :| 0 <= a < |rest| && rest[a].Contains(k);
        assert eps[a + 1].Contains(k);
      }
    }
  }

  /** The episodes partition the underwater positions: each episode is a maximal
      underwater run with its first minimum as trough, the episodes are in
      increasing position order and pairwise separated, a position is underwater
      exactly when some episode contains it, and then exactly one does. */
  lemma EpisodesPartition(dd: seq<real>)
    ensures forall a :: 0 <= a < |Episodes(dd)| ==> IsEpisodeOf(dd, Episodes(dd)[a])
    ensures forall a, b :: 0 <= a < b < |Episodes(dd)| ==>
      Episodes(dd)[a].end + 1 < Episodes(dd)[b].start
    ensures forall k :: 0 <= k < |dd| ==>
      (Underwater(dd, k) <==> exists a :: 0 <= a < |Episodes(dd)| && Episodes(dd)[a].Contains(k))
    ensures forall k, a, b ::
      (0 <= a < |Episodes(dd)| && 0 <= b < |Episodes(dd)| &&
       Episodes(dd)[a].Contains(k) && Episodes(dd)[b].Contains(k)) ==> a == b
  {
    var eps := Episodes(dd);
    EpisodesFromValid(dd, 0);
    EpisodesFromOrdered(dd, 0);
    forall k | 0 <= k < |dd|
      ensures Underwater(dd, k) <==> exists a :: 0 <= a < |eps| && eps[a].Contains(k)
    {
      if Underwater(dd, k) {
        EpisodesFromCover(dd, 0, k);
      } else {
        forall a | 0 <= a < |eps|
          ensures !eps[a].Contains(k)
        {
          assert IsEpisodeOf(dd, eps[a]);
        }
      }
    }
    forall k, a, b | 0 <= a < |eps| && 0 <= b < |eps| && eps[a].Contains(k) && eps[b].Contains(k)
      ensures a == b
    {
    }
  }

  /** The episode at index a of Episodes(dd) is an underwater episode of dd. */
  lemma EpisodeAt(dd: seq<real>, a: nat)
    requires a < |Episodes(dd)|
    ensures IsEpisodeOf(dd, Episodes(dd)[a])
  {
    EpisodesFromValid(dd, 0);
  }

  /** Every underwater position lies in the episode at some index a of Episodes(dd). */
  lemma EpisodeCovering(dd: seq<real>, k: nat) returns (a: nat)
    requires k < |dd| && Underwater(dd, k)
    ensures a < |Episodes(dd)| && Episodes(dd)[a].Contains(k)
  {
    EpisodesFromCover(dd, 0, k);
    a :| 0 <= a < |Episodes(dd)| && Episodes(dd)[a].Contains(k);
  }

  /** The trough's drawdown is the worst drawdown of its episode (pandas `min()`
      over the episode's positions), so the two agree on the major-episode test. */
  lemma TroughIsPeriodMin(dd: seq<real>, ep: Episode)
    requires IsEpisodeOf(dd, ep)
    ensures dd[ep.trough] == MinOf(dd[ep.start..ep.end + 1])
  {
    var period := dd[ep.start..ep.end + 1];
    var m := MinOf(period);
    var j :| 0 <= j < |period| && m == period[j];
    assert period[ep.trough - ep.start] == dd[ep.trough];
    assert dd[ep.start + j] == m;
  }

  /** The change-point group key of pandas' `(flag != flag.shift()).cumsum()`:
      position 0 opens group 1 (its shifted neighbour is missing and compares
      unequal), and each later position opens a new group when its underwater
      flag differs from the previous position's. */
  function GroupKey(dd: seq<real>, i: nat): nat
    requires i < |dd|
  {
    if i == 0 then 1
    else GroupKey(dd, i - 1) + (if Underwater(dd, i) != Underwater(dd, i - 1) then 1 else 0)
  }

  /** Group keys never decrease, and stay equal exactly across a stretch where
      the underwater flag does not change. */
  lemma {:induction false} GroupKeyStep(dd: seq<real>, i: nat, j: nat)
    requires i <= j < |dd|
    ensures GroupKey(dd, i) <= GroupKey(dd, j)
    ensures GroupKey(dd, i) == GroupKey(dd, j) <==>
      forall k :: i < k <= j ==> Underwater(dd, k) == Underwater(dd, k - 1)
    decreases j - i
  {
    if i < j {
      GroupKeyStep(dd, i, j - 1);
    }
  }

  /** Every underwater episode is exactly one change-point group: a position
      shares the episode's group key if and only if the episode contains it. */
  lemma EpisodeIsGroup(dd: seq<real>, ep: Episode)
    requires IsEpisodeOf(dd, ep)
    ensures forall k :: 0 <= k < |dd| ==> (GroupKey(dd, k) == GroupKey(dd, ep.start) <==> ep.Contains(k))
  {
    forall k | 0 <= k < |dd|
      ensures GroupKey(dd, k) == GroupKey(dd, ep.start) <==> ep.Contains(k)
    {
      if k < ep.start {
        GroupKeyStep(dd, k, ep.start);
        assert Underwater(dd, ep.start) != Underwater(dd, ep.start - 1);
      } else if k <= ep.end {
        GroupKeyStep(dd, ep.start, k);
      } else {
        GroupKeyStep(dd, ep.start, k);
        assert Underwater(dd, ep.end + 1) != Underwater(dd, ep.end);
      }
    }
  }

  /** The underwater flags summed over the positions at or after i whose group
      key is g: the per-group flag sum of `groupby(...).sum()`. */
  function GroupFlagSum(dd: seq<real>, g: nat, i: nat): nat
    requires i <= |dd|
    decreases |dd| - i
  {
    if i == |dd| then 0
    else (if GroupKey(dd, i) == g && Underwater(dd, i) then 1 else 0) + GroupFlagSum(dd, g, i + 1)
  }

  /** When the underwater positions of group g are exactly s..e, the flag sum
      from i on counts the part of s..e at or after i. */
  lemma {:induction false} FlagSumOfRange(dd: seq<real>, g: nat, i: nat, s: nat, e: nat)
    requires i <= |dd| && s <= e < |dd|
    requires forall k :: i <= k < |dd| ==> (GroupKey(dd, k) == g && Underwater(dd, k) <==> s <= k <= e)
    ensures GroupFlagSum(dd, g, i) == if i <= s then e - s + 1 else if i <= e then e - i + 1 else 0
    decreases |dd| - i
  {
    if i < |dd| {
      FlagSumOfRange(dd, g, i + 1, s, e);
    }
  }

  /** A positive flag sum from i on has an underwater position of group g at or after i. */
  lemma {:induction false} FlagSumWitness(dd: seq<real>, g: nat, i: nat) returns (k: nat)
    requires i <= |dd| && GroupFlagSum(dd, g, i) > 0
    ensures i <= k < |dd| && GroupKey(dd, k) == g && Underwater(dd, k)
    decreases |dd| - i
  {
    if GroupKey(dd, i) == g && Underwater(dd, i) {
      k := i;
    } else {
      k := FlagSumWitness(dd, g, i + 1);
    }
  }

  /** The groups kept by the positive-sum filter are exactly the episodes' groups,
      the flag sum of each is its episode's length, and the keys increase in
      episode order, so the kept sums are the episode lengths one to one and in order. */
  lemma GroupFlagSums(dd: seq<real>)
    ensures forall a :: 0 <= a < |Episodes(dd)| ==> Episodes(dd)[a].start <= Episodes(dd)[a].end < |dd|
    ensures |Lengths(Episodes(dd))| == |Episodes(dd)|
    ensures forall a :: 0 <= a < |Episodes(dd)| ==>
      GroupFlagSum(dd, GroupKey(dd, Episodes(dd)[a].start), 0) == Lengths(Episodes(dd))[a]
    ensures forall g :: GroupFlagSum(dd, g, 0) > 0 ==>
      exists a :: 0 <= a < |Episodes(dd)| && GroupKey(dd, Episodes(dd)[a].start) == g
    ensures forall a, b :: 0 <= a < b < |Episodes(dd)| ==>
      GroupKey(dd, Episodes(dd)[a].start) < GroupKey(dd, Episodes(dd)[b].start)
  {
    var eps := Episodes(dd);
    EpisodesFromBounds(dd, 0);
    LengthsAt(eps);
    forall a | 0 <= a < |eps|
      ensures GroupFlagSum(dd, GroupKey(dd, eps[a].start), 0) == Lengths(eps)[a]
    {
      var ep := eps[a];
      EpisodeAt(dd, a);
      EpisodeIsGroup(dd, ep);
      FlagSumOfRange(dd, GroupKey(dd, ep.start), 0, ep.start, ep.end);
    }
    forall g | GroupFlagSum(dd, g, 0) > 0
      ensures exists a :: 0 <= a < |eps| && GroupKey(dd, eps[a].start) == g
    {
      var k := FlagSumWitness(dd, g, 0);
      var a := EpisodeCovering(dd, k);
      EpisodeAt(dd, a);
      EpisodeIsGroup(dd, eps[a]);
    }
    EpisodeKeysIncrease(dd);
  }

  /** Later episodes have larger group keys: between two episodes the flag turns
      off after the first one ends, so distinct episodes are distinct groups. */
  lemma EpisodeKeysIncrease(dd: seq<real>)
    ensures forall a :: 0 <= a < |Episodes(dd)| ==> Episodes(dd)[a].start < |dd|
    ensures forall a, b :: 0 <= a < b < |Episodes(dd)| ==>
      GroupKey(dd, Episodes(dd)[a].start) < GroupKey(dd, Episodes(dd)[b].start)
  {
    var eps := Episodes(dd);
    EpisodesFromBounds(dd, 0);
    EpisodesFromOrdered(dd, 0);
    forall a, b | 0 <= a < b < |eps|
      ensures GroupKey(dd, eps[a].start) < GroupKey(dd, eps[b].start)
    {
      EpisodeAt(dd, a);
      GroupKeyStep(dd, eps[a].start, eps[b].start);
      assert Underwater(dd, eps[a].end + 1) != Underwater(dd, eps[a].end);
    }
  }

  /** The number of underwater positions at or after position i. */
  function UnderwaterFrom(dd: seq<real>, i: nat): nat
    requires i <= |dd|
    decreases |dd| - i
  {
    if i == |dd| then 0 else (if Underwater(dd, i) then 1 else 0) + UnderwaterFrom(dd, i + 1)
  }

  /** The lengths of well-formed episodes, in order. */
  function Lengths(eps: seq<Episode>): seq<nat>
    requires forall a :: 0 <= a < |eps| ==> eps[a].start <= eps[a].end
  {
    if eps == [] then [] else [eps[0].Length()] + Lengths(eps[1..])
  }

  /** Lengths(eps) holds, at each index, the length of the episode at that index. */
  lemma {:induction false} LengthsAt(eps: seq<Episode>)
    requires forall a :: 0 <= a < |eps| ==> eps[a].start <= eps[a].end
    ensures |Lengths(eps)| == |eps|
    ensures forall a :: 0 <= a < |eps| ==> Lengths(eps)[a] == eps[a].Length()
  {
    if eps != [] {
      LengthsAt(eps[1..]);
    }
  }

  /** A run of underwater positions i..e contributes e - i + 1 to the count. */
  lemma {:induction false} UnderwaterRun(dd: seq<real>, i: nat, e: nat)
    requires i <= e < |dd|
    requires forall k :: i <= k <= e ==> Underwater(dd, k)
    ensures UnderwaterFrom(dd, i) == e - i + 1 + UnderwaterFrom(dd, e + 1)
    decreases e - i
  {
    if i < e {
      UnderwaterRun(dd, i + 1, e);
    }
  }

  /** At most |dd| - i positions at or after i are underwater. */
  lemma {:induction false} UnderwaterFromAtMost(dd: seq<real>, i: nat)
    requires i <= |dd|
    ensures UnderwaterFrom(dd, i) <= |dd| - i
    decreases |dd| - i
  {
    if i < |dd| {
      UnderwaterFromAtMost(dd, i + 1);
    }
  }

  /** The episode lengths from position i on add up to the number of underwater
      positions from i on. */
  lemma {:induction false} LengthsFromSum(dd: seq<real>, i: nat)
    requires i <= |dd| && AtBoundary(dd, i)
    ensures forall a :: 0 <= a < |EpisodesFrom(dd, i)| ==> EpisodesFrom(dd, i)[a].start <= EpisodesFrom(dd, i)[a].end
    ensures NatSum(Lengths(EpisodesFrom(dd, i))) == UnderwaterFrom(dd, i)
    decreases |dd| - i
  {
    EpisodesFromBounds(dd, i);
    if i == |dd| {
    } else if !Underwater(dd, i) {
      LengthsFromSum(dd, i + 1);
    } else {
      var e := RunEnd(dd, i);
      var rest := EpisodesFrom(dd, e + 1);
      var eps := EpisodesFrom(dd, i);
      LengthsFromSum(dd, e + 1);
      EpisodesFromRun(dd, i, e);
      assert eps[1..] == rest;
      assert Lengths(eps)[1..] == Lengths(rest);
      UnderwaterRun(dd, i, e);
    }
  }

  /** Every episode has length at least 1; the lengths add up to the number of
      underwater positions, which is at most |dd| - 1 (the first position is
      never underwater when its drawdown is zero). */
  lemma LengthsSumToUnderwaterDays(dd: seq<real>)
    requires |dd| >= 1 && dd[0] == 0.0
    ensures forall a :: 0 <= a < |Episodes(dd)| ==>
      Episodes(dd)[a].start <= Episodes(dd)[a].end && Episodes(dd)[a].Length() <= |dd| - 1
    ensures NatSum(Lengths(Episodes(dd))) == UnderwaterFrom(dd, 0) <= |dd| - 1
  {
    LengthsFromSum(dd, 0);
    EpisodesFromBounds(dd, 0);
    UnderwaterFromAtMost(dd, 1);
  }

  /** A position above water starts no episode. */
  lemma EpisodesFromSkip(dd: seq<real>, i: nat)
    requires i < |dd| && !Underwater(dd, i)
    ensures EpisodesFrom(dd, i) == EpisodesFrom(dd, i + 1)
  {
  }

  /** A maximal underwater run s..e is the first episode from s. */
  lemma EpisodesFromRun(dd: seq<real>, s: nat, e: nat)
    requires s <= e < |dd|
    requires forall k :: s <= k <= e ==> Underwater(dd, k)
    requires e + 1 == |dd| || !Underwater(dd, e + 1)
    ensures EpisodesFrom(dd, s) == [Episode(s, e, FirstArgMin(dd, s, e))] + EpisodesFrom(dd, e + 1)
  {
    RunEndAt(dd, s, e);
  }

  /** The forward walk from an underwater position to the last position of its run. */
  method ScanRunEnd(dd: seq<real>, i: nat) returns (e: nat)
    requires i < |dd| && Underwater(dd, i)
    ensures e == RunEnd(dd, i)
  {
    e := i;
    while e + 1 < |dd| && Underwater(dd, e + 1)
      invariant i <= e < |dd| && Underwater(dd, e)
      invariant RunEnd(dd, e) == RunEnd(dd, i)
      decreases |dd| - e
    {
      e := e + 1;
    }
  }

  /** The single-pass scan: at an underwater position the walk to the end of its
      run closes the run as the next episode; a position above water is skipped. */
  method Segment(dd: seq<real>) returns (eps: seq<Episode>)
    ensures eps == Episodes(dd)
  {
    eps := [];
    var i := 0;
    while i < |dd|
      invariant 0 <= i <= |dd|
      invariant Episodes(dd) == eps + EpisodesFrom(dd, i)
    {
      if Underwater(dd, i) {
        var e := ScanRunEnd(dd, i);
        var ep := Episode(i, e, FirstArgMin(dd, i, e));
        assert EpisodesFrom(dd, i) == [ep] + EpisodesFrom(dd, e + 1);
        assert eps + EpisodesFrom(dd, i) == (eps + [ep]) + EpisodesFrom(dd, e + 1);
        eps := eps + [ep];
        i := e + 1;
      } else {
        EpisodesFromSkip(dd, i);
        i := i + 1;
      }
    }
  }
}
