/** Durability histograms: nearest-rank quantiles, the contract of a histogram summary, and what
    merging the workers' histograms preserves. */
module Histogram {
  import opened Arithmetic
  import opened Workload

  const BUCKETS := 22

  const UPPER_BOUNDS_NS: seq<nat> := [
    0, 100_000, 250_000, 500_000, 1_000_000, 2_500_000, 5_000_000, 10_000_000, 25_000_000, 50_000_000, 100_000_000,
    250_000_000, 500_000_000, 750_000_000, 1_000_000_000, 1_500_000_000, 2_000_000_000, 3_000_000_000, 5_000_000_000,
    10_000_000_000, 60_000_000_000, 0x7FFF_FFFF_FFFF_FFFF]

  function UpperBound(i: nat): nat
    requires i < BUCKETS
  {
    UPPER_BOUNDS_NS[i]
  }

  lemma BoundStep(i: nat)
    requires i + 1 < BUCKETS
    ensures UpperBound(i) < UpperBound(i + 1)
  {
  }

  lemma {:induction false} BoundsIncrease(i: nat, j: nat)
    requires i < j < BUCKETS
    ensures UpperBound(i) < UpperBound(j)
  {
    BoundStep(j - 1);
    if i < j - 1 { BoundsIncrease(i, j - 1); }
  }

  lemma BoundsMonotone(i: nat, j: nat)
    requires i <= j < BUCKETS
    ensures UpperBound(i) <= UpperBound(j)
  {
    if i < j { BoundsIncrease(i, j); }
  }

  function TotalOf(s: seq<nat>): nat {
    if s == [] then 0 else TotalOf(s[..|s| - 1]) + s[|s| - 1]
  }

  /** Samples in the buckets 0, ..., k. */
  function Through(counts: seq<nat>, k: nat): nat
    requires k < |counts|
  {
    TotalOf(counts[..k + 1])
  }

  lemma ThroughStep(counts: seq<nat>, k: nat)
    requires k + 1 < |counts|
    ensures Through(counts, k + 1) == Through(counts, k) + counts[k + 1]
  {
    assert counts[..k + 2][..k + 1] == counts[..k + 1];
  }

  lemma {:induction false} ThroughMono(counts: seq<nat>, j: nat, k: nat)
    requires j <= k < |counts|
    ensures Through(counts, j) <= Through(counts, k)
  {
    if j < k {
      ThroughMono(counts, j, k - 1);
      ThroughStep(counts, k - 1);
    }
  }

  lemma ThroughLast(counts: seq<nat>)
    requires counts != []
    ensures Through(counts, |counts| - 1) == TotalOf(counts)
  {
    assert counts[..|counts|] == counts;
  }

  // ----- Nearest rank ---------------------------------------------------------------------------

  function Rank(numerator: nat, samples: nat): int {
    Max(1, (numerator * samples + 99) / 100)
  }

  /** The first bucket at or after k whose cumulative count reaches the rank. */
  function FirstReaching(counts: seq<nat>, rank: int, k: nat): (i: nat)
    requires k < |counts| && rank <= TotalOf(counts)
    ensures k <= i < |counts| && rank <= Through(counts, i)
    ensures forall j :: k <= j < i ==> Through(counts, j) < rank
    decreases |counts| - k
  {
    if rank <= Through(counts, k) then k
    else
      ThroughLast(counts);
      FirstReaching(counts, rank, k + 1)
  }

  lemma RankFits(numerator: nat, samples: nat)
    requires numerator <= 100 && 0 < samples
    ensures Rank(numerator, samples) <= samples
  {
    assert numerator * samples <= 100 * samples by { MulMono(numerator, 100, samples); }
  }

  /** The nearest-rank quantile; an empty histogram has none. */
  function NearestRankOf(counts: seq<nat>, numerator: nat): (q: Option<nat>)
    requires |counts| == BUCKETS && numerator <= 100
  {
    if TotalOf(counts) == 0 then None
    else
      RankFits(numerator, TotalOf(counts));
      Some(UpperBound(FirstReaching(counts, Rank(numerator, TotalOf(counts)), 0)))
  }

  /** The loop that accumulates buckets until the rank is reached. It always returns from inside the
      loop: the histogram holds as many samples as it declares. */
  method NearestRank(counts: seq<nat>, numerator: nat) returns (q: Option<nat>)
    requires |counts| == BUCKETS && numerator <= 100
    ensures q == NearestRankOf(counts, numerator)
  {
    var samples := SumOf(counts);
    if samples == 0 {
      return None;
    }
    var rank := Max(1, (numerator * samples + 99) / 100);
    RankFits(numerator, samples);
    var cumulative := 0;
    var k := 0;
    while k < BUCKETS
      invariant 0 <= k <= BUCKETS
      invariant cumulative == TotalOf(counts[..k])
      invariant forall j :: 0 <= j < k ==> Through(counts, j) < rank
    {
      assert counts[..k + 1][..k] == counts[..k];
      cumulative := cumulative + counts[k];
      if cumulative >= rank {
        assert Through(counts, k) == cumulative;
        assert FirstReaching(counts, rank, 0) == k;
        return Some(UpperBound(k));
      }
      k := k + 1;
    }
    ThroughLast(counts);
    assert false;
  }

  method SumOf(s: seq<nat>) returns (total: nat)
    ensures total == TotalOf(s)
  {
    total := 0;
    for k := 0 to |s|
      invariant total == TotalOf(s[..k])
    {
      assert s[..k + 1][..k] == s[..k];
      total := total + s[k];
    }
    assert s[..|s|] == s;
  }

  /** The buckets up to k hold at least one sample and at least the required share of all samples. */
  predicate Covers(counts: seq<nat>, numerator: nat, k: nat)
    requires k < |counts|
  {
    1 <= Through(counts, k) && numerator * TotalOf(counts) <= 100 * Through(counts, k)
  }

  lemma RankIsShare(counts: seq<nat>, numerator: nat, k: nat)
    requires k < |counts|
    ensures Rank(numerator, TotalOf(counts)) <= Through(counts, k) <==> Covers(counts, numerator, k)
  {
  }

  /** The bucket of the quantile. */
  function QuantileBucket(counts: seq<nat>, numerator: nat): nat
    requires |counts| == BUCKETS && numerator <= 100 && 0 < TotalOf(counts)
  {
    RankFits(numerator, TotalOf(counts));
    FirstReaching(counts, Rank(numerator, TotalOf(counts)), 0)
  }

  /** The quantile is the least bucket bound whose buckets hold the required share of the samples:
      a bucket covers the share exactly from the quantile's bucket on. */
  lemma QuantileIsLeastCover(counts: seq<nat>, numerator: nat, k: nat)
    requires |counts| == BUCKETS && numerator <= 100 && 0 < TotalOf(counts) && k < BUCKETS
    ensures NearestRankOf(counts, numerator) == Some(UpperBound(QuantileBucket(counts, numerator)))
    ensures Covers(counts, numerator, k) <==> QuantileBucket(counts, numerator) <= k
  {
    var i := QuantileBucket(counts, numerator);
    RankIsShare(counts, numerator, k);
    if i <= k { ThroughMono(counts, i, k); }
  }

  // ----- The summary contract -----------------------------------------------------------------------

  /** The highest bucket that holds a sample. */
  function Highest(counts: seq<nat>): (i: nat)
    requires 0 < TotalOf(counts)
    ensures i < |counts| && 0 < counts[i]
    ensures forall j :: i < j < |counts| ==> counts[j] == 0
  {
    var last := |counts| - 1;
    if counts[last] > 0 then last else Highest(counts[..last])
  }

  function LowerBound(i: nat): int
    requires i < BUCKETS
  {
    if i == 0 then -1 else UpperBound(i - 1)
  }

  /** The histogram of a snapshot, of a series or of the aggregate. */
  datatype Summary = Summary(
    counts: seq<nat>, samples: nat, p50: Option<nat>, p95: Option<nat>, p99: Option<nat>, max: Option<nat>)
  {
    predicate Valid() {
      && |counts| == BUCKETS
      && TotalOf(counts) == samples
      && p50 == NearestRankOf(counts, 50)
      && p95 == NearestRankOf(counts, 95)
      && p99 == NearestRankOf(counts, 99)
      && MaximumFits()
    }

    predicate MaximumFits()
      requires |counts| == BUCKETS
    {
      if TotalOf(counts) == 0 then max.None?
      else max.Some? && LowerBound(Highest(counts)) < max.value <= UpperBound(Highest(counts))
    }
  }

  /** What the quantiles of a valid nonempty summary say: half, 95 and 99 percent of the samples lie in the buckets up
      to them, and in no fewer buckets, so they ascend; the maximum lies in the bucket of the last sample. */
  lemma QuantilesMean(s: Summary, k: nat)
    requires s.Valid() && 0 < s.samples && k < BUCKETS
    ensures s.p50.Some? && s.p95.Some? && s.p99.Some? && s.max.Some?
    ensures s.p50.value <= UpperBound(k) <==> s.samples <= 2 * TotalOf(s.counts[..k + 1])
    ensures s.p95.value <= UpperBound(k) <==> 95 * s.samples <= 100 * TotalOf(s.counts[..k + 1])
    ensures s.p99.value <= UpperBound(k) <==> 99 * s.samples <= 100 * TotalOf(s.counts[..k + 1])
    ensures s.p50.value <= s.p95.value <= s.p99.value
    ensures s.max.value <= UpperBound(k) <==> forall j :: k < j < BUCKETS ==> s.counts[j] == 0
  {
    QuantileAtMost(s.counts, 50, k);
    QuantileAtMost(s.counts, 95, k);
    QuantileAtMost(s.counts, 99, k);
    QuantilesAscend(s.counts, 50, 95);
    QuantilesAscend(s.counts, 95, 99);
    MaximumFitsExactly(s);
    assert MaximumReaches(s, k);
  }

  /** The maximum is within a bucket's bound exactly when no higher bucket holds a sample. */
  ghost predicate MaximumReaches(s: Summary, k: nat)
    requires |s.counts| == BUCKETS && s.max.Some? && k < BUCKETS
  {
    s.max.value <= UpperBound(k) <==> forall j :: k < j < BUCKETS ==> s.counts[j] == 0
  }

  /** Which maxima fit: there is one exactly when there is a sample, and it lies in the bucket of the last one. */
  lemma MaximumFitsExactly(s: Summary)
    requires |s.counts| == BUCKETS
    ensures s.MaximumFits() <==>
              && (s.max.Some? <==> 0 < TotalOf(s.counts))
              && (s.max.Some? ==> forall k: nat :: k < BUCKETS ==> MaximumReaches(s, k))
  {
    if s.max.Some? && 0 < TotalOf(s.counts) {
      var top := Highest(s.counts);
      if s.MaximumFits() {
        forall k: nat | k < BUCKETS ensures MaximumReaches(s, k) {
          if k < top { BoundsMonotone(k, top - 1); } else { BoundsMonotone(top, k); }
        }
      }
      if forall k: nat :: k < BUCKETS ==> MaximumReaches(s, k) {
        assert MaximumReaches(s, top);
        if 0 < top { assert MaximumReaches(s, top - 1); }
      }
    }
  }

  lemma QuantileAtMost(counts: seq<nat>, numerator: nat, k: nat)
    requires |counts| == BUCKETS && 1 <= numerator <= 100 && 0 < TotalOf(counts) && k < BUCKETS
    ensures NearestRankOf(counts, numerator).Some?
    ensures NearestRankOf(counts, numerator).value <= UpperBound(k) <==> numerator * TotalOf(counts) <= 100 * TotalOf(counts[..k + 1])
  {
    var i := QuantileBucket(counts, numerator);
    QuantileIsLeastCover(counts, numerator, k);
    MulMono(1, numerator, TotalOf(counts));
    if i <= k { BoundsMonotone(i, k); } else { BoundsIncrease(k, i); }
  }

  lemma QuantilesAscend(counts: seq<nat>, low: nat, high: nat)
    requires |counts| == BUCKETS && 1 <= low <= high <= 100 && 0 < TotalOf(counts)
    ensures NearestRankOf(counts, low).Some? && NearestRankOf(counts, high).Some?
    ensures NearestRankOf(counts, low).value <= NearestRankOf(counts, high).value
  {
    var i, j := QuantileBucket(counts, low), QuantileBucket(counts, high);
    QuantileIsLeastCover(counts, high, j);
    QuantileIsLeastCover(counts, low, j);
    MulMono(low, high, TotalOf(counts));
    BoundsMonotone(i, j);
  }

  // ----- Merging -------------------------------------------------------------------------------------

  ghost predicate Shaped(parts: seq<seq<nat>>) {
    forall w :: 0 <= w < |parts| ==> |parts[w]| == BUCKETS
  }

  /** The sum of one bucket over the workers. */
  function Column(parts: seq<seq<nat>>, i: nat): nat
    requires i < BUCKETS && forall w :: 0 <= w < |parts| ==> |parts[w]| == BUCKETS
  {
    if parts == [] then 0 else Column(parts[..|parts| - 1], i) + parts[|parts| - 1][i]
  }

  function Merged(parts: seq<seq<nat>>): (counts: seq<nat>)
    requires forall w :: 0 <= w < |parts| ==> |parts[w]| == BUCKETS
    ensures |counts| == BUCKETS
  {
    seq(BUCKETS, i requires 0 <= i < BUCKETS => Column(parts, i))
  }

  /** Adding one worker adds its cumulative counts. */
  lemma {:induction false} MergedSnoc(parts: seq<seq<nat>>, last: seq<nat>, k: nat)
    requires Shaped(parts) && |last| == BUCKETS && k <= BUCKETS
    ensures Shaped(parts + [last])
    ensures TotalOf(Merged(parts + [last])[..k]) == TotalOf(Merged(parts)[..k]) + TotalOf(last[..k])
  {
    var all := parts + [last];
    assert all[..|parts|] == parts;
    if k > 0 {
      MergedSnoc(parts, last, k - 1);
      assert Merged(all)[..k][..k - 1] == Merged(all)[..k - 1];
      assert Merged(parts)[..k][..k - 1] == Merged(parts)[..k - 1];
      assert last[..k][..k - 1] == last[..k - 1];
    }
  }

  lemma {:induction false} MergedNone(k: nat)
    requires k <= BUCKETS
    ensures TotalOf(Merged([])[..k]) == 0
  {
    if k > 0 {
      MergedNone(k - 1);
      assert Merged([])[..k][..k - 1] == Merged([])[..k - 1];
    }
  }

  function Totals(parts: seq<seq<nat>>): seq<nat> {
    if parts == [] then [] else Totals(parts[..|parts| - 1]) + [TotalOf(parts[|parts| - 1])]
  }

  lemma WholePrefix(counts: seq<nat>)
    ensures counts[..|counts|] == counts
  {
  }

  /** Merging conserves samples. */
  lemma {:induction false} MergedConserves(parts: seq<seq<nat>>)
    requires Shaped(parts)
    ensures TotalOf(Merged(parts)) == TotalOf(Totals(parts))
  {
    WholePrefix(Merged(parts));
    if parts == [] {
      MergedNone(BUCKETS);
    } else {
      var init, last := parts[..|parts| - 1], parts[|parts| - 1];
      MergedConserves(init);
      assert parts == init + [last];
      MergedSnoc(init, last, BUCKETS);
      WholePrefix(Merged(init));
      WholePrefix(last);
      assert Totals(parts)[..|Totals(parts)| - 1] == Totals(init);
    }
  }

  /** Where every nonempty worker covers its share, the merged histogram holds that share of all. */
  lemma {:induction false} SharesAdd(parts: seq<seq<nat>>, numerator: nat, k: nat)
    requires Shaped(parts) && k < BUCKETS
    requires forall w :: 0 <= w < |parts| && 0 < TotalOf(parts[w]) ==> Covers(parts[w], numerator, k)
    ensures numerator * TotalOf(Merged(parts)) <= 100 * Through(Merged(parts), k)
    ensures 0 < TotalOf(Merged(parts)) ==> 1 <= Through(Merged(parts), k)
  {
    WholePrefix(Merged(parts));
    if parts == [] {
      MergedNone(k + 1);
      MergedNone(BUCKETS);
    } else {
      var init, last := parts[..|parts| - 1], parts[|parts| - 1];
      assert forall w :: 0 <= w < |init| ==> init[w] == parts[w];
      SharesAdd(init, numerator, k);
      assert parts == init + [last];
      MergedSnoc(init, last, k + 1);
      MergedSnoc(init, last, BUCKETS);
      WholePrefix(Merged(init));
      WholePrefix(last);
      ThroughMono(last, k, BUCKETS - 1);
      ThroughLast(last);
      SharesOfTwo(numerator, TotalOf(Merged(init)), TotalOf(last), Through(Merged(init), k), Through(last, k));
      hide Merged, TotalOf;
    }
  }

  lemma SharesOfTwo(numerator: nat, a: nat, b: nat, u: nat, v: nat)
    requires numerator * a <= 100 * u && (0 < a ==> 1 <= u)
    requires 0 < b ==> 1 <= v && numerator * b <= 100 * v
    ensures numerator * (a + b) <= 100 * (u + v)
    ensures 0 < a + b ==> 1 <= u + v
  {
    assert numerator * (a + b) == numerator * a + numerator * b;
  }

  /** Where no nonempty worker covers its share, the merged histogram does not either. */
  lemma {:induction false} ShortfallsAdd(parts: seq<seq<nat>>, numerator: nat, k: nat)
    requires Shaped(parts) && k < BUCKETS && 1 <= numerator
    requires forall w :: 0 <= w < |parts| && 0 < TotalOf(parts[w]) ==> !Covers(parts[w], numerator, k)
    ensures 100 * Through(Merged(parts), k) <= numerator * TotalOf(Merged(parts))
    ensures 0 < TotalOf(Merged(parts)) ==> 100 * Through(Merged(parts), k) < numerator * TotalOf(Merged(parts))
  {
    WholePrefix(Merged(parts));
    if parts == [] {
      MergedNone(k + 1);
      MergedNone(BUCKETS);
    } else {
      var init, last := parts[..|parts| - 1], parts[|parts| - 1];
      assert forall w :: 0 <= w < |init| ==> init[w] == parts[w];
      ShortfallsAdd(init, numerator, k);
      assert parts == init + [last];
      MergedSnoc(init, last, k + 1);
      MergedSnoc(init, last, BUCKETS);
      WholePrefix(Merged(init));
      WholePrefix(last);
      ThroughMono(last, k, BUCKETS - 1);
      ThroughLast(last);
      OneShort(numerator, TotalOf(last), Through(last, k));
      ShortfallsOfTwo(numerator, TotalOf(Merged(init)), TotalOf(last), Through(Merged(init), k), Through(last, k));
      hide Merged, TotalOf;
    }
  }

  lemma ShortfallsOfTwo(numerator: nat, a: nat, b: nat, u: nat, v: nat)
    requires 100 * u <= numerator * a && (0 < a ==> 100 * u < numerator * a)
    requires 100 * v <= numerator * b && (0 < b ==> 100 * v < numerator * b)
    ensures 100 * (u + v) <= numerator * (a + b)
    ensures 0 < a + b ==> 100 * (u + v) < numerator * (a + b)
  {
    assert numerator * (a + b) == numerator * a + numerator * b;
  }

  lemma OneShort(numerator: nat, samples: nat, covered: nat)
    requires covered <= samples && 1 <= numerator
    requires 0 < samples ==> covered < 1 || 100 * covered < numerator * samples
    ensures 100 * covered <= numerator * samples
    ensures 0 < samples ==> 100 * covered < numerator * samples
  {
    if 0 < samples { MulMono(1, numerator, samples); }
  }

  /** The quantile of the merged histogram lies between the smallest and the largest quantile of the
      nonempty workers. */
  lemma MergedQuantileBetween(parts: seq<seq<nat>>, numerator: nat) returns (low: nat, high: nat)
    requires Shaped(parts) && 1 <= numerator <= 100 && 0 < TotalOf(Merged(parts))
    ensures low < |parts| && 0 < TotalOf(parts[low]) && high < |parts| && 0 < TotalOf(parts[high])
    ensures NearestRankOf(parts[low], numerator).value <= NearestRankOf(Merged(parts), numerator).value
    ensures NearestRankOf(Merged(parts), numerator).value <= NearestRankOf(parts[high], numerator).value
  {
    var m := Merged(parts);
    var i := QuantileBucket(m, numerator);
    QuantileIsLeastCover(m, numerator, i);
    low := SomeCovers(parts, numerator, i);
    QuantileIsLeastCover(parts[low], numerator, i);
    BoundsMonotone(QuantileBucket(parts[low], numerator), i);
    if i == 0 {
      high := low;
    } else {
      QuantileIsLeastCover(m, numerator, i - 1);
      high := SomeFalls(parts, numerator, i - 1);
      QuantileIsLeastCover(parts[high], numerator, i - 1);
      BoundsMonotone(i, QuantileBucket(parts[high], numerator));
    }
    if i == 0 {
      BoundsMonotone(0, QuantileBucket(parts[high], numerator));
    }
  }

  lemma SomeCovers(parts: seq<seq<nat>>, numerator: nat, k: nat) returns (w: nat)
    requires Shaped(parts) && 1 <= numerator && 0 < TotalOf(Merged(parts)) && k < BUCKETS && Covers(Merged(parts), numerator, k)
    ensures w < |parts| && 0 < TotalOf(parts[w]) && Covers(parts[w], numerator, k)
  {
    if forall v :: 0 <= v < |parts| && 0 < TotalOf(parts[v]) ==> !Covers(parts[v], numerator, k) {
      ShortfallsAdd(parts, numerator, k);
      assert false;
    }
    w :| 0 <= w < |parts| && 0 < TotalOf(parts[w]) && Covers(parts[w], numerator, k);
  }

  lemma SomeFalls(parts: seq<seq<nat>>, numerator: nat, k: nat) returns (w: nat)
    requires Shaped(parts) && 0 < TotalOf(Merged(parts)) && k < BUCKETS && !Covers(Merged(parts), numerator, k)
    ensures w < |parts| && 0 < TotalOf(parts[w]) && !Covers(parts[w], numerator, k)
  {
    if forall v :: 0 <= v < |parts| && 0 < TotalOf(parts[v]) ==> Covers(parts[v], numerator, k) {
      SharesAdd(parts, numerator, k);
      assert false;
    }
    w :| 0 <= w < |parts| && 0 < TotalOf(parts[w]) && !Covers(parts[w], numerator, k);
  }

  // ----- The merged maximum ------------------------------------------------------------------------------

  /** max over the workers that have a maximum, or nothing. */
  function MaxOf(values: seq<Option<nat>>): Option<nat> {
    if values == [] then None
    else
      match (MaxOf(values[..|values| - 1]), values[|values| - 1])
      case (None, last) => last
      case (so, None) => so
      case (Some(a), Some(b)) => Some(Max(a, b))
  }

  ghost predicate Fits(parts: seq<seq<nat>>, maxima: seq<Option<nat>>) {
    && Shaped(parts) && |parts| == |maxima|
    && forall w :: 0 <= w < |parts| ==> Summary(parts[w], 0, None, None, None, maxima[w]).MaximumFits()
  }

  /** A worker's count in a bucket is part of the merged count. */
  lemma {:induction false} ColumnHolds(parts: seq<seq<nat>>, w: nat, i: nat)
    requires Shaped(parts) && w < |parts| && i < BUCKETS
    ensures parts[w][i] <= Column(parts, i)
  {
    if w < |parts| - 1 { ColumnHolds(parts[..|parts| - 1], w, i); }
  }

  lemma {:induction false} ColumnEmpty(parts: seq<seq<nat>>, i: nat)
    requires Shaped(parts) && i < BUCKETS
    requires forall w :: 0 <= w < |parts| ==> parts[w][i] == 0
    ensures Column(parts, i) == 0
  {
    if parts != [] { ColumnEmpty(parts[..|parts| - 1], i); }
  }

  lemma {:induction false} NoSamples(counts: seq<nat>)
    ensures TotalOf(counts) == 0 <==> forall i :: 0 <= i < |counts| ==> counts[i] == 0
  {
    if counts != [] {
      var last := |counts| - 1;
      NoSamples(counts[..last]);
      assert forall i :: 0 <= i < last ==> counts[i] == counts[..last][i];
    }
  }

  /** A worker with a sample in the merged histogram's highest bucket. */
  lemma HighestHolder(parts: seq<seq<nat>>) returns (w: nat)
    requires Shaped(parts) && 0 < TotalOf(Merged(parts))
    ensures w < |parts| && 0 < TotalOf(parts[w]) && Highest(parts[w]) == Highest(Merged(parts))
  {
    var top := Highest(Merged(parts));
    if forall v :: 0 <= v < |parts| ==> parts[v][top] == 0 {
      ColumnEmpty(parts, top);
      assert false;
    }
    w :| 0 <= w < |parts| && parts[w][top] != 0;
    NoSamples(parts[w]);
    HighestAtMost(parts, w);
  }

  lemma HighestAtMost(parts: seq<seq<nat>>, w: nat)
    requires Shaped(parts) && w < |parts| && 0 < TotalOf(parts[w])
    ensures 0 < TotalOf(Merged(parts)) && Highest(parts[w]) <= Highest(Merged(parts))
  {
    var i := Highest(parts[w]);
    ColumnHolds(parts, w, i);
    assert Merged(parts)[i] > 0;
    NoSamples(Merged(parts));
  }

  lemma {:induction false} MaxOfBounds(values: seq<Option<nat>>, w: nat)
    requires w < |values| && values[w].Some?
    ensures MaxOf(values).Some? && values[w].value <= MaxOf(values).value
  {
    if w < |values| - 1 { MaxOfBounds(values[..|values| - 1], w); }
  }

  lemma {:induction false} MaxOfIsReached(values: seq<Option<nat>>) returns (w: nat)
    requires MaxOf(values).Some?
    ensures w < |values| && values[w] == MaxOf(values)
  {
    var last := |values| - 1;
    if values[last] == MaxOf(values) { w := last; } else { w := MaxOfIsReached(values[..last]); }
  }

  /** The largest of the workers' maxima lies in the highest nonempty bucket of the merged histogram,
      and exists exactly when the merged histogram has a sample. */
  lemma MergedMaximumFits(parts: seq<seq<nat>>, maxima: seq<Option<nat>>)
    requires Fits(parts, maxima)
    ensures Summary(Merged(parts), 0, None, None, None, MaxOf(maxima)).MaximumFits()
  {
    if MaxOf(maxima).Some? {
      var w := MaxOfIsReached(maxima);
      assert Summary(parts[w], 0, None, None, None, maxima[w]).MaximumFits();
      HighestAtMost(parts, w);
      BoundsMonotone(Highest(parts[w]), Highest(Merged(parts)));
    }
    if 0 < TotalOf(Merged(parts)) {
      var h := HighestHolder(parts);
      assert Summary(parts[h], 0, None, None, None, maxima[h]).MaximumFits();
      MaxOfBounds(maxima, h);
    }
  }

  /** Whatever valid histograms the workers report, the merged counts with their recomputed quantiles
      and the largest maximum satisfy the summary contract. */
  lemma MergedSummaryIsValid(parts: seq<Summary>, merged: Summary)
    requires forall w :: 0 <= w < |parts| ==> parts[w].Valid()
    requires Shaped(Counts(parts)) && merged.counts == Merged(Counts(parts))
    requires merged.samples == TotalOf(Samples(parts)) && merged.max == MaxOf(Maxima(parts))
    requires merged.p50 == NearestRankOf(merged.counts, 50) && merged.p95 == NearestRankOf(merged.counts, 95)
    requires merged.p99 == NearestRankOf(merged.counts, 99)
    ensures merged.Valid()
  {
    MergedConserves(Counts(parts));
    SamplesAreTotals(parts);
    forall w | 0 <= w < |parts| ensures Summary(Counts(parts)[w], 0, None, None, None, Maxima(parts)[w]).MaximumFits() {
      assert parts[w].Valid();
    }
    MergedMaximumFits(Counts(parts), Maxima(parts));
  }

  function Counts(parts: seq<Summary>): (r: seq<seq<nat>>)
    ensures |r| == |parts| && forall w :: 0 <= w < |parts| ==> r[w] == parts[w].counts
  {
    seq(|parts|, w requires 0 <= w < |parts| => parts[w].counts)
  }

  function Samples(parts: seq<Summary>): (r: seq<nat>)
    ensures |r| == |parts| && forall w :: 0 <= w < |parts| ==> r[w] == parts[w].samples
  {
    seq(|parts|, w requires 0 <= w < |parts| => parts[w].samples)
  }

  function Maxima(parts: seq<Summary>): (r: seq<Option<nat>>)
    ensures |r| == |parts| && forall w :: 0 <= w < |parts| ==> r[w] == parts[w].max
  {
    seq(|parts|, w requires 0 <= w < |parts| => parts[w].max)
  }

  lemma ValidTotal(s: Summary)
    requires s.Valid()
    ensures TotalOf(s.counts) == s.samples
  {
    hide TotalOf, NearestRankOf, Summary.MaximumFits;
  }

  lemma {:induction false} SamplesAreTotals(parts: seq<Summary>)
    requires forall w :: 0 <= w < |parts| ==> parts[w].Valid()
    ensures Samples(parts) == Totals(Counts(parts))
  {
    if parts != [] {
      var init, last := parts[..|parts| - 1], parts[|parts| - 1];
      SamplesAreTotals(init);
      ValidTotal(last);
      hide Summary.Valid, TotalOf;
      assert Counts(parts)[..|parts| - 1] == Counts(init);
      assert Samples(parts) == Samples(init) + [last.samples];
    }
  }
}
