/** The resource summary of a run: the trend over the rounds after warm-up, and when the summary
    satisfies its contract. */
module Resources {
  import opened Arithmetic
  import opened Workload
  import opened Regression

  /** One checked resource round: its schedule time, the interval of its requests, and the totals over
      its processes. */
  datatype Row = Row(scheduled: nat, started: nat, completed: nat, rss: nat, fds: nat)

  /** What the loop over the rounds has checked before it summarises. */
  ghost predicate Checked(rows: seq<Row>, nonoverlap: bool) {
    && rows != []
    && (forall k :: 0 <= k < |rows| ==> rows[k].scheduled <= rows[k].started <= rows[k].completed)
    && (forall k :: 0 < k < |rows| ==> rows[k - 1].scheduled < rows[k].scheduled)
    && (nonoverlap ==> forall k :: 0 < k < |rows| ==> rows[k - 1].completed <= rows[k].started)
  }

  datatype ResourceSummary = ResourceSummary(
    roundCount: nat, postCount: nat, trendValid: bool, firstRequest: nat, finalCompletion: nat, coverage: int,
    maxGap: int, rssPeak: nat, trend: Trend, fdPeak: nat,
    firstFd: Option<nat>, maxFd: Option<nat>, finalFd: Option<nat>, fdGrowth: Option<nat>)
  {
    /** The summary's own validator; a refused trend never reaches it. */
    predicate Valid() {
      && trend != Refused
      && 0 < roundCount && postCount <= roundCount
      && firstRequest <= finalCompletion && coverage == finalCompletion - firstRequest
      && 0 <= maxGap && (roundCount == 1 <==> maxGap == 0)
      && (trendValid <==> 2 <= postCount)
      && if postCount == 0 then trend == NoTrend && firstFd.None? && maxFd.None? && finalFd.None? && fdGrowth.None?
         else
           && firstFd.Some? && maxFd.Some? && finalFd.Some? && fdGrowth.Some?
           && Max(firstFd.value, finalFd.value) <= maxFd.value <= fdPeak
           && fdGrowth.value == Max(0, maxFd.value - firstFd.value)
           && if postCount == 1 then trend == NoTrend && firstFd == maxFd == finalFd && fdGrowth.value == 0
              else trend != NoTrend
    }
  }

  /** Which summaries are consistent: the gap is positive from two rounds on; without a round after warm-up there is no
      trend and no descriptor figure; with one, first, greatest and final totals are one; from two on there is a slope.
      The growth is the rise of the greatest total above the first. */
  lemma ConsistentSummaries(s: ResourceSummary)
    ensures s.Valid() <==>
      && 1 <= s.roundCount && s.postCount <= s.roundCount
      && 0 <= s.coverage && s.firstRequest + s.coverage == s.finalCompletion
      && (if s.roundCount == 1 then s.maxGap == 0 else 0 < s.maxGap)
      && (if s.postCount < 2 then s.trend == NoTrend && !s.trendValid else s.trend.Slope? && s.trendValid)
      && (s.firstFd.Some? <==> 0 < s.postCount) && (s.maxFd.Some? <==> 0 < s.postCount)
      && (s.finalFd.Some? <==> 0 < s.postCount) && (s.fdGrowth.Some? <==> 0 < s.postCount)
      && (0 < s.postCount ==>
            && s.firstFd.value <= s.maxFd.value && s.finalFd.value <= s.maxFd.value <= s.fdPeak
            && s.firstFd.value + s.fdGrowth.value == s.maxFd.value
            && (s.postCount == 1 ==> s.firstFd.value == s.maxFd.value == s.finalFd.value))
  {
  }

  /** The rounds scheduled at or after the end of warm-up. */
  function AfterWarmup(rows: seq<Row>, warmup: nat): seq<Row> {
    if rows == [] then []
    else
      var last := rows[|rows| - 1];
      AfterWarmup(rows[..|rows| - 1], warmup) + (if warmup <= last.scheduled then [last] else [])
  }

  function Points(rows: seq<Row>): (p: seq<Point>)
    ensures |p| == |rows| && forall i :: 0 <= i < |p| ==> p[i] == Point(rows[i].scheduled, rows[i].rss)
  {
    seq(|rows|, i requires 0 <= i < |rows| => Point(rows[i].scheduled, rows[i].rss))
  }

  function MaxGap(rows: seq<Row>): int {
    if |rows| < 2 then 0
    else Max(MaxGap(rows[..|rows| - 1]), rows[|rows| - 1].scheduled - rows[|rows| - 2].scheduled)
  }

  function MaxFds(rows: seq<Row>): nat {
    if rows == [] then 0 else Max(MaxFds(rows[..|rows| - 1]), rows[|rows| - 1].fds)
  }

  function MaxRss(rows: seq<Row>): nat {
    if rows == [] then 0 else Max(MaxRss(rows[..|rows| - 1]), rows[|rows| - 1].rss)
  }

  function SummaryOf(rows: seq<Row>, warmup: nat): ResourceSummary
    requires rows != []
  {
    var post := AfterWarmup(rows, warmup);
    var first, final := rows[0].started, rows[|rows| - 1].completed;
    var trend := RssTrend(Points(post));
    if post == [] then
      ResourceSummary(|rows|, 0, false, first, final, final - first, MaxGap(rows), MaxRss(rows), trend, MaxFds(rows),
                      None, None, None, None)
    else
      ResourceSummary(|rows|, |post|, 2 <= |post|, first, final, final - first, MaxGap(rows), MaxRss(rows), trend, MaxFds(rows),
                      Some(post[0].fds), Some(MaxFds(post)), Some(post[|post| - 1].fds),
                      Some(Max(0, MaxFds(post) - post[0].fds)))
  }

  ghost predicate Increasing(rows: seq<Row>) {
    forall i, j :: 0 <= i < j < |rows| ==> rows[i].scheduled < rows[j].scheduled
  }

  lemma {:induction false} NeighboursIncrease(rows: seq<Row>, i: nat, j: nat)
    requires forall k :: 0 < k < |rows| ==> rows[k - 1].scheduled < rows[k].scheduled
    requires i < j < |rows|
    ensures rows[i].scheduled < rows[j].scheduled
    decreases j
  {
    if i < j - 1 { NeighboursIncrease(rows, i, j - 1); }
  }

  /** The rounds after warm-up stay in order, are no more than all rounds, and hold no larger descriptor total. */
  lemma {:induction false} AfterWarmupKeeps(rows: seq<Row>, warmup: nat)
    requires Increasing(rows)
    ensures var post := AfterWarmup(rows, warmup);
            && |post| <= |rows| && Increasing(post) && MaxFds(post) <= MaxFds(rows)
            && forall k :: 0 <= k < |post| ==> post[k] in rows
  {
    if rows != [] {
      var init, last := rows[..|rows| - 1], rows[|rows| - 1];
      AfterWarmupKeeps(init, warmup);
      var post := AfterWarmup(init, warmup);
      forall k | 0 <= k < |post| ensures post[k].scheduled < last.scheduled {
        assert post[k] in init;
      }
      assert (post + [last])[..|post|] == post;
      assert post + [] == post;
    }
  }

  lemma {:induction false} MaxFdsBounds(rows: seq<Row>, k: nat)
    requires k < |rows|
    ensures rows[k].fds <= MaxFds(rows)
  {
    if k < |rows| - 1 { MaxFdsBounds(rows[..|rows| - 1], k); }
  }

  lemma {:induction false} GapIsPositive(rows: seq<Row>)
    requires Increasing(rows) && rows != []
    ensures 0 <= MaxGap(rows) && (MaxGap(rows) == 0 <==> |rows| == 1)
  {
    if 1 < |rows| {
      var init := rows[..|rows| - 1];
      GapIsPositive(init);
    }
  }

  /** There is a trend exactly when there are two rounds to draw it through. */
  lemma TrendFits(post: seq<Row>)
    requires Increasing(post)
    ensures RssTrend(Points(post)) != Refused
    ensures RssTrend(Points(post)) == NoTrend <==> |post| < 2
  {
    if 2 <= |post| {
      assert TimesIncrease(Points(post));
      TrendNeverRefused(Points(post));
    }
    hide Numerator, Denominator, Shifted;
  }

  lemma DescriptorsFit(post: seq<Row>)
    requires post != []
    ensures Max(post[0].fds, post[|post| - 1].fds) <= MaxFds(post)
    ensures |post| == 1 ==> MaxFds(post) == post[0].fds
  {
    MaxFdsBounds(post, 0);
    MaxFdsBounds(post, |post| - 1);
    if |post| == 1 { OneRowMax(post); }
  }

  lemma CheckedIncreases(rows: seq<Row>, nonoverlap: bool)
    requires Checked(rows, nonoverlap)
    ensures rows != [] && Increasing(rows)
  {
    forall i, j | 0 <= i < j < |rows| ensures rows[i].scheduled < rows[j].scheduled {
      NeighboursIncrease(rows, i, j);
    }
  }

  /** The summary of checked rounds satisfies its contract, and its regression is never refused, exactly
      when the first round's requests start no later than the last round's end. */
  lemma SummaryValidExactly(rows: seq<Row>, warmup: nat, nonoverlap: bool)
    requires Checked(rows, nonoverlap)
    ensures SummaryOf(rows, warmup).Valid() <==> rows[0].started <= rows[|rows| - 1].completed
    ensures SummaryOf(rows, warmup).trend != Refused
  {
    hide MaxGap, MaxFds, MaxRss, AfterWarmup, RssTrend, Checked, Increasing, Points;
    var post := AfterWarmup(rows, warmup);
    CheckedIncreases(rows, nonoverlap);
    AfterWarmupKeeps(rows, warmup);
    GapIsPositive(rows);
    TrendFits(post);
    if post != [] { DescriptorsFit(post); }
  }

  // ----- The summary, by the rounds' own totals -------------------------------------------------------

  /** The rounds before this one are scheduled before the end of warm-up, and this one and the later ones are not. */
  ghost predicate WarmFrom(rows: seq<Row>, warmup: nat, first: nat) {
    first <= |rows| && forall k :: 0 <= k < |rows| ==> (warmup <= rows[k].scheduled <==> first <= k)
  }

  lemma {:induction false} AfterWarmupIsTail(rows: seq<Row>, warmup: nat, first: nat)
    requires WarmFrom(rows, warmup, first)
    ensures AfterWarmup(rows, warmup) == rows[first..]
  {
    if rows != [] {
      var init, last := rows[..|rows| - 1], rows[|rows| - 1];
      if first == |rows| {
        AfterWarmupIsTail(init, warmup, first - 1);
      } else {
        AfterWarmupIsTail(init, warmup, first);
        assert init[first..] + [last] == rows[first..];
      }
    }
  }

  lemma {:induction false} MaxFdsIsGreatest(rows: seq<Row>)
    requires rows != []
    ensures forall k :: 0 <= k < |rows| ==> rows[k].fds <= MaxFds(rows)
    ensures exists k :: 0 <= k < |rows| && rows[k].fds == MaxFds(rows)
  {
    var init := rows[..|rows| - 1];
    if init != [] {
      MaxFdsIsGreatest(init);
      var k :| 0 <= k < |init| && init[k].fds == MaxFds(init);
      assert rows[k].fds == MaxFds(init);
    }
    assert rows[|rows| - 1].fds <= MaxFds(rows);
  }

  lemma {:induction false} MaxRssIsGreatest(rows: seq<Row>)
    requires rows != []
    ensures forall k :: 0 <= k < |rows| ==> rows[k].rss <= MaxRss(rows)
    ensures exists k :: 0 <= k < |rows| && rows[k].rss == MaxRss(rows)
  {
    var init := rows[..|rows| - 1];
    if init != [] {
      MaxRssIsGreatest(init);
      var k :| 0 <= k < |init| && init[k].rss == MaxRss(init);
      assert rows[k].rss == MaxRss(init);
    }
    assert rows[|rows| - 1].rss <= MaxRss(rows);
  }

  /** From the round before to this one. */
  function GapBefore(rows: seq<Row>, k: nat): int
    requires 0 < k < |rows|
  {
    rows[k].scheduled - rows[k - 1].scheduled
  }

  lemma {:induction false} MaxGapIsGreatest(rows: seq<Row>)
    requires Increasing(rows) && 2 <= |rows|
    ensures forall k :: 0 < k < |rows| ==> GapBefore(rows, k) <= MaxGap(rows)
    ensures exists k :: 0 < k < |rows| && GapBefore(rows, k) == MaxGap(rows)
  {
    var init, n := rows[..|rows| - 1], |rows|;
    assert 0 < GapBefore(rows, n - 1) && MaxGap(rows) == Max(MaxGap(init), GapBefore(rows, n - 1));
    forall k | 0 < k < n - 1 ensures GapBefore(rows, k) == GapBefore(init, k) {
    }
    if n == 2 {
      assert MaxGap(init) == 0;
    } else {
      MaxGapIsGreatest(init);
      hide MaxGap, GapBefore;
      var k :| 0 < k < |init| && GapBefore(init, k) == MaxGap(init);
      assert GapBefore(rows, k) == MaxGap(init);
    }
  }

  /** The figures over all rounds: from the first request of the first round to the last completion of the last
      one, with the greatest gap between neighbours and the greatest totals of any round. */
  lemma SummaryOfAllRounds(rows: seq<Row>, warmup: nat)
    requires rows != [] && Increasing(rows)
    ensures var s := SummaryOf(rows, warmup);
            && s.roundCount == |rows|
            && s.firstRequest == rows[0].started && s.finalCompletion == rows[|rows| - 1].completed
            && s.coverage == rows[|rows| - 1].completed - rows[0].started
            && (forall k :: 0 < k < |rows| ==> GapBefore(rows, k) <= s.maxGap)
            && (if |rows| == 1 then s.maxGap == 0 else exists k :: 0 < k < |rows| && GapBefore(rows, k) == s.maxGap)
            && (forall k :: 0 <= k < |rows| ==> rows[k].rss <= s.rssPeak && rows[k].fds <= s.fdPeak)
            && (exists k :: 0 <= k < |rows| && rows[k].rss == s.rssPeak)
            && (exists k :: 0 <= k < |rows| && rows[k].fds == s.fdPeak)
  {
    hide MaxFds, MaxRss, AfterWarmup, RssTrend, Points, GapBefore, Increasing;
    MaxFdsIsGreatest(rows);
    MaxRssIsGreatest(rows);
    if 2 <= |rows| { MaxGapIsGreatest(rows); }
  }

  /** The trend is that of the rounds after warm-up, when there are two. */
  lemma TrendAfterWarmup(rows: seq<Row>, warmup: nat, first: nat)
    requires rows != [] && WarmFrom(rows, warmup, first)
    ensures var s := SummaryOf(rows, warmup);
            && s.postCount == |rows| - first && (s.trendValid <==> 2 <= |rows| - first)
            && s.trend == RssTrend(seq(|rows| - first, i requires 0 <= i < |rows| - first =>
                                         Point(rows[first + i].scheduled, rows[first + i].rss)))
  {
    hide MaxFds, MaxRss, MaxGap, AfterWarmup, RssTrend;
    AfterWarmupIsTail(rows, warmup, first);
    assert Points(rows[first..]) == seq(|rows| - first, i requires 0 <= i < |rows| - first =>
                                          Point(rows[first + i].scheduled, rows[first + i].rss));
  }

  /** The descriptors after warm-up: the first total is that of the earliest round after it and the final one that
      of the last round, the greatest is reached, and the growth is the greatest rise above the first. */
  lemma DescriptorsAfterWarmup(rows: seq<Row>, warmup: nat, first: nat)
    requires rows != [] && WarmFrom(rows, warmup, first)
    ensures var s := SummaryOf(rows, warmup);
            if first == |rows| then s.firstFd.None? && s.maxFd.None? && s.finalFd.None? && s.fdGrowth.None?
            else
              && s.firstFd == Some(rows[first].fds) && s.finalFd == Some(rows[|rows| - 1].fds)
              && s.maxFd.Some? && (forall k :: first <= k < |rows| ==> rows[k].fds <= s.maxFd.value)
              && (exists k :: first <= k < |rows| && rows[k].fds == s.maxFd.value)
              && s.fdGrowth.Some? && (forall k :: first <= k < |rows| ==> rows[k].fds - rows[first].fds <= s.fdGrowth.value)
              && (exists k :: first <= k < |rows| && rows[k].fds - rows[first].fds == s.fdGrowth.value)
  {
    hide MaxFds, MaxRss, MaxGap, AfterWarmup, RssTrend, Points;
    AfterWarmupIsTail(rows, warmup, first);
    if first < |rows| { DescriptorsOfTail(rows, first); }
  }

  lemma DescriptorsOfTail(rows: seq<Row>, first: nat)
    requires first < |rows|
    ensures var max := MaxFds(rows[first..]);
            && rows[first].fds <= max
            && (forall k :: first <= k < |rows| ==> rows[k].fds <= max)
            && (exists k :: first <= k < |rows| && rows[k].fds == max)
  {
    hide MaxFds;
    var post := rows[first..];
    MaxFdsIsGreatest(post);
    forall k | first <= k < |rows| ensures rows[k].fds <= MaxFds(post) { assert post[k - first] == rows[k]; }
    var k :| 0 <= k < |post| && post[k].fds == MaxFds(post);
    assert rows[first + k].fds == MaxFds(post);
  }

  /** In increasing rounds some place is where warm-up ends. */
  lemma {:induction false} WarmUpEnds(rows: seq<Row>, warmup: nat)
    requires Increasing(rows)
    ensures exists first: nat :: WarmFrom(rows, warmup, first)
  {
    if rows == [] {
      assert WarmFrom(rows, warmup, 0);
    } else {
      var n := |rows| - 1;
      WarmUpEnds(rows[..n], warmup);
      var first: nat :| WarmFrom(rows[..n], warmup, first);
      if first == n && rows[n].scheduled < warmup {
        assert WarmFrom(rows, warmup, n + 1);
      } else {
        if first < n { assert warmup <= rows[..n][first].scheduled; }
        forall k | 0 <= k < n ensures warmup <= rows[k].scheduled <==> first <= k { assert rows[..n][k] == rows[k]; }
        assert WarmFrom(rows, warmup, first);
      }
    }
  }

  lemma OneRowMax(rows: seq<Row>)
    requires |rows| == 1
    ensures MaxFds(rows) == rows[0].fds
  {
    assert rows[..0] == [];
  }

  /** The totals of the first k rounds. */
  ghost predicate Totals(rows: seq<Row>, k: nat, warmup: nat, post: seq<Row>, gap: int, rssPeak: nat, fdPeak: nat)
    requires k <= |rows|
  {
    && post == AfterWarmup(rows[..k], warmup) && gap == MaxGap(rows[..k])
    && rssPeak == MaxRss(rows[..k]) && fdPeak == MaxFds(rows[..k])
  }

  lemma TotalsSnoc(rows: seq<Row>, k: nat, warmup: nat, post: seq<Row>, gap: int, rssPeak: nat, fdPeak: nat)
    requires k < |rows| && Totals(rows, k, warmup, post, gap, rssPeak, fdPeak)
    ensures var row := rows[k];
            Totals(rows, k + 1, warmup, if warmup <= row.scheduled then post + [row] else post,
                   if k == 0 then gap else Max(gap, row.scheduled - rows[k - 1].scheduled),
                   Max(rssPeak, row.rss), Max(fdPeak, row.fds))
  {
    assert rows[..k + 1][..k] == rows[..k];
    assert post + [] == post;
  }

  ghost predicate CheckedThrough(rows: seq<Row>, k: nat, nonoverlap: bool)
    requires k <= |rows|
  {
    && (forall i :: 0 <= i < k ==> rows[i].scheduled <= rows[i].started <= rows[i].completed)
    && (forall i :: 0 < i < k ==> rows[i - 1].scheduled < rows[i].scheduled)
    && (nonoverlap ==> forall i :: 0 < i < k ==> rows[i - 1].completed <= rows[i].started)
  }

  lemma CheckedSnoc(rows: seq<Row>, k: nat, nonoverlap: bool)
    requires k < |rows| && CheckedThrough(rows, k, nonoverlap)
    ensures var row := rows[k];
            var passes := row.scheduled <= row.started <= row.completed
                          && (0 < k ==> rows[k - 1].scheduled < row.scheduled)
                          && (nonoverlap && 0 < k ==> rows[k - 1].completed <= row.started);
            (passes ==> CheckedThrough(rows, k + 1, nonoverlap)) && (!passes ==> !Checked(rows, nonoverlap))
  {
  }

  lemma CheckedAll(rows: seq<Row>, nonoverlap: bool)
    requires rows != [] && CheckedThrough(rows, |rows|, nonoverlap)
    ensures Checked(rows, nonoverlap)
  {
  }

  /** Checks the rounds one after the other while it collects their totals, and summarises them. It
      succeeds exactly when every check between neighbouring rounds passes and the first request comes
      no later than the last completion. */
  method SummarizeResources(rows: seq<Row>, warmup: nat, nonoverlap: bool) returns (r: Option<ResourceSummary>)
    ensures r.Some? <==> Checked(rows, nonoverlap) && rows[0].started <= rows[|rows| - 1].completed
    ensures r.Some? ==> r.value == SummaryOf(rows, warmup) && r.value.Valid()
  {
    if rows == [] {
      return None;
    }
    hide Totals, Checked, CheckedThrough, SummaryOf, ResourceSummary.Valid;
    var post: seq<Row>, gap: int, rssPeak: nat, fdPeak: nat := [], 0, 0, 0;
    NoTotals(rows, warmup, nonoverlap);
    var k := 0;
    while k < |rows|
      invariant 0 <= k <= |rows|
      invariant Totals(rows, k, warmup, post, gap, rssPeak, fdPeak)
      invariant CheckedThrough(rows, k, nonoverlap)
    {
      var row := rows[k];
      CheckedSnoc(rows, k, nonoverlap);
      if !(row.scheduled <= row.started <= row.completed)
         || (0 < k && row.scheduled <= rows[k - 1].scheduled)
         || (nonoverlap && 0 < k && row.started < rows[k - 1].completed) {
        return None;
      }
      TotalsSnoc(rows, k, warmup, post, gap, rssPeak, fdPeak);
      if warmup <= row.scheduled { post := post + [row]; }
      if 0 < k { gap := Max(gap, row.scheduled - rows[k - 1].scheduled); }
      rssPeak, fdPeak := Max(rssPeak, row.rss), Max(fdPeak, row.fds);
      k := k + 1;
    }
    CheckedAll(rows, nonoverlap);
    SummaryValidExactly(rows, warmup, nonoverlap);
    r := SummaryFromTotals(rows, warmup, post, gap, rssPeak, fdPeak);
  }

  lemma NoTotals(rows: seq<Row>, warmup: nat, nonoverlap: bool)
    ensures Totals(rows, 0, warmup, [], 0, 0, 0) && CheckedThrough(rows, 0, nonoverlap)
  {
  }

  function Coverage(first: nat, final: nat): int { final - first }

  /** Builds the summary from the collected totals; its validator may refuse it. */
  method SummaryFromTotals(rows: seq<Row>, warmup: nat, post: seq<Row>, gap: int, rssPeak: nat, fdPeak: nat)
    returns (r: Option<ResourceSummary>)
    requires rows != [] && Totals(rows, |rows|, warmup, post, gap, rssPeak, fdPeak)
    ensures r.Some? <==> SummaryOf(rows, warmup).Valid()
    ensures r.Some? ==> r.value == SummaryOf(rows, warmup)
  {
    assert rows[..|rows|] == rows;
    hide RssTrend, MaxGap, MaxFds, MaxRss, AfterWarmup, Points;
    var first, final := rows[0].started, rows[|rows| - 1].completed;
    var trend := RssTrend(Points(post));
    var maxFd := DescriptorPeak(post);
    var summary :=
      if post == [] then
        ResourceSummary(|rows|, 0, false, first, final, Coverage(first, final), gap, rssPeak, trend, fdPeak, None, None, None, None)
      else
        ResourceSummary(|rows|, |post|, 2 <= |post|, first, final, Coverage(first, final), gap, rssPeak, trend, fdPeak,
                        Some(post[0].fds), Some(maxFd), Some(post[|post| - 1].fds), Some(Max(0, maxFd - post[0].fds)));
    assert summary == SummaryOf(rows, warmup);
    r := if summary.Valid() then Some(summary) else None;
  }

  /** The largest descriptor total of some rounds. */
  method DescriptorPeak(rows: seq<Row>) returns (peak: nat)
    ensures peak == MaxFds(rows)
  {
    peak := 0;
    for k := 0 to |rows|
      invariant peak == MaxFds(rows[..k])
    {
      assert rows[..k + 1][..k] == rows[..k];
      peak := Max(peak, rows[k].fds);
    }
    assert rows[..|rows|] == rows;
  }

  lemma {:induction false} CompletionsInOrder(rows: seq<Row>, k: nat)
    requires Checked(rows, true) && k < |rows|
    ensures rows[0].started <= rows[k].completed
  {
    if 0 < k { CompletionsInOrder(rows, k - 1); }
  }

  /** Rounds that do not overlap always give a valid summary. */
  lemma NonoverlappingRoundsSummarise(rows: seq<Row>, warmup: nat)
    requires Checked(rows, true)
    ensures SummaryOf(rows, warmup).Valid()
  {
    CompletionsInOrder(rows, |rows| - 1);
    SummaryValidExactly(rows, warmup, true);
  }
}
