/** The samples of one resource round: one per process, in order, each process keeping its id from round to
    round. The rounds are then summarised by their interval and totals. */
module Sampling {
  import opened Arithmetic
  import opened Workload
  import opened Resources

  datatype Process = Supervisor | Worker(exchange: Exchange)

  /** The supervisor and one worker per exchange. */
  const PROCESSES: seq<Process> := [Supervisor, Worker(Binance), Worker(Okx), Worker(Bybit), Worker(Bitget), Worker(Kraken)]

  datatype Sample = Sample(process: Process, pid: nat, index: nat, scheduled: nat, started: nat, completed: nat, rss: nat, fds: nat)

  datatype Round = Round(index: nat, scheduled: nat, expected: seq<Process>, samples: seq<Sample>)

  function ProcessesOf(samples: seq<Sample>): (r: seq<Process>)
    ensures |r| == |samples| && forall k :: 0 <= k < |r| ==> r[k] == samples[k].process
  {
    seq(|samples|, k requires 0 <= k < |samples| => samples[k].process)
  }

  function PidsOf(samples: seq<Sample>): set<nat> {
    set s | s in samples :: s.pid
  }

  ghost predicate DistinctPids(samples: seq<Sample>) {
    forall i, j :: 0 <= i < j < |samples| ==> samples[i].pid != samples[j].pid
  }

  lemma DistinctSnoc(init: seq<Sample>, last: Sample)
    ensures DistinctPids(init + [last]) <==> DistinctPids(init) && last.pid !in PidsOf(init)
  {
    var all := init + [last];
    if DistinctPids(all) {
      forall i, j | 0 <= i < j < |init| ensures init[i].pid != init[j].pid {
        assert all[i] == init[i] && all[j] == init[j];
      }
      forall s | s in init ensures s.pid != last.pid {
        var i :| 0 <= i < |init| && init[i] == s;
        assert all[i] == s && all[|init|] == last;
      }
    }
    forall i | 0 <= i < |init| ensures init[i].pid in PidsOf(init) {
      assert init[i] in init;
    }
  }

  /** Ids are counted without repetition: there are as many as samples exactly when they are distinct. */
  lemma {:induction false} PidCount(samples: seq<Sample>)
    ensures |PidsOf(samples)| <= |samples|
    ensures |PidsOf(samples)| == |samples| <==> DistinctPids(samples)
  {
    if samples != [] {
      var init, last := samples[..|samples| - 1], samples[|samples| - 1];
      PidCount(init);
      assert samples == init + [last];
      DistinctSnoc(init, last);
      assert PidsOf(samples) == PidsOf(init) + {last.pid};
      hide PidsOf, DistinctPids;
      if last.pid in PidsOf(init) {
        assert PidsOf(samples) == PidsOf(init);
      } else {
        assert |PidsOf(samples)| == |PidsOf(init)| + 1;
      }
    }
  }

  predicate SampleFine(r: Round, s: Sample) {
    s.index == r.index && s.scheduled == r.scheduled && r.scheduled <= s.started <= s.completed
  }

  /** A round by itself: its place, its processes, distinct ids, and samples that repeat its facts. */
  ghost predicate RoundFine(r: Round, index: nat) {
    && r.index == index && r.expected == PROCESSES && ProcessesOf(r.samples) == PROCESSES
    && DistinctPids(r.samples)
    && forall k :: 0 <= k < |r.samples| ==> SampleFine(r, r.samples[k])
  }

  function FirstStart(samples: seq<Sample>): nat
    requires samples != []
  {
    if |samples| == 1 then samples[0].started
    else Min(FirstStart(samples[..|samples| - 1]), samples[|samples| - 1].started)
  }

  function LastCompletion(samples: seq<Sample>): nat {
    if samples == [] then 0 else Max(LastCompletion(samples[..|samples| - 1]), samples[|samples| - 1].completed)
  }

  function TotalRss(samples: seq<Sample>): nat {
    if samples == [] then 0 else TotalRss(samples[..|samples| - 1]) + samples[|samples| - 1].rss
  }

  function TotalFds(samples: seq<Sample>): nat {
    if samples == [] then 0 else TotalFds(samples[..|samples| - 1]) + samples[|samples| - 1].fds
  }

  function RowOf(r: Round): Row
    requires r.samples != []
  {
    Row(r.scheduled, FirstStart(r.samples), LastCompletion(r.samples), TotalRss(r.samples), TotalFds(r.samples))
  }

  /** The totals of a round, sample by sample: its interval is from the earliest request to the latest completion of
      its six processes, and its memory and descriptors are their sums. */
  lemma RowMeans(r: Round)
    requires |r.samples| == 6
    ensures var row, s := RowOf(r), r.samples;
            && row.scheduled == r.scheduled
            && (forall k :: 0 <= k < 6 ==> row.started <= s[k].started && s[k].completed <= row.completed)
            && (exists k :: 0 <= k < 6 && s[k].started == row.started)
            && (exists k :: 0 <= k < 6 && s[k].completed == row.completed)
            && row.rss == s[0].rss + s[1].rss + s[2].rss + s[3].rss + s[4].rss + s[5].rss
            && row.fds == s[0].fds + s[1].fds + s[2].fds + s[3].fds + s[4].fds + s[5].fds
  {
    IntervalMeans(r.samples);
    TotalsMean(r.samples);
  }

  lemma {:induction false} IntervalMeans(s: seq<Sample>)
    requires s != []
    ensures forall k :: 0 <= k < |s| ==> FirstStart(s) <= s[k].started && s[k].completed <= LastCompletion(s)
    ensures exists k :: 0 <= k < |s| && s[k].started == FirstStart(s)
    ensures exists k :: 0 <= k < |s| && s[k].completed == LastCompletion(s)
  {
    var init, last := s[..|s| - 1], |s| - 1;
    if init != [] {
      IntervalMeans(init);
      var i :| 0 <= i < |init| && init[i].started == FirstStart(init);
      var j :| 0 <= j < |init| && init[j].completed == LastCompletion(init);
      assert s[i].started == FirstStart(init) && s[j].completed == LastCompletion(init);
    }
    assert s[last].started >= FirstStart(s) && s[last].completed <= LastCompletion(s);
  }

  lemma TotalsThere(s: seq<Sample>, k: nat)
    requires k < |s|
    ensures TotalRss(s[..k + 1]) == TotalRss(s[..k]) + s[k].rss && TotalFds(s[..k + 1]) == TotalFds(s[..k]) + s[k].fds
  {
    assert s[..k + 1][..k] == s[..k];
  }

  lemma TotalsMean(s: seq<Sample>)
    requires |s| == 6
    ensures TotalRss(s) == s[0].rss + s[1].rss + s[2].rss + s[3].rss + s[4].rss + s[5].rss
    ensures TotalFds(s) == s[0].fds + s[1].fds + s[2].fds + s[3].fds + s[4].fds + s[5].fds
  {
    TotalsThere(s, 5);
    TotalsThere(s, 4);
    TotalsThere(s, 3);
    TotalsThere(s, 2);
    TotalsThere(s, 1);
    TotalsThere(s, 0);
    assert s[..6] == s && s[..0] == [];
  }

  /** The ids that are remembered are those of the given samples, or none yet. */
  ghost predicate Remembers(pids: map<Process, nat>, samples: seq<Sample>) {
    && (forall p :: p in pids <==> p in ProcessesOf(samples))
    && forall k :: 0 <= k < |samples| ==> pids[samples[k].process] == samples[k].pid
  }

  ghost predicate SamePids(a: seq<Sample>, b: seq<Sample>) {
    |a| == |b| && forall k :: 0 <= k < |a| ==> a[k].pid == b[k].pid
  }

  lemma ProcessesDiffer(i: nat, j: nat)
    requires i < j < |PROCESSES|
    ensures PROCESSES[i] != PROCESSES[j]
  {
  }

  /** What is known of the ids after k samples of a round. */
  ghost predicate PidsThrough(pids: map<Process, nat>, first: seq<Sample>, samples: seq<Sample>, k: nat)
    requires k <= |samples| && (first == [] || |first| == |samples|)
  {
    if first == [] then Remembers(pids, samples[..k])
    else Remembers(pids, first) && forall i :: 0 <= i < k ==> first[i].pid == samples[i].pid
  }

  /** An id that is not remembered yet is remembered, and one that is must not have changed. */
  lemma PidStep(pids: map<Process, nat>, first: seq<Sample>, samples: seq<Sample>, k: nat)
    requires k < |samples| && ProcessesOf(samples) == PROCESSES && (first == [] || ProcessesOf(first) == PROCESSES)
    requires first == [] || |first| == |samples|
    requires PidsThrough(pids, first, samples, k)
    ensures var s := samples[k];
            var after := if s.process in pids then pids else pids[s.process := s.pid];
            if after[s.process] == s.pid then PidsThrough(after, first, samples, k + 1)
            else first != [] && !SamePids(first, samples)
  {
    var s := samples[k];
    if first == [] {
      FreshProcess(samples, k);
      RemembersOneMore(pids, samples, k);
    } else {
      assert ProcessesOf(first)[k] == ProcessesOf(samples)[k];
      assert first[k].process == s.process;
      assert s.process in ProcessesOf(first);
    }
  }

  /** The interval and the totals of the first k samples. */
  ghost predicate TotalsThrough(row: Row, r: Round, k: nat)
    requires k <= |r.samples|
  {
    && row.scheduled == r.scheduled && row.completed == LastCompletion(r.samples[..k])
    && (k > 0 ==> row.started == FirstStart(r.samples[..k]))
    && row.rss == TotalRss(r.samples[..k]) && row.fds == TotalFds(r.samples[..k])
  }

  lemma TotalsStep(row: Row, r: Round, k: nat)
    requires k < |r.samples| && TotalsThrough(row, r, k)
    ensures var s := r.samples[k];
            TotalsThrough(Row(r.scheduled, if k == 0 then s.started else Min(row.started, s.started), Max(row.completed, s.completed),
                              row.rss + s.rss, row.fds + s.fds), r, k + 1)
  {
    assert r.samples[..k + 1][..k] == r.samples[..k];
  }

  /** Reads the samples of one round: the ids of the first round are remembered, later rounds must repeat them. */
  method ReadSamples(r: Round, pids: map<Process, nat>, ghost first: seq<Sample>)
    returns (ok: bool, after: map<Process, nat>, row: Row)
    requires ProcessesOf(r.samples) == PROCESSES
    requires first == [] || ProcessesOf(first) == PROCESSES
    requires Remembers(pids, first)
    ensures ok <==> (forall k :: 0 <= k < |r.samples| ==> SampleFine(r, r.samples[k])) && (first == [] || SamePids(first, r.samples))
    ensures ok ==> r.samples != [] && row == RowOf(r) && Remembers(after, if first == [] then r.samples else first)
  {
    assert |ProcessesOf(r.samples)| == 6 && (first != [] ==> |ProcessesOf(first)| == 6);
    after := pids;
    row := Row(r.scheduled, 0, 0, 0, 0);
    BeforeSamples(after, first, r, row);
    hide TotalsThrough, PidsThrough, SampleFine, SamePids, Remembers, PROCESSES, FirstStart, LastCompletion, TotalRss, TotalFds, RowOf;
    var k := 0;
    while k < |r.samples|
      invariant 0 <= k <= |r.samples|
      invariant forall i :: 0 <= i < k ==> SampleFine(r, r.samples[i])
      invariant PidsThrough(after, first, r.samples, k) && TotalsThrough(row, r, k)
    {
      var s := r.samples[k];
      if !SampleFine(r, s) {
        return false, after, row;
      }
      PidStep(after, first, r.samples, k);
      if s.process !in after {
        after := after[s.process := s.pid];
      }
      if after[s.process] != s.pid {
        return false, after, row;
      }
      TotalsStep(row, r, k);
      row := Row(r.scheduled, if k == 0 then s.started else Min(row.started, s.started), Max(row.completed, s.completed),
                 row.rss + s.rss, row.fds + s.fds);
      k := k + 1;
    }
    AfterSamples(after, first, r, row);
    ok := true;
  }

  lemma BeforeSamples(pids: map<Process, nat>, first: seq<Sample>, r: Round, row: Row)
    requires Remembers(pids, first) && row == Row(r.scheduled, 0, 0, 0, 0)
    requires first == [] || |first| == |r.samples|
    ensures PidsThrough(pids, first, r.samples, 0) && TotalsThrough(row, r, 0)
  {
  }

  lemma AfterSamples(pids: map<Process, nat>, first: seq<Sample>, r: Round, row: Row)
    requires r.samples != [] && (first == [] || |first| == |r.samples|)
    requires PidsThrough(pids, first, r.samples, |r.samples|) && TotalsThrough(row, r, |r.samples|)
    ensures row == RowOf(r) && Remembers(pids, if first == [] then r.samples else first)
    ensures first == [] || SamePids(first, r.samples)
  {
    assert r.samples[..|r.samples|] == r.samples;
  }

  lemma FreshProcess(samples: seq<Sample>, k: nat)
    requires ProcessesOf(samples) == PROCESSES && k < |samples|
    ensures samples[k].process !in ProcessesOf(samples[..k])
  {
    forall i | 0 <= i < k ensures samples[i].process != samples[k].process {
      ProcessesDiffer(i, k);
      assert samples[i].process == ProcessesOf(samples)[i] && samples[k].process == ProcessesOf(samples)[k];
    }
  }

  lemma RemembersOneMore(pids: map<Process, nat>, samples: seq<Sample>, k: nat)
    requires k < |samples|
    ensures Remembers(pids, samples[..k]) && samples[k].process !in pids ==>
              Remembers(pids[samples[k].process := samples[k].pid], samples[..k + 1])
  {
    var after := samples[..k + 1];
    if Remembers(pids, samples[..k]) && samples[k].process !in pids {
      assert ProcessesOf(after) == ProcessesOf(samples[..k]) + [samples[k].process];
      forall i | 0 <= i < k ensures samples[i].process in pids && after[i] == samples[..k][i] {
        assert ProcessesOf(samples[..k])[i] == samples[i].process;
      }
    }
  }

  /** Every round is fine by itself, and no process changes its id. */
  ghost predicate RoundsFine(rounds: seq<Round>) {
    && (forall i :: 0 <= i < |rounds| ==> RoundFine(rounds[i], i))
    && forall i :: 0 < i < |rounds| ==> SamePids(rounds[0].samples, rounds[i].samples)
  }

  function RowsOf(rounds: seq<Round>): (rows: seq<Row>)
    requires forall i :: 0 <= i < |rounds| ==> rounds[i].samples != []
    ensures |rows| == |rounds| && forall i :: 0 <= i < |rows| ==> rows[i] == RowOf(rounds[i])
  {
    seq(|rounds|, i requires 0 <= i < |rounds| => RowOf(rounds[i]))
  }

  lemma FineRoundsHaveSamples(rounds: seq<Round>)
    requires RoundsFine(rounds)
    ensures forall i :: 0 <= i < |rounds| ==> rounds[i].samples != []
  {
    forall i | 0 <= i < |rounds| ensures rounds[i].samples != [] {
      assert RoundFine(rounds[i], i);
      assert |ProcessesOf(rounds[i].samples)| == 6;
    }
  }

  /** The rounds can be summarised: their processes are the expected ones, every round and every step from one
      to the next passes its checks, and the first request comes no later than the last completion. */
  ghost predicate Summarisable(expected: seq<Process>, rounds: seq<Round>, nonoverlap: bool) {
    && expected == PROCESSES && RoundsFine(rounds)
    && (FineRoundsHaveSamples(rounds);
        var rows := RowsOf(rounds);
        Checked(rows, nonoverlap) && rows[0].started <= rows[|rows| - 1].completed)
  }

  /** The samples of rounds that can be summarised: each repeats the facts of its round, is requested after the round is
      due and keeps its process and id, which no other process of the round has; rounds are due one after the other
      and, unless overlap is allowed, no request starts before those of the round before are completed. */
  lemma SummarisableMeans(expected: seq<Process>, rounds: seq<Round>, nonoverlap: bool, i: nat, k: nat)
    requires Summarisable(expected, rounds, nonoverlap) && i < |rounds| && k < 6
    ensures expected == [Supervisor, Worker(Binance), Worker(Okx), Worker(Bybit), Worker(Bitget), Worker(Kraken)]
    ensures rounds[i].index == i && rounds[i].expected == expected && |rounds[i].samples| == |rounds[0].samples| == 6
    ensures var r, s := rounds[i], rounds[i].samples[k];
            && s.process == expected[k] && s.index == i && s.scheduled == r.scheduled
            && r.scheduled <= s.started <= s.completed
            && s.pid == rounds[0].samples[k].pid
            && forall j :: 0 <= j < 6 && j != k ==> r.samples[j].pid != s.pid
    ensures 0 < i ==> rounds[i - 1].scheduled < rounds[i].scheduled
    ensures 0 < i && nonoverlap ==> forall s :: s in rounds[i - 1].samples ==> s.completed <= rounds[i].samples[k].started
  {
    var rows := RowsOf(rounds);
    assert RoundFine(rounds[i], i) && RoundFine(rounds[0], 0);
    assert |ProcessesOf(rounds[i].samples)| == |ProcessesOf(rounds[0].samples)| == 6;
    assert ProcessesOf(rounds[i].samples)[k] == PROCESSES[k];
    assert SampleFine(rounds[i], rounds[i].samples[k]);
    if 0 < i {
      assert rows[i - 1] == RowOf(rounds[i - 1]) && rows[i] == RowOf(rounds[i]);
      IntervalMeans(rounds[i - 1].samples);
      IntervalMeans(rounds[i].samples);
    }
    hide FirstStart, LastCompletion, TotalRss, TotalFds;
  }

  /** Checks every round by itself, then the rounds against each other, and summarises them. */
  method SummarizeRounds(expected: seq<Process>, rounds: seq<Round>, warmup: nat, nonoverlap: bool)
    returns (r: Option<ResourceSummary>)
    ensures r.Some? <==> Summarisable(expected, rounds, nonoverlap)
    ensures r.Some? ==> (forall i :: 0 <= i < |rounds| ==> rounds[i].samples != [])
                        && r.value == SummaryOf(RowsOf(rounds), warmup) && r.value.Valid()
  {
    hide Checked, SummaryOf, ResourceSummary.Valid, RowOf, SampleFine, SamePids, Remembers, PidsOf, DistinctPids;
    if expected != PROCESSES || rounds == [] {
      if rounds == [] { NoRoundsNoSummary(rounds, nonoverlap); }
      return None;
    }
    var pids: map<Process, nat> := map[];
    var rows: seq<Row> := [];
    NothingRemembered();
    for i := 0 to |rounds|
      invariant |rows| == i
      invariant forall j :: 0 <= j < i ==> RoundFine(rounds[j], j) && rounds[j].samples != [] && rows[j] == RowOf(rounds[j])
      invariant forall j :: 0 < j < i ==> SamePids(rounds[0].samples, rounds[j].samples)
      invariant Remembers(pids, if i == 0 then [] else rounds[0].samples)
    {
      var round := rounds[i];
      PidCount(round.samples);
      if round.index != i || round.expected != PROCESSES || ProcessesOf(round.samples) != PROCESSES
         || |PidsOf(round.samples)| != |round.samples| {
        assert !RoundFine(rounds[i], i);
        return None;
      }
      assert |ProcessesOf(round.samples)| == 6;
      var ok, row;
      ok, pids, row := ReadSamples(round, pids, if i == 0 then [] else rounds[0].samples);
      if !ok {
        assert !(RoundFine(rounds[i], i) && (i == 0 || SamePids(rounds[0].samples, rounds[i].samples)));
        return None;
      }
      rows := rows + [row];
    }
    assert rows == RowsOf(rounds);
    r := SummarizeResources(rows, warmup, nonoverlap);
  }

  lemma NothingRemembered()
    ensures Remembers(map[], [])
  {
    assert ProcessesOf([]) == [];
  }

  lemma NoRoundsNoSummary(rounds: seq<Round>, nonoverlap: bool)
    requires rounds == []
    ensures !Summarisable(PROCESSES, rounds, nonoverlap)
  {
  }

  // ----- When overlapping rounds are refused ----------------------------------------------------------

  /** A round whose six processes all answer in the given interval. */
  function UniformRound(index: nat, scheduled: nat, started: nat, completed: nat): (r: Round)
    ensures |r.samples| == |PROCESSES|
    ensures forall k :: 0 <= k < |r.samples| ==> r.samples[k] == Sample(PROCESSES[k], k + 1, index, scheduled, started, completed, 1, 1)
  {
    Round(index, scheduled, PROCESSES,
          seq(|PROCESSES|, k requires 0 <= k < |PROCESSES| => Sample(PROCESSES[k], k + 1, index, scheduled, started, completed, 1, 1)))
  }

  lemma {:induction false} UniformInterval(samples: seq<Sample>, started: nat, completed: nat)
    requires samples != [] && forall k :: 0 <= k < |samples| ==> samples[k].started == started && samples[k].completed == completed
    ensures FirstStart(samples) == started && LastCompletion(samples) == completed
  {
    if |samples| == 1 {
      assert samples[..0] == [];
    } else {
      UniformInterval(samples[..|samples| - 1], started, completed);
    }
  }

  lemma UniformRoundIsFine(index: nat, scheduled: nat, started: nat, completed: nat)
    requires scheduled <= started <= completed
    ensures var r := UniformRound(index, scheduled, started, completed);
            && r.samples != [] && RoundFine(r, index)
            && RowOf(r).scheduled == scheduled && RowOf(r).started == started && RowOf(r).completed == completed
  {
    var r := UniformRound(index, scheduled, started, completed);
    assert |PROCESSES| == 6;
    assert ProcessesOf(r.samples) == PROCESSES;
    UniformInterval(r.samples, started, completed);
  }

  /** When overlap is allowed, rounds that pass every check can still be refused by their summary: the first
      round is answered late, after the second one has ended. */
  lemma OverlapCanBeRefused() returns (rounds: seq<Round>)
    ensures RoundsFine(rounds) && forall i :: 0 <= i < |rounds| ==> rounds[i].samples != []
    ensures Checked(RowsOf(rounds), false) && !SummaryOf(RowsOf(rounds), 0).Valid()
    ensures !Summarisable(PROCESSES, rounds, false)
  {
    hide RoundFine, RowOf;
    rounds := [UniformRound(0, 0, 100, 110), UniformRound(1, 1, 2, 3)];
    UniformRoundIsFine(0, 0, 100, 110);
    UniformRoundIsFine(1, 1, 2, 3);
    SummaryValidExactly(RowsOf(rounds), 0, false);
  }
}
