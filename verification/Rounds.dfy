/** The worker sampling rounds of a run: the checks between neighbouring rounds, what they imply
    about any two rounds, and the aggregate of the final snapshots. */
module Rounds {
  import opened Arithmetic
  import opened Workload
  import opened Histogram
  import opened Texts

  datatype Lifecycle = Starting | Accepting | Rotating | Critical | Closing | Closed

  datatype Publication = Idle | Sealing | FinalSync | Publishing | Failed

  /** Cumulative counters, in the order in which they are compared. */
  const ACCEPTED := 0
  const DURABLE := 1
  const UNCERTAIN := 2
  const SAMPLED := 7
  const COUNTERS := 14

  /** Gauges that must be zero in a final snapshot and whose peaks are reported, in their declared order. */
  const UNPERSISTED := 0
  const QUEUED := 1
  const QUEUED_BYTES := 2
  const BUFFERED := 3
  const BUFFERED_BYTES := 4
  const IN_FLIGHT := 5
  const IN_FLIGHT_BYTES := 6
  const RESIDENT_BYTES := 7
  const CONTROL := 8
  const CONTROL_BYTES := 9
  const GAUGES := 14

  const HISTOGRAM_SCHEMA := 1

  datatype SeriesKey = SeriesKey(exchange: Exchange, market: Option<Market>, logicalStream: string)

  /** The durability histogram of one logical stream. */
  datatype Series = Series(key: SeriesKey, lag: Summary)

  /** Text order. */
  predicate TextBefore(a: string, b: string) {
    if b == "" then false
    else if a == "" then true
    else a[0] < b[0] || (a[0] == b[0] && TextBefore(a[1..], b[1..]))
  }

  function MarketField(m: Option<Market>): string {
    if m.None? then "" else MarketText(m.value)
  }

  /** Series come in the text order of exchange, market and logical stream. */
  predicate KeyBefore(a: SeriesKey, b: SeriesKey) {
    || TextBefore(ExchangeText(a.exchange), ExchangeText(b.exchange))
    || (a.exchange == b.exchange
        && (|| TextBefore(MarketField(a.market), MarketField(b.market))
            || (a.market == b.market && TextBefore(a.logicalStream, b.logicalStream))))
  }

  function LagsOf(series: seq<Series>): (r: seq<Summary>)
    ensures |r| == |series| && forall i :: 0 <= i < |series| ==> r[i] == series[i].lag
  {
    seq(|series|, i requires 0 <= i < |series| => series[i].lag)
  }

  datatype WorkerKey = WorkerKey(exchange: Exchange, instance: string)

  datatype Config = Config(hash: nat, generation: nat, histogramSchema: nat)

  datatype Snapshot = Snapshot(
    observed: nat,
    worker: WorkerKey,
    config: Config,
    lifecycle: Lifecycle,
    admissionOpen: bool,
    publication: Publication,
    criticalReason: Option<nat>,
    ordinalHighWater: Option<nat>,
    counters: seq<nat>,
    gauges: seq<nat>,
    oldestAge: Option<nat>,
    lag: Summary,
    syncMax: nat,
    series: seq<Series>)
  {
    /** What the snapshot's own validator enforces. */
    predicate Valid() {
      && |counters| == COUNTERS && |gauges| == GAUGES && config.histogramSchema == HISTOGRAM_SCHEMA
      && ValidState() && ValidCounts() && ValidStages() && ValidSeries()
    }

    /** Admission is open exactly while accepting, undecided while rotating; a reason comes with the critical
        state; a closed worker is idle and has nothing left. */
    predicate ValidState()
      requires |counters| == COUNTERS && |gauges| == GAUGES
    {
      && (lifecycle != Rotating ==> (admissionOpen <==> lifecycle == Accepting))
      && (lifecycle == Critical <==> criticalReason.Some?)
      && (lifecycle == Closed ==>
            publication == Idle && (forall i :: 0 <= i < GAUGES ==> gauges[i] == 0) && counters[UNCERTAIN] == 0)
    }

    /** Every accepted record is durable, unpersisted or uncertain, and every durable one was sampled. */
    predicate ValidCounts()
      requires |counters| == COUNTERS && |gauges| == GAUGES
    {
      && ordinalHighWater == (if counters[ACCEPTED] == 0 then None else Some(counters[ACCEPTED] - 1))
      && counters[ACCEPTED] == counters[DURABLE] + gauges[UNPERSISTED] + counters[UNCERTAIN]
      && counters[SAMPLED] == counters[DURABLE]
      && (gauges[UNPERSISTED] == 0 <==> oldestAge.None?)
    }

    /** Unpersisted records are queued, buffered or in flight, and their bytes are the resident ones. */
    predicate ValidStages()
      requires |gauges| == GAUGES
    {
      && gauges[UNPERSISTED] == gauges[QUEUED] + gauges[BUFFERED] + gauges[IN_FLIGHT]
      && gauges[RESIDENT_BYTES] == gauges[QUEUED_BYTES] + gauges[BUFFERED_BYTES] + gauges[IN_FLIGHT_BYTES]
      && gauges[CONTROL_BYTES] <= gauges[RESIDENT_BYTES] && gauges[CONTROL] <= gauges[UNPERSISTED]
      && (gauges[QUEUED] == 0 <==> gauges[QUEUED_BYTES] == 0)
      && (gauges[BUFFERED] == 0 <==> gauges[BUFFERED_BYTES] == 0)
      && (gauges[IN_FLIGHT] == 0 <==> gauges[IN_FLIGHT_BYTES] == 0)
      && (gauges[CONTROL] == 0 <==> gauges[CONTROL_BYTES] == 0)
    }

    /** The worker's histogram is valid, and it is the merge of its valid, ordered series. */
    predicate ValidSeries()
      requires |counters| == COUNTERS
    {
      && lag.Valid() && lag.samples == counters[SAMPLED]
      && (forall i :: 0 <= i < |series| ==>
            series[i].lag.Valid() && series[i].key.exchange == worker.exchange && series[i].key.logicalStream != "")
      && (forall i, j :: 0 <= i < j < |series| ==> KeyBefore(series[i].key, series[j].key))
      && lag.samples == TotalOf(Samples(LagsOf(series)))
      && lag.counts == Merged(Counts(LagsOf(series)))
      && lag.max == MaxOf(Maxima(LagsOf(series)))
    }
  }

  /** The series by their keys, as the comparison of two snapshots looks them up. */
  function SeriesMap(series: seq<Series>): map<SeriesKey, Summary> {
    if series == [] then map[]
    else SeriesMap(series[..|series| - 1])[series[|series| - 1].key := series[|series| - 1].lag]
  }

  datatype Sample = Sample(
    roundIndex: nat, roundKind: string, scheduled: nat, requestStarted: nat, requestCompleted: nat, snapshot: Snapshot)

  datatype Round = Round(index: nat, kind: string, scheduled: nat, expected: seq<WorkerKey>, samples: seq<Sample>)

  const FINAL := "final"

  const WORKER_COUNT := 5

  /** The canonical workers, one for each exchange in canonical order. */
  function Workers(): (workers: seq<WorkerKey>)
    ensures |workers| == WORKER_COUNT
  {
    [WorkerKey(Binance, "gate-worker-v1-binance"), WorkerKey(Okx, "gate-worker-v1-okx"),
     WorkerKey(Bybit, "gate-worker-v1-bybit"), WorkerKey(Bitget, "gate-worker-v1-bitget"),
     WorkerKey(Kraken, "gate-worker-v1-kraken")]
  }

  // ----- Two neighbouring snapshots -----------------------------------------------------------

  predicate MaximumKept(previous: Option<nat>, current: Option<nat>) {
    previous.None? || (current.Some? && previous.value <= current.value)
  }

  predicate CountsKept(previous: seq<nat>, current: seq<nat>) {
    |previous| == |current| && forall i :: 0 <= i < |previous| ==> previous[i] <= current[i]
  }

  predicate SeriesKept(previous: Summary, current: Summary) {
    && previous.samples <= current.samples
    && CountsKept(previous.counts, current.counts)
    && MaximumKept(previous.max, current.max)
  }

  /** No series disappears, and none goes back. */
  predicate AllSeriesKept(previous: map<SeriesKey, Summary>, current: map<SeriesKey, Summary>) {
    && previous.Keys <= current.Keys
    && forall key :: key in previous ==> SeriesKept(previous[key], current[key])
  }

  /** The checks of one worker's snapshot against its previous one, in order. */
  predicate Progresses(previous: Snapshot, current: Snapshot) {
    && (previous.lifecycle == Critical ==> current.lifecycle == Critical)
    && previous.observed <= current.observed
    && if previous.observed == current.observed then current == previous
       else
         && CountsKept(previous.counters, current.counters)
         && AllSeriesKept(SeriesMap(previous.series), SeriesMap(current.series))
         && CountsKept(previous.lag.counts, current.lag.counts)
         && MaximumKept(previous.lag.max, current.lag.max)
         && previous.syncMax <= current.syncMax
  }

  /** One snapshot can come any number of rounds after another. */
  ghost predicate Advances(earlier: Snapshot, later: Snapshot) {
    && (earlier.lifecycle == Critical ==> later.lifecycle == Critical)
    && earlier.observed <= later.observed
    && (earlier.observed == later.observed ==> earlier == later)
    && CountsKept(earlier.counters, later.counters)
    && AllSeriesKept(SeriesMap(earlier.series), SeriesMap(later.series))
    && CountsKept(earlier.lag.counts, later.lag.counts)
    && MaximumKept(earlier.lag.max, later.lag.max)
    && earlier.syncMax <= later.syncMax
  }

  lemma ProgressAdvances(previous: Snapshot, current: Snapshot)
    requires Progresses(previous, current)
    ensures Advances(previous, current)
  {
    hide SeriesMap;
  }

  lemma SeriesTransitive(a: map<SeriesKey, Summary>, b: map<SeriesKey, Summary>, c: map<SeriesKey, Summary>)
    requires AllSeriesKept(a, b) && AllSeriesKept(b, c)
    ensures AllSeriesKept(a, c)
  {
    forall key | key in a ensures key in c && SeriesKept(a[key], c[key]) {
      assert key in a.Keys && key in b.Keys;
      assert SeriesKept(a[key], b[key]) && SeriesKept(b[key], c[key]);
    }
  }

  lemma AdvancesTransitive(a: Snapshot, b: Snapshot, c: Snapshot)
    requires Advances(a, b) && Advances(b, c)
    ensures Advances(a, c)
  {
    hide SeriesMap, AllSeriesKept;
    SeriesTransitive(SeriesMap(a.series), SeriesMap(b.series), SeriesMap(c.series));
  }

  // ----- What an accepted run is -----------------------------------------------------------------

  predicate FinalBarrier(s: Snapshot)
    requires |s.counters| == COUNTERS && |s.gauges| == GAUGES
  {
    && s.lifecycle == Closed && !s.admissionOpen && s.publication == Idle && s.criticalReason.None?
    && (forall i :: 0 <= i < GAUGES ==> s.gauges[i] == 0) && s.counters[UNCERTAIN] == 0
    && s.oldestAge.None?
    && s.counters[ACCEPTED] == s.counters[DURABLE] == s.counters[SAMPLED]
  }

  function Keys(samples: seq<Sample>): (r: seq<WorkerKey>)
    ensures |r| == |samples| && forall w :: 0 <= w < |samples| ==> r[w] == samples[w].snapshot.worker
  {
    seq(|samples|, w requires 0 <= w < |samples| => samples[w].snapshot.worker)
  }

  predicate SampleOk(round: Round, s: Sample, isLast: bool) {
    && s.roundIndex == round.index && s.roundKind == round.kind && s.roundKind != "" && s.scheduled == round.scheduled
    && round.scheduled <= s.requestStarted <= s.requestCompleted
    && s.snapshot.Valid()
    && if isLast then FinalBarrier(s.snapshot) else s.snapshot.lifecycle != Closed
  }

  predicate Follows(previous: Sample, current: Sample) {
    && previous.requestStarted < current.requestStarted
    && previous.snapshot.worker == current.snapshot.worker
    && previous.snapshot.config == current.snapshot.config
    && Progresses(previous.snapshot, current.snapshot)
  }

  predicate RoundShape(round: Round, k: nat, isLast: bool) {
    && round.index == k
    && (isLast <==> round.kind == FINAL)
    && round.expected == Workers()
    && Keys(round.samples) == Workers()
  }

  function Start(samples: seq<Sample>): nat
    requires samples != []
  {
    var last := samples[|samples| - 1].requestStarted;
    if |samples| == 1 then last else Min(Start(samples[..|samples| - 1]), last)
  }

  function End(samples: seq<Sample>): nat
    requires samples != []
  {
    var last := samples[|samples| - 1].requestCompleted;
    if |samples| == 1 then last else Max(End(samples[..|samples| - 1]), last)
  }

  /** The rounds may have any content that passes every check against its own and the previous round. */
  ghost predicate RoundAccepted(rounds: seq<Round>, k: nat, nonoverlap: bool)
    requires k < |rounds|
  {
    && RoundShape(rounds[k], k, k == |rounds| - 1)
    && (forall w :: 0 <= w < WORKER_COUNT ==> SampleOk(rounds[k], rounds[k].samples[w], k == |rounds| - 1))
    && (0 < k ==> RoundShape(rounds[k - 1], k - 1, false) && NextRound(rounds[k - 1], rounds[k], nonoverlap))
  }

  ghost predicate NextRound(previous: Round, round: Round, nonoverlap: bool)
    requires Keys(previous.samples) == Workers() && Keys(round.samples) == Workers()
  {
    && previous.scheduled < round.scheduled
    && (forall w :: 0 <= w < WORKER_COUNT ==> Follows(previous.samples[w], round.samples[w]))
    && (nonoverlap ==> End(previous.samples) <= Start(round.samples))
  }

  ghost predicate Accepted(rounds: seq<Round>, nonoverlap: bool) {
    rounds != [] && forall k :: 0 <= k < |rounds| ==> RoundAccepted(rounds, k, nonoverlap)
  }

  /** The samples of one worker, round by round. */
  function SequenceOf(rounds: seq<Round>, w: nat): seq<Sample> {
    if rounds == [] then []
    else
      SequenceOf(rounds[..|rounds| - 1], w)
      + (if w < |rounds[|rounds| - 1].samples| then [rounds[|rounds| - 1].samples[w]] else [])
  }

  lemma SequenceSnoc(rounds: seq<Round>, k: nat, w: nat)
    requires k < |rounds| && w < |rounds[k].samples|
    ensures SequenceOf(rounds[..k + 1], w) == SequenceOf(rounds[..k], w) + [rounds[k].samples[w]]
  {
    assert rounds[..k + 1][..k] == rounds[..k];
  }

  // ----- The validator ------------------------------------------------------------------------------

  /** What the loop carries from one round to the next. */
  datatype Previous = Previous(scheduled: nat, intervalEnd: nat)

  ghost predicate SamplesPass(rounds: seq<Round>, k: nat)
    requires k < |rounds| && Keys(rounds[k].samples) == Workers()
    requires 0 < k ==> Keys(rounds[k - 1].samples) == Workers()
  {
    && (forall w :: 0 <= w < WORKER_COUNT ==> SampleOk(rounds[k], rounds[k].samples[w], k == |rounds| - 1))
    && (0 < k ==> forall w :: 0 <= w < WORKER_COUNT ==> Follows(rounds[k - 1].samples[w], rounds[k].samples[w]))
  }

  /** The order in which the loop checks a round is immaterial. */
  lemma RoundFromParts(rounds: seq<Round>, k: nat, nonoverlap: bool)
    requires k < |rounds|
    requires 0 < k ==> RoundShape(rounds[k - 1], k - 1, false)
    ensures RoundAccepted(rounds, k, nonoverlap) <==>
              && RoundShape(rounds[k], k, k == |rounds| - 1)
              && (0 < k ==> rounds[k - 1].scheduled < rounds[k].scheduled)
              && SamplesPass(rounds, k)
              && (nonoverlap && 0 < k ==> End(rounds[k - 1].samples) <= Start(rounds[k].samples))
  {
    hide SampleOk, Follows, Start, End;
  }

  lemma IntervalSnoc(samples: seq<Sample>, w: nat)
    requires w < |samples|
    ensures Start(samples[..w + 1]) == if w == 0 then samples[0].requestStarted else Min(Start(samples[..w]), samples[w].requestStarted)
    ensures End(samples[..w + 1]) == if w == 0 then samples[0].requestCompleted else Max(End(samples[..w]), samples[w].requestCompleted)
  {
    assert samples[..w + 1][..w] == samples[..w];
  }

  /** The samples of one round: each is checked, compared with its worker's previous sample and appended
      to the worker's sequence, while the interval of the requests is measured. */
  method ValidateSamples(rounds: seq<Round>, k: nat, sequences: seq<seq<Sample>>)
    returns (ok: bool, after: seq<seq<Sample>>, intervalStart: nat, intervalEnd: nat)
    requires k < |rounds| && Keys(rounds[k].samples) == Workers()
    requires 0 < k ==> Keys(rounds[k - 1].samples) == Workers()
    requires |sequences| == WORKER_COUNT
    requires forall w :: 0 <= w < WORKER_COUNT ==> sequences[w] == SequenceOf(rounds[..k], w)
    ensures ok <==> SamplesPass(rounds, k)
    ensures ok ==>
      && |after| == WORKER_COUNT
      && (forall w :: 0 <= w < WORKER_COUNT ==> after[w] == SequenceOf(rounds[..k + 1], w))
      && intervalStart == Start(rounds[k].samples) && intervalEnd == End(rounds[k].samples)
  {
    hide Workers, SampleOk, Follows, SequenceOf, Start, End;
    var round := rounds[k];
    var isLast := k == |rounds| - 1;
    after, intervalStart, intervalEnd := sequences, 0, 0;
    var w := 0;
    while w < WORKER_COUNT
      invariant 0 <= w <= WORKER_COUNT && |after| == WORKER_COUNT
      invariant forall v :: 0 <= v < w ==> SampleOk(round, round.samples[v], isLast)
      invariant 0 < k ==> forall v :: 0 <= v < w ==> Follows(rounds[k - 1].samples[v], round.samples[v])
      invariant forall v :: 0 <= v < w ==> after[v] == SequenceOf(rounds[..k + 1], v)
      invariant forall v :: w <= v < WORKER_COUNT ==> after[v] == SequenceOf(rounds[..k], v)
      invariant 0 < w ==> intervalStart == Start(round.samples[..w]) && intervalEnd == End(round.samples[..w])
    {
      var sample := round.samples[w];
      if !SampleOk(round, sample, isLast) {
        ok := false;
        return;
      }
      LastOfSequence(rounds, k, w);
      if |after[w]| > 0 {
        var prior := after[w][|after[w]| - 1];
        if !Follows(prior, sample) {
          ok := false;
          return;
        }
      }
      SequenceSnoc(rounds, k, w);
      after := after[w := after[w] + [sample]];
      IntervalSnoc(round.samples, w);
      intervalStart := if w == 0 then sample.requestStarted else Min(intervalStart, sample.requestStarted);
      intervalEnd := if w == 0 then sample.requestCompleted else Max(intervalEnd, sample.requestCompleted);
      w := w + 1;
    }
    assert round.samples[..WORKER_COUNT] == round.samples;
    ok := true;
  }

  /** A worker's last sample so far is the one of the previous round. */
  lemma LastOfSequence(rounds: seq<Round>, k: nat, w: nat)
    requires k < |rounds| && w < WORKER_COUNT
    requires 0 < k ==> Keys(rounds[k - 1].samples) == Workers()
    ensures k == 0 ==> SequenceOf(rounds[..k], w) == []
    ensures 0 < k ==> var s := SequenceOf(rounds[..k], w); 0 < |s| && s[|s| - 1] == rounds[k - 1].samples[w]
  {
    if 0 < k { SequenceSnoc(rounds, k - 1, w); }
  }

  /** What the loop carries into round k. */
  ghost predicate Carries(rounds: seq<Round>, k: nat, sequences: seq<seq<Sample>>, previous: Option<Previous>)
    requires k <= |rounds|
  {
    && |sequences| == WORKER_COUNT
    && (forall w :: 0 <= w < WORKER_COUNT ==> sequences[w] == SequenceOf(rounds[..k], w))
    && (previous.Some? <==> 0 < k)
    && (0 < k ==>
         && RoundShape(rounds[k - 1], k - 1, k == |rounds|)
         && previous == Some(Previous(rounds[k - 1].scheduled, End(rounds[k - 1].samples))))
  }

  /** One pass of the loop. */
  method ValidateRound(rounds: seq<Round>, k: nat, nonoverlap: bool, sequences: seq<seq<Sample>>, previous: Option<Previous>)
    returns (ok: bool, after: seq<seq<Sample>>, next: Option<Previous>)
    requires k < |rounds| && Carries(rounds, k, sequences, previous)
    ensures ok <==> RoundAccepted(rounds, k, nonoverlap)
    ensures ok ==> Carries(rounds, k + 1, after, next)
  {
    hide Workers, SamplesPass, RoundAccepted, SequenceOf, Start, End;
    RoundFromParts(rounds, k, nonoverlap);
    var round := rounds[k];
    after, next := sequences, previous;
    if !RoundShape(round, k, k == |rounds| - 1) || (previous.Some? && round.scheduled <= previous.value.scheduled) {
      ok := false;
      return;
    }
    var intervalStart, intervalEnd;
    ok, after, intervalStart, intervalEnd := ValidateSamples(rounds, k, sequences);
    if !ok || (nonoverlap && previous.Some? && intervalStart < previous.value.intervalEnd) {
      ok := false;
      return;
    }
    next := Some(Previous(round.scheduled, intervalEnd));
  }

  /** Accepts the rounds exactly when every round passes every check, and returns each worker's samples. */
  method ValidateWorkerRounds(rounds: seq<Round>, expected: seq<WorkerKey>, nonoverlap: bool)
    returns (r: Option<seq<seq<Sample>>>)
    ensures r.Some? <==> expected == Workers() && Accepted(rounds, nonoverlap)
    ensures r.Some? ==> |r.value| == WORKER_COUNT && forall w :: 0 <= w < WORKER_COUNT ==> r.value[w] == SequenceOf(rounds, w)
  {
    hide Workers, RoundAccepted;
    if expected != Workers() || rounds == [] {
      return None;
    }
    var sequences: seq<seq<Sample>> := seq(WORKER_COUNT, _ => []);
    var previous: Option<Previous> := None;
    var k := 0;
    while k < |rounds|
      invariant 0 <= k <= |rounds|
      invariant Carries(rounds, k, sequences, previous)
      invariant forall i :: 0 <= i < k ==> RoundAccepted(rounds, i, nonoverlap)
    {
      hide Carries;
      var ok;
      ok, sequences, previous := ValidateRound(rounds, k, nonoverlap, sequences, previous);
      if !ok {
        return None;
      }
      k := k + 1;
    }
    assert rounds[..k] == rounds;
    r := Some(sequences);
  }

  // ----- What acceptance implies about the whole run --------------------------------------------------

  /** A worker's snapshot in a round of an accepted run. */
  function SnapshotAt(rounds: seq<Round>, k: nat, w: nat): Snapshot
    requires k < |rounds| && w < |rounds[k].samples|
  {
    rounds[k].samples[w].snapshot
  }

  lemma AcceptedShape(rounds: seq<Round>, nonoverlap: bool, k: nat)
    requires Accepted(rounds, nonoverlap) && k < |rounds|
    ensures |rounds[k].samples| == WORKER_COUNT
    ensures forall w :: 0 <= w < WORKER_COUNT ==> SampleOk(rounds[k], rounds[k].samples[w], k == |rounds| - 1)
  {
    assert RoundAccepted(rounds, k, nonoverlap);
  }

  /** Between any two rounds, not only neighbours, a worker keeps its identity and configuration, its
      counters, series, buckets and maxima do not decrease, and equal observation times mean identical
      snapshots. */
  lemma {:induction false} AnyTwoRounds(rounds: seq<Round>, nonoverlap: bool, i: nat, j: nat, w: nat)
    requires Accepted(rounds, nonoverlap) && i < j < |rounds| && w < WORKER_COUNT
    ensures |rounds[i].samples| == |rounds[j].samples| == WORKER_COUNT
    ensures rounds[i].scheduled < rounds[j].scheduled
    ensures rounds[i].samples[w].requestStarted < rounds[j].samples[w].requestStarted
    ensures SnapshotAt(rounds, i, w).worker == SnapshotAt(rounds, j, w).worker
    ensures SnapshotAt(rounds, i, w).config == SnapshotAt(rounds, j, w).config
    ensures Advances(SnapshotAt(rounds, i, w), SnapshotAt(rounds, j, w))
    decreases j
  {
    hide SampleOk, Start, End, Workers, SeriesMap;
    assert RoundAccepted(rounds, j, nonoverlap);
    AcceptedShape(rounds, nonoverlap, j - 1);
    assert Follows(rounds[j - 1].samples[w], rounds[j].samples[w]);
    hide Accepted, RoundAccepted, Progresses, Advances;
    ProgressAdvances(SnapshotAt(rounds, j - 1, w), SnapshotAt(rounds, j, w));
    if i < j - 1 {
      AnyTwoRounds(rounds, nonoverlap, i, j - 1, w);
      AdvancesTransitive(SnapshotAt(rounds, i, w), SnapshotAt(rounds, j - 1, w), SnapshotAt(rounds, j, w));
    }
  }

  /** The same for each figure: no counter, bucket or maximum of a worker falls, and every series goes on with no
      fewer samples. */
  lemma NothingFalls(rounds: seq<Round>, nonoverlap: bool, i: nat, j: nat, w: nat)
    requires Accepted(rounds, nonoverlap) && i < j < |rounds| && w < WORKER_COUNT
    ensures |rounds[i].samples| == |rounds[j].samples| == WORKER_COUNT
    ensures var s, t := SnapshotAt(rounds, i, w), SnapshotAt(rounds, j, w);
            && |s.counters| == |t.counters| == COUNTERS && (forall c :: 0 <= c < COUNTERS ==> s.counters[c] <= t.counters[c])
            && |s.lag.counts| == |t.lag.counts| && (forall b :: 0 <= b < |s.lag.counts| ==> s.lag.counts[b] <= t.lag.counts[b])
            && (s.lag.max.Some? ==> t.lag.max.Some? && s.lag.max.value <= t.lag.max.value)
            && s.syncMax <= t.syncMax
            && s.observed <= t.observed && (s.observed == t.observed ==> s == t)
    ensures var s, t := SnapshotAt(rounds, i, w), SnapshotAt(rounds, j, w);
            forall x :: x in s.series ==> exists y :: y in t.series && GoesOn(x, y)
  {
    hide SampleOk, Advances, SeriesMap, Snapshot.Valid, Accepted, AllSeriesKept;
    AnyTwoRounds(rounds, nonoverlap, i, j, w);
    AcceptedShape(rounds, nonoverlap, i);
    AcceptedShape(rounds, nonoverlap, j);
    SampleFacts(rounds[i], rounds[i].samples[w], i == |rounds| - 1);
    SampleFacts(rounds[j], rounds[j].samples[w], j == |rounds| - 1);
    AdvanceMeans(SnapshotAt(rounds, i, w), SnapshotAt(rounds, j, w));
    SeriesGoOn(SnapshotAt(rounds, i, w), SnapshotAt(rounds, j, w));
  }

  /** The later entry is of the same series and counts at least as much, in all, in every bucket and at its maximum. */
  ghost predicate GoesOn(x: Series, y: Series) {
    && y.key == x.key && x.lag.samples <= y.lag.samples && |x.lag.counts| == |y.lag.counts|
    && (forall b :: 0 <= b < |x.lag.counts| ==> x.lag.counts[b] <= y.lag.counts[b])
    && (x.lag.max.Some? ==> y.lag.max.Some? && x.lag.max.value <= y.lag.max.value)
  }

  lemma AdvanceMeans(s: Snapshot, t: Snapshot)
    requires Advances(s, t) && s.Valid() && t.Valid()
    ensures |s.counters| == |t.counters| == COUNTERS && (forall c :: 0 <= c < COUNTERS ==> s.counters[c] <= t.counters[c])
    ensures |s.lag.counts| == |t.lag.counts| && (forall b :: 0 <= b < |s.lag.counts| ==> s.lag.counts[b] <= t.lag.counts[b])
    ensures s.lag.max.Some? ==> t.lag.max.Some? && s.lag.max.value <= t.lag.max.value
    ensures s.syncMax <= t.syncMax && s.observed <= t.observed && (s.observed == t.observed ==> s == t)
    ensures AllSeriesKept(SeriesMap(s.series), SeriesMap(t.series))
  {
    hide Summary.Valid, SeriesMap, AllSeriesKept;
  }

  lemma SeriesGoOn(s: Snapshot, t: Snapshot)
    requires s.Valid() && t.Valid() && AllSeriesKept(SeriesMap(s.series), SeriesMap(t.series))
    ensures forall x :: x in s.series ==> exists y :: y in t.series && GoesOn(x, y)
  {
    KeysDiffer(s);
    KeysDiffer(t);
    hide Snapshot.Valid, SeriesMap, AllSeriesKept, DistinctSeries, GoesOn;
    forall x | x in s.series ensures exists y :: y in t.series && GoesOn(x, y) {
      var i :| 0 <= i < |s.series| && s.series[i] == x;
      var j := EntryGoesOn(s.series, t.series, i);
      assert t.series[j] in t.series;
    }
  }

  lemma EntryGoesOn(earlier: seq<Series>, later: seq<Series>, i: nat) returns (j: nat)
    requires DistinctSeries(earlier) && DistinctSeries(later) && AllSeriesKept(SeriesMap(earlier), SeriesMap(later))
    requires i < |earlier|
    ensures j < |later| && GoesOn(earlier[i], later[j])
  {
    hide DistinctSeries;
    SeriesMapHolds(earlier);
    SeriesMapHolds(later);
    hide SeriesMap;
    var key := earlier[i].key;
    assert key in SeriesMap(later);
    j :| 0 <= j < |later| && later[j].key == key;
    assert SeriesKept(SeriesMap(earlier)[key], SeriesMap(later)[key]);
  }

  ghost predicate DistinctSeries(series: seq<Series>) {
    forall i, j :: 0 <= i < j < |series| ==> series[i].key != series[j].key
  }

  lemma {:induction false} NotBeforeItself(a: string)
    ensures !TextBefore(a, a)
  {
    if a != "" { NotBeforeItself(a[1..]); }
  }

  lemma KeysDiffer(s: Snapshot)
    requires s.Valid()
    ensures DistinctSeries(s.series)
  {
    hide Summary.Valid;
    forall i, j | 0 <= i < j < |s.series| ensures s.series[i].key != s.series[j].key {
      var k := s.series[i].key;
      NotBeforeItself(ExchangeText(k.exchange));
      NotBeforeItself(MarketField(k.market));
      NotBeforeItself(k.logicalStream);
      assert KeyBefore(s.series[i].key, s.series[j].key);
    }
  }

  /** The map of a series list holds each entry under its key, and nothing else. */
  lemma {:induction false} SeriesMapHolds(series: seq<Series>)
    requires DistinctSeries(series)
    ensures forall i :: 0 <= i < |series| ==> series[i].key in SeriesMap(series) && SeriesMap(series)[series[i].key] == series[i].lag
    ensures forall k :: k in SeriesMap(series) ==> exists i :: 0 <= i < |series| && series[i].key == k
  {
    if series != [] {
      var n := |series| - 1;
      SeriesMapHolds(series[..n]);
      forall k | k in SeriesMap(series) ensures exists i :: 0 <= i < |series| && series[i].key == k {
        if k != series[n].key {
          var i :| 0 <= i < n && series[..n][i].key == k;
          assert series[i].key == k;
        }
      }
    }
  }

  /** A valid snapshot loses no record: what was accepted is durable, queued, buffered, in flight or uncertain, what
      is durable has been sampled, as often as its series say, and the next ordinal follows the accepted records. */
  lemma SnapshotConserves(s: Snapshot)
    requires s.Valid()
    ensures |s.counters| == 14 && |s.gauges| == 14
    ensures s.counters[0] == s.counters[1] + (s.gauges[1] + s.gauges[3] + s.gauges[5]) + s.counters[2]
    ensures s.gauges[7] == s.gauges[2] + s.gauges[4] + s.gauges[6]
    ensures s.counters[1] == s.counters[7] == s.lag.samples == TotalOf(Samples(LagsOf(s.series)))
    ensures s.ordinalHighWater == if s.counters[0] == 0 then None else Some(s.counters[0] - 1)
  {
    hide Summary.Valid, KeyBefore, TotalOf, Merged, MaxOf;
  }

  /** The states of a valid snapshot: admission is open while accepting and shut in every other state but rotation, a
      reason goes with a critical state, a closed worker is idle and empty, and counts and bytes vanish together. */
  lemma SnapshotStates(s: Snapshot)
    requires s.Valid()
    ensures |s.counters| == 14 && |s.gauges| == 14 && s.config.histogramSchema == 1
    ensures s.lifecycle == Accepting ==> s.admissionOpen
    ensures s.lifecycle in {Starting, Critical, Closing, Closed} ==> !s.admissionOpen
    ensures s.criticalReason.Some? <==> s.lifecycle == Critical
    ensures s.lifecycle == Closed ==> s.publication == Idle && s.counters[2] == 0 && forall g :: 0 <= g < 14 ==> s.gauges[g] == 0
    ensures s.oldestAge.Some? <==> 0 < s.gauges[0]
    ensures (0 < s.gauges[1] <==> 0 < s.gauges[2]) && (0 < s.gauges[3] <==> 0 < s.gauges[4])
    ensures (0 < s.gauges[5] <==> 0 < s.gauges[6]) && (0 < s.gauges[8] <==> 0 < s.gauges[9])
    ensures s.gauges[8] <= s.gauges[0] && s.gauges[9] <= s.gauges[7]
    ensures forall i :: 0 <= i < |s.series| ==>
              s.series[i].lag.Valid() && s.series[i].key.exchange == s.worker.exchange && s.series[i].key.logicalStream != ""
    ensures forall i, j :: 0 <= i < j < |s.series| ==> s.series[i].key != s.series[j].key
  {
    KeysDiffer(s);
    hide KeyBefore, TotalOf, Merged, MaxOf, Summary.Valid;
  }

  /** The series of a valid snapshot add up to its histogram: bucket by bucket, and its maximum is the greatest. */
  lemma SeriesAddUp(s: Snapshot, b: nat)
    requires s.Valid() && b < BUCKETS
    ensures forall i :: 0 <= i < |s.series| ==> |s.series[i].lag.counts| == BUCKETS
    ensures |s.lag.counts| == BUCKETS && s.lag.counts[b] == SeriesSum(s.series, b)
    ensures forall i :: 0 <= i < |s.series| && s.series[i].lag.max.Some? ==>
              s.lag.max.Some? && s.series[i].lag.max.value <= s.lag.max.value
    ensures s.lag.max.Some? ==> exists i :: 0 <= i < |s.series| && s.series[i].lag.max == s.lag.max
  {
    hide KeyBefore, TotalOf, Summary.MaximumFits, NearestRankOf;
    SeriesColumn(s.series, b);
    hide Column, SeriesSum;
    var maxima := Maxima(LagsOf(s.series));
    forall i | 0 <= i < |s.series| && s.series[i].lag.max.Some?
      ensures s.lag.max.Some? && s.series[i].lag.max.value <= s.lag.max.value
    {
      MaxOfBounds(maxima, i);
    }
    if s.lag.max.Some? {
      var i := MaxOfIsReached(maxima);
      assert s.series[i].lag.max == s.lag.max;
    }
  }

  /** One bucket added over the series. */
  function SeriesSum(series: seq<Series>, b: nat): nat
    requires b < BUCKETS && forall i :: 0 <= i < |series| ==> |series[i].lag.counts| == BUCKETS
  {
    if series == [] then 0 else SeriesSum(series[..|series| - 1], b) + series[|series| - 1].lag.counts[b]
  }

  lemma {:induction false} SeriesColumn(series: seq<Series>, b: nat)
    requires b < BUCKETS && forall i :: 0 <= i < |series| ==> |series[i].lag.counts| == BUCKETS
    ensures Column(Counts(LagsOf(series)), b) == SeriesSum(series, b)
  {
    if series != [] {
      var init := series[..|series| - 1];
      SeriesColumn(init, b);
      assert Counts(LagsOf(series))[..|series| - 1] == Counts(LagsOf(init));
    }
  }

  /** How an accepted run ends: every worker is closed, idle and empty, and all its records are durable. */
  lemma EndsDrained(rounds: seq<Round>, nonoverlap: bool, w: nat)
    requires Accepted(rounds, nonoverlap) && w < WORKER_COUNT
    ensures |rounds[|rounds| - 1].samples| == WORKER_COUNT && rounds[|rounds| - 1].kind == "final"
    ensures var s := SnapshotAt(rounds, |rounds| - 1, w);
            && s.lifecycle == Closed && !s.admissionOpen && s.publication == Idle && s.criticalReason.None? && s.oldestAge.None?
            && |s.gauges| == 14 && (forall g :: 0 <= g < 14 ==> s.gauges[g] == 0)
            && |s.counters| == 14 && s.counters[0] == s.counters[1] == s.counters[7] && s.counters[2] == 0
  {
    var last := |rounds| - 1;
    AcceptedShape(rounds, nonoverlap, last);
    assert RoundAccepted(rounds, last, nonoverlap);
    hide Snapshot.ValidState, Snapshot.ValidCounts, Snapshot.ValidStages, Snapshot.ValidSeries, Workers;
  }

  /** The samples of an accepted run: each round has its place, only the last is final, and every sample repeats its
      round's facts and is requested after its round is due and after the worker's sample before. */
  lemma SamplesInPlace(rounds: seq<Round>, nonoverlap: bool, k: nat, w: nat)
    requires Accepted(rounds, nonoverlap) && k < |rounds| && w < WORKER_COUNT
    ensures rounds[k].index == k && (rounds[k].kind == "final" <==> k == |rounds| - 1)
    ensures |rounds[k].samples| == |rounds[k].expected| == 5
    ensures rounds[k].expected[w].exchange == [Binance, Okx, Bybit, Bitget, Kraken][w]
    ensures var s := rounds[k].samples[w];
            && s.roundIndex == k && s.roundKind == rounds[k].kind && s.roundKind != "" && s.scheduled == rounds[k].scheduled
            && rounds[k].scheduled <= s.requestStarted <= s.requestCompleted
            && s.snapshot.worker.exchange == [Binance, Okx, Bybit, Bitget, Kraken][w]
  {
    assert RoundAccepted(rounds, k, nonoverlap);
    assert Keys(rounds[k].samples)[w] == Workers()[w];
    hide Snapshot.Valid, FinalBarrier;
  }

  /** Nothing is wrong with the snapshot, and what its worker had accepted is durable in the last one. */
  ghost predicate Clean(s: Snapshot, last: Snapshot) {
    && |s.counters| == |last.counters| == COUNTERS
    && s.lifecycle != Critical && s.criticalReason.None?
    && s.counters[UNCERTAIN] == 0
    && s.counters[ACCEPTED] <= last.counters[DURABLE]
  }

  /** A final snapshot leaves no room for a critical or uncertain predecessor. */
  lemma CleanBeforeFinal(s: Snapshot, last: Snapshot)
    requires s.Valid() && last.Valid() && FinalBarrier(last) && (s == last || Advances(s, last))
    ensures Clean(s, last)
  {
  }

  lemma SampleFacts(round: Round, s: Sample, isLast: bool)
    requires SampleOk(round, s, isLast)
    ensures s.snapshot.Valid() && (isLast ==> FinalBarrier(s.snapshot))
    ensures s.snapshot.lifecycle == Closed <==> isLast
  {
  }

  /** In an accepted run no worker is critical in any round, none is closed before the last, the uncertain
      count is zero in every round, and everything a worker had accepted by any round is durable at the end. */
  lemma AcceptedRunIsClean(rounds: seq<Round>, nonoverlap: bool, k: nat, w: nat)
    requires Accepted(rounds, nonoverlap) && k < |rounds| && w < WORKER_COUNT
    ensures |rounds[k].samples| == |rounds[|rounds| - 1].samples| == WORKER_COUNT
    ensures SnapshotAt(rounds, k, w).lifecycle == Closed <==> k == |rounds| - 1
    ensures Clean(SnapshotAt(rounds, k, w), SnapshotAt(rounds, |rounds| - 1, w))
  {
    hide Progresses, Advances, SampleOk, FinalBarrier, Snapshot.Valid, Clean;
    var last := |rounds| - 1;
    AcceptedShape(rounds, nonoverlap, k);
    AcceptedShape(rounds, nonoverlap, last);
    hide Accepted;
    SampleFacts(rounds[k], rounds[k].samples[w], k == last);
    SampleFacts(rounds[last], rounds[last].samples[w], true);
    if k < last { AnyTwoRounds(rounds, nonoverlap, k, last, w); }
    CleanBeforeFinal(SnapshotAt(rounds, k, w), SnapshotAt(rounds, last, w));
  }

  lemma {:induction false} IntervalOrdered(samples: seq<Sample>)
    requires samples != [] && forall w :: 0 <= w < |samples| ==> samples[w].requestStarted <= samples[w].requestCompleted
    ensures Start(samples) <= End(samples)
  {
    if |samples| > 1 { IntervalOrdered(samples[..|samples| - 1]); }
  }

  lemma NeighboursInOrder(rounds: seq<Round>, j: nat)
    requires Accepted(rounds, true) && 0 < j < |rounds|
    ensures rounds[j - 1].samples != [] && rounds[j].samples != []
    ensures Start(rounds[j - 1].samples) <= End(rounds[j - 1].samples) <= Start(rounds[j].samples)
  {
    hide Start, End, Workers, Follows;
    assert RoundAccepted(rounds, j, true);
    AcceptedShape(rounds, true, j - 1);
    IntervalOrdered(rounds[j - 1].samples);
  }

  /** Without overlap, every request of a round ends before any request of any later round starts. */
  lemma {:induction false} RoundsDoNotOverlap(rounds: seq<Round>, i: nat, j: nat)
    requires Accepted(rounds, true) && i < j < |rounds|
    ensures rounds[i].samples != [] && rounds[j].samples != []
    ensures End(rounds[i].samples) <= Start(rounds[j].samples)
    decreases j
  {
    hide SampleOk, Follows, Start, End, Workers;
    NeighboursInOrder(rounds, j);
    if i < j - 1 {
      RoundsDoNotOverlap(rounds, i, j - 1);
    }
  }

  lemma {:induction false} IntervalHolds(samples: seq<Sample>, w: nat)
    requires w < |samples|
    ensures Start(samples) <= samples[w].requestStarted && samples[w].requestCompleted <= End(samples)
  {
    if w < |samples| - 1 { IntervalHolds(samples[..|samples| - 1], w); }
  }

  /** The same request by request. */
  lemma RequestsDoNotOverlap(rounds: seq<Round>, i: nat, j: nat, v: nat, w: nat)
    requires Accepted(rounds, true) && i < j < |rounds| && v < |rounds[i].samples| && w < |rounds[j].samples|
    ensures rounds[i].samples[v].requestCompleted <= rounds[j].samples[w].requestStarted
  {
    RoundsDoNotOverlap(rounds, i, j);
    IntervalHolds(rounds[i].samples, v);
    IntervalHolds(rounds[j].samples, w);
  }

  // ----- The final aggregate ------------------------------------------------------------------------------

  /** The parts of the final aggregate that its contract relates. */
  datatype Aggregate = Aggregate(
    roundCount: nat, finalRoundIndex: nat, counters: seq<nat>, unpersisted: nat, lag: Summary, syncMax: nat,
    peaks: seq<nat>, oldestAgeMax: Option<nat>)
  {
    predicate Valid() {
      && |counters| == COUNTERS && |peaks| == GAUGES
      && finalRoundIndex == roundCount - 1
      && counters[ACCEPTED] == counters[DURABLE] == lag.samples
      && unpersisted == 0 && counters[UNCERTAIN] == 0
      && lag.Valid()
      && (peaks[UNPERSISTED] == 0 <==> oldestAgeMax.None?)
    }
  }

  /** Which aggregates are consistent: the last round ends them, everything accepted is durable and sampled, nothing is
      unpersisted or uncertain, and an age goes with a peak of unpersisted records. */
  lemma ConsistentAggregates(a: Aggregate)
    ensures a.Valid() <==>
      && |a.counters| == 14 && |a.peaks| == 14 && a.lag.Valid() && a.roundCount == a.finalRoundIndex + 1
      && a.counters[0] == a.counters[1] && a.counters[1] == TotalOf(a.lag.counts) && a.unpersisted + a.counters[2] == 0
      && (0 < a.peaks[0] <==> a.oldestAgeMax.Some?)
  {
    hide TotalOf, NearestRankOf, Summary.MaximumFits;
  }

  predicate AllValid(samples: seq<Sample>) {
    forall w :: 0 <= w < |samples| ==> samples[w].snapshot.Valid()
  }

  /** One counter summed over the workers of a round. */
  function CounterSum(samples: seq<Sample>, field: nat): nat
    requires field < COUNTERS && AllValid(samples)
  {
    if samples == [] then 0
    else CounterSum(samples[..|samples| - 1], field) + samples[|samples| - 1].snapshot.counters[field]
  }

  /** One gauge summed over the workers of a round. */
  function GaugeSum(samples: seq<Sample>, field: nat): nat
    requires field < GAUGES && AllValid(samples)
  {
    if samples == [] then 0
    else GaugeSum(samples[..|samples| - 1], field) + samples[|samples| - 1].snapshot.gauges[field]
  }

  predicate AllRoundsValid(rounds: seq<Round>) {
    forall k :: 0 <= k < |rounds| ==> AllValid(rounds[k].samples)
  }

  /** The largest sum of a gauge in any round. */
  function Peak(rounds: seq<Round>, field: nat): nat
    requires field < GAUGES && AllRoundsValid(rounds)
  {
    if rounds == [] then 0
    else Max(Peak(rounds[..|rounds| - 1], field), GaugeSum(rounds[|rounds| - 1].samples, field))
  }

  function Ages(samples: seq<Sample>): (r: seq<Option<nat>>)
    ensures |r| == |samples| && forall w :: 0 <= w < |samples| ==> r[w] == samples[w].snapshot.oldestAge
  {
    seq(|samples|, w requires 0 <= w < |samples| => samples[w].snapshot.oldestAge)
  }

  /** The oldest age over all rounds and workers. */
  function OldestAge(rounds: seq<Round>): Option<nat> {
    if rounds == [] then None
    else MaxOf([OldestAge(rounds[..|rounds| - 1]), MaxOf(Ages(rounds[|rounds| - 1].samples))])
  }

  function SyncMax(samples: seq<Sample>): nat {
    if samples == [] then 0 else Max(SyncMax(samples[..|samples| - 1]), samples[|samples| - 1].snapshot.syncMax)
  }

  function Lags(samples: seq<Sample>): (r: seq<Summary>)
    ensures |r| == |samples| && forall w :: 0 <= w < |samples| ==> r[w] == samples[w].snapshot.lag
  {
    seq(|samples|, w requires 0 <= w < |samples| => samples[w].snapshot.lag)
  }

  /** The merged histogram with its recomputed quantiles. */
  function MergedLag(samples: seq<Sample>): Summary
    requires AllValid(samples)
  {
    var parts := Counts(Lags(samples));
    var counts := Merged(parts);
    Summary(counts, CounterSum(samples, SAMPLED), NearestRankOf(counts, 50), NearestRankOf(counts, 95), NearestRankOf(counts, 99),
            MaxOf(Maxima(Lags(samples))))
  }

  function AggregateFinal(rounds: seq<Round>): Aggregate
    requires rounds != [] && AllRoundsValid(rounds)
  {
    var last := rounds[|rounds| - 1].samples;
    Aggregate(
      |rounds|, rounds[|rounds| - 1].index,
      seq(COUNTERS, i requires 0 <= i < COUNTERS => CounterSum(last, i)),
      GaugeSum(last, UNPERSISTED), MergedLag(last), SyncMax(last),
      seq(GAUGES, i requires 0 <= i < GAUGES => Peak(rounds, i)), OldestAge(rounds))
  }

  lemma {:induction false} CounterSums(samples: seq<Sample>)
    requires AllValid(samples)
    requires forall w :: 0 <= w < |samples| ==> FinalBarrier(samples[w].snapshot)
    ensures CounterSum(samples, ACCEPTED) == CounterSum(samples, DURABLE) == CounterSum(samples, SAMPLED)
    ensures CounterSum(samples, UNCERTAIN) == 0 && GaugeSum(samples, UNPERSISTED) == 0
  {
    if samples != [] { CounterSums(samples[..|samples| - 1]); }
  }

  lemma SnapshotFacts(s: Snapshot)
    requires s.Valid()
    ensures |s.counters| == COUNTERS && |s.gauges| == GAUGES
    ensures s.lag.Valid() && s.lag.samples == s.counters[SAMPLED]
    ensures s.gauges[UNPERSISTED] == 0 <==> s.oldestAge.None?
  {
    hide Summary.Valid, TotalOf, Merged, MaxOf, KeyBefore;
  }

  lemma SampledSnoc(init: seq<Sample>, last: Sample)
    ensures TotalOf(Samples(Lags(init + [last]))) == TotalOf(Samples(Lags(init))) + last.snapshot.lag.samples
  {
    assert Samples(Lags(init + [last])) == Samples(Lags(init)) + [last.snapshot.lag.samples];
    assert Samples(Lags(init + [last]))[..|init|] == Samples(Lags(init));
  }

  lemma {:induction false} SampledIsSum(samples: seq<Sample>)
    requires AllValid(samples)
    ensures CounterSum(samples, SAMPLED) == TotalOf(Samples(Lags(samples)))
  {
    hide Snapshot.Valid;
    if samples == [] {
      assert Samples(Lags(samples)) == [];
    } else {
      hide TotalOf;
      var init, last := samples[..|samples| - 1], samples[|samples| - 1];
      SampledIsSum(init);
      SnapshotFacts(last.snapshot);
      assert samples == init + [last];
      SampledSnoc(init, last);
    }
  }

  /** Nothing is unpersisted in a round exactly when no worker reports an age. */
  lemma {:induction false} RoundAge(samples: seq<Sample>)
    requires AllValid(samples)
    ensures GaugeSum(samples, UNPERSISTED) == 0 <==> MaxOf(Ages(samples)).None?
  {
    if samples != [] {
      var init, last := samples[..|samples| - 1], samples[|samples| - 1];
      RoundAge(init);
      SnapshotFacts(last.snapshot);
      hide Snapshot.Valid;
      assert Ages(samples)[..|samples| - 1] == Ages(init);
    }
  }

  lemma MaxOfTwo(a: Option<nat>, b: Option<nat>)
    ensures MaxOf([a, b]).None? <==> a.None? && b.None?
  {
    var none: seq<Option<nat>> := [];
    assert [a, b][..1] == [a] && [a][..0] == none;
    assert MaxOf([a]) == a;
  }

  lemma {:induction false} PeakAge(rounds: seq<Round>)
    requires AllRoundsValid(rounds)
    ensures Peak(rounds, UNPERSISTED) == 0 <==> OldestAge(rounds).None?
  {
    if rounds != [] {
      var init, last := rounds[..|rounds| - 1], rounds[|rounds| - 1];
      PeakAge(init);
      RoundAge(last.samples);
      MaxOfTwo(OldestAge(init), MaxOf(Ages(last.samples)));
    }
  }

  /** The aggregate of every accepted run satisfies its contract: building it never raises. */
  lemma AggregateIsValid(rounds: seq<Round>, nonoverlap: bool)
    requires Accepted(rounds, nonoverlap)
    ensures AllRoundsValid(rounds) && AggregateFinal(rounds).Valid()
    ensures var a := AggregateFinal(rounds);
            && |a.counters| == 14 && |a.peaks| == 14
            && a.counters[0] == a.counters[1] == a.lag.samples == TotalOf(a.lag.counts) && a.counters[2] == 0 && a.unpersisted == 0
            && a.finalRoundIndex == a.roundCount - 1 && (a.peaks[0] == 0 <==> a.oldestAgeMax.None?)
  {
    forall k | 0 <= k < |rounds| ensures AllValid(rounds[k].samples) {
      AcceptedShape(rounds, nonoverlap, k);
    }
    var last := |rounds| - 1;
    AcceptedShape(rounds, nonoverlap, last);
    assert RoundAccepted(rounds, last, nonoverlap);
    CounterSums(rounds[last].samples);
    PeakAge(rounds);
    FinalLagIsValid(rounds[last].samples);
  }

  lemma FinalLagIsValid(samples: seq<Sample>)
    requires AllValid(samples)
    ensures MergedLag(samples).Valid()
  {
    forall w | 0 <= w < |samples| ensures Lags(samples)[w].Valid() {
      SnapshotFacts(samples[w].snapshot);
    }
    hide Snapshot.Valid;
    SampledIsSum(samples);
    MergedSummaryIsValid(Lags(samples), MergedLag(samples));
  }

  // ----- The aggregate, by the workers' own figures -----------------------------------------------------

  lemma CounterThere(samples: seq<Sample>, k: nat, field: nat)
    requires k < |samples| && field < COUNTERS && AllValid(samples)
    ensures CounterSum(samples[..k + 1], field) == CounterSum(samples[..k], field) + samples[k].snapshot.counters[field]
  {
    hide Snapshot.Valid;
    assert samples[..k + 1][..k] == samples[..k];
  }

  lemma GaugeThere(samples: seq<Sample>, k: nat, field: nat)
    requires k < |samples| && field < GAUGES && AllValid(samples)
    ensures GaugeSum(samples[..k + 1], field) == GaugeSum(samples[..k], field) + samples[k].snapshot.gauges[field]
  {
    hide Snapshot.Valid;
    assert samples[..k + 1][..k] == samples[..k];
  }

  /** One counter of five workers, added up. */
  function CounterOfFive(s: seq<Sample>, field: nat): nat
    requires |s| == 5 && field < COUNTERS && AllValid(s)
  {
    s[0].snapshot.counters[field] + s[1].snapshot.counters[field] + s[2].snapshot.counters[field]
    + s[3].snapshot.counters[field] + s[4].snapshot.counters[field]
  }

  lemma CounterSumOfFive(s: seq<Sample>, field: nat)
    requires |s| == 5 && field < COUNTERS && AllValid(s)
    ensures CounterSum(s, field) == CounterOfFive(s, field)
  {
    hide Snapshot.Valid;
    CounterThere(s, 4, field);
    CounterThere(s, 3, field);
    CounterThere(s, 2, field);
    CounterThere(s, 1, field);
    CounterThere(s, 0, field);
    assert s[..5] == s && s[..0] == [];
  }

  /** One gauge of five workers, added up. */
  function GaugeOfFive(s: seq<Sample>, field: nat): nat
    requires |s| == 5 && field < GAUGES && AllValid(s)
  {
    s[0].snapshot.gauges[field] + s[1].snapshot.gauges[field] + s[2].snapshot.gauges[field]
    + s[3].snapshot.gauges[field] + s[4].snapshot.gauges[field]
  }

  lemma GaugeSumOfFive(s: seq<Sample>, field: nat)
    requires |s| == 5 && field < GAUGES && AllValid(s)
    ensures GaugeSum(s, field) == GaugeOfFive(s, field)
  {
    hide Snapshot.Valid;
    GaugeThere(s, 4, field);
    GaugeThere(s, 3, field);
    GaugeThere(s, 2, field);
    GaugeThere(s, 1, field);
    GaugeThere(s, 0, field);
    assert s[..5] == s && s[..0] == [];
  }

  lemma {:induction false} PeakIsGreatest(rounds: seq<Round>, field: nat)
    requires field < GAUGES && AllRoundsValid(rounds) && rounds != []
    ensures forall k :: 0 <= k < |rounds| ==> GaugeSum(rounds[k].samples, field) <= Peak(rounds, field)
    ensures exists k :: 0 <= k < |rounds| && GaugeSum(rounds[k].samples, field) == Peak(rounds, field)
  {
    hide AllValid, GaugeSum;
    var n := |rounds| - 1;
    var init := rounds[..n];
    if init != [] {
      PeakIsGreatest(init, field);
      var k :| 0 <= k < n && GaugeSum(init[k].samples, field) == Peak(init, field);
      assert GaugeSum(rounds[k].samples, field) == Peak(init, field);
      forall k | 0 <= k < n ensures GaugeSum(rounds[k].samples, field) <= Peak(init, field) { assert init[k] == rounds[k]; }
    }
    assert GaugeSum(rounds[n].samples, field) <= Peak(rounds, field);
  }

  lemma {:induction false} SyncMaxIsGreatest(samples: seq<Sample>)
    requires samples != []
    ensures forall w :: 0 <= w < |samples| ==> samples[w].snapshot.syncMax <= SyncMax(samples)
    ensures exists w :: 0 <= w < |samples| && samples[w].snapshot.syncMax == SyncMax(samples)
  {
    var n := |samples| - 1;
    var init := samples[..n];
    if init != [] {
      SyncMaxIsGreatest(init);
      var w :| 0 <= w < n && init[w].snapshot.syncMax == SyncMax(init);
      assert samples[w].snapshot.syncMax == SyncMax(init);
    }
    assert samples[n].snapshot.syncMax <= SyncMax(samples);
  }

  /** The sum of one counter over the workers at the end of the run. */
  lemma AggregateSumsCounters(rounds: seq<Round>, nonoverlap: bool, field: nat)
    requires Accepted(rounds, nonoverlap) && field < COUNTERS
    ensures AllRoundsValid(rounds) && |rounds[|rounds| - 1].samples| == 5
    ensures var a, s := AggregateFinal(rounds), rounds[|rounds| - 1].samples;
            && a.roundCount == |rounds| && a.finalRoundIndex == |rounds| - 1 && |a.counters| == COUNTERS
            && a.counters[field] == CounterOfFive(s, field)
  {
    LastRound(rounds, nonoverlap);
    hide AllValid, Accepted, AggregateFinal, CounterSum;
    CounterSumOfFive(rounds[|rounds| - 1].samples, field);
    AggregateCounters(rounds, field);
  }

  lemma AggregateCounters(rounds: seq<Round>, field: nat)
    requires rounds != [] && AllRoundsValid(rounds) && field < COUNTERS
    ensures var a := AggregateFinal(rounds);
            && a.roundCount == |rounds| && a.finalRoundIndex == rounds[|rounds| - 1].index && |a.counters| == COUNTERS
            && a.counters[field] == CounterSum(rounds[|rounds| - 1].samples, field)
  {
    hide AllValid, MergedLag, Peak, SyncMax, OldestAge, CounterSum, GaugeSum;
  }

  lemma LastRound(rounds: seq<Round>, nonoverlap: bool)
    requires Accepted(rounds, nonoverlap)
    ensures AllRoundsValid(rounds) && rounds != [] && rounds[|rounds| - 1].index == |rounds| - 1
    ensures |rounds[|rounds| - 1].samples| == 5
    ensures var s := rounds[|rounds| - 1].samples; forall w :: 0 <= w < 5 ==> |s[w].snapshot.counters| == COUNTERS
  {
    hide Snapshot.Valid, SampleOk, Workers, NextRound;
    AcceptedRoundsValid(rounds, nonoverlap);
    var last := |rounds| - 1;
    AcceptedShape(rounds, nonoverlap, last);
    assert RoundAccepted(rounds, last, nonoverlap);
    forall w | 0 <= w < 5 ensures |rounds[last].samples[w].snapshot.counters| == COUNTERS {
      SnapshotFacts(rounds[last].samples[w].snapshot);
    }
  }

  /** The merged histogram adds the workers' buckets at the end of the run. */
  lemma AggregateMergesBuckets(rounds: seq<Round>, nonoverlap: bool, bucket: nat)
    requires Accepted(rounds, nonoverlap) && bucket < BUCKETS
    ensures AllRoundsValid(rounds) && |rounds[|rounds| - 1].samples| == 5
    ensures var a, s := AggregateFinal(rounds), rounds[|rounds| - 1].samples;
            && |a.lag.counts| == BUCKETS && (forall w :: 0 <= w < 5 ==> |s[w].snapshot.lag.counts| == BUCKETS)
            && a.lag.counts[bucket] == s[0].snapshot.lag.counts[bucket] + s[1].snapshot.lag.counts[bucket]
                 + s[2].snapshot.lag.counts[bucket] + s[3].snapshot.lag.counts[bucket] + s[4].snapshot.lag.counts[bucket]
  {
    LastRound(rounds, nonoverlap);
    var s := rounds[|rounds| - 1].samples;
    forall w | 0 <= w < 5 ensures |s[w].snapshot.lag.counts| == BUCKETS { SnapshotFacts(s[w].snapshot); }
    hide Snapshot.Valid, Accepted, Peak, SyncMax, OldestAge, CounterSum, GaugeSum;
    ColumnOfFive(Counts(Lags(s)), bucket);
  }

  lemma ColumnThere(parts: seq<seq<nat>>, k: nat, i: nat)
    requires k < |parts| && i < BUCKETS && forall w :: 0 <= w < |parts| ==> |parts[w]| == BUCKETS
    ensures Column(parts[..k + 1], i) == Column(parts[..k], i) + parts[k][i]
  {
    assert parts[..k + 1][..k] == parts[..k];
  }

  lemma ColumnOfFive(parts: seq<seq<nat>>, i: nat)
    requires |parts| == 5 && i < BUCKETS && forall w :: 0 <= w < |parts| ==> |parts[w]| == BUCKETS
    ensures Column(parts, i) == parts[0][i] + parts[1][i] + parts[2][i] + parts[3][i] + parts[4][i]
  {
    ColumnThere(parts, 4, i);
    ColumnThere(parts, 3, i);
    ColumnThere(parts, 2, i);
    ColumnThere(parts, 1, i);
    ColumnThere(parts, 0, i);
    assert parts[..5] == parts && parts[..0] == [];
  }

  lemma AcceptedRoundsValid(rounds: seq<Round>, nonoverlap: bool)
    requires Accepted(rounds, nonoverlap)
    ensures AllRoundsValid(rounds)
  {
    hide Snapshot.Valid, Accepted;
    forall k | 0 <= k < |rounds| ensures AllValid(rounds[k].samples) {
      AcceptedShape(rounds, nonoverlap, k);
    }
  }

  /** The slowest sync is that of any worker at the end. */
  lemma AggregateTakesSlowestSync(rounds: seq<Round>, nonoverlap: bool)
    requires Accepted(rounds, nonoverlap)
    ensures AllRoundsValid(rounds) && |rounds[|rounds| - 1].samples| == 5
    ensures var a, s := AggregateFinal(rounds), rounds[|rounds| - 1].samples;
            && (forall w :: 0 <= w < 5 ==> s[w].snapshot.syncMax <= a.syncMax)
            && (exists w :: 0 <= w < 5 && s[w].snapshot.syncMax == a.syncMax)
  {
    LastRound(rounds, nonoverlap);
    hide AllValid, MergedLag, Peak, SyncMax, OldestAge, CounterSum, GaugeSum, Accepted;
    SyncMaxIsGreatest(rounds[|rounds| - 1].samples);
  }

  /** The peak of a gauge is the greatest sum over the workers in any round. */
  lemma AggregateTakesPeaks(rounds: seq<Round>, nonoverlap: bool, field: nat)
    requires Accepted(rounds, nonoverlap) && field < GAUGES
    ensures AllRoundsValid(rounds) && forall k :: 0 <= k < |rounds| ==> |rounds[k].samples| == 5
    ensures var a := AggregateFinal(rounds);
            && |a.peaks| == GAUGES
            && (forall k :: 0 <= k < |rounds| ==> GaugeOfFive(rounds[k].samples, field) <= a.peaks[field])
            && (exists k :: 0 <= k < |rounds| && GaugeOfFive(rounds[k].samples, field) == a.peaks[field])
  {
    hide AllValid, SampleOk, MergedLag, Peak, SyncMax, OldestAge, GaugeSum, CounterSum, Accepted;
    AcceptedRoundsValid(rounds, nonoverlap);
    hide GaugeOfFive;
    forall k | 0 <= k < |rounds|
      ensures |rounds[k].samples| == 5 && GaugeSum(rounds[k].samples, field) == GaugeOfFive(rounds[k].samples, field)
    {
      AcceptedShape(rounds, nonoverlap, k);
      GaugeSumOfFive(rounds[k].samples, field);
    }
    assert rounds != [] by { AcceptedNonempty(rounds, nonoverlap); }
    PeakIsGreatest(rounds, field);
  }

  lemma AcceptedNonempty(rounds: seq<Round>, nonoverlap: bool)
    requires Accepted(rounds, nonoverlap)
    ensures rounds != []
  {
  }

  lemma {:induction false} OldestAgeIsGreatest(rounds: seq<Round>, k: nat, w: nat)
    requires k < |rounds| && w < |rounds[k].samples| && rounds[k].samples[w].snapshot.oldestAge.Some?
    ensures OldestAge(rounds).Some? && rounds[k].samples[w].snapshot.oldestAge.value <= OldestAge(rounds).value
  {
    var n := |rounds| - 1;
    var pair := [OldestAge(rounds[..n]), MaxOf(Ages(rounds[n].samples))];
    if k < n {
      OldestAgeIsGreatest(rounds[..n], k, w);
      MaxOfBounds(pair, 0);
    } else {
      MaxOfBounds(Ages(rounds[n].samples), w);
      MaxOfBounds(pair, 1);
    }
  }

  /** The oldest age is the greatest that any worker reports in any round, and there is one when any does. */
  lemma AggregateTakesOldest(rounds: seq<Round>, nonoverlap: bool)
    requires Accepted(rounds, nonoverlap)
    ensures AllRoundsValid(rounds)
    ensures forall k, w :: 0 <= k < |rounds| && 0 <= w < |rounds[k].samples| && rounds[k].samples[w].snapshot.oldestAge.Some? ==>
              var oldest := AggregateFinal(rounds).oldestAgeMax;
              oldest.Some? && rounds[k].samples[w].snapshot.oldestAge.value <= oldest.value
    ensures AggregateFinal(rounds).oldestAgeMax.Some? ==>
              exists k, w :: 0 <= k < |rounds| && 0 <= w < |rounds[k].samples|
                             && rounds[k].samples[w].snapshot.oldestAge == AggregateFinal(rounds).oldestAgeMax
  {
    LastRound(rounds, nonoverlap);
    hide Accepted, Peak, MergedLag, SyncMax, CounterSum, GaugeSum, OldestAge, AllValid;
    assert AggregateFinal(rounds).oldestAgeMax == OldestAge(rounds);
    forall k, w | 0 <= k < |rounds| && 0 <= w < |rounds[k].samples| && rounds[k].samples[w].snapshot.oldestAge.Some?
      ensures OldestAge(rounds).Some? && rounds[k].samples[w].snapshot.oldestAge.value <= OldestAge(rounds).value
    {
      OldestAgeIsGreatest(rounds, k, w);
    }
    if OldestAge(rounds).Some? { var k, w := OldestAgeIsReached(rounds); }
  }

  lemma {:induction false} OldestAgeIsReached(rounds: seq<Round>) returns (k: nat, w: nat)
    requires OldestAge(rounds).Some?
    ensures k < |rounds| && w < |rounds[k].samples| && rounds[k].samples[w].snapshot.oldestAge == OldestAge(rounds)
  {
    var n := |rounds| - 1;
    var pair := [OldestAge(rounds[..n]), MaxOf(Ages(rounds[n].samples))];
    var p := MaxOfIsReached(pair);
    if p == 0 {
      k, w := OldestAgeIsReached(rounds[..n]);
    } else {
      k := n;
      w := MaxOfIsReached(Ages(rounds[n].samples));
    }
  }

  // ----- Runs that are accepted -------------------------------------------------------------------------

  function Zeros(n: nat): (r: seq<nat>)
    ensures |r| == n && forall i :: 0 <= i < n ==> r[i] == 0
  {
    seq(n, i => 0)
  }

  const NO_LAG := Summary(Zeros(BUCKETS), 0, None, None, None, None)
  const ONE_LAG := Summary([1] + Zeros(BUCKETS - 1), 1, Some(0), Some(0), Some(0), Some(0))

  /** A worker that has accepted one control record and still queues it. */
  function Queueing(w: nat): Snapshot
    requires w < WORKER_COUNT
  {
    Snapshot(7, Workers()[w], Config(0, 0, 1), Accepting, true, Idle, None, Some(0), [1] + Zeros(13),
             [1, 1, 5, 0, 0, 0, 0, 5, 1, 5] + Zeros(4), Some(3), NO_LAG, 0, [])
  }

  /** The same worker closed, with the record durable. */
  function Drained(w: nat): Snapshot
    requires w < WORKER_COUNT
  {
    Snapshot(8, Workers()[w], Config(0, 0, 1), Closed, false, Idle, None, Some(0), [1, 1] + Zeros(5) + [1] + Zeros(6), Zeros(14),
             None, ONE_LAG, 0, [Series(SeriesKey(Workers()[w].exchange, None, "_control"), ONE_LAG)])
  }

  function SampleIn(k: nat, last: bool, w: nat): Sample
    requires w < WORKER_COUNT
  {
    Sample(k, if last then FINAL else "steady", k, k, k, if last then Drained(w) else Queueing(w))
  }

  function RoundIn(k: nat, last: bool): Round {
    Round(k, if last then FINAL else "steady", k, Workers(), seq(WORKER_COUNT, w requires 0 <= w < WORKER_COUNT => SampleIn(k, last, w)))
  }

  function RunOf(n: nat): (rounds: seq<Round>)
    ensures |rounds| == n && forall k :: 0 <= k < n ==> rounds[k] == RoundIn(k, k == n - 1)
  {
    seq(n, k requires 0 <= k < n => RoundIn(k, k == n - 1))
  }

  lemma NoLagIsValid()
    ensures NO_LAG.Valid()
  {
    NoSamples(NO_LAG.counts);
  }

  lemma OneLagIsValid()
    ensures ONE_LAG.Valid() && TotalOf(ONE_LAG.counts) == 1
  {
    var counts := ONE_LAG.counts;
    assert counts[..1] == [1] && [1][..0] == [];
    assert Through(counts, 0) == 1;
    OneThrough(BUCKETS - 1);
    ThroughLast(counts);
    QuantileAtZero(50);
    QuantileAtZero(95);
    QuantileAtZero(99);
    assert Highest(counts) == 0;
  }

  lemma {:induction false} OneThrough(k: nat)
    requires k < BUCKETS
    ensures Through(ONE_LAG.counts, k) == 1
  {
    if k == 0 {
      assert ONE_LAG.counts[..1] == [1] && [1][..0] == [];
    } else {
      OneThrough(k - 1);
      ThroughStep(ONE_LAG.counts, k - 1);
    }
  }

  lemma QuantileAtZero(numerator: nat)
    requires 1 <= numerator <= 100 && TotalOf(ONE_LAG.counts) == 1
    ensures NearestRankOf(ONE_LAG.counts, numerator) == Some(0)
  {
    OneThrough(0);
    QuantileIsLeastCover(ONE_LAG.counts, numerator, 0);
  }

  lemma QueueingIsValid(w: nat)
    requires w < WORKER_COUNT
    ensures Queueing(w).Valid()
  {
    NoLagIsValid();
    NoSamples(NO_LAG.counts);
    assert LagsOf([]) == [] && Samples([]) == [] && Maxima([]) == [];
    hide Workers, Summary.Valid;
    forall i | 0 <= i < BUCKETS ensures Merged(Counts([]))[i] == 0 { ColumnEmpty(Counts([]), i); }
    assert Merged(Counts([])) == NO_LAG.counts;
  }

  lemma DrainedIsValid(w: nat)
    requires w < WORKER_COUNT
    ensures Drained(w).Valid()
  {
    OneLagIsValid();
    hide Workers, Summary.Valid, UpperBound;
    var lags := LagsOf(Drained(w).series);
    assert lags == [ONE_LAG] && Samples(lags) == [1] && Maxima(lags) == [Some(0)] && Counts(lags) == [ONE_LAG.counts];
    var none: seq<Option<nat>> := [];
    assert [1][..0] == [] && [Some(0)][..0] == none;
    forall i | 0 <= i < BUCKETS ensures Merged(Counts(lags))[i] == ONE_LAG.counts[i] {
      assert Counts(lags)[..0] == [];
      assert Column(Counts(lags), i) == Column(Counts(lags)[..0], i) + Counts(lags)[0][i];
    }
    assert Merged(Counts(lags)) == ONE_LAG.counts;
  }

  lemma StepIsAccepted(k: nat, last: bool, w: nat)
    requires w < WORKER_COUNT
    ensures Follows(SampleIn(k, false, w), SampleIn(k + 1, last, w))
  {
    hide Workers;
    assert SeriesMap([]) == map[];
  }

  lemma SamplePasses(k: nat, last: bool, w: nat)
    requires w < WORKER_COUNT
    ensures SampleOk(RoundIn(k, last), SampleIn(k, last, w), last)
  {
    QueueingIsValid(w);
    DrainedIsValid(w);
    hide Snapshot.Valid, Workers;
  }

  lemma RoundHasShape(k: nat, last: bool)
    ensures RoundShape(RoundIn(k, last), k, last)
  {
    assert Keys(RoundIn(k, last).samples) == Workers();
    hide Workers;
  }

  /** There are accepted runs of any length, with records under way: in each round but the last every worker queues the
      one record that it has accepted, and in the last it is durable. */
  lemma SomeRunsAreAccepted(n: nat)
    requires 0 < n
    ensures Accepted(RunOf(n), true)
    ensures forall k, w :: 0 <= k < n && 0 <= w < WORKER_COUNT ==>
              |RunOf(n)[k].samples| == WORKER_COUNT && OneRecord(SnapshotAt(RunOf(n), k, w), k == n - 1)
  {
    var rounds := RunOf(n);
    hide SampleOk, Follows, Workers, Start, End, RoundShape;
    forall k | 0 <= k < n ensures RoundAccepted(rounds, k, true) { RoundIsAccepted(n, k); }
  }

  /** The snapshot of one accepted record, queued or durable. */
  ghost predicate OneRecord(s: Snapshot, durable: bool) {
    && |s.counters| == |s.gauges| == 14 && s.counters[0] == 1
    && (if durable then s.counters[1] == 1 && s.gauges[0] == 0 else s.counters[1] == 0 && s.gauges[0] == 1)
  }

  lemma RoundIsAccepted(n: nat, k: nat)
    requires k < n
    ensures RoundAccepted(RunOf(n), k, true)
  {
    var rounds, last := RunOf(n), k == n - 1;
    RoundHasShape(k, last);
    hide SampleOk, Follows, Workers;
    forall w | 0 <= w < WORKER_COUNT ensures SampleOk(rounds[k], rounds[k].samples[w], last) {
      SamplePasses(k, last, w);
    }
    if 0 < k {
      RoundHasShape(k - 1, false);
      NextIsAccepted(k - 1, last);
    }
    hide RoundShape, NextRound;
  }

  lemma NextIsAccepted(k: nat, last: bool)
    ensures Keys(RoundIn(k, false).samples) == Workers() && Keys(RoundIn(k + 1, last).samples) == Workers()
    ensures NextRound(RoundIn(k, false), RoundIn(k + 1, last), true)
  {
    hide Follows, Workers;
    var previous, round := RoundIn(k, false), RoundIn(k + 1, last);
    RoundHasShape(k, false);
    RoundHasShape(k + 1, last);
    forall w | 0 <= w < WORKER_COUNT ensures Follows(previous.samples[w], round.samples[w]) {
      StepIsAccepted(k, last, w);
    }
    IntervalIs(previous.samples, k);
    IntervalIs(round.samples, k + 1);
  }

  lemma {:induction false} IntervalIs(samples: seq<Sample>, at: nat)
    requires samples != [] && forall w :: 0 <= w < |samples| ==> samples[w].requestStarted == samples[w].requestCompleted == at
    ensures Start(samples) == End(samples) == at
  {
    if |samples| > 1 { IntervalIs(samples[..|samples| - 1], at); }
  }
}
