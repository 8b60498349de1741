/** From a valid workload to the trace of one of its exchanges: the oracle's schedule, its spool, the replay of
    the spool and the pipeline. */
module WorkloadRun {
  import opened Workload
  import opened Ordering
  import opened PlanSchedule
  import opened Cuts
  import opened Spool
  import opened Chunks
  import opened Pipeline
  import opened Progress
  import opened SpoolFiles
  import Oracle = Schedule
  import Identities

  /** The size of an event's payload depends on its id alone. */
  type Sizes = nat -> nat

  /** The rows that the spool stores for the planned rows of a schedule. */
  function Prepare(size: Sizes, schedule: seq<Item<Oracle.Planned>>): (rows: seq<Row>)
    ensures |rows| == |schedule|
    ensures forall k :: 0 <= k < |rows| ==> rows[k] == Item(schedule[k].due, schedule[k].id, Prepared(size(schedule[k].id)))
  {
    seq(|schedule|, k requires 0 <= k < |schedule| => Item(schedule[k].due, schedule[k].id, Prepared(size(schedule[k].id))))
  }

  /** A validated workload and its streams, with event ids from an injective digest. */
  ghost predicate WorkloadStreams(plans: seq<StreamPlan>, streams: seq<Oracle.Stream>) {
    exists digest: string -> nat, seed: nat ::
      && Identities.ValidWorkload(plans) && Identities.StreamsOf(digest, seed, plans, streams) && Identities.Injective(digest)
  }

  lemma WorkloadShape(plans: seq<StreamPlan>, streams: seq<Oracle.Stream>)
    requires WorkloadStreams(plans, streams)
    ensures ValidPlan(streams) && plans != [] && |streams| == |plans| && streams[0].exchanges == plans[0].exchanges
    ensures forall k :: 0 <= k < |streams| ==> streams[k].Valid() && streams[k].timing.durationNs == plans[0].durationNs
    ensures plans[0].durationNs % ONE_SECOND_NS == 0
  {
    hide Identities.EventIds, Identities.Injective;
    var digest: string -> nat, seed: nat :|
      Identities.ValidWorkload(plans) && Identities.StreamsOf(digest, seed, plans, streams) && Identities.Injective(digest);
    Identities.WorkloadGivesValidPlan(digest, seed, plans, streams);
  }

  /** Exchange rows are planned rows. */
  lemma ExchangeRowIsPlanRow(plan: seq<Oracle.Stream>, x: nat, row: Item<Oracle.Planned>)
    requires ValidPlan(plan) && x < |plan[0].exchanges| && row in ScheduleOfExchange(plan, x)
    ensures row in PlanRows(plan)
  {
    hide ExchangeRows, PrefixRows, PlanRows, Sort;
    SortIsSortedPermutation(ExchangeRows(plan, x));
    assert row in multiset(ScheduleOfExchange(plan, x));
    PrefixGrows(plan, x);
    PrefixIsPart(plan, x + 1, |plan[0].exchanges|);
    assert row in multiset(PlanRows(plan));
  }

  /** The rows of an exchange's schedule are strictly ordered and due in the run: the spool builder can take
      them, and none escapes it. */
  lemma PreparedRowsFit(plans: seq<StreamPlan>, streams: seq<Oracle.Stream>, x: nat, size: Sizes, seconds: nat)
    requires WorkloadStreams(plans, streams)
    requires x < |plans[0].exchanges| && plans[0].durationNs == seconds * ONE_SECOND_NS
    ensures ValidPlan(streams) && x < |streams[0].exchanges|
    ensures var rows := Prepare(size, ScheduleOfExchange(streams, x));
            StrictlySorted(rows) && SecondsAscend(rows) && DueWithinRun(rows, seconds)
  {
    hide Sort, ExchangeRows, PlanRows, ValidPlan;
    WorkloadShape(plans, streams);
    SchedulesAreStrict(streams, x);
    var schedule := ScheduleOfExchange(streams, x);
    forall k | 0 <= k < |schedule| ensures 0 <= schedule[k].due < seconds * ONE_SECOND_NS {
      ExchangeRowIsPlanRow(streams, x, schedule[k]);
      RowsDueInRun(streams, plans[0].durationNs, schedule[k]);
    }
    hide ScheduleOfExchange, WorkloadStreams;
    StrictRowsAscend(Prepare(size, schedule));
  }

  lemma StrictRowsAscend(rows: seq<Row>)
    requires StrictlySorted(rows)
    ensures SecondsAscend(rows)
  {
    forall i, j | 0 <= i < j < |rows| ensures SecondOf(rows[i]) <= SecondOf(rows[j]) {
      assert KeyLess(rows[i], rows[j]);
    }
  }

  /** Generates, spools and replays one exchange of a valid workload. Only an exchange without rows, a line over
      the writer's bound or a payload over the reader's can stop it; then the pipeline gets a valid run over
      exactly this exchange's part of the plan. */
  method PrepareExchangeRun(ghost plans: seq<StreamPlan>, streams: seq<Oracle.Stream>, exchange: Exchange, seconds: nat,
                            size: Sizes, encode: Encoder, decode: Decoder, digest: Digest, cutter: Cutter)
    returns (ok: bool, parts: seq<seq<Chunk>>)
    requires WorkloadStreams(plans, streams) && plans != [] && plans[0].durationNs == seconds * ONE_SECOND_NS
    requires ValidPlan(streams) && exchange in streams[0].exchanges
    requires Codec(encode, decode) && forall id :: 0 < size(id)
    requires forall s, content :: CutOf(content, cutter(s, content))
    ensures var rows := Prepare(size, ScheduleOfExchange(streams, IndexOf(streams[0].exchanges, exchange)));
            && (ok <==> rows != [] && LinesFit(rows, encode) && PayloadsFit(rows))
            && (ok ==> |parts| == seconds && ValidRun(parts) && Pipeline.Schedule(parts) == rows)
  {
    hide Codec, CutOf, LinesFit, PayloadsFit, ValidRun, Pipeline.Schedule, ScheduleOfExchange, ValidPlan, WorkloadStreams, Replays,
         SecondsAscend, StrictlySorted, Prepare;
    WorkloadShape(plans, streams);
    ghost var x := IndexOf(streams[0].exchanges, exchange);
    PreparedRowsFit(plans, streams, x, size, seconds);
    var schedule := GenerateExchangeSchedule(streams, exchange);
    PreparedCarry(size, schedule.value);
    ok, parts := WriteAndReplay(seconds, Prepare(size, schedule.value), encode, decode, digest, cutter);
  }

  lemma PreparedCarry(size: Sizes, schedule: seq<Item<Oracle.Planned>>)
    requires forall id :: 0 < size(id)
    ensures CarryPayloads(Prepare(size, schedule))
  {
  }

  /** Whatever order the stages move in, a run over these chunks that was not aborted and can move no more has
      traced exactly the exchange's part of the plan, strictly in order. */
  lemma PlannedRowsAreTraced(streams: seq<Oracle.Stream>, x: nat, size: Sizes, parts: seq<seq<Chunk>>,
                             states: seq<State>, steps: seq<Step>)
    requires ValidPlan(streams) && x < |streams[0].exchanges|
    requires ValidRun(parts) && Pipeline.Schedule(parts) == Prepare(size, ScheduleOfExchange(streams, x))
    requires RunBy(parts, states, steps) && !states[|steps|].aborted && !CanMove(parts, states[|steps|])
    ensures states[|steps|].tracer.trace == Prepare(size, ScheduleOfExchange(streams, x))
    ensures StrictlySorted(states[|steps|].tracer.trace)
  {
    EveryRunEnds(parts, states, steps);
  }
}
