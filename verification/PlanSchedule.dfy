/** The whole-plan schedule and the per-exchange schedules, and the theorem that ties them. */
module PlanSchedule {
  import opened Arithmetic
  import opened Workload
  import opened Ordering
  import opened Allocation
  import opened Spacing
  import opened Schedule

  /** The streams of a plan share their exchanges. */
  ghost predicate Shaped(plan: seq<Stream>) {
    && plan != []
    && (forall k :: 0 <= k < |plan| ==> plan[k].Valid() && plan[k].exchanges == plan[0].exchanges)
  }

  /** No two planned events share an id. */
  ghost predicate UniqueIds(plan: seq<Stream>) {
    forall k, o, k', o' ::
      (&& 0 <= k < |plan| && 0 <= o < |plan[k].ids|
       && 0 <= k' < |plan| && 0 <= o' < |plan[k'].ids|
       && plan[k].ids[o] == plan[k'].ids[o']) ==> k == k' && o == o'
  }

  ghost predicate ValidPlan(plan: seq<Stream>) {
    Shaped(plan) && UniqueIds(plan)
  }

  function PerExchange(st: Stream): nat
    requires st.exchanges != []
  {
    st.spread.identities / |st.exchanges|
  }

  /** The first ordinal of the identities of exchange number x. */
  function SliceStart(st: Stream, x: nat): nat
    requires st.exchanges != []
  {
    IdentityOrdinalStart(st.spread, x * PerExchange(st))
  }

  /** The identity spans of the exchanges are equal, contiguous and cover the stream. */
  lemma SliceBounds(st: Stream, x: nat)
    requires st.Valid() && x < |st.exchanges|
    ensures x * PerExchange(st) <= (x + 1) * PerExchange(st) <= st.spread.identities
    ensures SliceStart(st, x) <= SliceStart(st, x + 1) <= st.spread.records
    ensures SliceStart(st, 0) == 0 && SliceStart(st, |st.exchanges|) == st.spread.records
  {
    var n, per := |st.exchanges|, PerExchange(st);
    assert st.spread.identities == n * per;
    assert (x + 1) * per == x * per + per;
    MulMono(x + 1, n, per);
    StartStep(st.spread, 0);
    StartMono(st.spread, x * per, (x + 1) * per);
    StartMono(st.spread, (x + 1) * per, st.spread.identities);
  }

  function PlanRows(plan: seq<Stream>): seq<Item<Planned>>
    requires forall k :: 0 <= k < |plan| ==> plan[k].Valid()
  {
    if plan == [] then [] else Rows(plan[0], 0, plan[0].spread.records) + PlanRows(plan[1..])
  }

  /** The planned rows of exchange number x, over all streams. */
  function ExchangeRows(plan: seq<Stream>, x: nat): seq<Item<Planned>>
    requires forall k :: 0 <= k < |plan| ==> plan[k].Valid() && x < |plan[k].exchanges|
  {
    if plan == [] then []
    else
      SliceBounds(plan[0], x);
      Rows(plan[0], SliceStart(plan[0], x), SliceStart(plan[0], x + 1)) + ExchangeRows(plan[1..], x)
  }

  /** The planned rows of the first x exchanges. */
  ghost function PrefixRows(plan: seq<Stream>, x: nat): seq<Item<Planned>>
    requires forall k :: 0 <= k < |plan| ==> plan[k].Valid() && x <= |plan[k].exchanges|
  {
    if plan == [] then []
    else
      SliceBounds(plan[0], if x == 0 then 0 else x - 1);
      Rows(plan[0], 0, SliceStart(plan[0], x)) + PrefixRows(plan[1..], x)
  }

  lemma {:induction false} PrefixGrows(plan: seq<Stream>, x: nat)
    requires forall k :: 0 <= k < |plan| ==> plan[k].Valid() && x < |plan[k].exchanges|
    ensures multiset(PrefixRows(plan, x + 1)) == multiset(PrefixRows(plan, x)) + multiset(ExchangeRows(plan, x))
  {
    if plan != [] {
      PrefixGrows(plan[1..], x);
      SliceBounds(plan[0], x);
      RowsConcat(plan[0], 0, SliceStart(plan[0], x), SliceStart(plan[0], x + 1));
    }
  }

  lemma {:induction false} PrefixEnds(plan: seq<Stream>, n: nat)
    requires forall k :: 0 <= k < |plan| ==> plan[k].Valid() && |plan[k].exchanges| == n
    ensures PrefixRows(plan, 0) == []
    ensures PrefixRows(plan, n) == PlanRows(plan)
  {
    if plan != [] {
      PrefixEnds(plan[1..], n);
      SliceBounds(plan[0], 0);
    }
  }

  // ----- Where a row comes from, and when it is due ----------------------------------------

  /** Where a planned row comes from. */
  lemma {:induction false} RowSource(plan: seq<Stream>, row: Item<Planned>) returns (j: nat, o: nat)
    requires forall i :: 0 <= i < |plan| ==> plan[i].Valid()
    requires row in PlanRows(plan)
    ensures j < |plan| && o < plan[j].spread.records && row == RowAt(plan[j], o)
    ensures row.body.group == plan[j].group
  {
    var records := plan[0].spread.records;
    if row in Rows(plan[0], 0, records) {
      j := 0;
      o := RowOrdinal(plan[0], records, row);
    } else {
      j, o := RowSource(plan[1..], row);
      j := j + 1;
    }
  }

  lemma {:induction false} RowOrdinal(st: Stream, hi: nat, row: Item<Planned>) returns (o: nat)
    requires st.Valid() && hi <= st.spread.records && row in Rows(st, 0, hi)
    ensures o < hi && row == RowAt(st, o)
    decreases hi
  {
    if row == RowAt(st, hi - 1) { o := hi - 1; } else { o := RowOrdinal(st, hi - 1, row); }
  }

  /** Every planned row is due in the run, more than a second before its end: its deadline lies in the run. */
  lemma RowsDueInRun(plan: seq<Stream>, durationNs: nat, row: Item<Planned>)
    requires forall k :: 0 <= k < |plan| ==> plan[k].Valid() && plan[k].timing.durationNs == durationNs
    requires row in PlanRows(plan)
    ensures 0 <= row.due && row.due + ONE_SECOND_NS < durationNs
  {
    var j, o := RowSource(plan, row);
    if !IsBurst(plan[j].spread, o) {
      SmoothRankInRange(plan[j], o);
      SmoothDueBounds(plan[j].timing, |Selected(plan[j].spread, false, 0, o)|);
    }
  }

  // ----- Event ids are distinct ------------------------------------------------------

  lemma {:induction false} RowsMember(st: Stream, lo: nat, hi: nat, row: Item<Planned>)
    requires st.Valid() && lo <= hi <= st.spread.records
    ensures multiset(Rows(st, lo, hi))[row] <= 1
    ensures row in multiset(Rows(st, lo, hi)) <==>
              lo <= row.body.ordinal < hi && row == RowAt(st, row.body.ordinal)
    decreases hi
  {
    if lo != hi {
      RowsMember(st, lo, hi - 1, row);
    }
  }

  /** A planned row names the stream and the ordinal that carry its id, once. */
  lemma {:induction false} PlanRowOrigin(plan: seq<Stream>, row: Item<Planned>)
    requires forall k :: 0 <= k < |plan| ==> plan[k].Valid()
    requires UniqueIds(plan)
    ensures multiset(PlanRows(plan))[row] <= 1
    ensures row in multiset(PlanRows(plan)) ==>
              exists k :: 0 <= k < |plan| && row.body.ordinal < |plan[k].ids| && row == RowAt(plan[k], row.body.ordinal)
  {
    if plan != [] {
      var st, rest := plan[0], plan[1..];
      RowsMember(st, 0, st.spread.records, row);
      assert UniqueIds(rest) by {
        forall k, o, k', o' |
          0 <= k < |rest| && 0 <= o < |rest[k].ids| && 0 <= k' < |rest| && 0 <= o' < |rest[k'].ids|
          && rest[k].ids[o] == rest[k'].ids[o'] ensures k == k' && o == o' {
          assert plan[k + 1].ids[o] == plan[k' + 1].ids[o'];
        }
      }
      PlanRowOrigin(rest, row);
      if row in multiset(PlanRows(rest)) {
        var k :| 0 <= k < |rest| && row.body.ordinal < |rest[k].ids| && row == RowAt(rest[k], row.body.ordinal);
        assert row == RowAt(plan[k + 1], row.body.ordinal);
        assert plan[k + 1].ids[row.body.ordinal] == row.id;
      }
    }
  }

  lemma PlanRowsDistinct(plan: seq<Stream>)
    requires ValidPlan(plan)
    ensures Distinct(multiset(PlanRows(plan)))
  {
    var m := multiset(PlanRows(plan));
    forall x | x in m ensures m[x] == 1 {
      PlanRowOrigin(plan, x);
    }
    forall x, y | x in m && y in m && x.id == y.id ensures x == y {
      PlanRowOrigin(plan, x);
      PlanRowOrigin(plan, y);
    }
  }

  lemma {:induction false} PrefixIsPart(plan: seq<Stream>, x: nat, n: nat)
    requires forall k :: 0 <= k < |plan| ==> plan[k].Valid() && |plan[k].exchanges| == n
    requires x <= n
    ensures multiset(PrefixRows(plan, x)) <= multiset(PlanRows(plan))
    decreases n - x
  {
    PrefixEnds(plan, n);
    if x < n {
      PrefixIsPart(plan, x + 1, n);
      PrefixGrows(plan, x);
    }
  }

  lemma ExchangeRowsDistinct(plan: seq<Stream>, x: nat)
    requires ValidPlan(plan) && x < |plan[0].exchanges|
    ensures Distinct(multiset(ExchangeRows(plan, x)))
  {
    PrefixIsPart(plan, x + 1, |plan[0].exchanges|);
    PrefixGrows(plan, x);
    PlanRowsDistinct(plan);
    DistinctPart(multiset(ExchangeRows(plan, x)), multiset(PlanRows(plan)));
  }

  // ----- The plan schedule and the exchange schedules ------------------------------------

  ghost function ScheduleOfPlan(plan: seq<Stream>): seq<Item<Planned>>
    requires Shaped(plan)
  {
    Sort(PlanRows(plan))
  }

  ghost function ScheduleOfExchange(plan: seq<Stream>, x: nat): seq<Item<Planned>>
    requires Shaped(plan) && x < |plan[0].exchanges|
  {
    Sort(ExchangeRows(plan, x))
  }

  /** The order, by the rows' own times and ids: of two rows of a schedule the earlier one is due first, or has the
      smaller id when both are due together. */
  lemma ScheduleOrder(plan: seq<Stream>, i: nat, j: nat)
    requires ValidPlan(plan) && i < j < |ScheduleOfPlan(plan)|
    ensures var a, b := ScheduleOfPlan(plan)[i], ScheduleOfPlan(plan)[j];
            a.due < b.due || (a.due == b.due && a.id < b.id)
  {
    PlanRowsDistinct(plan);
    SortIsSortedPermutation(PlanRows(plan));
    SortedDistinctIsStrict(ScheduleOfPlan(plan));
  }

  /** A row stands for one record of one identity of one stream: identities hold the quotient of the records, the first
      ones one more, and follow each other; the first records of an identity, up to the quota, are due at the start
      of the burst and each later one at its place among the smooth records. */
  ghost predicate StandsFor(st: Stream, identity: nat, sequence: nat, row: Item<Planned>)
    requires st.Valid()
  {
    var s := st.spread;
    var ordinal := identity * s.quotient + (if identity < s.remainder then identity else s.remainder) + sequence;
    && identity < s.identities && sequence < s.quotient + (if identity < s.remainder then 1 else 0)
    && ordinal < |st.ids| && row.id == st.ids[ordinal] && row.body == Planned(st.group, ordinal)
    && if sequence < s.quota then row.due == st.timing.burstStartNs
       else 0 < st.timing.smoothCount && row.due == SmoothDue(st.timing, SmoothCountBefore(s, identity) + (sequence - s.quota))
  }

  /** The schedule holds exactly the rows that stand for a record of an identity of a stream. */
  lemma ScheduleHoldsRecords(plan: seq<Stream>, row: Item<Planned>)
    requires ValidPlan(plan)
    ensures row in ScheduleOfPlan(plan) <==>
              exists k: nat, identity: nat, sequence: nat :: k < |plan| && StandsFor(plan[k], identity, sequence, row)
  {
    SortIsSortedPermutation(PlanRows(plan));
    assert row in ScheduleOfPlan(plan) <==> row in multiset(ScheduleOfPlan(plan));
    hide Sort, StandsFor, UniqueIds;
    if row in PlanRows(plan) {
      var k, o := RowSource(plan, row);
      OrdinalHasOwner(plan[k].spread, o);
      var (identity, sequence) := IdentityAndSequence(plan[k].spread, o);
      RecordStandsFor(plan[k], identity, sequence);
    }
    if k: nat, identity: nat, sequence: nat :| k < |plan| && StandsFor(plan[k], identity, sequence, row) {
      StandsForRow(plan[k], identity, sequence, row);
      StreamRowsInPlan(plan, k, row);
    }
  }

  lemma RecordStandsFor(st: Stream, identity: nat, sequence: nat)
    requires st.Valid() && identity < st.spread.identities && sequence < AllocatedCount(st.spread, identity)
    ensures IdentityOrdinalStart(st.spread, identity) + sequence < st.spread.records
    ensures StandsFor(st, identity, sequence, RowAt(st, IdentityOrdinalStart(st.spread, identity) + sequence))
  {
    var s, o := st.spread, IdentityOrdinalStart(st.spread, identity) + sequence;
    OwnerHasOrdinal(s, identity, sequence);
    if s.quota <= sequence {
      SmoothRankInRange(st, o);
      ClosedFormCounts(s, identity);
      SelectedWithinIdentity(s, false, identity, sequence);
      SelectedConcat(s, false, 0, IdentityOrdinalStart(s, identity), o);
    }
  }

  lemma StandsForRow(st: Stream, identity: nat, sequence: nat, row: Item<Planned>)
    requires st.Valid() && StandsFor(st, identity, sequence, row)
    ensures row in Rows(st, 0, st.spread.records)
  {
    RecordStandsFor(st, identity, sequence);
    RowsMember(st, 0, st.spread.records, row);
    assert row in multiset(Rows(st, 0, st.spread.records)) <==> row in Rows(st, 0, st.spread.records);
  }

  lemma {:induction false} StreamRowsInPlan(plan: seq<Stream>, k: nat, row: Item<Planned>)
    requires k < |plan| && forall i :: 0 <= i < |plan| ==> plan[i].Valid()
    requires row in Rows(plan[k], 0, plan[k].spread.records)
    ensures row in PlanRows(plan)
  {
    if k > 0 { StreamRowsInPlan(plan[1..], k - 1, row); }
  }

  lemma SchedulesAreStrict(plan: seq<Stream>, x: nat)
    requires ValidPlan(plan) && x < |plan[0].exchanges|
    ensures StrictlySorted(ScheduleOfPlan(plan))
    ensures StrictlySorted(ScheduleOfExchange(plan, x))
  {
    PlanRowsDistinct(plan);
    ExchangeRowsDistinct(plan, x);
    SortIsSortedPermutation(PlanRows(plan));
    SortIsSortedPermutation(ExchangeRows(plan, x));
    SortedDistinctIsStrict(ScheduleOfPlan(plan));
    SortedDistinctIsStrict(ScheduleOfExchange(plan, x));
  }

  /** The exchange schedules in canonical order. */
  ghost function ExchangeSchedules(plan: seq<Stream>, x: nat): seq<seq<Item<Planned>>>
    requires Shaped(plan) && x <= |plan[0].exchanges|
  {
    if x == 0 then [] else ExchangeSchedules(plan, x - 1) + [ScheduleOfExchange(plan, x - 1)]
  }

  lemma {:induction false} ExchangeSchedulesHoldPrefix(plan: seq<Stream>, x: nat)
    requires Shaped(plan) && x <= |plan[0].exchanges|
    ensures forall k :: 0 <= k < |ExchangeSchedules(plan, x)| ==> Sorted(ExchangeSchedules(plan, x)[k])
    ensures multiset(Flatten(ExchangeSchedules(plan, x))) == multiset(PrefixRows(plan, x))
  {
    hide PrefixRows, ExchangeRows, PlanRows, Sort;
    PrefixEnds(plan, |plan[0].exchanges|);
    if x > 0 {
      ExchangeSchedulesHoldPrefix(plan, x - 1);
      SortIsSortedPermutation(ExchangeRows(plan, x - 1));
      PrefixGrows(plan, x - 1);
      FlattenSnoc(ExchangeSchedules(plan, x - 1), ScheduleOfExchange(plan, x - 1));
    }
  }

  /** Merging the separately generated schedules of all exchanges gives exactly the plan
      schedule: the same events, with the same due times, in the same order. */
  lemma MergedExchangesArePlan(plan: seq<Stream>)
    requires ValidPlan(plan)
    ensures MergeAll(ExchangeSchedules(plan, |plan[0].exchanges|)) == ScheduleOfPlan(plan)
  {
    var n := |plan[0].exchanges|;
    var inputs := ExchangeSchedules(plan, n);
    ExchangeSchedulesHoldPrefix(plan, n);
    PrefixEnds(plan, n);
    MergeAllIsSortedPermutation(inputs);
    PlanRowsDistinct(plan);
    SortedArrangementIsSort(MergeAll(inputs), PlanRows(plan));
  }

  lemma NoRows(x: nat)
    ensures PlanRows([]) == [] && ExchangeRows([], x) == [] && Flatten<Item<Planned>>([]) == []
  {
  }

  /** Generates the whole-plan schedule: one streaming schedule per stream, merged. */
  method GeneratePlanSchedule(plan: seq<Stream>) returns (schedule: seq<Item<Planned>>)
    requires ValidPlan(plan)
    ensures schedule == ScheduleOfPlan(plan)
  {
    hide Rows, PlanRows, MergeAll, Flatten, Sorted;
    NoRows(0);
    var schedules: seq<seq<Item<Planned>>> := [];
    for k := 0 to |plan|
      invariant |schedules| == k
      invariant forall i :: 0 <= i < k ==> Sorted(schedules[i])
      invariant multiset(Flatten(schedules)) == multiset(PlanRows(plan[..k]))
    {
      StartStep(plan[k].spread, 0);
      var schedule := StreamScheduleForSpan(plan[k], 0, plan[k].spread.identities);
      PlanRowsSnoc(plan[..k], plan[k]);
      assert plan[..k + 1] == plan[..k] + [plan[k]];
      FlattenSnoc(schedules, schedule);
      schedules := schedules + [schedule];
    }
    assert plan[..|plan|] == plan;
    MergeAllIsSortedPermutation(schedules);
    PlanRowsDistinct(plan);
    schedule := MergeAll(schedules);
    SortedArrangementIsSort(schedule, PlanRows(plan));
  }

  lemma {:induction false} PlanRowsSnoc(plan: seq<Stream>, st: Stream)
    requires st.Valid() && forall k :: 0 <= k < |plan| ==> plan[k].Valid()
    ensures PlanRows(plan + [st]) == PlanRows(plan) + Rows(st, 0, st.spread.records)
  {
    if plan == [] {
      assert plan + [st] == [st];
    } else {
      PlanRowsSnoc(plan[1..], st);
      assert (plan + [st])[1..] == plan[1..] + [st];
    }
  }

  lemma {:induction false} ExchangeRowsSnoc(plan: seq<Stream>, st: Stream, x: nat)
    requires st.Valid() && x < |st.exchanges|
    requires forall k :: 0 <= k < |plan| ==> plan[k].Valid() && x < |plan[k].exchanges|
    ensures SliceStart(st, x) <= SliceStart(st, x + 1) <= st.spread.records
    ensures ExchangeRows(plan + [st], x) == ExchangeRows(plan, x) + Rows(st, SliceStart(st, x), SliceStart(st, x + 1))
  {
    SliceBounds(st, x);
    if plan == [] {
      assert plan + [st] == [st];
    } else {
      ExchangeRowsSnoc(plan[1..], st, x);
      assert (plan + [st])[1..] == plan[1..] + [st];
    }
  }

  /** Position of an exchange in a list, or its length when absent. */
  function IndexOf(exchanges: seq<Exchange>, exchange: Exchange): (x: nat)
    ensures x <= |exchanges|
    ensures x < |exchanges| ==> exchanges[x] == exchange
    ensures x == |exchanges| <==> exchange !in exchanges
  {
    if exchanges == [] then 0 else if exchanges[0] == exchange then 0 else 1 + IndexOf(exchanges[1..], exchange)
  }

  /** The schedule of one stream's identities on exchange number x. */
  method SliceScheduleOf(st: Stream, x: nat) returns (schedule: seq<Item<Planned>>)
    requires st.Valid() && x < |st.exchanges|
    ensures SliceStart(st, x) <= SliceStart(st, x + 1) <= st.spread.records
    ensures Sorted(schedule)
    ensures multiset(schedule) == multiset(Rows(st, SliceStart(st, x), SliceStart(st, x + 1)))
  {
    SliceBounds(st, x);
    hide IdentityOrdinalStart, PerExchange, Rows, Stream.Valid;
    schedule := StreamScheduleForSpan(st, x * PerExchange(st), (x + 1) * PerExchange(st));
  }

  /** Generates one exchange's schedule without generating the others, or refuses an exchange
      that the plan does not have. */
  method GenerateExchangeSchedule(plan: seq<Stream>, exchange: Exchange) returns (schedule: Option<seq<Item<Planned>>>)
    requires ValidPlan(plan)
    ensures schedule.None? <==> exchange !in plan[0].exchanges
    ensures schedule.Some? ==> schedule.value == ScheduleOfExchange(plan, IndexOf(plan[0].exchanges, exchange))
  {
    hide Rows, ExchangeRows, MergeAll, Flatten, Sorted;
    if exchange !in plan[0].exchanges {
      return None;
    }
    ghost var x := IndexOf(plan[0].exchanges, exchange);
    NoRows(x);
    var schedules: seq<seq<Item<Planned>>> := [];
    for k := 0 to |plan|
      invariant |schedules| == k
      invariant forall i :: 0 <= i < k ==> Sorted(schedules[i])
      invariant multiset(Flatten(schedules)) == multiset(ExchangeRows(plan[..k], x))
    {
      var index := IndexOf(plan[k].exchanges, exchange);
      var schedule := SliceScheduleOf(plan[k], index);
      ExchangeRowsSnoc(plan[..k], plan[k], x);
      assert plan[..k + 1] == plan[..k] + [plan[k]];
      FlattenSnoc(schedules, schedule);
      schedules := schedules + [schedule];
    }
    assert plan[..|plan|] == plan;
    MergeAllIsSortedPermutation(schedules);
    ExchangeRowsDistinct(plan, x);
    var merged := MergeAll(schedules);
    SortedArrangementIsSort(merged, ExchangeRows(plan, x));
    schedule := Some(merged);
  }

  // ----- Counts ----------------------------------------------------------------------

  lemma {:induction false} RowsLength(st: Stream, lo: nat, hi: nat)
    requires st.Valid() && lo <= hi <= st.spread.records
    ensures |Rows(st, lo, hi)| == hi - lo
    decreases hi
  {
    if lo != hi { RowsLength(st, lo, hi - 1); }
  }

  /** The ordinals between the boundaries of an exchange's identity span. */
  method SliceRecordCount(st: Stream, x: nat) returns (records: nat)
    requires st.Valid() && x < |st.exchanges|
    ensures SliceStart(st, x) <= SliceStart(st, x + 1) <= st.spread.records
    ensures records == |Rows(st, SliceStart(st, x), SliceStart(st, x + 1))|
  {
    var identityStart := x * PerExchange(st);
    var identityStop := identityStart + PerExchange(st);
    SliceBounds(st, x);
    assert identityStop == (x + 1) * PerExchange(st);
    var ordinalStart := identityStart * st.spread.quotient + Min(identityStart, st.spread.remainder);
    var ordinalStop := identityStop * st.spread.quotient + Min(identityStop, st.spread.remainder);
    RowsLength(st, ordinalStart, ordinalStop);
    records := ordinalStop - ordinalStart;
  }

  /** The slice counts of all streams, added up. */
  method SumSliceCounts(plan: seq<Stream>, x: nat, exchange: Exchange) returns (total: nat)
    requires Shaped(plan) && x < |plan[0].exchanges| && x == IndexOf(plan[0].exchanges, exchange)
    ensures total == |ScheduleOfExchange(plan, x)|
  {
    total := 0;
    for k := 0 to |plan|
      invariant total == |ExchangeRows(plan[..k], x)|
    {
      var index := IndexOf(plan[k].exchanges, exchange);
      var records := SliceRecordCount(plan[k], index);
      ExchangeRowsSnoc(plan[..k], plan[k], x);
      assert plan[..k + 1] == plan[..k] + [plan[k]];
      total := total + records;
    }
    assert plan[..|plan|] == plan;
    SortIsSortedPermutation(ExchangeRows(plan, x));
    assert |multiset(ScheduleOfExchange(plan, x))| == |multiset(ExchangeRows(plan, x))|;
  }

  /** The expected record count of an exchange is computed from the span boundaries alone;
      it is the length of the exchange's schedule. */
  method ExpectedExchangeRecordCount(plan: seq<Stream>, exchange: Exchange) returns (r: Option<nat>)
    requires Shaped(plan)
    ensures r.Some? <==> exchange in plan[0].exchanges
                         && ScheduleOfExchange(plan, IndexOf(plan[0].exchanges, exchange)) != []
    ensures r.Some? ==> r.value == |ScheduleOfExchange(plan, IndexOf(plan[0].exchanges, exchange))|
  {
    if exchange !in plan[0].exchanges {
      return None;
    }
    hide Shaped, ScheduleOfExchange;
    var total := SumSliceCounts(plan, IndexOf(plan[0].exchanges, exchange), exchange);
    r := if total == 0 then None else Some(total);
  }

  ghost function ExchangeTotal(plan: seq<Stream>, x: nat): nat
    requires Shaped(plan) && x <= |plan[0].exchanges|
  {
    if x == 0 then 0 else ExchangeTotal(plan, x - 1) + |ScheduleOfExchange(plan, x - 1)|
  }

  lemma {:induction false} ExchangeTotalIsPrefix(plan: seq<Stream>, x: nat)
    requires Shaped(plan) && x <= |plan[0].exchanges|
    ensures ExchangeTotal(plan, x) == |PrefixRows(plan, x)|
  {
    hide PrefixRows, ExchangeRows, PlanRows, Sort;
    PrefixEnds(plan, |plan[0].exchanges|);
    if x > 0 {
      ExchangeTotalIsPrefix(plan, x - 1);
      PrefixGrows(plan, x - 1);
      SortIsSortedPermutation(ExchangeRows(plan, x - 1));
      assert |multiset(ScheduleOfExchange(plan, x - 1))| == |multiset(ExchangeRows(plan, x - 1))|;
      assert |multiset(PrefixRows(plan, x))| == |multiset(PrefixRows(plan, x - 1))| + |multiset(ExchangeRows(plan, x - 1))|;
    }
  }

  ghost function PlanRecordCount(plan: seq<Stream>): nat {
    if plan == [] then 0 else plan[0].spread.records + PlanRecordCount(plan[1..])
  }

  lemma {:induction false} PlanRowsLength(plan: seq<Stream>)
    requires forall k :: 0 <= k < |plan| ==> plan[k].Valid()
    ensures |PlanRows(plan)| == PlanRecordCount(plan)
  {
    if plan != [] {
      RowsLength(plan[0], 0, plan[0].spread.records);
      PlanRowsLength(plan[1..]);
    }
  }

  /** The planned row counts of the exchanges add up to the plan's record count, so the
      supervisor's coverage check passes on honest children. */
  lemma ExchangeCountsCoverPlan(plan: seq<Stream>)
    requires Shaped(plan)
    ensures ExchangeTotal(plan, |plan[0].exchanges|) == PlanRecordCount(plan)
  {
    ExchangeTotalIsPrefix(plan, |plan[0].exchanges|);
    PrefixEnds(plan, |plan[0].exchanges|);
    PlanRowsLength(plan);
  }
}
