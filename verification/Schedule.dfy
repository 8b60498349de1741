/** The event schedule of a stream, of the whole plan and of one exchange's slice. Every
    streaming generator is proved equal to one full sort of its planned rows, and merging
    the exchange schedules is proved to give back the plan schedule. */
module Schedule {
  import opened Arithmetic
  import opened Workload
  import opened Ordering
  import opened Allocation
  import opened Spacing

  /** What the oracle keeps of a planned row beside its key. */
  datatype Planned = Planned(group: StreamGroup, ordinal: nat)

  /** The facts of one stream plan that scheduling reads, with the event id of every ordinal. */
  datatype Stream = Stream(
    group: StreamGroup,
    exchanges: seq<Exchange>,
    spread: Spread,
    timing: Timing,
    ids: seq<nat>)
  {
    ghost predicate Valid() {
      && spread.Valid()
      && timing.Valid()
      && timing.smoothCount == |Selected(spread, false, 0, spread.records)|
      && |ids| == spread.records
      && exchanges != []
      && spread.identities % |exchanges| == 0
    }
  }

  lemma IdentitiesAreBalanced(p: StreamPlan)
    requires p.ValidScope() && p.ValidCounts()
    ensures 0 < |p.exchanges|
    ensures p.identityCount % |p.exchanges| == 0
  {
    var n := |p.exchanges|;
    if p.group == Control {
      DivModUnique(p.identityCount, n, 1, 0);
    } else {
      var pairs := if p.group == Derivative then 2 else 1;
      var per := |p.markets| * p.symbolsPerMarket * pairs * p.multiplier;
      if n == 0 {
        assert false;
      }
      assert p.identityCount == per * n;
      DivModUnique(p.identityCount, n, per, 0);
    }
  }

  function StreamOf(p: StreamPlan, ids: seq<nat>): Stream
    requires 0 < p.identityCount && p.scheduledBurstCount <= p.expectedRecordCount
  {
    Stream(p.group, p.exchanges, SpreadOf(p),
           Timing(p.burstStartNs, p.durationNs, p.expectedRecordCount - p.scheduledBurstCount), ids)
  }

  /** A validated stream plan gives a schedulable stream: its smooth count is the number of
      ordinals left by the burst, and its identities divide evenly over its exchanges. */
  lemma PlanGivesStream(p: StreamPlan, ids: seq<nat>)
    requires p.Valid() && |ids| == p.expectedRecordCount
    ensures StreamOf(p, ids).Valid()
  {
    DistributedBurstTotal(p);
    IdentitiesAreBalanced(p);
    FloorBrackets(p.durationNs, ONE_SECOND_NS);
  }

  // ----- The reference: one row per ordinal ------------------------------------------

  /** When an ordinal is due: at the burst start, or at its rank among the smooth ordinals. */
  function DueOf(st: Stream, ordinal: nat): int
    requires st.Valid() && ordinal < st.spread.records
  {
    if IsBurst(st.spread, ordinal) then st.timing.burstStartNs
    else
      SmoothRankInRange(st, ordinal);
      SmoothDue(st.timing, |Selected(st.spread, false, 0, ordinal)|)
  }

  lemma SmoothRankInRange(st: Stream, ordinal: nat)
    requires st.Valid() && ordinal < st.spread.records && !IsBurst(st.spread, ordinal)
    ensures |Selected(st.spread, false, 0, ordinal)| < st.timing.smoothCount
  {
    SelectedConcat(st.spread, false, 0, ordinal + 1, st.spread.records);
  }

  function RowAt(st: Stream, ordinal: nat): Item<Planned>
    requires st.Valid() && ordinal < st.spread.records
  {
    Item(DueOf(st, ordinal), st.ids[ordinal], Planned(st.group, ordinal))
  }

  /** The planned rows of the ordinals [lo, hi), in ordinal order. */
  function Rows(st: Stream, lo: nat, hi: nat): seq<Item<Planned>>
    requires st.Valid() && lo <= hi <= st.spread.records
    decreases hi
  {
    if lo == hi then [] else Rows(st, lo, hi - 1) + [RowAt(st, hi - 1)]
  }

  /** The rows of one side of the burst test. */
  function SideRows(st: Stream, burst: bool, lo: nat, hi: nat): seq<Item<Planned>>
    requires st.Valid() && lo <= hi <= st.spread.records
    decreases hi
  {
    if lo == hi then []
    else SideRows(st, burst, lo, hi - 1) + (if IsBurst(st.spread, hi - 1) == burst then [RowAt(st, hi - 1)] else [])
  }

  lemma {:induction false} SidesMakeRows(st: Stream, lo: nat, hi: nat)
    requires st.Valid() && lo <= hi <= st.spread.records
    ensures multiset(SideRows(st, true, lo, hi)) + multiset(SideRows(st, false, lo, hi)) == multiset(Rows(st, lo, hi))
    decreases hi
  {
    if lo != hi {
      SidesMakeRows(st, lo, hi - 1);
      hide RowAt, IsBurst;
      AddLast(SideRows(st, true, lo, hi - 1), SideRows(st, false, lo, hi - 1), Rows(st, lo, hi - 1), RowAt(st, hi - 1));
    }
  }

  lemma AddLast<T>(a: seq<T>, b: seq<T>, both: seq<T>, last: T)
    requires multiset(a) + multiset(b) == multiset(both)
    ensures multiset(a + [last]) + multiset(b) == multiset(both + [last])
    ensures multiset(a) + multiset(b + [last]) == multiset(both + [last])
    ensures a + [] == a && b + [] == b
  {
  }

  lemma {:induction false} RowsConcat(st: Stream, lo: nat, mid: nat, hi: nat)
    requires st.Valid() && lo <= mid <= hi <= st.spread.records
    ensures Rows(st, lo, hi) == Rows(st, lo, mid) + Rows(st, mid, hi)
    decreases hi
  {
    if mid != hi { RowsConcat(st, lo, mid, hi - 1); }
  }

  lemma {:induction false} SideRowsFollowSelection(st: Stream, burst: bool, lo: nat, hi: nat)
    requires st.Valid() && lo <= hi <= st.spread.records
    ensures var ordinals := Selected(st.spread, burst, lo, hi);
            && |SideRows(st, burst, lo, hi)| == |ordinals|
            && forall k :: 0 <= k < |ordinals| ==>
                 lo <= ordinals[k] < hi && SideRows(st, burst, lo, hi)[k] == RowAt(st, ordinals[k])
    decreases hi
  {
    if lo != hi { SideRowsFollowSelection(st, burst, lo, hi - 1); }
  }

  /** The k-th smooth row of a range has rank k among the stream's smooth ordinals, counted
      from the first ordinal of the range. */
  lemma {:induction false} SmoothRowDue(st: Stream, lo: nat, hi: nat, k: nat)
    requires st.Valid() && lo <= hi <= st.spread.records
    requires k < |Selected(st.spread, false, lo, hi)|
    ensures |SideRows(st, false, lo, hi)| == |Selected(st.spread, false, lo, hi)|
    ensures |Selected(st.spread, false, 0, lo)| + k < st.timing.smoothCount
    ensures SideRows(st, false, lo, hi)[k].due == SmoothDue(st.timing, |Selected(st.spread, false, 0, lo)| + k)
    decreases hi
  {
    SideRowsFollowSelection(st, false, lo, hi);
    if k < |Selected(st.spread, false, lo, hi - 1)| {
      SideRowsFollowSelection(st, false, lo, hi - 1);
      SmoothRowDue(st, lo, hi - 1, k);
    } else {
      SelectedConcat(st.spread, false, 0, lo, hi - 1);
      SmoothRankInRange(st, hi - 1);
    }
  }

  /** The burst rows of a range as the generator builds them. */
  lemma BurstRowShape(st: Stream, lo: nat, hi: nat, k: nat)
    requires st.Valid() && lo <= hi <= st.spread.records
    requires k < |Selected(st.spread, true, lo, hi)|
    ensures |SideRows(st, true, lo, hi)| == |Selected(st.spread, true, lo, hi)|
    ensures var ordinal := Selected(st.spread, true, lo, hi)[k];
            && ordinal < st.spread.records
            && SideRows(st, true, lo, hi)[k] == Item(st.timing.burstStartNs, st.ids[ordinal], Planned(st.group, ordinal))
  {
    SideRowsFollowSelection(st, true, lo, hi);
    SelectedMembers(st.spread, true, lo, hi);
    assert Selected(st.spread, true, lo, hi)[k] in Selected(st.spread, true, lo, hi);
  }

  /** The smooth rows of a range as the generator builds them. */
  lemma SmoothRowShape(st: Stream, lo: nat, hi: nat, k: nat)
    requires st.Valid() && lo <= hi <= st.spread.records
    requires k < |Selected(st.spread, false, lo, hi)|
    ensures |SideRows(st, false, lo, hi)| == |Selected(st.spread, false, lo, hi)|
    ensures 0 < st.timing.smoothCount
    ensures var ordinal := Selected(st.spread, false, lo, hi)[k];
            && ordinal < st.spread.records
            && SideRows(st, false, lo, hi)[k]
               == Item(SmoothDue(st.timing, |Selected(st.spread, false, 0, lo)| + k), st.ids[ordinal], Planned(st.group, ordinal))
  {
    SideRowsFollowSelection(st, false, lo, hi);
    SmoothRowDue(st, lo, hi, k);
  }

  lemma SmoothRowsNondecreasing(st: Stream, lo: nat, hi: nat, k: nat)
    requires st.Valid() && lo <= hi <= st.spread.records
    requires 0 < k < |SideRows(st, false, lo, hi)|
    ensures SideRows(st, false, lo, hi)[k - 1].due <= SideRows(st, false, lo, hi)[k].due
  {
    SideRowsFollowSelection(st, false, lo, hi);
    SmoothRowShape(st, lo, hi, k - 1);
    SmoothRowShape(st, lo, hi, k);
    var base := |Selected(st.spread, false, 0, lo)|;
    SmoothDueMono(st.timing, base + k - 1, base + k);
  }

  // ----- The streaming generators --------------------------------------------------

  /** Sorts the burst rows of a span by event id; all of them are due at the burst start. */
  method BurstScheduleForSpan(st: Stream, identityStart: nat, identityStop: nat)
    returns (schedule: seq<Item<Planned>>)
    requires st.Valid() && identityStart <= identityStop <= st.spread.identities
    ensures IdentityOrdinalStart(st.spread, identityStart) <= IdentityOrdinalStart(st.spread, identityStop) <= st.spread.records
    ensures schedule == Sort(SideRows(st, true, IdentityOrdinalStart(st.spread, identityStart),
                                                IdentityOrdinalStart(st.spread, identityStop)))
  {
    var ordinals := BurstOrdinalsForSpan(st.spread, identityStart, identityStop);
    ghost var lo := IdentityOrdinalStart(st.spread, identityStart);
    ghost var hi := IdentityOrdinalStart(st.spread, identityStop);
    ghost var expected := SideRows(st, true, lo, hi);
    SideRowsFollowSelection(st, true, lo, hi);
    var rows := [];
    for k := 0 to |ordinals|
      invariant rows == expected[..k]
    {
      BurstRowShape(st, lo, hi, k);
      rows := rows + [Item(st.timing.burstStartNs, st.ids[ordinals[k]], Planned(st.group, ordinals[k]))];
    }
    assert rows == expected;
    schedule := Sort(rows);
  }

  lemma SortedAppend<T>(a: seq<Item<T>>, b: seq<Item<T>>)
    requires Sorted(a) && Sorted(b)
    requires forall x, y :: x in a && y in b ==> x.due < y.due
    ensures Sorted(a + b)
  {
  }

  /** Streams the smooth rows of a span: rows with one due time are held back as a tie group
      and emitted in event-id order. Because due times never decrease, that is a full sort. */
  method SmoothScheduleForSpan(st: Stream, identityStart: nat, identityStop: nat)
    returns (schedule: seq<Item<Planned>>)
    requires st.Valid() && identityStart <= identityStop <= st.spread.identities
    ensures IdentityOrdinalStart(st.spread, identityStart) <= IdentityOrdinalStart(st.spread, identityStop) <= st.spread.records
    ensures Sorted(schedule)
    ensures multiset(schedule) == multiset(SideRows(st, false, IdentityOrdinalStart(st.spread, identityStart),
                                                               IdentityOrdinalStart(st.spread, identityStop)))
  {
    hide SideRows, IsBurst, DueOf;
    var indexed := IndexedSmoothOrdinalsForSpan(st.spread, identityStart, identityStop);
    ghost var lo := IdentityOrdinalStart(st.spread, identityStart);
    ghost var hi := IdentityOrdinalStart(st.spread, identityStop);
    ghost var rows := SideRows(st, false, lo, hi);
    SideRowsFollowSelection(st, false, lo, hi);
    schedule := [];
    if st.timing.smoothCount == 0 {
      if rows != [] { SmoothRowDue(st, lo, hi, 0); }
      return;
    }
    var tieGroup: seq<Item<Planned>> := [];
    for k := 0 to |indexed|
      invariant TieState(schedule, tieGroup, rows[..k])
    {
      var (index, ordinal) := indexed[k];
      SmoothRowShape(st, lo, hi, k);
      var row := Item(SmoothDue(st.timing, index), st.ids[ordinal], Planned(st.group, ordinal));
      if k > 0 { SmoothRowsNondecreasing(st, lo, hi, k); }
      assert rows[..k + 1] == rows[..k] + [row];
      schedule, tieGroup := PushRow(schedule, tieGroup, row, rows[..k]);
    }
    assert rows[..|indexed|] == rows;
    if tieGroup != [] {
      schedule := EmitTieGroup(schedule, tieGroup, tieGroup[0].due + 1);
    }
  }

  /** What the smooth generator holds after some rows: those of the last due time are in the
      tie group, all earlier ones are emitted in order. */
  ghost predicate TieState(emitted: seq<Item<Planned>>, tieGroup: seq<Item<Planned>>, seen: seq<Item<Planned>>) {
    && multiset(emitted) + multiset(tieGroup) == multiset(seen)
    && Sorted(emitted)
    && if seen == [] then emitted == [] && tieGroup == []
       else
         var due := seen[|seen| - 1].due;
         tieGroup != [] && SameDue(tieGroup, due) && AllBefore(emitted, due)
  }

  /** One row of the smooth generator: a new due time first flushes the tie group. */
  method PushRow(emitted: seq<Item<Planned>>, tieGroup: seq<Item<Planned>>, row: Item<Planned>,
                 ghost seen: seq<Item<Planned>>)
    returns (emitted': seq<Item<Planned>>, tieGroup': seq<Item<Planned>>)
    requires TieState(emitted, tieGroup, seen)
    requires seen == [] || seen[|seen| - 1].due <= row.due
    ensures TieState(emitted', tieGroup', seen + [row])
  {
    emitted', tieGroup' := emitted, tieGroup;
    if tieGroup != [] && row.due != tieGroup[0].due {
      emitted' := EmitTieGroup(emitted, tieGroup, row.due);
      tieGroup' := [];
    }
    tieGroup' := tieGroup' + [row];
  }

  ghost predicate SameDue(rows: seq<Item<Planned>>, due: int) {
    forall x :: x in rows ==> x.due == due
  }

  ghost predicate AllBefore(rows: seq<Item<Planned>>, due: int) {
    forall x :: x in rows ==> x.due < due
  }

  /** Sorts a finished tie group and appends it to the emitted rows. */
  method EmitTieGroup(emitted: seq<Item<Planned>>, tieGroup: seq<Item<Planned>>, nextDue: int)
    returns (schedule: seq<Item<Planned>>)
    requires Sorted(emitted) && tieGroup != []
    requires SameDue(tieGroup, tieGroup[0].due) && AllBefore(emitted, tieGroup[0].due)
    requires tieGroup[0].due < nextDue
    ensures Sorted(schedule)
    ensures multiset(schedule) == multiset(emitted) + multiset(tieGroup)
    ensures AllBefore(schedule, nextDue)
  {
    SortIsSortedPermutation(tieGroup);
    var ordered := Sort(tieGroup);
    forall x | x in ordered ensures x in tieGroup {
      assert x in multiset(ordered);
    }
    SortedAppend(emitted, ordered);
    schedule := emitted + ordered;
  }

  /** The schedule of a span of identities merges its burst and its smooth rows: the full
      sort of the span's planned rows. */
  method StreamScheduleForSpan(st: Stream, identityStart: nat, identityStop: nat)
    returns (schedule: seq<Item<Planned>>)
    requires st.Valid() && identityStart <= identityStop <= st.spread.identities
    ensures IdentityOrdinalStart(st.spread, identityStart) <= IdentityOrdinalStart(st.spread, identityStop) <= st.spread.records
    ensures Sorted(schedule)
    ensures multiset(schedule) == multiset(Rows(st, IdentityOrdinalStart(st.spread, identityStart),
                                                    IdentityOrdinalStart(st.spread, identityStop)))
  {
    var burst := BurstScheduleForSpan(st, identityStart, identityStop);
    var smooth := SmoothScheduleForSpan(st, identityStart, identityStop);
    ghost var lo := IdentityOrdinalStart(st.spread, identityStart);
    ghost var hi := IdentityOrdinalStart(st.spread, identityStop);
    SortIsSortedPermutation(SideRows(st, true, lo, hi));
    SidesMakeRows(st, lo, hi);
    MergeIsSorted(burst, smooth);
    MergeIsPermutation(burst, smooth);
    schedule := Merge(burst, smooth);
  }
}
