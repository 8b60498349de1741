/** Recomputing the per-second buckets from the trace, and what they must add up to. */
module Buckets {
  import opened Workload
  import opened Ordering
  import opened Allocation
  import opened Spacing
  import opened Schedule
  import opened PlanSchedule
  import Identities

  /** The facts of a planned event that a trace row repeats. */
  datatype Facts = Facts(id: nat, group: StreamGroup, dueNs: nat, payloadBytes: nat)

  /** A trace row; times are on the monotonic clock. */
  datatype Trace = Trace(facts: Facts, attemptStarted: int, completed: int, accepted: bool)

  /** The admission window of the run. */
  datatype Window = Window(started: int, seconds: nat) {
    function End(): int { started + seconds * ONE_SECOND_NS }
  }

  function DueSecond(f: Facts): int { f.dueNs / ONE_SECOND_NS }

  function ActualSecond(w: Window, t: Trace): int { (t.completed - w.started) / ONE_SECOND_NS }

  predicate Early(w: Window, t: Trace) { t.attemptStarted < w.started + t.facts.dueNs }

  predicate Late(w: Window, t: Trace) { t.completed >= w.started + t.facts.dueNs + ONE_SECOND_NS }

  predicate OutOfWindow(w: Window, t: Trace) {
    !(w.started <= t.attemptStarted < w.End() && w.started <= t.completed < w.End())
  }

  // ----- Reference counts -------------------------------------------------------------------

  datatype Field = Scheduled | Attempted | AcceptedRows | ActualRows | EarlyRows | LateRows | OutRows

  /** Whether a row counts towards a field of the bucket of one stream group and second. */
  predicate Counts(w: Window, field: Field, g: StreamGroup, s: int, t: Trace) {
    && t.facts.group == g
    && match field
       case Scheduled => DueSecond(t.facts) == s
       case Attempted => DueSecond(t.facts) == s
       case AcceptedRows => DueSecond(t.facts) == s && t.accepted
       case ActualRows => t.accepted && ActualSecond(w, t) == s
       case EarlyRows => DueSecond(t.facts) == s && Early(w, t)
       case LateRows => DueSecond(t.facts) == s && Late(w, t)
       case OutRows => DueSecond(t.facts) == s && OutOfWindow(w, t)
  }

  function Count(w: Window, field: Field, g: StreamGroup, s: int, rows: seq<Trace>): nat {
    if rows == [] then 0
    else Count(w, field, g, s, rows[..|rows| - 1]) + (if Counts(w, field, g, s, rows[|rows| - 1]) then 1 else 0)
  }

  function Bytes(w: Window, field: Field, g: StreamGroup, s: int, rows: seq<Trace>): nat {
    if rows == [] then 0
    else Bytes(w, field, g, s, rows[..|rows| - 1])
         + (if Counts(w, field, g, s, rows[|rows| - 1]) then rows[|rows| - 1].facts.payloadBytes else 0)
  }

  // ----- Buckets ----------------------------------------------------------------------------

  datatype Bucket = Bucket(
    scheduledCount: nat, attemptedCount: nat, acceptedCount: nat, admittedInActualSecond: nat,
    scheduledBytes: nat, attemptedBytes: nat, acceptedBytes: nat,
    earlyCount: nat, lateCount: nat, outOfWindowCount: nat)

  const EMPTY := Bucket(0, 0, 0, 0, 0, 0, 0, 0, 0, 0)

  type BucketMap = map<(StreamGroup, nat), Bucket>

  /** The bucket holds the reference counts of its group and second. */
  ghost predicate Tallies(w: Window, g: StreamGroup, s: nat, rows: seq<Trace>, b: Bucket) {
    && b.scheduledCount == Count(w, Scheduled, g, s, rows)
    && b.attemptedCount == Count(w, Attempted, g, s, rows)
    && b.acceptedCount == Count(w, AcceptedRows, g, s, rows)
    && b.admittedInActualSecond == Count(w, ActualRows, g, s, rows)
    && b.scheduledBytes == Bytes(w, Scheduled, g, s, rows)
    && b.attemptedBytes == Bytes(w, Attempted, g, s, rows)
    && b.acceptedBytes == Bytes(w, AcceptedRows, g, s, rows)
    && b.earlyCount == Count(w, EarlyRows, g, s, rows)
    && b.lateCount == Count(w, LateRows, g, s, rows)
    && b.outOfWindowCount == Count(w, OutRows, g, s, rows)
  }

  ghost predicate AllTally(w: Window, rows: seq<Trace>, buckets: BucketMap) {
    && (forall g, s: nat :: (g, s) in buckets <==> s < w.seconds)
    && (forall g, s: nat :: (g, s) in buckets ==> Tallies(w, g, s, rows, buckets[(g, s)]))
  }

  function Bit(b: bool): nat { if b then 1 else 0 }

  /** The counters of the due second that one row changes. */
  function AddScheduled(w: Window, b: Bucket, t: Trace): Bucket {
    var n := t.facts.payloadBytes;
    b.(scheduledCount := b.scheduledCount + 1, scheduledBytes := b.scheduledBytes + n,
       attemptedCount := b.attemptedCount + 1, attemptedBytes := b.attemptedBytes + n,
       acceptedCount := b.acceptedCount + Bit(t.accepted),
       acceptedBytes := b.acceptedBytes + (if t.accepted then n else 0),
       earlyCount := b.earlyCount + Bit(Early(w, t)),
       lateCount := b.lateCount + Bit(Late(w, t)),
       outOfWindowCount := b.outOfWindowCount + Bit(OutOfWindow(w, t)))
  }

  /** Adds one row: its due second counts it, and the second it was admitted in counts it too when
      that second is in the run. */
  method AddRow(w: Window, buckets: BucketMap, t: Trace, ghost rows: seq<Trace>) returns (after: BucketMap)
    requires AllTally(w, rows, buckets) && DueSecond(t.facts) < w.seconds
    ensures AllTally(w, rows + [t], after)
  {
    var key := (t.facts.group, DueSecond(t.facts));
    after := buckets[key := AddScheduled(w, buckets[key], t)];
    var second := ActualSecond(w, t);
    if t.accepted && 0 <= second < w.seconds {
      var actual := (t.facts.group, second);
      after := after[actual := after[actual].(admittedInActualSecond := after[actual].admittedInActualSecond + 1)];
    }
    assert (rows + [t])[..|rows|] == rows;
    forall g, s: nat | (g, s) in after ensures Tallies(w, g, s, rows + [t], after[(g, s)]) {
      assert Tallies(w, g, s, rows, buckets[(g, s)]);
    }
  }

  /** No row before the loop starts. */
  function EmptyBuckets(seconds: nat): (buckets: BucketMap)
    ensures forall g, s: nat :: (g, s) in buckets <==> s < seconds
    ensures forall key :: key in buckets ==> buckets[key] == EMPTY
  {
    map g: StreamGroup, s: nat | s < seconds :: (g, s) := EMPTY
  }

  /** Checks the trace against the oracle row by row and recomputes the buckets. It succeeds exactly
      when the trace repeats the planned facts in the planned order and number. */
  method ValidateTrace(expected: seq<Facts>, observed: seq<Trace>, w: Window) returns (r: Option<BucketMap>)
    requires forall k :: 0 <= k < |expected| ==> DueSecond(expected[k]) < w.seconds
    ensures r.Some? <==> Conforms(expected, observed)
    ensures r.Some? ==> AllTally(w, observed, r.value)
  {
    var buckets := EmptyBuckets(w.seconds);
    var k := 0;
    while k < |expected| || k < |observed|
      invariant k <= |expected| && k <= |observed|
      invariant forall i :: 0 <= i < k ==> observed[i].facts == expected[i]
      invariant AllTally(w, observed[..k], buckets)
      decreases |expected| - k
    {
      if k >= |expected| || k >= |observed| {
        return None;
      }
      if observed[k].facts != expected[k] {
        return None;
      }
      assert observed[..k + 1] == observed[..k] + [observed[k]];
      buckets := AddRow(w, buckets, observed[k], observed[..k]);
      k := k + 1;
    }
    assert observed[..k] == observed;
    r := Some(buckets);
  }

  ghost predicate Conforms(expected: seq<Facts>, observed: seq<Trace>) {
    |observed| == |expected| && forall k :: 0 <= k < |expected| ==> observed[k].facts == expected[k]
  }

  // ----- What the buckets guarantee ------------------------------------------------------------

  /** What a frozen bucket must satisfy. */
  predicate BucketContract(b: Bucket) {
    && b.acceptedCount <= b.attemptedCount <= b.scheduledCount
    && b.acceptedBytes <= b.attemptedBytes <= b.scheduledBytes
    && ((b.scheduledCount == 0) == (b.scheduledBytes == 0))
    && ((b.attemptedCount == 0) == (b.attemptedBytes == 0))
    && ((b.acceptedCount == 0) == (b.acceptedBytes == 0))
    && b.earlyCount <= b.attemptedCount && b.lateCount <= b.attemptedCount && b.outOfWindowCount <= b.attemptedCount
  }

  ghost predicate PositivePayloads(rows: seq<Trace>) {
    forall k :: 0 <= k < |rows| ==> 0 < rows[k].facts.payloadBytes
  }

  lemma CountsImplyScheduled(w: Window, field: Field, g: StreamGroup, s: int, t: Trace)
    requires field != ActualRows
    ensures Counts(w, field, g, s, t) ==> Counts(w, Scheduled, g, s, t)
    ensures Counts(w, Scheduled, g, s, t) <==> Counts(w, Attempted, g, s, t)
  {
  }

  lemma {:induction false} CountBounds(w: Window, field: Field, g: StreamGroup, s: int, rows: seq<Trace>)
    requires field != ActualRows && PositivePayloads(rows)
    ensures Count(w, field, g, s, rows) <= Count(w, Attempted, g, s, rows) == Count(w, Scheduled, g, s, rows)
    ensures Bytes(w, field, g, s, rows) <= Bytes(w, Attempted, g, s, rows) == Bytes(w, Scheduled, g, s, rows)
    ensures Count(w, field, g, s, rows) <= Bytes(w, field, g, s, rows)
    ensures Count(w, field, g, s, rows) == 0 ==> Bytes(w, field, g, s, rows) == 0
  {
    if rows != [] {
      var init, t := rows[..|rows| - 1], rows[|rows| - 1];
      hide Counts, Count, Bytes;
      CountBounds(w, field, g, s, init);
      assert rows == init + [t];
      CountSnoc(w, field, g, s, init, t);
      CountSnoc(w, Attempted, g, s, init, t);
      CountSnoc(w, Scheduled, g, s, init, t);
      CountsImplyScheduled(w, field, g, s, t);
    }
  }

  /** When a bucket is refused: a stage holds more records or bytes than the one before it, a stage has records but no
      bytes or bytes but no records, or more rows are faulted than attempted. */
  lemma RefusedBuckets(b: Bucket)
    ensures !BucketContract(b) <==>
      || b.scheduledCount < b.attemptedCount || b.attemptedCount < b.acceptedCount
      || b.scheduledBytes < b.attemptedBytes || b.attemptedBytes < b.acceptedBytes
      || (0 < b.scheduledCount && b.scheduledBytes == 0) || (b.scheduledCount == 0 && 0 < b.scheduledBytes)
      || (0 < b.attemptedCount && b.attemptedBytes == 0) || (b.attemptedCount == 0 && 0 < b.attemptedBytes)
      || (0 < b.acceptedCount && b.acceptedBytes == 0) || (b.acceptedCount == 0 && 0 < b.acceptedBytes)
      || b.attemptedCount < b.earlyCount || b.attemptedCount < b.lateCount || b.attemptedCount < b.outOfWindowCount
  {
  }

  /** Every recomputed bucket passes its contract. */
  lemma BucketsPassContract(w: Window, rows: seq<Trace>, buckets: BucketMap, g: StreamGroup, s: nat)
    requires AllTally(w, rows, buckets) && PositivePayloads(rows) && s < w.seconds
    ensures BucketContract(buckets[(g, s)])
    ensures var b := buckets[(g, s)];
            && b.acceptedCount <= b.attemptedCount <= b.scheduledCount && b.acceptedBytes <= b.attemptedBytes <= b.scheduledBytes
            && (b.scheduledCount == 0 <==> b.scheduledBytes == 0) && (b.attemptedCount == 0 <==> b.attemptedBytes == 0)
            && (b.acceptedCount == 0 <==> b.acceptedBytes == 0)
            && b.earlyCount <= b.attemptedCount && b.lateCount <= b.attemptedCount && b.outOfWindowCount <= b.attemptedCount
  {
    assert Tallies(w, g, s, rows, buckets[(g, s)]);
    CountBounds(w, Scheduled, g, s, rows);
    CountBounds(w, Attempted, g, s, rows);
    CountBounds(w, AcceptedRows, g, s, rows);
    CountBounds(w, EarlyRows, g, s, rows);
    CountBounds(w, LateRows, g, s, rows);
    CountBounds(w, OutRows, g, s, rows);
  }

  // ----- The buckets, by the rows' own times ------------------------------------------------------

  /** The places of the rows with a property. */
  function Where(rows: seq<Trace>, p: Trace -> bool): set<int> {
    set k | 0 <= k < |rows| && p(rows[k])
  }

  /** The bytes of the rows with a property. */
  function BytesWhere(rows: seq<Trace>, p: Trace -> bool): nat {
    if rows == [] then 0
    else (if p(rows[0]) then rows[0].facts.payloadBytes else 0) + BytesWhere(rows[1..], p)
  }

  lemma WhereSnoc(rows: seq<Trace>, t: Trace, p: Trace -> bool)
    ensures |Where(rows + [t], p)| == |Where(rows, p)| + Bit(p(t))
  {
    assert Where(rows + [t], p) == Where(rows, p) + (if p(t) then {|rows|} else {});
  }

  lemma {:induction false} BytesWhereSnoc(rows: seq<Trace>, t: Trace, p: Trace -> bool)
    ensures BytesWhere(rows + [t], p) == BytesWhere(rows, p) + (if p(t) then t.facts.payloadBytes else 0)
  {
    if rows != [] {
      BytesWhereSnoc(rows[1..], t, p);
      assert (rows + [t])[1..] == rows[1..] + [t];
    } else {
      assert rows + [t] == [t];
    }
  }

  lemma {:induction false} CountIsWhere(w: Window, field: Field, g: StreamGroup, s: int, rows: seq<Trace>, p: Trace -> bool)
    requires forall t :: p(t) <==> Counts(w, field, g, s, t)
    ensures Count(w, field, g, s, rows) == |Where(rows, p)|
    ensures Bytes(w, field, g, s, rows) == BytesWhere(rows, p)
  {
    if rows == [] {
      assert Where(rows, p) == {};
    } else {
      var n := |rows| - 1;
      CountIsWhere(w, field, g, s, rows[..n], p);
      hide Counts, Count, Bytes, Where, BytesWhere;
      assert rows == rows[..n] + [rows[n]];
      WhereSnoc(rows[..n], rows[n], p);
      BytesWhereSnoc(rows[..n], rows[n], p);
      CountSnoc(w, field, g, s, rows[..n], rows[n]);
    }
  }

  /** When a row counts towards each field. */
  lemma CountsMean(w: Window, g: StreamGroup, s: nat, t: Trace)
    ensures var due := t.facts.group == g && s * ONE_SECOND_NS <= t.facts.dueNs < (s + 1) * ONE_SECOND_NS;
            var end := w.started + w.seconds * ONE_SECOND_NS;
            && (Counts(w, Scheduled, g, s, t) <==> due) && (Counts(w, Attempted, g, s, t) <==> due)
            && (Counts(w, AcceptedRows, g, s, t) <==> due && t.accepted)
            && (Counts(w, EarlyRows, g, s, t) <==> due && t.attemptStarted < w.started + t.facts.dueNs)
            && (Counts(w, LateRows, g, s, t) <==> due && w.started + t.facts.dueNs + ONE_SECOND_NS <= t.completed)
            && (Counts(w, OutRows, g, s, t) <==>
                  (due && (t.attemptStarted < w.started || end <= t.attemptStarted || t.completed < w.started || end <= t.completed)))
            && (Counts(w, ActualRows, g, s, t) <==>
                  (t.facts.group == g && t.accepted
                   && s * ONE_SECOND_NS <= t.completed - w.started < (s + 1) * ONE_SECOND_NS))
  {
    assert DueSecond(t.facts) == s <==> s * ONE_SECOND_NS <= t.facts.dueNs < (s + 1) * ONE_SECOND_NS;
    assert ActualSecond(w, t) == s <==> s * ONE_SECOND_NS <= t.completed - w.started < (s + 1) * ONE_SECOND_NS;
    hide DueSecond, ActualSecond;
  }

  /** What each counter of a bucket counts: rows of its group that are due in its second, of these the ones accepted,
      begun before they are due, completed a second after that or later, and begun or completed outside the run;
      and accepted rows that are completed in its second, whenever they are due. */
  lemma BucketsByRows(w: Window, rows: seq<Trace>, buckets: BucketMap, g: StreamGroup, s: nat)
    requires AllTally(w, rows, buckets) && s < w.seconds
    ensures var b := buckets[(g, s)];
            var due := (t: Trace) => t.facts.group == g && s * ONE_SECOND_NS <= t.facts.dueNs < (s + 1) * ONE_SECOND_NS;
            var end := w.started + w.seconds * ONE_SECOND_NS;
            && b.scheduledCount == b.attemptedCount == |Where(rows, due)|
            && b.acceptedCount == |Where(rows, (t: Trace) => due(t) && t.accepted)|
            && b.earlyCount == |Where(rows, (t: Trace) => due(t) && t.attemptStarted < w.started + t.facts.dueNs)|
            && b.lateCount == |Where(rows, (t: Trace) => due(t) && w.started + t.facts.dueNs + ONE_SECOND_NS <= t.completed)|
            && b.outOfWindowCount == |Where(rows, (t: Trace) => due(t) &&
                 (t.attemptStarted < w.started || end <= t.attemptStarted || t.completed < w.started || end <= t.completed))|
            && b.admittedInActualSecond == |Where(rows, (t: Trace) => t.facts.group == g && t.accepted
                 && s * ONE_SECOND_NS <= t.completed - w.started < (s + 1) * ONE_SECOND_NS)|
            && b.scheduledBytes == b.attemptedBytes == BytesWhere(rows, due)
            && b.acceptedBytes == BytesWhere(rows, (t: Trace) => due(t) && t.accepted)
  {
    var due := (t: Trace) => t.facts.group == g && s * ONE_SECOND_NS <= t.facts.dueNs < (s + 1) * ONE_SECOND_NS;
    var end := w.started + w.seconds * ONE_SECOND_NS;
    assert Tallies(w, g, s, rows, buckets[(g, s)]);
    hide Counts, Count, Bytes, Where, BytesWhere, AllTally;
    forall t { CountsMean(w, g, s, t); }
    CountIsWhere(w, Scheduled, g, s, rows, due);
    CountIsWhere(w, Attempted, g, s, rows, due);
    CountIsWhere(w, AcceptedRows, g, s, rows, (t: Trace) => due(t) && t.accepted);
    CountIsWhere(w, EarlyRows, g, s, rows, (t: Trace) => due(t) && t.attemptStarted < w.started + t.facts.dueNs);
    CountIsWhere(w, LateRows, g, s, rows, (t: Trace) => due(t) && w.started + t.facts.dueNs + ONE_SECOND_NS <= t.completed);
    CountIsWhere(w, OutRows, g, s, rows, (t: Trace) => due(t) &&
      (t.attemptStarted < w.started || end <= t.attemptStarted || t.completed < w.started || end <= t.completed));
    CountIsWhere(w, ActualRows, g, s, rows, (t: Trace) => t.facts.group == g && t.accepted
      && s * ONE_SECOND_NS <= t.completed - w.started < (s + 1) * ONE_SECOND_NS);
  }

  // ----- Conservation ---------------------------------------------------------------------------

  /** A field summed over the first seconds. */
  function CountOver(w: Window, field: Field, g: StreamGroup, rows: seq<Trace>, seconds: nat): nat {
    if seconds == 0 then 0
    else CountOver(w, field, g, rows, seconds - 1) + Count(w, field, g, seconds - 1, rows)
  }

  function BytesOver(w: Window, field: Field, g: StreamGroup, rows: seq<Trace>, seconds: nat): nat {
    if seconds == 0 then 0
    else BytesOver(w, field, g, rows, seconds - 1) + Bytes(w, field, g, seconds - 1, rows)
  }

  /** The rows of a group that count towards a field in whatever second they are due. */
  function GroupRows(w: Window, field: Field, g: StreamGroup, rows: seq<Trace>): seq<Trace> {
    if rows == [] then []
    else
      var last := rows[|rows| - 1];
      GroupRows(w, field, g, rows[..|rows| - 1]) + (if CountsWhenDue(w, field, g, last) then [last] else [])
  }

  function TotalBytes(rows: seq<Trace>): nat {
    if rows == [] then 0 else TotalBytes(rows[..|rows| - 1]) + rows[|rows| - 1].facts.payloadBytes
  }

  lemma CountsAtDue(w: Window, field: Field, g: StreamGroup, s: int, t: Trace)
    requires field != ActualRows
    ensures Counts(w, field, g, s, t) <==> DueSecond(t.facts) == s && CountsWhenDue(w, field, g, t)
  {
  }

  lemma CountSnoc(w: Window, field: Field, g: StreamGroup, s: int, rows: seq<Trace>, t: Trace)
    ensures Count(w, field, g, s, rows + [t]) == Count(w, field, g, s, rows) + Bit(Counts(w, field, g, s, t))
    ensures Bytes(w, field, g, s, rows + [t])
         == Bytes(w, field, g, s, rows) + (if Counts(w, field, g, s, t) then t.facts.payloadBytes else 0)
  {
    assert (rows + [t])[..|rows|] == rows;
  }

  /** The row counts towards the field in the second it is due in. */
  predicate CountsWhenDue(w: Window, field: Field, g: StreamGroup, t: Trace) {
    Counts(w, field, g, DueSecond(t.facts), t)
  }

  lemma {:induction false} OneRowOneSecond(w: Window, field: Field, g: StreamGroup, rows: seq<Trace>, t: Trace, seconds: nat)
    requires field != ActualRows
    ensures CountOver(w, field, g, rows + [t], seconds)
         == CountOver(w, field, g, rows, seconds) + (if DueSecond(t.facts) < seconds then Bit(CountsWhenDue(w, field, g, t)) else 0)
  {
    hide Counts, Count, Bytes, DueSecond, CountsWhenDue, BytesOver;
    DueNotNegative(t);
    if seconds > 0 {
      OneRowOneSecond(w, field, g, rows, t, seconds - 1);
      CountsAtDue(w, field, g, seconds - 1, t);
      CountSnoc(w, field, g, seconds - 1, rows, t);
    }
  }

  lemma {:induction false} OneRowOneSecondBytes(w: Window, field: Field, g: StreamGroup, rows: seq<Trace>, t: Trace, seconds: nat)
    requires field != ActualRows
    ensures BytesOver(w, field, g, rows + [t], seconds)
         == BytesOver(w, field, g, rows, seconds)
            + (if DueSecond(t.facts) < seconds && CountsWhenDue(w, field, g, t) then t.facts.payloadBytes else 0)
  {
    hide Counts, Count, Bytes, DueSecond, CountsWhenDue, CountOver;
    DueNotNegative(t);
    if seconds > 0 {
      OneRowOneSecondBytes(w, field, g, rows, t, seconds - 1);
      CountsAtDue(w, field, g, seconds - 1, t);
      CountSnoc(w, field, g, seconds - 1, rows, t);
    }
  }

  lemma DueNotNegative(t: Trace)
    ensures 0 <= DueSecond(t.facts)
  {
  }

  lemma GroupRowsSnoc(w: Window, field: Field, g: StreamGroup, rows: seq<Trace>, t: Trace)
    ensures GroupRows(w, field, g, rows + [t])
         == GroupRows(w, field, g, rows) + (if CountsWhenDue(w, field, g, t) then [t] else [])
  {
    assert (rows + [t])[..|rows|] == rows;
  }

  lemma TotalBytesSnoc(rows: seq<Trace>, t: Trace)
    ensures TotalBytes(rows + [t]) == TotalBytes(rows) + t.facts.payloadBytes
  {
    assert (rows + [t])[..|rows|] == rows;
  }

  /** Summed over the seconds of the run, a bucket field counts every row of the group once: no row
      and no byte is lost or counted twice. */
  lemma {:induction false} BucketsConserve(w: Window, field: Field, g: StreamGroup, rows: seq<Trace>, seconds: nat)
    requires field != ActualRows
    requires forall k :: 0 <= k < |rows| ==> DueSecond(rows[k].facts) < seconds
    ensures CountOver(w, field, g, rows, seconds) == |GroupRows(w, field, g, rows)|
    ensures BytesOver(w, field, g, rows, seconds) == TotalBytes(GroupRows(w, field, g, rows))
  {
    if rows == [] {
      NoRowsNoCount(w, field, g, seconds);
    } else {
      var last := |rows| - 1;
      BucketsConserve(w, field, g, rows[..last], seconds);
      hide CountsWhenDue, CountOver, BytesOver, GroupRows, TotalBytes, DueSecond;
      OneRowOneSecond(w, field, g, rows[..last], rows[last], seconds);
      OneRowOneSecondBytes(w, field, g, rows[..last], rows[last], seconds);
      assert rows == rows[..last] + [rows[last]];
      GroupRowsSnoc(w, field, g, rows[..last], rows[last]);
      TotalBytesSnoc(GroupRows(w, field, g, rows[..last]), rows[last]);
      assert GroupRows(w, field, g, rows[..last]) + [] == GroupRows(w, field, g, rows[..last]);
    }
  }

  lemma {:induction false} NoRowsNoCount(w: Window, field: Field, g: StreamGroup, seconds: nat)
    ensures CountOver(w, field, g, [], seconds) == 0 && BytesOver(w, field, g, [], seconds) == 0
  {
    if seconds > 0 { NoRowsNoCount(w, field, g, seconds - 1); }
  }

  // ----- The burst second -----------------------------------------------------------------------

  ghost predicate Timely(w: Window, rows: seq<Trace>) {
    forall k :: 0 <= k < |rows| ==>
      !Early(w, rows[k]) && !Late(w, rows[k]) && rows[k].attemptStarted <= rows[k].completed
  }

  /** Accepted rows of a group due in second `due` and completed in second `s`. */
  function Crossing(w: Window, g: StreamGroup, due: int, s: int, rows: seq<Trace>): nat {
    if rows == [] then 0
    else
      var t := rows[|rows| - 1];
      Crossing(w, g, due, s, rows[..|rows| - 1])
      + Bit(t.facts.group == g && t.accepted && DueSecond(t.facts) == due && ActualSecond(w, t) == s)
  }

  /** A timely row completes in the second it is due in or in the next one. */
  lemma TimelySecond(w: Window, t: Trace)
    requires !Early(w, t) && !Late(w, t) && t.attemptStarted <= t.completed
    ensures ActualSecond(w, t) == DueSecond(t.facts) || ActualSecond(w, t) == DueSecond(t.facts) + 1
    ensures t.facts.dueNs % ONE_SECOND_NS == 0 ==> ActualSecond(w, t) == DueSecond(t.facts)
  {
  }

  /** When nothing is early or late, a second's actual admissions are the accepted rows due in it
      that complete in it, and the accepted rows of the second just before that spill over. */
  lemma {:induction false} ActualDecomposes(w: Window, g: StreamGroup, s: int, rows: seq<Trace>)
    requires Timely(w, rows)
    ensures Count(w, ActualRows, g, s, rows) == Crossing(w, g, s, s, rows) + Crossing(w, g, s - 1, s, rows)
  {
    if rows != [] {
      ActualDecomposes(w, g, s, rows[..|rows| - 1]);
      TimelySecond(w, rows[|rows| - 1]);
    }
  }

  /** Rows due exactly on the second never spill. */
  lemma {:induction false} OnTheSecond(w: Window, g: StreamGroup, s: int, rows: seq<Trace>)
    requires Timely(w, rows)
    requires forall k :: 0 <= k < |rows| && rows[k].facts.group == g && DueSecond(rows[k].facts) == s ==>
               rows[k].facts.dueNs % ONE_SECOND_NS == 0
    ensures Crossing(w, g, s, s, rows) == Count(w, AcceptedRows, g, s, rows)
  {
    if rows != [] {
      OnTheSecond(w, g, s, rows[..|rows| - 1]);
      TimelySecond(w, rows[|rows| - 1]);
    }
  }

  // ----- Counting planned rows --------------------------------------------------------------------

  predicate DueIn(item: Item<Planned>, g: StreamGroup, s: int) {
    item.body.group == g && item.due / ONE_SECOND_NS == s
  }

  function DueBit(g: StreamGroup, s: int): Item<Planned> -> nat {
    (item: Item<Planned>) => Bit(DueIn(item, g, s))
  }

  /** How many of the rows belong to the group and are due in the second. */
  function CountDue(items: seq<Item<Planned>>, g: StreamGroup, s: int): nat {
    SumBy(DueBit(g, s), items)
  }

  /** In its own stream, exactly the burst ordinals are due in the burst second. */
  lemma {:induction false} StreamBurstSecond(st: Stream, hi: nat, s: nat)
    requires st.Valid() && hi <= st.spread.records && st.timing.burstStartNs == s * ONE_SECOND_NS
    ensures CountDue(Rows(st, 0, hi), st.group, s) == |Selected(st.spread, true, 0, hi)|
    decreases hi
  {
    if hi > 0 {
      var o := hi - 1;
      StreamBurstSecond(st, o, s);
      SumBySnoc(DueBit(st.group, s), Rows(st, 0, o), RowAt(st, o));
      RowInBurstSecond(st, o, s);
    }
  }

  lemma RowInBurstSecond(st: Stream, o: nat, s: nat)
    requires st.Valid() && o < st.spread.records && st.timing.burstStartNs == s * ONE_SECOND_NS
    ensures DueIn(RowAt(st, o), st.group, s) <==> IsBurst(st.spread, o)
    ensures DueIn(RowAt(st, o), st.group, s) ==> RowAt(st, o).due == st.timing.burstStartNs
  {
    if !IsBurst(st.spread, o) {
      SmoothRankInRange(st, o);
      SmoothDueBounds(st.timing, |Selected(st.spread, false, 0, o)|);
    }
  }

  lemma {:induction false} OtherStream(st: Stream, hi: nat, g: StreamGroup, s: int)
    requires st.Valid() && hi <= st.spread.records && st.group != g
    ensures CountDue(Rows(st, 0, hi), g, s) == 0
    decreases hi
  {
    if hi > 0 {
      OtherStream(st, hi - 1, g, s);
      SumBySnoc(DueBit(g, s), Rows(st, 0, hi - 1), RowAt(st, hi - 1));
    }
  }

  ghost predicate DistinctGroups(plan: seq<Stream>) {
    forall i, j :: 0 <= i < j < |plan| ==> plan[i].group != plan[j].group
  }

  lemma {:induction false} OtherStreams(plan: seq<Stream>, g: StreamGroup, s: int)
    requires forall k :: 0 <= k < |plan| ==> plan[k].Valid() && plan[k].group != g
    ensures CountDue(PlanRows(plan), g, s) == 0
  {
    if plan != [] {
      OtherStream(plan[0], plan[0].spread.records, g, s);
      OtherStreams(plan[1..], g, s);
      SumByConcat(DueBit(g, s), Rows(plan[0], 0, plan[0].spread.records), PlanRows(plan[1..]));
    }
  }

  lemma {:induction false} PlanBurstSecond(plan: seq<Stream>, k: nat, s: nat)
    requires k < |plan| && forall i :: 0 <= i < |plan| ==> plan[i].Valid()
    requires DistinctGroups(plan) && plan[k].timing.burstStartNs == s * ONE_SECOND_NS
    ensures CountDue(PlanRows(plan), plan[k].group, s) == |Selected(plan[k].spread, true, 0, plan[k].spread.records)|
  {
    var g := plan[k].group;
    SumByConcat(DueBit(g, s), Rows(plan[0], 0, plan[0].spread.records), PlanRows(plan[1..]));
    if k == 0 {
      StreamBurstSecond(plan[0], plan[0].spread.records, s);
      OtherStreams(plan[1..], g, s);
    } else {
      OtherStream(plan[0], plan[0].spread.records, g, s);
      PlanBurstSecond(plan[1..], k - 1, s);
    }
  }

  /** The planned facts that the verifier compares with, row by row. */
  ghost predicate FactsOfSchedule(schedule: seq<Item<Planned>>, expected: seq<Facts>) {
    && |expected| == |schedule|
    && forall k :: 0 <= k < |expected| ==>
         expected[k].id == schedule[k].id && expected[k].group == schedule[k].body.group && expected[k].dueNs == schedule[k].due
  }

  lemma {:induction false} ScheduledIsCountDue(schedule: seq<Item<Planned>>, expected: seq<Facts>, observed: seq<Trace>,
                                               w: Window, g: StreamGroup, s: int)
    requires FactsOfSchedule(schedule, expected) && Conforms(expected, observed)
    ensures Count(w, Scheduled, g, s, observed) == CountDue(schedule, g, s)
  {
    if schedule != [] {
      var last := |schedule| - 1;
      ScheduledIsCountDue(schedule[..last], expected[..last], observed[..last], w, g, s);
    }
  }

  /** For every trace that conforms to a plan, the burst second of a stream schedules exactly the
      stream's planned burst. */
  lemma BurstSecondIsPlannedBurst(plan: seq<Stream>, p: StreamPlan, k: nat, expected: seq<Facts>, observed: seq<Trace>, w: Window)
    requires ValidPlan(plan) && DistinctGroups(plan) && k < |plan|
    requires p.Valid() && plan[k] == StreamOf(p, plan[k].ids)
    requires FactsOfSchedule(ScheduleOfPlan(plan), expected) && Conforms(expected, observed)
    ensures Count(w, Scheduled, p.group, p.burstSecond, observed) == p.scheduledBurstCount
  {
    ScheduledIsCountDue(ScheduleOfPlan(plan), expected, observed, w, p.group, p.burstSecond);
    SortIsSortedPermutation(PlanRows(plan));
    SumByPermutes(DueBit(p.group, p.burstSecond), ScheduleOfPlan(plan), PlanRows(plan));
    PlanBurstSecond(plan, k, p.burstSecond);
    DistributedBurstTotal(p);
  }

  // ----- The stream summary ------------------------------------------------------------------------

  function CountField(b: Bucket, field: Field): nat {
    match field
    case Scheduled => b.scheduledCount
    case Attempted => b.attemptedCount
    case AcceptedRows => b.acceptedCount
    case ActualRows => b.admittedInActualSecond
    case EarlyRows => b.earlyCount
    case LateRows => b.lateCount
    case OutRows => b.outOfWindowCount
  }

  datatype Stage = ScheduledStage | AttemptedStage | AcceptedStage

  function FieldOfStage(stage: Stage): Field {
    match stage
    case ScheduledStage => Scheduled
    case AttemptedStage => Attempted
    case AcceptedStage => AcceptedRows
  }

  function BytesField(b: Bucket, stage: Stage): nat {
    match stage
    case ScheduledStage => b.scheduledBytes
    case AttemptedStage => b.attemptedBytes
    case AcceptedStage => b.acceptedBytes
  }

  ghost predicate Covers(buckets: BucketMap, seconds: nat) {
    forall g, s: nat :: (g, s) in buckets <==> s < seconds
  }

  function SumCounts(buckets: BucketMap, field: Field, g: StreamGroup, seconds: nat): nat
    requires forall s: nat :: s < seconds ==> (g, s) in buckets
  {
    if seconds == 0 then 0
    else SumCounts(buckets, field, g, seconds - 1) + CountField(buckets[(g, seconds - 1)], field)
  }

  function SumBytes(buckets: BucketMap, stage: Stage, g: StreamGroup, seconds: nat): nat
    requires forall s: nat :: s < seconds ==> (g, s) in buckets
  {
    if seconds == 0 then 0
    else SumBytes(buckets, stage, g, seconds - 1) + BytesField(buckets[(g, seconds - 1)], stage)
  }

  /** The flags of a stream's runtime summary. */
  datatype Flags = Flags(plannedValuesMatch: bool, admissionValuesMatch: bool, burstValid: bool)

  function Summarize(buckets: BucketMap, p: StreamPlan, expectedBytes: nat, seconds: nat): Flags
    requires Covers(buckets, seconds) && p.burstSecond < seconds
  {
    var g := p.group;
    var burst := buckets[(g, p.burstSecond)];
    Flags(
      SumCounts(buckets, Scheduled, g, seconds) == p.expectedRecordCount
      && SumBytes(buckets, ScheduledStage, g, seconds) == expectedBytes,
      SumCounts(buckets, Attempted, g, seconds) == SumCounts(buckets, AcceptedRows, g, seconds) == p.expectedRecordCount
      && SumBytes(buckets, AttemptedStage, g, seconds) == SumBytes(buckets, AcceptedStage, g, seconds) == expectedBytes
      && SumCounts(buckets, EarlyRows, g, seconds) == 0
      && SumCounts(buckets, LateRows, g, seconds) == 0
      && SumCounts(buckets, OutRows, g, seconds) == 0,
      burst.scheduledCount == burst.attemptedCount == burst.acceptedCount
        == burst.admittedInActualSecond == p.scheduledBurstCount)
  }

  lemma {:induction false} SumCountsIsCountOver(w: Window, rows: seq<Trace>, buckets: BucketMap, field: Field, g: StreamGroup,
                                                seconds: nat)
    requires AllTally(w, rows, buckets) && seconds <= w.seconds
    ensures SumCounts(buckets, field, g, seconds) == CountOver(w, field, g, rows, seconds)
  {
    if seconds > 0 {
      SumCountsIsCountOver(w, rows, buckets, field, g, seconds - 1);
      assert Tallies(w, g, seconds - 1, rows, buckets[(g, seconds - 1)]);
    }
  }

  lemma {:induction false} SumBytesIsBytesOver(w: Window, rows: seq<Trace>, buckets: BucketMap, stage: Stage, g: StreamGroup,
                                               seconds: nat)
    requires AllTally(w, rows, buckets) && seconds <= w.seconds
    ensures SumBytes(buckets, stage, g, seconds) == BytesOver(w, FieldOfStage(stage), g, rows, seconds)
  {
    if seconds > 0 {
      SumBytesIsBytesOver(w, rows, buckets, stage, g, seconds - 1);
      assert Tallies(w, g, seconds - 1, rows, buckets[(g, seconds - 1)]);
    }
  }

  // ----- The burst flag -------------------------------------------------------------------------------

  lemma {:induction false} AllAcceptedWhenDue(w: Window, g: StreamGroup, s: int, rows: seq<Trace>)
    ensures Count(w, AcceptedRows, g, s, rows) <= Count(w, Scheduled, g, s, rows) == Count(w, Attempted, g, s, rows)
    ensures Count(w, AcceptedRows, g, s, rows) == Count(w, Scheduled, g, s, rows)
        <==> forall k :: 0 <= k < |rows| && rows[k].facts.group == g && DueSecond(rows[k].facts) == s ==> rows[k].accepted
  {
    if rows != [] {
      var last := |rows| - 1;
      AllAcceptedWhenDue(w, g, s, rows[..last]);
      assert forall k :: 0 <= k < last ==> rows[k] == rows[..last][k];
    }
  }

  lemma {:induction false} NoneCrosses(w: Window, g: StreamGroup, due: int, s: int, rows: seq<Trace>)
    ensures Crossing(w, g, due, s, rows) == 0
        <==> forall k :: 0 <= k < |rows| && rows[k].facts.group == g && rows[k].accepted && DueSecond(rows[k].facts) == due ==>
               ActualSecond(w, rows[k]) != s
  {
    if rows != [] {
      var last := |rows| - 1;
      NoneCrosses(w, g, due, s, rows[..last]);
      assert forall k :: 0 <= k < last ==> rows[k] == rows[..last][k];
    }
  }

  /** The k-th stream of a plan, the facts of the plan's schedule and the window of the run. */
  ghost predicate PlanOf(plan: seq<Stream>, p: StreamPlan, k: nat, expected: seq<Facts>, w: Window) {
    && ValidPlan(plan) && DistinctGroups(plan) && k < |plan|
    && p.Valid() && plan[k] == StreamOf(p, plan[k].ids)
    && p.durationNs == w.seconds * ONE_SECOND_NS
    && (forall i :: 0 <= i < |plan| ==> plan[i].timing.durationNs == p.durationNs)
    && FactsOfSchedule(ScheduleOfPlan(plan), expected)
  }

  /** A conforming trace of a plan, and the window it ran in. */
  ghost predicate TraceOf(plan: seq<Stream>, p: StreamPlan, k: nat, observed: seq<Trace>, expected: seq<Facts>, w: Window) {
    PlanOf(plan, p, k, expected, w) && Conforms(expected, observed)
  }

  /** A planned fact comes from a row of the schedule. */
  lemma FactSource(plan: seq<Stream>, expected: seq<Facts>, j: nat) returns (row: Item<Planned>)
    requires ValidPlan(plan) && FactsOfSchedule(ScheduleOfPlan(plan), expected) && j < |expected|
    ensures row in PlanRows(plan)
    ensures expected[j].id == row.id && expected[j].group == row.body.group && expected[j].dueNs == row.due
  {
    hide PlanRows, Sort;
    SortIsSortedPermutation(PlanRows(plan));
    row := ScheduleOfPlan(plan)[j];
    assert row in multiset(ScheduleOfPlan(plan));
  }

  lemma RowIsExpected(plan: seq<Stream>, expected: seq<Facts>, row: Item<Planned>) returns (j: nat)
    requires ValidPlan(plan) && FactsOfSchedule(ScheduleOfPlan(plan), expected) && row in PlanRows(plan)
    ensures j < |expected|
    ensures expected[j].id == row.id && expected[j].group == row.body.group && expected[j].dueNs == row.due
  {
    hide PlanRows, Sort;
    SortIsSortedPermutation(PlanRows(plan));
    assert row in multiset(ScheduleOfPlan(plan));
    j :| 0 <= j < |ScheduleOfPlan(plan)| && ScheduleOfPlan(plan)[j] == row;
  }

  /** Every planned row is due in the run, so the verifier always finds its bucket. */
  lemma ExpectedInRun(plan: seq<Stream>, p: StreamPlan, k: nat, expected: seq<Facts>, w: Window)
    requires PlanOf(plan, p, k, expected, w)
    ensures forall j :: 0 <= j < |expected| ==>
              DueSecond(expected[j]) < w.seconds && expected[j].dueNs + ONE_SECOND_NS < w.seconds * ONE_SECOND_NS
    ensures p.burstSecond + 1 < w.seconds
  {
    forall j | 0 <= j < |expected|
      ensures DueSecond(expected[j]) < w.seconds && expected[j].dueNs + ONE_SECOND_NS < w.seconds * ONE_SECOND_NS
    {
      var row := FactSource(plan, expected, j);
      RowsDueInRun(plan, p.durationNs, row);
    }
  }

  /** The rows of a stream that are due in its burst second are due exactly when it starts. */
  lemma BurstRowsDueTogether(plan: seq<Stream>, p: StreamPlan, k: nat, observed: seq<Trace>, expected: seq<Facts>, w: Window,
                             i: nat)
    requires TraceOf(plan, p, k, observed, expected, w) && i < |observed|
    requires observed[i].facts.group == p.group && DueSecond(observed[i].facts) == p.burstSecond
    ensures observed[i].facts.dueNs == p.burstStartNs
  {
    SortIsSortedPermutation(PlanRows(plan));
    var row := ScheduleOfPlan(plan)[i];
    assert row in multiset(ScheduleOfPlan(plan));
    var j, o := RowSource(plan, row);
    assert j == k;
    RowInBurstSecond(plan[k], o, p.burstSecond);
  }

  /** For a conforming trace in which nothing is early or late, the burst second's actual admissions
      are its accepted rows and exactly the accepted rows of the second just before that completed
      after the burst began. */
  lemma BurstSecondAdmissions(plan: seq<Stream>, p: StreamPlan, k: nat, observed: seq<Trace>, expected: seq<Facts>, w: Window)
    requires TraceOf(plan, p, k, observed, expected, w) && Timely(w, observed)
    ensures Count(w, ActualRows, p.group, p.burstSecond, observed)
         == Count(w, AcceptedRows, p.group, p.burstSecond, observed)
            + Crossing(w, p.group, p.burstSecond - 1, p.burstSecond, observed)
  {
    var g, s := p.group, p.burstSecond;
    ActualDecomposes(w, g, s, observed);
    forall i | 0 <= i < |observed| && observed[i].facts.group == g && DueSecond(observed[i].facts) == s
      ensures observed[i].facts.dueNs % ONE_SECOND_NS == 0
    {
      BurstRowsDueTogether(plan, p, k, observed, expected, w, i);
    }
    OnTheSecond(w, g, s, observed);
  }

  /** Every row of the stream's burst is accepted. */
  ghost predicate BurstAccepted(p: StreamPlan, observed: seq<Trace>) {
    forall i :: 0 <= i < |observed| && observed[i].facts.group == p.group && DueSecond(observed[i].facts) == p.burstSecond ==>
      observed[i].accepted
  }

  /** No accepted row of the stream that is due in the second before the burst completes in the burst second. */
  ghost predicate NoSpill(w: Window, p: StreamPlan, observed: seq<Trace>) {
    forall i :: 0 <= i < |observed| && observed[i].facts.group == p.group && observed[i].accepted
                && DueSecond(observed[i].facts) == p.burstSecond - 1 ==>
      ActualSecond(w, observed[i]) != p.burstSecond
  }

  lemma BurstFlagByCounts(w: Window, g: StreamGroup, s: nat, p: StreamPlan, observed: seq<Trace>, buckets: BucketMap,
                          expectedBytes: nat)
    requires AllTally(w, observed, buckets) && s < w.seconds && p.group == g && p.burstSecond == s
    requires Count(w, Scheduled, g, s, observed) == p.scheduledBurstCount
    requires Count(w, ActualRows, g, s, observed)
          == Count(w, AcceptedRows, g, s, observed) + Crossing(w, g, s - 1, s, observed)
    ensures Summarize(buckets, p, expectedBytes, w.seconds).burstValid <==> BurstAccepted(p, observed) && NoSpill(w, p, observed)
  {
    assert Tallies(w, g, s, observed, buckets[(g, s)]);
    AllAcceptedWhenDue(w, g, s, observed);
    NoneCrosses(w, g, s - 1, s, observed);
    hide Count, Crossing, SumCounts, SumBytes;
  }

  /** For a conforming trace in which nothing is early or late, the burst flag holds exactly when the
      whole burst is accepted and nothing spills over into its second. Full acceptance alone does not
      make it hold. */
  lemma BurstValidExactly(plan: seq<Stream>, p: StreamPlan, k: nat, observed: seq<Trace>, expected: seq<Facts>, w: Window,
                          buckets: BucketMap, expectedBytes: nat)
    requires TraceOf(plan, p, k, observed, expected, w) && Timely(w, observed)
    requires AllTally(w, observed, buckets)
    ensures Summarize(buckets, p, expectedBytes, w.seconds).burstValid <==> BurstAccepted(p, observed) && NoSpill(w, p, observed)
  {
    var g, s := p.group, p.burstSecond;
    BurstSecondIsPlannedBurst(plan, p, k, expected, observed, w);
    BurstSecondAdmissions(plan, p, k, observed, expected, w);
    BurstFlagByCounts(w, g, s, p, observed, buckets, expectedBytes);
  }

  // ----- When a clean run loses the burst flag -------------------------------------------------------

  /** The bucket that holds the reference counts. */
  function BucketOf(w: Window, g: StreamGroup, s: nat, rows: seq<Trace>): Bucket {
    Bucket(Count(w, Scheduled, g, s, rows), Count(w, Attempted, g, s, rows), Count(w, AcceptedRows, g, s, rows),
           Count(w, ActualRows, g, s, rows),
           Bytes(w, Scheduled, g, s, rows), Bytes(w, Attempted, g, s, rows), Bytes(w, AcceptedRows, g, s, rows),
           Count(w, EarlyRows, g, s, rows), Count(w, LateRows, g, s, rows), Count(w, OutRows, g, s, rows))
  }

  function BucketsOf(w: Window, rows: seq<Trace>): (buckets: BucketMap)
    ensures AllTally(w, rows, buckets) && Covers(buckets, w.seconds)
  {
    map g: StreamGroup, s: nat | s < w.seconds :: (g, s) := BucketOf(w, g, s, rows)
  }

  /** A conforming trace without a fault: every row is accepted, on time and inside the window. */
  ghost predicate CleanRun(expected: seq<Facts>, observed: seq<Trace>, w: Window) {
    && Conforms(expected, observed) && Timely(w, observed)
    && forall i :: 0 <= i < |observed| ==> observed[i].accepted && !OutOfWindow(w, observed[i])
  }

  /** Every row completes when it is due, but for one that completes as the given second begins. */
  function Delayed(w: Window, expected: seq<Facts>, j: nat, second: nat): (observed: seq<Trace>)
    ensures |observed| == |expected|
    ensures forall i :: 0 <= i < |expected| ==>
              observed[i] == Trace(expected[i], w.started + expected[i].dueNs,
                                   w.started + (if i == j then second * ONE_SECOND_NS else expected[i].dueNs), true)
  {
    seq(|expected|, i requires 0 <= i < |expected| =>
      Trace(expected[i], w.started + expected[i].dueNs,
            w.started + (if i == j then second * ONE_SECOND_NS else expected[i].dueNs), true))
  }

  /** Delaying a row that is due inside the second before the burst keeps the run clean, and the row spills. */
  lemma DelayedIsClean(p: StreamPlan, expected: seq<Facts>, w: Window, j: nat)
    requires j < |expected| && p.burstSecond < w.seconds
    requires forall i :: 0 <= i < |expected| ==> expected[i].dueNs < w.seconds * ONE_SECOND_NS
    requires expected[j].group == p.group
    requires p.burstSecond * ONE_SECOND_NS - ONE_SECOND_NS < expected[j].dueNs < p.burstSecond * ONE_SECOND_NS
    ensures CleanRun(expected, Delayed(w, expected, j, p.burstSecond), w)
    ensures !NoSpill(w, p, Delayed(w, expected, j, p.burstSecond))
  {
    var observed := Delayed(w, expected, j, p.burstSecond);
    assert ActualSecond(w, observed[j]) == p.burstSecond && DueSecond(observed[j].facts) == p.burstSecond - 1;
  }

  function TimingOf(p: StreamPlan): Timing
    requires p.scheduledBurstCount <= p.expectedRecordCount
  {
    Timing(p.burstStartNs, p.durationNs, p.expectedRecordCount - p.scheduledBurstCount)
  }

  /** A smooth row of the stream is due strictly inside the second before the burst. */
  ghost predicate SmoothJustBefore(p: StreamPlan)
    requires p.scheduledBurstCount <= p.expectedRecordCount
  {
    exists r: nat :: r < TimingOf(p).smoothCount && JustBeforeBurst(p, SmoothDue(TimingOf(p), r))
  }

  predicate JustBeforeBurst(p: StreamPlan, due: int) {
    p.burstStartNs - ONE_SECOND_NS < due < p.burstStartNs
  }

  lemma JustBeforeIsPlanned(plan: seq<Stream>, p: StreamPlan, k: nat, expected: seq<Facts>, w: Window, r: nat) returns (j: nat)
    requires PlanOf(plan, p, k, expected, w) && r < TimingOf(p).smoothCount
    ensures j < |expected| && expected[j].group == p.group && expected[j].dueNs == SmoothDue(TimingOf(p), r)
  {
    var st := plan[k];
    var n := st.spread.records;
    SelectionSizes(st.spread, 0, n);
    SmoothRowDue(st, 0, n, r);
    SideRowsFollowSelection(st, false, 0, n);
    SidesMakeRows(st, 0, n);
    var row := SideRows(st, false, 0, n)[r];
    assert row in multiset(SideRows(st, false, 0, n));
    assert row in multiset(Rows(st, 0, n));
    StreamRowIsPlanRow(plan, k, row);
    j := RowIsExpected(plan, expected, row);
  }

  lemma {:induction false} StreamRowIsPlanRow(plan: seq<Stream>, k: nat, row: Item<Planned>)
    requires k < |plan| && forall i :: 0 <= i < |plan| ==> plan[i].Valid()
    requires row in Rows(plan[k], 0, plan[k].spread.records)
    ensures row in PlanRows(plan)
  {
    if k > 0 { StreamRowIsPlanRow(plan[1..], k - 1, row); }
  }

  lemma PlannedIsJustBefore(plan: seq<Stream>, p: StreamPlan, k: nat, expected: seq<Facts>, w: Window, j: nat)
    requires PlanOf(plan, p, k, expected, w) && j < |expected|
    requires expected[j].group == p.group && JustBeforeBurst(p, expected[j].dueNs)
    ensures SmoothJustBefore(p)
  {
    var row := FactSource(plan, expected, j);
    var i, o := RowSource(plan, row);
    assert i == k;
    assert !IsBurst(plan[k].spread, o);
    SmoothRankInRange(plan[k], o);
    var r := |Selected(plan[k].spread, false, 0, o)|;
    assert plan[k].timing == TimingOf(p);
    assert r < TimingOf(p).smoothCount && SmoothDue(TimingOf(p), r) == row.due;
  }

  /** Some clean run of the plan loses the burst flag. */
  ghost predicate CanLoseBurst(p: StreamPlan, expected: seq<Facts>, w: Window, expectedBytes: nat) {
    exists observed ::
      && CleanRun(expected, observed, w) && p.burstSecond < w.seconds
      && !Summarize(BucketsOf(w, observed), p, expectedBytes, w.seconds).burstValid
  }

  lemma SpillLoses(plan: seq<Stream>, p: StreamPlan, k: nat, expected: seq<Facts>, w: Window, expectedBytes: nat, j: nat)
    requires PlanOf(plan, p, k, expected, w) && j < |expected|
    requires expected[j].group == p.group && JustBeforeBurst(p, expected[j].dueNs)
    ensures CanLoseBurst(p, expected, w, expectedBytes)
  {
    hide Summarize, BucketsOf, Count, Bytes, StreamPlan.Valid;
    ExpectedInRun(plan, p, k, expected, w);
    BurstStart(p);
    DelayedIsClean(p, expected, w, j);
    var observed := Delayed(w, expected, j, p.burstSecond);
    BurstValidExactly(plan, p, k, observed, expected, w, BucketsOf(w, observed), expectedBytes);
  }

  lemma BurstStart(p: StreamPlan)
    requires p.Valid()
    ensures p.burstStartNs == p.burstSecond * ONE_SECOND_NS
  {
  }

  lemma LosesBySpill(plan: seq<Stream>, p: StreamPlan, k: nat, expected: seq<Facts>, w: Window, observed: seq<Trace>,
                     expectedBytes: nat)
    returns (j: nat)
    requires PlanOf(plan, p, k, expected, w) && CleanRun(expected, observed, w) && p.burstSecond < w.seconds
    requires !Summarize(BucketsOf(w, observed), p, expectedBytes, w.seconds).burstValid
    ensures j < |expected| && expected[j].group == p.group && JustBeforeBurst(p, expected[j].dueNs)
  {
    hide Summarize, BucketsOf, Count, Bytes, StreamPlan.Valid;
    BurstStart(p);
    BurstValidExactly(plan, p, k, observed, expected, w, BucketsOf(w, observed), expectedBytes);
    j :| 0 <= j < |observed| && observed[j].facts.group == p.group && observed[j].accepted
         && DueSecond(observed[j].facts) == p.burstSecond - 1 && ActualSecond(w, observed[j]) == p.burstSecond;
    TimelySecond(w, observed[j]);
  }

  /** A run in which every row is accepted, on time and in the window can lose the burst flag exactly when
      the plan has a smooth row of the stream due inside the second before the burst. */
  lemma CleanRunLosesBurstExactly(plan: seq<Stream>, p: StreamPlan, k: nat, expected: seq<Facts>, w: Window, expectedBytes: nat)
    requires PlanOf(plan, p, k, expected, w)
    ensures p.scheduledBurstCount <= p.expectedRecordCount
    ensures CanLoseBurst(p, expected, w, expectedBytes) <==> SmoothJustBefore(p)
  {
    hide Summarize, BucketsOf, CleanRun, SmoothDue, JustBeforeBurst;
    CappedBurst(p);
    if SmoothJustBefore(p) {
      var r: nat :| r < TimingOf(p).smoothCount && JustBeforeBurst(p, SmoothDue(TimingOf(p), r));
      var j := JustBeforeIsPlanned(plan, p, k, expected, w, r);
      SpillLoses(plan, p, k, expected, w, expectedBytes, j);
    }
    if CanLoseBurst(p, expected, w, expectedBytes) {
      var observed :| CleanRun(expected, observed, w) && p.burstSecond < w.seconds
                      && !Summarize(BucketsOf(w, observed), p, expectedBytes, w.seconds).burstValid;
      var j := LosesBySpill(plan, p, k, expected, w, observed, expectedBytes);
      PlannedIsJustBefore(plan, p, k, expected, w, j);
    }
  }

  lemma CappedBurst(p: StreamPlan)
    requires p.Valid()
    ensures p.scheduledBurstCount <= p.expectedRecordCount
  {
  }

  const EXCHANGES: seq<Exchange> := [Binance, Okx, Bybit, Bitget, Kraken]

  /** The control stream of all five exchanges in a run of ten seconds: one record of each in the burst and
      fifteen around it, a little more than half a second apart. */
  function SlowControl(burstSecond: nat): StreamPlan {
    StreamPlan(Control, [ControlStream], EXCHANGES, [], 1, 1, 10 * ONE_SECOND_NS, 5, 5, 2, 5, 1, 20, 5, 5, burstSecond,
               burstSecond * ONE_SECOND_NS)
  }

  lemma SlowControlIsValid(burstSecond: nat)
    requires burstSecond < 9
    ensures var p := SlowControl(burstSecond);
            p.Valid() && p.group == Control && p.exchanges == EXCHANGES && p.durationNs == 10 * ONE_SECOND_NS
            && p.burstSecond == burstSecond && p.scheduledBurstCount <= p.expectedRecordCount
  {
  }

  /** Wherever its burst is, but for the very first second, a smooth record is due inside the second before. */
  lemma SlowControlSpills(burstSecond: nat)
    requires burstSecond < 9
    ensures SlowControl(burstSecond).scheduledBurstCount <= SlowControl(burstSecond).expectedRecordCount
    ensures SmoothJustBefore(SlowControl(burstSecond)) <==> 0 < burstSecond
  {
    var p := SlowControl(burstSecond);
    if 0 < burstSecond {
      var r := (15 * burstSecond - 1) / 8;
      assert SmoothDue(TimingOf(p), r) == r * 8_000_000_000 / 15;
      assert r < TimingOf(p).smoothCount && JustBeforeBurst(p, SmoothDue(TimingOf(p), r));
    }
  }

  /** The planned facts of a workload's schedule, with the payload size of every event. */
  function FactsFrom(size: nat -> nat, schedule: seq<Item<Planned>>): (expected: seq<Facts>)
    requires forall k :: 0 <= k < |schedule| ==> 0 <= schedule[k].due
    ensures FactsOfSchedule(schedule, expected) && SizesOf(size, expected)
  {
    seq(|schedule|, k requires 0 <= k < |schedule| => Facts(schedule[k].id, schedule[k].body.group, schedule[k].due, size(schedule[k].id)))
  }

  /** Every valid workload has a schedule that a verifier can compare a trace with. */
  lemma WorkloadIsPlan(digest: string -> nat, seed: nat, plans: seq<StreamPlan>, streams: seq<Stream>, k: nat, size: nat -> nat,
                       w: Window)
    returns (expected: seq<Facts>)
    requires Identities.ValidWorkload(plans) && Identities.StreamsOf(digest, seed, plans, streams) && Identities.Injective(digest)
    requires k < |plans| && w.seconds * ONE_SECOND_NS == plans[0].durationNs
    ensures PlanOf(streams, plans[k], k, expected, w) && SizesOf(size, expected)
  {
    hide Identities.EventIds, PlanRows, Sort, Identities.Injective, StreamPlan.Valid;
    Identities.WorkloadGivesValidPlan(digest, seed, plans, streams);
    var schedule := ScheduleOfPlan(streams);
    SortIsSortedPermutation(PlanRows(streams));
    forall i | 0 <= i < |schedule| ensures 0 <= schedule[i].due {
      assert schedule[i] in multiset(schedule);
      assert schedule[i] in PlanRows(streams);
      RowsDueInRun(streams, plans[0].durationNs, schedule[i]);
    }
    expected := FactsFrom(size, schedule);
  }

  /** A clean run of a valid workload that loses the burst flag of a stream with such a smooth row. */
  lemma WorkloadLosesBurst(digest: string -> nat, seed: nat, plans: seq<StreamPlan>, streams: seq<Stream>, k: nat,
                           size: nat -> nat, w: Window, p: StreamPlan)
    returns (expected: seq<Facts>, observed: seq<Trace>)
    requires Identities.ValidWorkload(plans) && Identities.StreamsOf(digest, seed, plans, streams) && Identities.Injective(digest)
    requires k < |plans| == |streams| && plans[k] == p && w.seconds * ONE_SECOND_NS == plans[0].durationNs
    requires p.scheduledBurstCount <= p.expectedRecordCount && SmoothJustBefore(p)
    ensures TraceOf(streams, p, k, observed, expected, w) && SizesOf(size, expected) && p.burstSecond < w.seconds
    ensures CleanRun(expected, observed, w)
    ensures !Summarize(BucketsOf(w, observed), p, SumBy(size, streams[k].ids), w.seconds).burstValid
  {
    hide PlanOf, SmoothJustBefore, Summarize, CleanRun, Identities.StreamsOf, Identities.Injective, Identities.ValidWorkload,
         SizesOf, SumBy, AllTally;
    var bytes := SumBy(size, streams[k].ids);
    expected := WorkloadIsPlan(digest, seed, plans, streams, k, size, w);
    CleanRunLosesBurstExactly(streams, p, k, expected, w, bytes);
    observed :| CleanRun(expected, observed, w) && p.burstSecond < w.seconds
                && !Summarize(BucketsOf(w, observed), p, bytes, w.seconds).burstValid;
    CleanConforms(expected, observed, w);
  }

  /** In every valid workload with this stream, whatever its other streams, its seed and its payloads, and wherever
      the stream's burst is but for the first second, a run in which every row is accepted, on time and in the
      window can lose the stream's burst flag. */
  lemma SpillLosesTheBurst(digest: string -> nat, seed: nat, plans: seq<StreamPlan>, streams: seq<Stream>, k: nat,
                           burstSecond: nat, size: nat -> nat, w: Window)
    returns (expected: seq<Facts>, observed: seq<Trace>)
    requires Identities.ValidWorkload(plans) && Identities.StreamsOf(digest, seed, plans, streams) && Identities.Injective(digest)
    requires 0 < burstSecond < 9 && k < |plans| == |streams| && plans[k] == SlowControl(burstSecond) && w.seconds == 10
    ensures TraceOf(streams, plans[k], k, observed, expected, w) && SizesOf(size, expected)
    ensures plans[k].burstSecond < w.seconds && CleanRun(expected, observed, w)
    ensures !Summarize(BucketsOf(w, observed), plans[k], SumBy(size, streams[k].ids), w.seconds).burstValid
  {
    hide TraceOf, SmoothJustBefore, Summarize, CleanRun, Identities.StreamsOf, Identities.Injective, SizesOf, SumBy, AllTally,
         BucketsOf, StreamPlan.Valid, Identities.ValidWorkload, SlowControl;
    SameDuration(plans, k);
    SlowControlIsValid(burstSecond);
    SlowControlSpills(burstSecond);
    expected, observed := WorkloadLosesBurst(digest, seed, plans, streams, k, size, w, plans[k]);
  }

  lemma SameDuration(plans: seq<StreamPlan>, k: nat)
    requires Identities.ValidWorkload(plans) && k < |plans|
    ensures plans[k].durationNs == plans[0].durationNs
  {
  }

  lemma CleanConforms(expected: seq<Facts>, observed: seq<Trace>, w: Window)
    requires CleanRun(expected, observed, w)
    ensures Conforms(expected, observed)
  {
  }

  /** A stream of any group, as slow as the control stream: ordinary groups on both markets, derivatives with
      their two logical streams on the perpetual one. */
  function SlowStream(group: StreamGroup, burstSecond: nat): StreamPlan {
    if group == Control then SlowControl(burstSecond)
    else
      SlowControl(burstSecond).(
        group := group, logicalStreams := if group == Derivative then [Funding, OpenInterest] else [Ordinary(group)],
        markets := if group == Derivative then [Perpetual] else [Spot, Perpetual], baseInstanceCount := 10,
        identityCount := 10, expectedRecordCount := 40, requiredBurstCount := 10, scheduledBurstCount := 10)
  }

  lemma SlowStreamIsValid(group: StreamGroup, burstSecond: nat)
    requires burstSecond < 9
    ensures SlowStream(group, burstSecond).Valid() && InScope(SlowStream(group, burstSecond), group, [Spot, Perpetual])
    ensures SlowStream(group, burstSecond).durationNs == 10 * ONE_SECOND_NS
    ensures SlowStream(group, burstSecond).burstSecond == burstSecond
  {
    SlowScopeIsValid(group, burstSecond);
    SlowCountsAreValid(group, burstSecond);
    hide StreamPlan.ValidScope, StreamPlan.ValidCounts;
  }

  lemma SlowScopeIsValid(group: StreamGroup, burstSecond: nat)
    ensures SlowStream(group, burstSecond).ValidScope()
  {
  }

  lemma SlowCountsAreValid(group: StreamGroup, burstSecond: nat)
    ensures SlowStream(group, burstSecond).ValidCounts()
  {
    hide StreamPlan.ValidScope;
  }

  /** The groups of a workload plan, in their declared order. */
  const GROUPS: seq<StreamGroup> := [Trade, BookLive, Ticker, Bbo, Derivative, Candle1m, BookDeepSnapshot, Control]

  /** A stream on all exchanges of the runner, with the workload's markets as its group uses them. */
  predicate InScope(p: StreamPlan, group: StreamGroup, markets: seq<Market>) {
    && p.group == group && p.exchanges == EXCHANGES && p.symbolsPerMarket == 1 && p.multiplier == 1
    && Perpetual in markets
    && p.markets == if group == Control then [] else if group == Derivative then [Perpetual] else markets
  }

  /** A workload whose streams have their bursts in the given seconds. */
  function SlowWorkload(burst: StreamGroup -> nat): (plans: seq<StreamPlan>)
    ensures |plans| == |GROUPS| && forall k :: 0 <= k < |plans| ==> plans[k] == SlowStream(GROUPS[k], burst(GROUPS[k]))
  {
    seq(|GROUPS|, k requires 0 <= k < |GROUPS| => SlowStream(GROUPS[k], burst(GROUPS[k])))
  }

  /** Whatever seconds are drawn for the bursts, there is a valid workload of all groups on all exchanges that has
      the control stream. */
  lemma SlowControlIsInAWorkload(burst: StreamGroup -> nat)
    requires forall g :: burst(g) < 9
    ensures Identities.ValidWorkload(SlowWorkload(burst))
    ensures forall k :: 0 <= k < |GROUPS| ==>
              InScope(SlowWorkload(burst)[k], GROUPS[k], [Spot, Perpetual])
              && SlowWorkload(burst)[k].burstSecond == burst(GROUPS[k])
    ensures SlowWorkload(burst)[|GROUPS| - 1] == SlowControl(burst(Control))
  {
    hide SlowStream, StreamPlan.Valid;
    forall k | 0 <= k < |GROUPS|
      ensures SlowWorkload(burst)[k].Valid() && InScope(SlowWorkload(burst)[k], GROUPS[k], [Spot, Perpetual])
      ensures SlowWorkload(burst)[k].durationNs == 10 * ONE_SECOND_NS && SlowWorkload(burst)[k].burstSecond == burst(GROUPS[k])
    {
      SlowStreamIsValid(GROUPS[k], burst(GROUPS[k]));
    }
    LastIsControl(burst);
  }

  lemma LastIsControl(burst: StreamGroup -> nat)
    ensures SlowStream(GROUPS[|GROUPS| - 1], burst(GROUPS[|GROUPS| - 1])) == SlowControl(burst(Control))
  {
  }

  // ----- The planned and admission flags ----------------------------------------------------------------

  lemma {:induction false} GroupRowsFull(w: Window, field: Field, g: StreamGroup, rows: seq<Trace>)
    requires field != ActualRows
    ensures |GroupRows(w, field, g, rows)| <= |GroupRows(w, Scheduled, g, rows)|
    ensures |GroupRows(w, field, g, rows)| == |GroupRows(w, Scheduled, g, rows)|
        <==> forall k :: 0 <= k < |rows| && rows[k].facts.group == g ==> CountsWhenDue(w, field, g, rows[k])
    ensures |GroupRows(w, field, g, rows)| == |GroupRows(w, Scheduled, g, rows)|
        ==> GroupRows(w, field, g, rows) == GroupRows(w, Scheduled, g, rows)
  {
    if rows != [] {
      var last := |rows| - 1;
      GroupRowsFull(w, field, g, rows[..last]);
      assert forall k :: 0 <= k < last ==> rows[k] == rows[..last][k];
      hide GroupRows, CountsWhenDue;
      var t := rows[last];
      assert rows == rows[..last] + [t];
      GroupRowsSnoc(w, field, g, rows[..last], t);
      GroupRowsSnoc(w, Scheduled, g, rows[..last], t);
      WhenDue(w, field, g, t);
    }
  }

  lemma {:induction false} GroupRowsNone(w: Window, field: Field, g: StreamGroup, rows: seq<Trace>)
    requires field != ActualRows
    ensures |GroupRows(w, field, g, rows)| == 0
        <==> forall k :: 0 <= k < |rows| && rows[k].facts.group == g ==> !CountsWhenDue(w, field, g, rows[k])
  {
    if rows != [] {
      var last := |rows| - 1;
      GroupRowsNone(w, field, g, rows[..last]);
      assert forall k :: 0 <= k < last ==> rows[k] == rows[..last][k];
      hide GroupRows, CountsWhenDue;
      var t := rows[last];
      assert rows == rows[..last] + [t];
      GroupRowsSnoc(w, field, g, rows[..last], t);
      WhenDue(w, field, g, t);
    }
  }

  lemma GroupRowsAll(w: Window, field: Field, g: StreamGroup, rows: seq<Trace>)
    requires field != ActualRows
    ensures |GroupRows(w, field, g, rows)| <= |GroupRows(w, Scheduled, g, rows)|
    ensures |GroupRows(w, field, g, rows)| == |GroupRows(w, Scheduled, g, rows)|
        <==> forall k :: 0 <= k < |rows| && rows[k].facts.group == g ==> CountsWhenDue(w, field, g, rows[k])
    ensures |GroupRows(w, field, g, rows)| == |GroupRows(w, Scheduled, g, rows)|
        ==> GroupRows(w, field, g, rows) == GroupRows(w, Scheduled, g, rows)
    ensures |GroupRows(w, field, g, rows)| == 0
        <==> forall k :: 0 <= k < |rows| && rows[k].facts.group == g ==> !CountsWhenDue(w, field, g, rows[k])
  {
    GroupRowsFull(w, field, g, rows);
    GroupRowsNone(w, field, g, rows);
  }

  lemma WhenDue(w: Window, field: Field, g: StreamGroup, t: Trace)
    requires field != ActualRows
    ensures CountsWhenDue(w, field, g, t) ==> t.facts.group == g
    ensures CountsWhenDue(w, Scheduled, g, t) <==> t.facts.group == g
  {
  }

  /** The payload size of an event depends on its id alone. */
  function PlannedSize(size: nat -> nat, g: StreamGroup): Item<Planned> -> nat {
    (item: Item<Planned>) => SizeIn(size, g, item)
  }

  function SizeIn(size: nat -> nat, g: StreamGroup, item: Item<Planned>): nat {
    if item.body.group == g then size(item.id) else 0
  }

  function PlannedOne(g: StreamGroup): Item<Planned> -> nat {
    (item: Item<Planned>) => Bit(item.body.group == g)
  }

  ghost predicate SizesOf(size: nat -> nat, expected: seq<Facts>) {
    forall k :: 0 <= k < |expected| ==> expected[k].payloadBytes == size(expected[k].id)
  }

  lemma {:induction false} GroupRowsOfSchedule(schedule: seq<Item<Planned>>, expected: seq<Facts>, observed: seq<Trace>,
                                               w: Window, g: StreamGroup, size: nat -> nat)
    requires FactsOfSchedule(schedule, expected) && Conforms(expected, observed) && SizesOf(size, expected)
    ensures |GroupRows(w, Scheduled, g, observed)| == SumBy(PlannedOne(g), schedule)
    ensures TotalBytes(GroupRows(w, Scheduled, g, observed)) == SumBy(PlannedSize(size, g), schedule)
  {
    if schedule != [] {
      var last := |schedule| - 1;
      GroupRowsOfSchedule(schedule[..last], expected[..last], observed[..last], w, g, size);
      var t, before := observed[last], GroupRows(w, Scheduled, g, observed[..last]);
      assert observed == observed[..last] + [t] && schedule == schedule[..last] + [schedule[last]];
      GroupRowsSnoc(w, Scheduled, g, observed[..last], t);
      WhenDue(w, Scheduled, g, t);
      TotalBytesSnoc(before, t);
      SumBySnoc(PlannedOne(g), schedule[..last], schedule[last]);
      SumBySnoc(PlannedSize(size, g), schedule[..last], schedule[last]);
      hide GroupRows, TotalBytes, SumBy, CountsWhenDue;
      assert before + [] == before;
    }
  }

  lemma {:induction false} StreamSums(st: Stream, hi: nat, size: nat -> nat)
    requires st.Valid() && hi <= st.spread.records
    ensures SumBy(PlannedOne(st.group), Rows(st, 0, hi)) == hi
    ensures SumBy(PlannedSize(size, st.group), Rows(st, 0, hi)) == SumBy(size, st.ids[..hi])
    decreases hi
  {
    if hi > 0 {
      StreamSums(st, hi - 1, size);
      SumBySnoc(PlannedOne(st.group), Rows(st, 0, hi - 1), RowAt(st, hi - 1));
      SumBySnoc(PlannedSize(size, st.group), Rows(st, 0, hi - 1), RowAt(st, hi - 1));
      assert st.ids[..hi] == st.ids[..hi - 1] + [st.ids[hi - 1]];
      SumBySnoc(size, st.ids[..hi - 1], st.ids[hi - 1]);
    }
  }

  lemma {:induction false} OtherStreamSums(st: Stream, hi: nat, g: StreamGroup, size: nat -> nat)
    requires st.Valid() && hi <= st.spread.records && st.group != g
    ensures SumBy(PlannedOne(g), Rows(st, 0, hi)) == 0 == SumBy(PlannedSize(size, g), Rows(st, 0, hi))
    decreases hi
  {
    if hi > 0 {
      OtherStreamSums(st, hi - 1, g, size);
      SumBySnoc(PlannedOne(g), Rows(st, 0, hi - 1), RowAt(st, hi - 1));
      SumBySnoc(PlannedSize(size, g), Rows(st, 0, hi - 1), RowAt(st, hi - 1));
    }
  }

  lemma {:induction false} OtherStreamsSums(plan: seq<Stream>, g: StreamGroup, size: nat -> nat)
    requires forall k :: 0 <= k < |plan| ==> plan[k].Valid() && plan[k].group != g
    ensures SumBy(PlannedOne(g), PlanRows(plan)) == 0 == SumBy(PlannedSize(size, g), PlanRows(plan))
  {
    if plan != [] {
      OtherStreamSums(plan[0], plan[0].spread.records, g, size);
      OtherStreamsSums(plan[1..], g, size);
      SumByConcat(PlannedOne(g), Rows(plan[0], 0, plan[0].spread.records), PlanRows(plan[1..]));
      SumByConcat(PlannedSize(size, g), Rows(plan[0], 0, plan[0].spread.records), PlanRows(plan[1..]));
    }
  }

  lemma {:induction false} PlanSums(plan: seq<Stream>, k: nat, size: nat -> nat)
    requires k < |plan| && (forall i :: 0 <= i < |plan| ==> plan[i].Valid()) && DistinctGroups(plan)
    ensures SumBy(PlannedOne(plan[k].group), PlanRows(plan)) == plan[k].spread.records
    ensures SumBy(PlannedSize(size, plan[k].group), PlanRows(plan)) == SumBy(size, plan[k].ids)
  {
    var g, records := plan[k].group, plan[0].spread.records;
    SumByConcat(PlannedOne(g), Rows(plan[0], 0, records), PlanRows(plan[1..]));
    SumByConcat(PlannedSize(size, g), Rows(plan[0], 0, records), PlanRows(plan[1..]));
    if k == 0 {
      StreamSums(plan[0], records, size);
      assert plan[0].ids[..records] == plan[0].ids;
      OtherStreamsSums(plan[1..], g, size);
    } else {
      OtherStreamSums(plan[0], records, g, size);
      PlanSums(plan[1..], k - 1, size);
    }
  }

  lemma DueInRun(plan: seq<Stream>, p: StreamPlan, k: nat, observed: seq<Trace>, expected: seq<Facts>, w: Window)
    requires TraceOf(plan, p, k, observed, expected, w)
    requires forall j :: 0 <= j < |expected| ==> DueSecond(expected[j]) < w.seconds
    ensures forall j :: 0 <= j < |observed| ==> DueSecond(observed[j].facts) < w.seconds
  {
  }

  /** The rows and bytes that a conforming trace gives a stream are those of its plan. */
  lemma GroupTotals(plan: seq<Stream>, p: StreamPlan, k: nat, observed: seq<Trace>, expected: seq<Facts>, w: Window,
                    size: nat -> nat)
    requires TraceOf(plan, p, k, observed, expected, w) && SizesOf(size, expected)
    ensures |GroupRows(w, Scheduled, p.group, observed)| == p.expectedRecordCount
    ensures TotalBytes(GroupRows(w, Scheduled, p.group, observed)) == SumBy(size, plan[k].ids)
  {
    GroupRowsOfSchedule(ScheduleOfPlan(plan), expected, observed, w, p.group, size);
    SortIsSortedPermutation(PlanRows(plan));
    SumByPermutes(PlannedOne(p.group), ScheduleOfPlan(plan), PlanRows(plan));
    SumByPermutes(PlannedSize(size, p.group), ScheduleOfPlan(plan), PlanRows(plan));
    PlanSums(plan, k, size);
  }

  /** Every row of the stream is accepted, on time and inside the window. */
  ghost predicate AllAdmitted(w: Window, g: StreamGroup, rows: seq<Trace>) {
    forall i :: 0 <= i < |rows| && rows[i].facts.group == g ==>
      rows[i].accepted && !Early(w, rows[i]) && !Late(w, rows[i]) && !OutOfWindow(w, rows[i])
  }

  lemma FieldTotal(plan: seq<Stream>, p: StreamPlan, k: nat, observed: seq<Trace>, expected: seq<Facts>, w: Window,
                   buckets: BucketMap, field: Field)
    requires TraceOf(plan, p, k, observed, expected, w) && AllTally(w, observed, buckets)
    requires forall j :: 0 <= j < |expected| ==> DueSecond(expected[j]) < w.seconds
    requires field != ActualRows
    ensures SumCounts(buckets, field, p.group, w.seconds) == |GroupRows(w, field, p.group, observed)|
  {
    DueInRun(plan, p, k, observed, expected, w);
    SumCountsIsCountOver(w, observed, buckets, field, p.group, w.seconds);
    BucketsConserve(w, field, p.group, observed, w.seconds);
  }

  lemma StageTotal(plan: seq<Stream>, p: StreamPlan, k: nat, observed: seq<Trace>, expected: seq<Facts>, w: Window,
                   buckets: BucketMap, stage: Stage)
    requires TraceOf(plan, p, k, observed, expected, w) && AllTally(w, observed, buckets)
    requires forall j :: 0 <= j < |expected| ==> DueSecond(expected[j]) < w.seconds
    ensures SumBytes(buckets, stage, p.group, w.seconds) == TotalBytes(GroupRows(w, FieldOfStage(stage), p.group, observed))
  {
    DueInRun(plan, p, k, observed, expected, w);
    SumBytesIsBytesOver(w, observed, buckets, stage, p.group, w.seconds);
    BucketsConserve(w, FieldOfStage(stage), p.group, observed, w.seconds);
  }

  /** For every conforming trace the summary's planned values match the plan, and its admission
      values match exactly when every row of the stream is accepted, on time and in the window. */
  lemma SummaryFlagsExactly(plan: seq<Stream>, p: StreamPlan, k: nat, observed: seq<Trace>, expected: seq<Facts>, w: Window,
                            buckets: BucketMap, size: nat -> nat)
    requires TraceOf(plan, p, k, observed, expected, w) && SizesOf(size, expected)
    requires AllTally(w, observed, buckets)
    ensures var flags := Summarize(buckets, p, SumBy(size, plan[k].ids), w.seconds);
            && flags.plannedValuesMatch
            && (flags.admissionValuesMatch <==> AllAdmitted(w, p.group, observed))
  {
    GroupTotals(plan, p, k, observed, expected, w, size);
    ExpectedInRun(plan, p, k, expected, w);
    forall field: Field | field != ActualRows
      ensures SumCounts(buckets, field, p.group, w.seconds) == |GroupRows(w, field, p.group, observed)|
    {
      FieldTotal(plan, p, k, observed, expected, w, buckets, field);
    }
    forall stage: Stage
      ensures SumBytes(buckets, stage, p.group, w.seconds) == TotalBytes(GroupRows(w, FieldOfStage(stage), p.group, observed))
    {
      StageTotal(plan, p, k, observed, expected, w, buckets, stage);
    }
    assert Covers(buckets, w.seconds);
    hide GroupRows, TotalBytes, SumCounts, SumBytes, SumBy, TraceOf, AllTally, AllAdmitted, SizesOf, Summarize;
    FlagsByCounts(w, p, SumBy(size, plan[k].ids), observed, buckets);
  }

  lemma FlagsByCounts(w: Window, p: StreamPlan, expectedBytes: nat, observed: seq<Trace>, buckets: BucketMap)
    requires Covers(buckets, w.seconds) && p.burstSecond < w.seconds
    requires |GroupRows(w, Scheduled, p.group, observed)| == p.expectedRecordCount
    requires TotalBytes(GroupRows(w, Scheduled, p.group, observed)) == expectedBytes
    requires forall field: Field :: field != ActualRows ==>
               SumCounts(buckets, field, p.group, w.seconds) == |GroupRows(w, field, p.group, observed)|
    requires forall stage: Stage ::
               SumBytes(buckets, stage, p.group, w.seconds) == TotalBytes(GroupRows(w, FieldOfStage(stage), p.group, observed))
    ensures var flags := Summarize(buckets, p, expectedBytes, w.seconds);
            && flags.plannedValuesMatch
            && (flags.admissionValuesMatch <==> AllAdmitted(w, p.group, observed))
  {
    AdmittedByCounts(w, p.group, observed);
    hide GroupRows, TotalBytes, SumCounts, SumBytes, AllAdmitted;
  }

  lemma AdmittedByCounts(w: Window, g: StreamGroup, rows: seq<Trace>)
    ensures GroupRows(w, Attempted, g, rows) == GroupRows(w, Scheduled, g, rows)
    ensures |GroupRows(w, AcceptedRows, g, rows)| == |GroupRows(w, Scheduled, g, rows)| ==>
              GroupRows(w, AcceptedRows, g, rows) == GroupRows(w, Scheduled, g, rows)
    ensures AllAdmitted(w, g, rows) <==>
              && |GroupRows(w, AcceptedRows, g, rows)| == |GroupRows(w, Scheduled, g, rows)|
              && |GroupRows(w, EarlyRows, g, rows)| == 0
              && |GroupRows(w, LateRows, g, rows)| == 0
              && |GroupRows(w, OutRows, g, rows)| == 0
  {
    GroupRowsAll(w, Attempted, g, rows);
    GroupRowsAll(w, AcceptedRows, g, rows);
    GroupRowsAll(w, EarlyRows, g, rows);
    GroupRowsAll(w, LateRows, g, rows);
    GroupRowsAll(w, OutRows, g, rows);
    hide GroupRows;
  }
}
