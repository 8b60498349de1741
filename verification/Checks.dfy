/** What the pipeline's own checks guarantee when the chunks may hold anything: rows out of order, chunks out of
    place, too few or too many rows. */
module Checks {
  import opened Workload
  import opened Ordering
  import opened Spool
  import opened Chunks
  import opened Pipeline

  /** The rows that the admitter has attempted, wherever they are by now. */
  function Attempted(st: State): seq<Row>
    requires st.admitter.current.Some? ==> st.admitter.done <= |st.admitter.current.value.rows|
  {
    st.tracer.trace + st.tracer.writing + BatchRows(st.batches)
    + (if st.admitter.current.Some? then st.admitter.current.value.rows[..st.admitter.done] else [])
  }

  /** The admitter's place: inside the chunk it expected. */
  ghost predicate Placed(parts: seq<seq<Chunk>>, a: Admitter) {
    && a.second <= |parts|
    && (a.current.Some? ==>
          && a.second < |parts| && a.done <= |a.current.value.rows|
          && a.current.value.second == a.second && a.current.value.index == a.chunk)
    && (a.drained ==> a.current.None? && a.second == |parts| && a.attempted == |Schedule(parts)|)
    && (a.ended ==> a.drained)
  }

  /** The end of the trace comes last in its queue, and once. */
  ghost predicate EndsOnce(st: State) {
    && (!st.tracer.busy ==> st.tracer.writing == [])
    && (forall i :: 0 <= i < |st.batches| && st.batches[i].End? ==> i == |st.batches| - 1 && st.admitter.ended)
    && (st.tracer.ended ==> st.admitter.ended && !st.tracer.busy && st.batches == [])
    && (st.admitter.ended ==> st.tracer.ended || (st.batches != [] && st.batches[|st.batches| - 1].End?))
  }

  /** The attempted rows second by second: strictly increasing in each, the last second being still open, and the
      admitter remembers its last row. */
  ghost predicate BySecond(a: Admitter, rows: seq<Row>, seconds: seq<seq<Row>>) {
    && |seconds| == a.second + 1 && Flatten(seconds) == rows
    && (forall s :: 0 <= s < |seconds| ==> StrictlySorted(seconds[s]))
    && (a.current.None? && a.chunk == 0 ==> seconds[a.second] == [])
    && (a.current.Some? && a.chunk == 0 && a.done == 0 ==> seconds[a.second] == [])
    && (seconds[a.second] != [] ==> a.prior == Some(seconds[a.second][|seconds[a.second]| - 1]))
  }

  ghost predicate CheckedInv(parts: seq<seq<Chunk>>, st: State) {
    && Placed(parts, st.admitter) && EndsOnce(st)
    && |Attempted(st)| == st.admitter.attempted
    && exists seconds :: BySecond(st.admitter, Attempted(st), seconds)
  }

  lemma {:induction false} BatchRowsSnoc(batches: seq<Message<seq<Row>>>, last: Message<seq<Row>>)
    ensures BatchRows(batches + [last]) == BatchRows(batches) + (if last.Data? then last.value else [])
  {
    var all := batches + [last];
    if batches == [] {
      assert all == [last] && all[1..] == [];
      assert BatchRows(all[1..]) == [];
    } else {
      BatchRowsSnoc(batches[1..], last);
      assert all[0] == batches[0] && all[1..] == batches[1..] + [last];
      var head := if batches[0].Data? then batches[0].value else [];
      assert BatchRows(all) == head + BatchRows(all[1..]) && BatchRows(batches) == head + BatchRows(batches[1..]);
      hide BatchRows;
    }
  }

  lemma {:induction false} FlattenUpdateLast(seconds: seq<seq<Row>>, row: Row)
    requires seconds != []
    ensures var last := |seconds| - 1; Flatten(seconds[last := seconds[last] + [row]]) == Flatten(seconds) + [row]
  {
    var last := |seconds| - 1;
    var after := seconds[last := seconds[last] + [row]];
    if last == 0 {
      assert after == [seconds[0] + [row]] && seconds == [seconds[0]];
      assert after[1..] == [] && seconds[1..] == [];
    } else {
      FlattenUpdateLast(seconds[1..], row);
      assert after[1..] == seconds[1..][last - 1 := seconds[1..][last - 1] + [row]];
    }
  }

  /** One more row after the last one of its second. */
  lemma AttemptRow(a: Admitter, rows: seq<Row>, seconds: seq<seq<Row>>, row: Row) returns (after: seq<seq<Row>>)
    requires BySecond(a, rows, seconds) && a.current.Some?
    requires a.prior.Some? ==> KeyLess(a.prior.value, row)
    ensures BySecond(a.(done := a.done + 1, prior := Some(row), attempted := a.attempted + 1), rows + [row], after)
  {
    var open := seconds[a.second];
    after := seconds[a.second := open + [row]];
    FlattenUpdateLast(seconds, row);
    forall i, j | 0 <= i < j < |open + [row]| ensures KeyLess((open + [row])[i], (open + [row])[j]) {
      if j == |open| && i < |open| - 1 { assert KeyLess(open[i], open[|open| - 1]); }
    }
  }

  // ----- Every step keeps what has been checked ---------------------------------------------------

  lemma AdmitterPlaced(parts: seq<seq<Chunk>>, st: State, step: Step)
    requires Placed(parts, st.admitter) && EndsOnce(st) && AdmitterStep(parts, st, step).Some?
    ensures var after := AdmitterStep(parts, st, step).value;
            !after.refused ==> Placed(parts, after.admitter) && EndsOnce(after)
  {
  }

  /** Taking a chunk or an end attempts nothing, and a new second starts without a row before it. */
  lemma TakingAttemptsNothing(parts: seq<seq<Chunk>>, st: State, step: Step, seconds: seq<seq<Row>>)
    requires Placed(parts, st.admitter) && BySecond(st.admitter, Attempted(st), seconds)
    requires (step.TakeChunk? || step.TakeEnd?) && AdmitterStep(parts, st, step).Some?
    ensures var after := AdmitterStep(parts, st, step).value;
            !after.refused ==>
              && after.admitter.attempted == st.admitter.attempted
              && (after.admitter.current.Some? ==> after.admitter.done <= |after.admitter.current.value.rows|)
              && Attempted(after) == Attempted(st) && BySecond(after.admitter, Attempted(after), seconds)
  {
    hide StrictlySorted;
  }

  lemma PuttingAttemptsNothing(parts: seq<seq<Chunk>>, st: State, step: Step, seconds: seq<seq<Row>>)
    returns (next: seq<seq<Row>>)
    requires Placed(parts, st.admitter) && BySecond(st.admitter, Attempted(st), seconds)
    requires (step.PutBatch? || step.EndTrace?) && AdmitterStep(parts, st, step).Some?
    ensures var after := AdmitterStep(parts, st, step).value;
            && after.admitter.attempted == st.admitter.attempted
            && (after.admitter.current.Some? ==> after.admitter.done <= |after.admitter.current.value.rows|)
            && Attempted(after) == Attempted(st) && BySecond(after.admitter, Attempted(after), next)
  {
    var a := st.admitter;
    next := seconds;
    if step.PutBatch? {
      BatchRowsSnoc(st.batches, Data(a.current.value.rows));
      assert a.current.value.rows[..a.done] == a.current.value.rows;
      if a.current.value.last {
        FlattenSnoc(seconds, []);
        next := seconds + [[]];
      }
    } else {
      BatchRowsSnoc(st.batches, End);
    }
    hide BatchRows;
    assert Attempted(AdmitterStep(parts, st, step).value) == Attempted(st);
  }

  lemma AdmittingAttemptsOne(parts: seq<seq<Chunk>>, st: State, seconds: seq<seq<Row>>) returns (next: seq<seq<Row>>)
    requires Placed(parts, st.admitter) && BySecond(st.admitter, Attempted(st), seconds)
    requires AdmitterStep(parts, st, AdmitRow).Some? && !AdmitterStep(parts, st, AdmitRow).value.refused
    ensures var after := AdmitterStep(parts, st, AdmitRow).value;
            && after.admitter.attempted == st.admitter.attempted + 1
            && (after.admitter.current.Some? ==> after.admitter.done <= |after.admitter.current.value.rows|)
            && |Attempted(after)| == |Attempted(st)| + 1 && BySecond(after.admitter, Attempted(after), next)
  {
    var a := st.admitter;
    var row := a.current.value.rows[a.done];
    next := AttemptRow(a, Attempted(st), seconds, row);
    hide BySecond, BatchRows;
    assert a.current.value.rows[..a.done + 1] == a.current.value.rows[..a.done] + [row];
    assert Attempted(AdmitterStep(parts, st, AdmitRow).value) == Attempted(st) + [row];
  }

  lemma AdmitterChecks(parts: seq<seq<Chunk>>, st: State, step: Step)
    requires CheckedInv(parts, st) && AdmitterStep(parts, st, step).Some?
    ensures var after := AdmitterStep(parts, st, step).value; !after.refused ==> CheckedInv(parts, after)
  {
    var after := AdmitterStep(parts, st, step).value;
    AdmitterPlaced(parts, st, step);
    var seconds :| BySecond(st.admitter, Attempted(st), seconds);
    if !after.refused {
      var next := seconds;
      if step.TakeChunk? || step.TakeEnd? {
        TakingAttemptsNothing(parts, st, step, seconds);
      } else if step.AdmitRow? {
        next := AdmittingAttemptsOne(parts, st, seconds);
      } else {
        next := PuttingAttemptsNothing(parts, st, step, seconds);
      }
      hide BySecond, Attempted, EndsOnce, Placed, AdmitterStep;
      assert BySecond(after.admitter, Attempted(after), next);
    }
  }

  lemma TracerMovesRows(st: State, step: Step)
    requires EndsOnce(st) && TracerStep(st, step).Some?
    ensures var after := TracerStep(st, step).value;
            && after.admitter == st.admitter && EndsOnce(after)
            && after.tracer.trace + after.tracer.writing + BatchRows(after.batches)
               == st.tracer.trace + st.tracer.writing + BatchRows(st.batches)
  {
    var t := st.tracer;
    if step.WriteRows? {
      assert t.writing == t.writing[..step.count] + t.writing[step.count..];
    } else if step.TakeBatch? {
      TakingABatch(t.trace, st.batches);
    }
    hide BatchRows;
  }

  lemma TakingABatch(trace: seq<Row>, batches: seq<Message<seq<Row>>>)
    requires batches != []
    ensures trace + [] + BatchRows(batches) == trace + (if batches[0].Data? then batches[0].value else []) + BatchRows(batches[1..])
  {
  }

  lemma TracerChecks(parts: seq<seq<Chunk>>, st: State, step: Step)
    requires CheckedInv(parts, st) && TracerStep(st, step).Some?
    ensures CheckedInv(parts, TracerStep(st, step).value)
  {
    var after := TracerStep(st, step).value;
    TracerMovesRows(st, step);
    var seconds :| BySecond(st.admitter, Attempted(st), seconds);
    hide BySecond, EndsOnce, Placed, TracerStep;
    assert Attempted(after) == Attempted(st);
  }

  lemma StepChecks(parts: seq<seq<Chunk>>, st: State, step: Step)
    requires CheckedInv(parts, st) && Apply(parts, st, step).Some?
    ensures var after := Apply(parts, st, step).value; !after.refused ==> CheckedInv(parts, after)
    ensures st.refused ==> Apply(parts, st, step).value.refused
  {
    match step
    case TakeChunk | AdmitRow | PutBatch | TakeEnd | EndTrace =>
      hide CheckedInv;
      AdmitterChecks(parts, st, step);
    case TakeBatch | WriteRows(_) | FinishBatch =>
      hide CheckedInv;
      TracerChecks(parts, st, step);
    case _ => OthersAttemptNothing(parts, st, step);
  }

  lemma OthersAttemptNothing(parts: seq<seq<Chunk>>, st: State, step: Step)
    requires CheckedInv(parts, st) && Apply(parts, st, step).Some?
    requires !(step.TakeChunk? || step.AdmitRow? || step.PutBatch? || step.TakeEnd? || step.EndTrace?)
    requires !(step.TakeBatch? || step.WriteRows? || step.FinishBatch?)
    ensures CheckedInv(parts, Apply(parts, st, step).value)
    ensures st.refused ==> Apply(parts, st, step).value.refused
  {
    OthersLeaveRows(parts, st, step);
    hide BySecond, Placed, BatchRows, Apply;
  }

  lemma OthersLeaveRows(parts: seq<seq<Chunk>>, st: State, step: Step)
    requires Apply(parts, st, step).Some?
    requires !(step.TakeChunk? || step.AdmitRow? || step.PutBatch? || step.TakeEnd? || step.EndTrace?)
    requires !(step.TakeBatch? || step.WriteRows? || step.FinishBatch?)
    ensures var after := Apply(parts, st, step).value;
            && after.admitter == st.admitter && after.tracer == st.tracer && after.batches == st.batches
            && (st.refused ==> after.refused)
  {
    hide ChunkRows, Schedule;
  }

  lemma StartChecks(parts: seq<seq<Chunk>>)
    ensures CheckedInv(parts, Start())
  {
    var seconds: seq<seq<Row>> := [[]];
    assert Flatten(seconds) == [];
    assert BySecond(Start().admitter, Attempted(Start()), seconds);
  }

  lemma {:induction false} RunChecks(parts: seq<seq<Chunk>>, states: seq<State>, k: nat)
    requires Run(parts, states) && k < |states| && !states[k].refused
    ensures CheckedInv(parts, states[k])
  {
    hide CheckedInv, Apply;
    if k == 0 {
      StartChecks(parts);
    } else {
      var step :| Apply(parts, states[k - 1], step) == Some(states[k]);
      if states[k - 1].refused { RefusedStays(parts, states[k - 1], step); }
      RunChecks(parts, states, k - 1);
      StepChecks(parts, states[k - 1], step);
    }
  }

  lemma RefusedStays(parts: seq<seq<Chunk>>, st: State, step: Step)
    requires Apply(parts, st, step).Some? && st.refused
    ensures Apply(parts, st, step).value.refused
  {
  }

  // ----- The reader -----------------------------------------------------------------------------------

  /** What the reader has checked: the chunk it holds is the one its partition expects, no finished partition was
      empty, and at the end every partition is read and every row decoded. */
  ghost predicate ReaderChecked(parts: seq<seq<Chunk>>, r: Reader) {
    && r.expected <= |parts| && (r.active ==> r.expected < |parts|)
    && (r.held.Some? ==> r.active && r.held.value.second == r.expected && r.held.value.index == r.position - 1)
    && (forall s :: 0 <= s < r.expected ==> parts[s] != [])
    && (r.drained ==> !r.active && r.expected == |parts| && r.decoded == |Schedule(parts)|)
  }

  lemma ReaderStepChecks(parts: seq<seq<Chunk>>, st: State, step: Step)
    requires ReaderChecked(parts, st.reader) && Apply(parts, st, step).Some?
    ensures var after := Apply(parts, st, step).value; !after.refused ==> ReaderChecked(parts, after.reader)
  {
  }

  lemma {:induction false} RunChecksReader(parts: seq<seq<Chunk>>, states: seq<State>, k: nat)
    requires Run(parts, states) && k < |states| && !states[k].refused
    ensures ReaderChecked(parts, states[k].reader)
  {
    hide ReaderChecked, Apply;
    if k == 0 {
      assert ReaderChecked(parts, Start().reader) by { StartReader(parts); }
    } else {
      var step :| Apply(parts, states[k - 1], step) == Some(states[k]);
      if states[k - 1].refused { RefusedStays(parts, states[k - 1], step); }
      RunChecksReader(parts, states, k - 1);
      ReaderStepChecks(parts, states[k - 1], step);
    }
  }

  lemma StartReader(parts: seq<seq<Chunk>>)
    ensures ReaderChecked(parts, Start().reader)
  {
  }

  // ----- What the checks guarantee --------------------------------------------------------------------

  /** Whatever the chunks hold: as long as no check fails, the traced rows are a prefix of rows that increase strictly,
      by due time and then id, within each second, and the chunk at hand is the one its second expects. */
  lemma UnrefusedRowsAscend(parts: seq<seq<Chunk>>, states: seq<State>, k: nat) returns (seconds: seq<seq<Row>>)
    requires Run(parts, states) && k < |states| && !states[k].refused
    ensures states[k].tracer.trace <= Flatten(seconds) && |seconds| == states[k].admitter.second + 1
    ensures forall s, i, j :: 0 <= s < |seconds| && 0 <= i < j < |seconds[s]| ==>
              var a, b := seconds[s][i], seconds[s][j];
              a.due < b.due || (a.due == b.due && a.id < b.id)
    ensures var a := states[k].admitter;
            a.current.Some? ==> a.current.value.second == a.second && a.current.value.index == a.chunk
  {
    RunChecks(parts, states, k);
    var st := states[k];
    seconds :| BySecond(st.admitter, Attempted(st), seconds);
    hide EndsOnce;
    assert Attempted(st) == st.tracer.trace
      + (st.tracer.writing + BatchRows(st.batches)
         + (if st.admitter.current.Some? then st.admitter.current.value.rows[..st.admitter.done] else []));
    forall s | 0 <= s < |seconds| ensures StrictlySorted(seconds[s]) {
    }
  }

  /** Whatever the chunks hold: as long as no check fails, the reader holds the chunk that its partition expects, no
      finished partition is empty, and a reader at the end has decoded as many rows as the schedule has. */
  lemma UnrefusedReaderIsInPlace(parts: seq<seq<Chunk>>, states: seq<State>, k: nat)
    requires Run(parts, states) && k < |states| && !states[k].refused
    ensures var r := states[k].reader;
            && (r.held.Some? ==> r.held.value.second == r.expected && r.held.value.index == r.position - 1)
            && r.expected <= |parts| && (forall s :: 0 <= s < r.expected ==> parts[s] != [])
            && (r.drained ==> r.expected == |parts| && r.decoded == |Schedule(parts)|)
  {
    RunChecksReader(parts, states, k);
  }

  /** Whatever the chunks hold: a run that ends without a failed check has traced as many rows as the schedule has. */
  lemma UnrefusedRunIsComplete(parts: seq<seq<Chunk>>, states: seq<State>, k: nat)
    requires Run(parts, states) && k < |states| && !states[k].refused && states[k].tracer.ended
    ensures |states[k].tracer.trace| == states[k].admitter.attempted == |Schedule(parts)|
  {
    RunChecks(parts, states, k);
    var st := states[k];
    assert Attempted(st) == st.tracer.trace;
  }
}
