/** The pipeline cannot get stuck: unless it is aborted, some stage can move until the whole schedule is traced,
    and only so many moves are possible. */
module Progress {
  import opened Workload
  import opened Spool
  import opened Chunks
  import opened Pipeline

  /** A step that moves something: neither an abort nor an empty write. */
  predicate Moves(step: Step) {
    match step
    case Abort | CleanUp => false
    case WriteRows(count) => 0 < count
    case _ => true
  }

  ghost predicate CanMove(parts: seq<seq<Chunk>>, st: State) {
    exists step :: Moves(step) && Apply(parts, st, step).Some?
  }

  // ----- Some stage can always move -------------------------------------------------------------------

  lemma TracerCanMove(parts: seq<seq<Chunk>>, st: State)
    requires Inv(parts, st) && !st.tracer.ended && (st.tracer.busy || st.batches != [])
    ensures CanMove(parts, st)
  {
    hide ReaderInv, AdmitterInv, SpoolInv, ChunkInv, PriorInv, CountInv, TraceInv, WriterStep, ReaderStep, AdmitterStep;
    var step := if !st.tracer.busy then TakeBatch
                else if st.tracer.writing == [] then FinishBatch else WriteRows(|st.tracer.writing|);
    assert Moves(step) && Apply(parts, st, step).Some?;
  }

  lemma AdmitterCanMove(parts: seq<seq<Chunk>>, st: State)
    requires Inv(parts, st) && !st.tracer.ended && !st.tracer.busy && st.batches == []
    requires st.admitter.current.Some? || st.admitter.drained || st.chunks != []
    ensures CanMove(parts, st)
  {
    hide ReaderInv, SpoolInv, ChunkInv, PriorInv, CountInv, WriterStep, ReaderStep, TracerStep, Schedule, ChunkRows,
         AllChunks, BatchRows;
    var a := st.admitter;
    assert !a.ended;
    var step :=
      if a.drained then EndTrace
      else if a.current.Some? then if a.done < |a.current.value.rows| then AdmitRow else PutBatch
      else if a.second < |parts| then TakeChunk else TakeEnd;
    assert Moves(step) && Apply(parts, st, step).Some?;
  }

  lemma ReaderCanMove(parts: seq<seq<Chunk>>, st: State)
    requires Inv(parts, st) && !st.aborted && st.chunks == [] && !st.reader.ended
    requires st.reader.held.Some? || st.reader.active || st.reader.drained || st.spool != []
    ensures CanMove(parts, st)
  {
    hide SpoolInv, ChunkInv, PriorInv, CountInv, TraceInv, AdmitterInv, WriterStep, AdmitterStep, TracerStep, Schedule;
    var r := st.reader;
    var step :=
      if r.held.Some? then PutChunk
      else if r.drained then EndChunks
      else if r.active then if r.position < |parts[r.expected]| then DecodeChunk else FinishPartition
      else TakePartition;
    assert Moves(step) && Apply(parts, st, step).Some?;
  }

  lemma EndIsSent<T>(m: seq<Message<T>>)
    ensures m + Ending(true) != []
  {
  }

  lemma WriterCanMove(parts: seq<seq<Chunk>>, st: State)
    requires Inv(parts, st) && !st.aborted && st.spool == [] && !st.reader.drained
    ensures CanMove(parts, st)
  {
    hide ReaderInv, ChunkInv, PriorInv, CountInv, TraceInv, AdmitterInv, ReaderStep, AdmitterStep, TracerStep, ChunkRows;
    var w := st.writer;
    EndIsSent(Seconds(Untaken(st.reader), Sent(w)));
    var step := if w.holds then PutPartition else if w.prepared < |parts| then PreparePartition else EndSpool;
    assert Moves(step) && Apply(parts, st, step).Some?;
  }

  /** The queue between reader and admitter is empty only while the reader still has something to send. */
  lemma ReaderIsBehind(parts: seq<seq<Chunk>>, st: State)
    requires Inv(parts, st) && st.chunks == [] && !st.admitter.drained
    ensures !st.reader.ended
  {
    hide ReaderInv, SpoolInv, PriorInv, CountInv, TraceInv, AdmitterInv, AllChunks, ReaderIndex, TakenIndex;
    WithinParts(parts, st);
    EndIsSent(Messages(AllChunks(parts)[TakenIndex(parts, st.admitter)..ReaderIndex(parts, st.reader)]));
  }

  /** While nothing was aborted and the trace has not ended, some stage can move. */
  lemma NeverStuck(parts: seq<seq<Chunk>>, st: State)
    requires Inv(parts, st) && !st.aborted && !st.tracer.ended
    ensures CanMove(parts, st)
  {
    hide Inv, CanMove;
    if st.tracer.busy || st.batches != [] {
      TracerCanMove(parts, st);
    } else if st.admitter.current.Some? || st.admitter.drained || st.chunks != [] {
      AdmitterCanMove(parts, st);
    } else {
      ReaderIsBehind(parts, st);
      if st.reader.held.Some? || st.reader.active || st.reader.drained || st.spool != [] {
        ReaderCanMove(parts, st);
      } else {
        WriterCanMove(parts, st);
      }
    }
  }

  // ----- Only so many moves are possible ----------------------------------------------------------------

  function Flag(b: bool): nat { if b then 1 else 0 }

  function WriterWork(parts: seq<seq<Chunk>>, w: Writer): int {
    2 * (|parts| - w.prepared) + Flag(w.holds) + Flag(!w.ended)
  }

  function ReaderWork(parts: seq<seq<Chunk>>, r: Reader): int
    requires r.expected <= |parts|
  {
    2 * (|parts| - r.expected) - Flag(r.active) + Flag(!r.drained) + Flag(!r.ended)
    + (|AllChunks(parts)| - (Base(parts, r.expected) + r.position)) + (|AllChunks(parts)| - ReaderIndex(parts, r))
  }

  /** A chunk that is not admitted yet is still to be taken and put, and its batch to be taken and finished. */
  function AdmitterWork(parts: seq<seq<Chunk>>, a: Admitter): int
    requires a.second <= |parts|
  {
    (|AllChunks(parts)| - TakenIndex(parts, a)) + 3 * (|AllChunks(parts)| - AdmittedIndex(parts, a))
    + (|Schedule(parts)| - a.attempted) + Flag(!a.drained) + Flag(!a.ended)
  }

  function BatchWork(batches: seq<Message<seq<Row>>>): nat {
    if batches == [] then 0 else (match batches[0] case Data(_) => 2 case End => 0) + BatchWork(batches[1..])
  }

  function TracerWork(parts: seq<seq<Chunk>>, batches: seq<Message<seq<Row>>>, t: Tracer): int {
    BatchWork(batches) + Flag(t.busy) + Flag(!t.ended) + (|Schedule(parts)| - |t.trace|)
  }

  /** The moves that are still possible. */
  function Work(parts: seq<seq<Chunk>>, st: State): int
    requires InRange(parts, st)
  {
    WriterWork(parts, st.writer) + ReaderWork(parts, st.reader) + AdmitterWork(parts, st.admitter)
    + TracerWork(parts, st.batches, st.tracer)
  }

  lemma WriterMoves(parts: seq<seq<Chunk>>, st: State, step: Step)
    requires WriterStep(parts, st, step).Some?
    ensures var after := WriterStep(parts, st, step).value;
            && after == st.(writer := after.writer, files := after.files, spool := after.spool)
            && WriterWork(parts, after.writer) == WriterWork(parts, st.writer) - 1
  {
  }

  lemma ReaderMoves(parts: seq<seq<Chunk>>, st: State, step: Step)
    requires ReaderInv(parts, st.reader) && ReaderStep(parts, st, step).Some? && !ReaderStep(parts, st, step).value.refused
    ensures var after := ReaderStep(parts, st, step).value;
            && after.reader.expected <= |parts|
            && after == st.(reader := after.reader, files := after.files, spool := after.spool, chunks := after.chunks,
                            refused := after.refused)
            && ReaderWork(parts, after.reader) == ReaderWork(parts, st.reader) - 1
  {
    hide Schedule, AllChunks;
    var r := st.reader;
    if step.FinishPartition? { assert Base(parts, r.expected + 1) == Base(parts, r.expected) + |parts[r.expected]|; }
    hide ChunksBefore, Base;
  }

  lemma NoBatch()
    ensures BatchWork([]) == 0
    ensures forall m: Message<seq<Row>> :: BatchWork([m]) == if m.Data? then 2 else 0
  {
  }

  lemma BatchMoves(parts: seq<seq<Chunk>>, st: State)
    requires ValidRun(parts) && AdmitterInv(parts, st.admitter) && AdmitterStep(parts, st, PutBatch).Some?
    ensures var after := AdmitterStep(parts, st, PutBatch).value;
            && after.admitter.second <= |parts|
            && after == st.(admitter := after.admitter, batches := after.batches)
            && st.batches == [] && BatchWork(st.batches) == 0 && BatchWork(after.batches) == 2
            && AdmitterWork(parts, after.admitter) == AdmitterWork(parts, st.admitter) - 3
  {
    hide ChunksBefore, AllChunks, Schedule, ValidRun, BatchWork;
    var a := st.admitter;
    assert st.batches == [];
    NextChunkPosition(parts, a, AdmitterStep(parts, st, PutBatch).value.admitter);
    NoBatch();
    hide AdmittedIndex;
    assert AdmitterStep(parts, st, PutBatch).value.batches == [Data(a.current.value.rows)];
  }

  lemma AdmitterTakes(parts: seq<seq<Chunk>>, st: State, step: Step)
    requires AdmitterInv(parts, st.admitter) && !step.PutBatch?
    requires AdmitterStep(parts, st, step).Some? && !AdmitterStep(parts, st, step).value.refused
    ensures var after := AdmitterStep(parts, st, step).value;
            && after.admitter.second <= |parts|
            && after == st.(admitter := after.admitter, chunks := after.chunks, batches := after.batches, refused := after.refused)
            && BatchWork(after.batches) == BatchWork(st.batches)
            && AdmitterWork(parts, after.admitter) == AdmitterWork(parts, st.admitter) - 1
  {
    hide ChunksBefore, AllChunks, Schedule, Base, BatchWork;
    NoBatch();
    if step.EndTrace? {
      assert st.batches == [] && st.batches + [End] == [End];
    }
  }

  lemma TakenBatch(batches: seq<Message<seq<Row>>>)
    requires batches != []
    ensures BatchWork(batches) == BatchWork(batches[1..]) + if batches[0].Data? then 2 else 0
  {
  }

  lemma TracerMovesOn(parts: seq<seq<Chunk>>, st: State, step: Step)
    requires TracerStep(st, step).Some?
    ensures var after := TracerStep(st, step).value;
            && after == st.(tracer := after.tracer, batches := after.batches)
            && (Moves(step) ==> TracerWork(parts, after.batches, after.tracer) < TracerWork(parts, st.batches, st.tracer))
            && (!Moves(step) ==> TracerWork(parts, after.batches, after.tracer) == TracerWork(parts, st.batches, st.tracer))
  {
    hide BatchWork, Schedule;
    if step.TakeBatch? { TakenBatch(st.batches); }
  }

  /** The positions that the work is measured from. */
  ghost predicate InRange(parts: seq<seq<Chunk>>, st: State) {
    st.reader.expected <= |parts| && st.admitter.second <= |parts|
  }

  lemma WriterLessens(parts: seq<seq<Chunk>>, st: State, step: Step)
    requires InRange(parts, st) && WriterStep(parts, st, step).Some?
    ensures InRange(parts, WriterStep(parts, st, step).value) && Work(parts, WriterStep(parts, st, step).value) < Work(parts, st)
  {
    hide WriterStep, WriterWork, ReaderWork, AdmitterWork, TracerWork;
    WriterMoves(parts, st, step);
  }

  lemma ReaderLessens(parts: seq<seq<Chunk>>, st: State, step: Step)
    requires InRange(parts, st) && ReaderInv(parts, st.reader)
    requires ReaderStep(parts, st, step).Some? && !ReaderStep(parts, st, step).value.refused
    ensures InRange(parts, ReaderStep(parts, st, step).value) && Work(parts, ReaderStep(parts, st, step).value) < Work(parts, st)
  {
    hide ReaderStep, ReaderInv, WriterWork, ReaderWork, AdmitterWork, TracerWork;
    ReaderMoves(parts, st, step);
  }

  lemma AdmitterLessens(parts: seq<seq<Chunk>>, st: State, step: Step)
    requires ValidRun(parts) && InRange(parts, st) && AdmitterInv(parts, st.admitter)
    requires AdmitterStep(parts, st, step).Some? && !AdmitterStep(parts, st, step).value.refused
    ensures InRange(parts, AdmitterStep(parts, st, step).value) && Work(parts, AdmitterStep(parts, st, step).value) < Work(parts, st)
  {
    hide ValidRun, AdmitterStep, AdmitterInv, WriterWork, ReaderWork, AdmitterWork, TracerWork, BatchWork;
    if step.PutBatch? { BatchMoves(parts, st); } else { AdmitterTakes(parts, st, step); }
    SameTrace(parts, st.batches, AdmitterStep(parts, st, step).value.batches, st.tracer);
  }

  lemma TracerLessens(parts: seq<seq<Chunk>>, st: State, step: Step)
    requires InRange(parts, st) && TracerStep(st, step).Some?
    ensures InRange(parts, TracerStep(st, step).value)
    ensures var after := TracerStep(st, step).value;
            if Moves(step) then Work(parts, after) < Work(parts, st) else Work(parts, after) == Work(parts, st)
  {
    hide TracerStep, WriterWork, ReaderWork, AdmitterWork, TracerWork;
    TracerMovesOn(parts, st, step);
  }

  lemma AbortsMoveNothing(parts: seq<seq<Chunk>>, st: State, step: Step)
    requires InRange(parts, st) && (step.Abort? || step.CleanUp?) && Apply(parts, st, step).Some?
    ensures InRange(parts, Apply(parts, st, step).value) && Work(parts, Apply(parts, st, step).value) == Work(parts, st)
  {
    hide WriterWork, ReaderWork, AdmitterWork, TracerWork;
  }

  /** Every move lessens the work that is left, and nothing else changes it. */
  lemma MovesLessen(parts: seq<seq<Chunk>>, st: State, step: Step)
    requires ValidRun(parts) && Inv(parts, st) && Apply(parts, st, step).Some?
    ensures var after := Apply(parts, st, step).value;
            && InRange(parts, st) && InRange(parts, after)
            && (if Moves(step) then Work(parts, after) < Work(parts, st) else Work(parts, after) == Work(parts, st))
  {
    hide Work, InRange, WriterStep, ReaderStep, AdmitterStep, TracerStep, Inv, ValidRun, ReaderInv, AdmitterInv;
    StepKeeps(parts, st, step);
    WithinParts(parts, st);
    NotRefused(parts, Apply(parts, st, step).value);
    match step {
      case PreparePartition | PutPartition | EndSpool => WriterLessens(parts, st, step);
      case TakePartition | DecodeChunk | PutChunk | FinishPartition | EndChunks => ReaderLessens(parts, st, step);
      case TakeChunk | AdmitRow | PutBatch | TakeEnd | EndTrace => AdmitterLessens(parts, st, step);
      case TakeBatch | WriteRows(_) | FinishBatch => TracerLessens(parts, st, step);
      case Abort => AbortsMoveNothing(parts, st, step);
      case CleanUp => AbortsMoveNothing(parts, st, step);
    }
  }

  lemma SameTrace(parts: seq<seq<Chunk>>, batches: seq<Message<seq<Row>>>, after: seq<Message<seq<Row>>>, t: Tracer)
    ensures TracerWork(parts, after, t) == TracerWork(parts, batches, t) - BatchWork(batches) + BatchWork(after)
  {
    hide BatchWork, Schedule;
  }

  lemma WithinParts(parts: seq<seq<Chunk>>, st: State)
    requires Inv(parts, st)
    ensures InRange(parts, st) && ReaderInv(parts, st.reader) && AdmitterInv(parts, st.admitter)
  {
    hide SpoolInv, ChunkInv, PriorInv, CountInv, TraceInv;
  }

  lemma NotRefused(parts: seq<seq<Chunk>>, st: State)
    requires Inv(parts, st)
    ensures !st.refused
  {
    hide ReaderInv, AdmitterInv, SpoolInv, ChunkInv, PriorInv, CountInv, TraceInv;
  }

  /** The work that is left is never negative. */
  lemma WorkIsLeft(parts: seq<seq<Chunk>>, st: State)
    requires Inv(parts, st)
    ensures InRange(parts, st) && 0 <= Work(parts, st)
  {
    WithinParts(parts, st);
    SpoolBounds(parts, st);
    ChunkBounds(parts, st);
    RowBounds(parts, st);
    hide Inv, ReaderInv, AdmitterInv, Schedule, AllChunks, Base, ReaderIndex, AdmittedIndex, TakenIndex, BatchWork;
  }

  lemma SpoolBounds(parts: seq<seq<Chunk>>, st: State)
    requires Inv(parts, st)
    ensures st.writer.prepared <= |parts|
    ensures st.reader.active ==> st.reader.expected < |parts|
  {
    hide AdmitterInv, ChunkInv, PriorInv, CountInv, TraceInv;
  }

  lemma ChunkBounds(parts: seq<seq<Chunk>>, st: State)
    requires Inv(parts, st)
    ensures InRange(parts, st)
    ensures Base(parts, st.reader.expected) + st.reader.position <= |AllChunks(parts)|
    ensures ReaderIndex(parts, st.reader) <= |AllChunks(parts)|
    ensures TakenIndex(parts, st.admitter) <= |AllChunks(parts)| && AdmittedIndex(parts, st.admitter) <= |AllChunks(parts)|
  {
    WithinParts(parts, st);
    DecodedBound(parts, st.reader);
    BaseAdmitted(parts, st.admitter);
    hide SpoolInv, PriorInv, CountInv, TraceInv, AllChunks, ChunksBefore, Base;
  }

  /** No more rows are attempted or traced than are scheduled. */
  lemma RowBounds(parts: seq<seq<Chunk>>, st: State)
    requires Inv(parts, st)
    ensures st.admitter.attempted <= |Schedule(parts)| && |st.tracer.trace| <= |Schedule(parts)|
  {
    WithinParts(parts, st);
    TransitIsPrefix(parts, st);
    AttemptedBound(parts, st);
  }

  lemma RowsBefore(all: seq<Chunk>, n: nat, done: nat)
    requires n <= |all| && (done > 0 ==> n < |all| && done <= |all[n].rows|)
    ensures |ChunkRows(all[..n])| + done <= |ChunkRows(all)|
  {
    hide ChunkRows;
    if done > 0 {
      RowPosition(all, n, done - 1);
    } else {
      ChunkRowsConcat(all[..n], all[n..]);
      assert all == all[..n] + all[n..];
    }
  }

  lemma AttemptedBound(parts: seq<seq<Chunk>>, st: State)
    requires Inv(parts, st)
    ensures st.admitter.attempted <= |Schedule(parts)|
  {
    WithinParts(parts, st);
    var a := st.admitter;
    BaseAdmitted(parts, a);
    hide SpoolInv, ChunkInv, PriorInv, TraceInv, ReaderInv, ChunksBefore, AllChunks, ChunkRows, Base;
    RowsBefore(AllChunks(parts), AdmittedIndex(parts, a), a.done);
  }

  // ----- Whole runs with their steps -----------------------------------------------------------------------

  /** A run together with the steps that were taken. */
  ghost predicate RunBy(parts: seq<seq<Chunk>>, states: seq<State>, steps: seq<Step>) {
    && |states| == |steps| + 1 && states[0] == Start()
    && forall k :: 0 <= k < |steps| ==> Apply(parts, states[k], steps[k]) == Some(states[k + 1])
  }

  function CountMoves(steps: seq<Step>): nat {
    if steps == [] then 0 else CountMoves(steps[..|steps| - 1]) + Flag(Moves(steps[|steps| - 1]))
  }

  lemma RunByIsRun(parts: seq<seq<Chunk>>, states: seq<State>, steps: seq<Step>)
    requires RunBy(parts, states, steps)
    ensures Run(parts, states)
  {
    hide Apply;
    forall k | 0 <= k < |states| - 1 ensures Follows(parts, states[k], states[k + 1]) {
      assert Apply(parts, states[k], steps[k]) == Some(states[k + 1]);
    }
  }

  /** How many moves any run can take: four per second, six per chunk, two per row, and six for the ends. */
  function MoveBound(parts: seq<seq<Chunk>>): nat {
    4 * |parts| + 6 * |AllChunks(parts)| + 2 * |Schedule(parts)| + 6
  }

  lemma WorkAtStart(parts: seq<seq<Chunk>>)
    ensures Work(parts, Start()) == MoveBound(parts)
  {
    BaseBound(parts, 0);
    NoBatch();
    hide AllChunks, Schedule, ChunksBefore, BatchWork;
  }

  lemma {:induction false} MovesAreBounded(parts: seq<seq<Chunk>>, states: seq<State>, steps: seq<Step>, k: nat)
    requires ValidRun(parts) && RunBy(parts, states, steps) && k <= |steps|
    ensures InRange(parts, states[k]) && CountMoves(steps[..k]) + Work(parts, states[k]) <= MoveBound(parts)
  {
    hide Work, MoveBound, Apply, ValidRun, Inv;
    if k == 0 {
      WorkAtStart(parts);
    } else {
      MovesAreBounded(parts, states, steps, k - 1);
      RunByIsRun(parts, states, steps);
      RunKeepsInv(parts, states, k - 1);
      assert Apply(parts, states[k - 1], steps[k - 1]) == Some(states[k]);
      MovesLessen(parts, states[k - 1], steps[k - 1]);
      assert steps[..k][..k - 1] == steps[..k - 1];
    }
  }

  /** Every run takes at most a fixed number of moves; and when a run that was not aborted can move no more, the
      whole schedule is traced. */
  lemma EveryRunEnds(parts: seq<seq<Chunk>>, states: seq<State>, steps: seq<Step>)
    requires ValidRun(parts) && RunBy(parts, states, steps)
    ensures CountMoves(steps) <= MoveBound(parts)
    ensures var last := states[|steps|];
            !last.aborted && !CanMove(parts, last) ==> last.tracer.ended && last.tracer.trace == Schedule(parts)
  {
    hide Work, MoveBound, RunBy, CanMove, ValidRun, Inv, Run, Schedule;
    RunByIsRun(parts, states, steps);
    RunLength(parts, states, steps);
    MovesAreBounded(parts, states, steps, |steps|);
    assert steps[..|steps|] == steps;
    RunKeepsInv(parts, states, |steps|);
    var last := states[|steps|];
    WorkIsLeft(parts, last);
    if !last.aborted && !CanMove(parts, last) {
      if !last.tracer.ended { NeverStuck(parts, last); }
      EndedRunTracesSchedule(parts, states, |steps|);
    }
  }

  lemma RunLength(parts: seq<seq<Chunk>>, states: seq<State>, steps: seq<Step>)
    requires RunBy(parts, states, steps)
    ensures |states| == |steps| + 1
  {
  }
}
