/** The four concurrent stages that carry an exchange's schedule from the spool to its trace:
    spool writer, chunk reader, admitter and trace writer, joined by bounded queues. Any stage may
    take the next step at any time, and a global abort may come at any time. */
module Pipeline {
  import opened Workload
  import opened Ordering
  import opened Spool
  import opened Chunks

  const SPOOL_QUEUE := 3
  const CHUNK_QUEUE := 2
  const TRACE_QUEUE := 1

  /** A queue carries items and, at its end, one end marker. */
  datatype Message<+T> = Data(value: T) | End

  // ----- The replayed run -----------------------------------------------------------------

  /** The chunks of the first seconds, in order. */
  function ChunksBefore(parts: seq<seq<Chunk>>, s: nat): seq<Chunk>
    requires s <= |parts|
  {
    if s == 0 then [] else ChunksBefore(parts, s - 1) + parts[s - 1]
  }

  function AllChunks(parts: seq<seq<Chunk>>): seq<Chunk> {
    ChunksBefore(parts, |parts|)
  }

  /** Number of chunks before a second. */
  function Base(parts: seq<seq<Chunk>>, s: nat): nat
    requires s <= |parts|
  {
    |ChunksBefore(parts, s)|
  }

  function Schedule(parts: seq<seq<Chunk>>): seq<Row> {
    ChunkRows(AllChunks(parts))
  }

  /** Every second replays as at least one chunk, numbered from zero, the last one marked. */
  ghost predicate ValidRun(parts: seq<seq<Chunk>>) {
    && (forall s :: 0 <= s < |parts| ==> LastMarked(parts[s]))
    && (forall s, i :: 0 <= s < |parts| && 0 <= i < |parts[s]| ==> parts[s][i].second == s && parts[s][i].index == i)
    && StrictlySorted(Schedule(parts))
  }

  lemma {:induction false} ChunksBeforeIsPrefix(parts: seq<seq<Chunk>>, s: nat, t: nat)
    requires s <= t <= |parts|
    ensures ChunksBefore(parts, s) <= ChunksBefore(parts, t)
    decreases t
  {
    if s < t { ChunksBeforeIsPrefix(parts, s, t - 1); }
  }

  /** The chunk at a position of a second sits at the second's base plus the position. */
  lemma ChunkAt(parts: seq<seq<Chunk>>, s: nat, i: nat)
    requires s < |parts| && i < |parts[s]|
    ensures Base(parts, s) + i < Base(parts, s + 1) == Base(parts, s) + |parts[s]| <= |AllChunks(parts)|
    ensures AllChunks(parts)[Base(parts, s) + i] == parts[s][i]
  {
    ChunksBeforeIsPrefix(parts, s + 1, |parts|);
    assert ChunksBefore(parts, s + 1)[Base(parts, s) + i] == parts[s][i];
  }

  lemma BaseBound(parts: seq<seq<Chunk>>, s: nat)
    requires s <= |parts|
    ensures Base(parts, s) <= |AllChunks(parts)|
    ensures s == |parts| ==> Base(parts, s) == |AllChunks(parts)|
    ensures Base(parts, 0) == 0
  {
    ChunksBeforeIsPrefix(parts, s, |parts|);
  }

  lemma ChunkRowsSnoc(a: seq<Chunk>, c: Chunk)
    ensures ChunkRows(a + [c]) == ChunkRows(a) + c.rows
  {
    assert (a + [c])[..|a|] == a;
  }

  lemma SplitLast<T>(b: seq<T>)
    requires b != []
    ensures b == b[..|b| - 1] + [b[|b| - 1]]
  {
  }

  lemma {:induction false} ChunkRowsConcat(a: seq<Chunk>, b: seq<Chunk>)
    ensures ChunkRows(a + b) == ChunkRows(a) + ChunkRows(b)
  {
    if b == [] {
      assert a + b == a;
    } else {
      hide ChunkRows;
      var init, last := b[..|b| - 1], b[|b| - 1];
      SplitLast(b);
      ChunkRowsConcat(a, init);
      ConcatAssoc(a, init, [last]);
      ChunkRowsSnoc(a + init, last);
      ChunkRowsSnoc(init, last);
      ConcatAssoc(ChunkRows(a), ChunkRows(init), last.rows);
    }
  }

  // ----- States -----------------------------------------------------------------------------

  datatype Writer = Writer(prepared: nat, holds: bool, ended: bool)

  /** The reader replays second `expected`; when active, `position` chunks of it were decoded. It counts the
      rows of all decoded chunks. */
  datatype Reader = Reader(expected: nat, active: bool, position: nat, held: Option<Chunk>, drained: bool, ended: bool,
                           decoded: nat)

  /** The admitter works on chunk number `chunk` of second `second`; `done` rows of it are admitted. It counts
      all attempted rows. */
  datatype Admitter = Admitter(second: nat, chunk: nat, current: Option<Chunk>, done: nat,
                               prior: Option<Row>, drained: bool, ended: bool, attempted: nat)

  datatype Tracer = Tracer(writing: seq<Row>, busy: bool, trace: seq<Row>, ended: bool)

  datatype State = State(
    writer: Writer,
    files: set<nat>,
    spool: seq<Message<nat>>,
    reader: Reader,
    chunks: seq<Message<Chunk>>,
    admitter: Admitter,
    batches: seq<Message<seq<Row>>>,
    tracer: Tracer,
    refused: bool,
    aborted: bool,
    cleaned: bool)

  function Start(): State {
    State(Writer(0, false, false), {}, [], Reader(0, false, 0, None, false, false, 0), [],
          Admitter(0, 0, None, 0, None, false, false, 0), [], Tracer([], false, [], false), false, false, false)
  }

  datatype Step =
    | PreparePartition | PutPartition | EndSpool
    | TakePartition | DecodeChunk | PutChunk | FinishPartition | EndChunks
    | TakeChunk | AdmitRow | PutBatch | TakeEnd | EndTrace
    | TakeBatch | WriteRows(count: nat) | FinishBatch
    | Abort | CleanUp

  // ----- One step -----------------------------------------------------------------------------

  /** The spool writer. A nonempty second gets a file. */
  function WriterStep(parts: seq<seq<Chunk>>, st: State, step: Step): Option<State> {
    var w := st.writer;
    if st.cleaned then None
    else match step
      case PreparePartition =>
        if w.prepared < |parts| && !w.holds then
          Some(st.(writer := w.(prepared := w.prepared + 1, holds := true),
                   files := if ChunkRows(parts[w.prepared]) == [] then st.files else st.files + {w.prepared}))
        else None
      case PutPartition =>
        if w.holds && 0 < w.prepared && |st.spool| < SPOOL_QUEUE then
          Some(st.(writer := w.(holds := false), spool := st.spool + [Data(w.prepared - 1)]))
        else None
      case EndSpool =>
        if w.prepared == |parts| && !w.holds && !w.ended && |st.spool| < SPOOL_QUEUE then
          Some(st.(writer := w.(ended := true), spool := st.spool + [End]))
        else None
      case _ => None
  }

  /** The chunk reader; a partition out of order or without a chunk, and a wrong row count at the end, are
      refused. */
  function ReaderStep(parts: seq<seq<Chunk>>, st: State, step: Step): Option<State> {
    var r := st.reader;
    if st.cleaned then None
    else match step
      case TakePartition =>
        if !r.active && !r.drained && st.spool != [] then
          match st.spool[0]
          case End =>
            Some(st.(spool := st.spool[1..], reader := r.(drained := true),
                     refused := st.refused || r.expected != |parts| || r.decoded != |Schedule(parts)|))
          case Data(second) =>
            if second == r.expected && second < |parts| then
              Some(st.(spool := st.spool[1..], reader := r.(active := true, position := 0)))
            else Some(st.(refused := true))
        else None
      case DecodeChunk =>
        if r.active && r.held.None? && r.expected < |parts| && r.position < |parts[r.expected]| then
          var chunk := parts[r.expected][r.position];
          Some(st.(reader := r.(held := Some(chunk), position := r.position + 1, decoded := r.decoded + |chunk.rows|),
                   refused := st.refused || chunk.second != r.expected || chunk.index != r.position))
        else None
      case PutChunk =>
        if r.held.Some? && |st.chunks| < CHUNK_QUEUE then
          Some(st.(reader := r.(held := None), chunks := st.chunks + [Data(r.held.value)]))
        else None
      case FinishPartition =>
        if r.active && r.held.None? && r.expected < |parts| && r.position == |parts[r.expected]| then
          Some(st.(reader := r.(active := false, position := 0, expected := r.expected + 1),
                   files := st.files - {r.expected}, refused := st.refused || r.position == 0))
        else None
      case EndChunks =>
        if r.drained && !r.ended && |st.chunks| < CHUNK_QUEUE then
          Some(st.(reader := r.(ended := true), chunks := st.chunks + [End]))
        else None
      case _ => None
  }

  /** The admitter: chunks must come in order, and within a second each row after the one before; the order
      check starts afresh with every second. At the end it must have attempted as many rows as are planned
      and as the reader decoded. */
  function AdmitterStep(parts: seq<seq<Chunk>>, st: State, step: Step): Option<State> {
    var a := st.admitter;
    match step
    case TakeChunk =>
      if a.current.None? && a.second < |parts| && st.chunks != [] then
        match st.chunks[0]
        case End => Some(st.(refused := true))
        case Data(chunk) =>
          if chunk.second == a.second && chunk.index == a.chunk then
            Some(st.(chunks := st.chunks[1..],
                     admitter := a.(current := Some(chunk), done := 0, prior := if a.chunk == 0 then None else a.prior)))
          else Some(st.(refused := true))
      else None
    case AdmitRow =>
      if a.current.Some? && a.done < |a.current.value.rows| then
        var row := a.current.value.rows[a.done];
        if a.prior.Some? && !KeyLess(a.prior.value, row) then Some(st.(refused := true))
        else Some(st.(admitter := a.(done := a.done + 1, prior := Some(row), attempted := a.attempted + 1)))
      else None
    case PutBatch =>
      if a.current.Some? && a.done == |a.current.value.rows| && |st.batches| < TRACE_QUEUE then
        var chunk := a.current.value;
        Some(st.(batches := st.batches + [Data(chunk.rows)],
                 admitter := a.(current := None, done := 0,
                                second := if chunk.last then a.second + 1 else a.second,
                                chunk := if chunk.last then 0 else a.chunk + 1)))
      else None
    case TakeEnd =>
      if a.current.None? && a.second == |parts| && !a.drained && st.chunks != [] then
        match st.chunks[0]
        case End =>
          Some(st.(chunks := st.chunks[1..], admitter := a.(drained := true),
                   refused := st.refused || a.attempted != |Schedule(parts)| || a.attempted != st.reader.decoded))
        case Data(_) => Some(st.(refused := true))
      else None
    case EndTrace =>
      if a.drained && !a.ended && |st.batches| < TRACE_QUEUE then
        Some(st.(batches := st.batches + [End], admitter := a.(ended := true)))
      else None
    case _ => None
  }

  /** The trace writer appends a batch in pieces of any size. */
  function TracerStep(st: State, step: Step): Option<State> {
    var t := st.tracer;
    match step
    case TakeBatch =>
      if !t.busy && !t.ended && st.batches != [] then
        match st.batches[0]
        case End => Some(st.(batches := st.batches[1..], tracer := t.(ended := true)))
        case Data(rows) => Some(st.(batches := st.batches[1..], tracer := t.(writing := rows, busy := true)))
      else None
    case WriteRows(count) =>
      if t.busy && count <= |t.writing| then
        Some(st.(tracer := t.(trace := t.trace + t.writing[..count], writing := t.writing[count..])))
      else None
    case FinishBatch =>
      if t.busy && t.writing == [] then Some(st.(tracer := t.(busy := false))) else None
    case _ => None
  }

  /** A step of any stage, or none when the stage cannot take it now. After an abort each stage may
      still finish what it is doing or take no further step; cleaning up removes every spool file
      and ends the writer and the reader. */
  function Apply(parts: seq<seq<Chunk>>, st: State, step: Step): Option<State> {
    match step
    case PreparePartition | PutPartition | EndSpool => WriterStep(parts, st, step)
    case TakePartition | DecodeChunk | PutChunk | FinishPartition | EndChunks => ReaderStep(parts, st, step)
    case TakeChunk | AdmitRow | PutBatch | TakeEnd | EndTrace => AdmitterStep(parts, st, step)
    case TakeBatch | WriteRows(_) | FinishBatch => TracerStep(st, step)
    case Abort => Some(st.(aborted := true))
    case CleanUp => if st.aborted then Some(st.(files := {}, cleaned := true)) else None
  }

  // ----- The invariant --------------------------------------------------------------------------

  function Seconds(lo: nat, hi: nat): (m: seq<Message<nat>>)
    requires lo <= hi
    ensures |m| == hi - lo && forall k :: 0 <= k < |m| ==> m[k] == Data(lo + k)
  {
    seq(hi - lo, k requires 0 <= k => Data(lo + k))
  }

  function Messages(chunks: seq<Chunk>): (m: seq<Message<Chunk>>)
    ensures |m| == |chunks| && forall k :: 0 <= k < |m| ==> m[k] == Data(chunks[k])
  {
    seq(|chunks|, k requires 0 <= k < |chunks| => Data(chunks[k]))
  }

  function Ending<T>(open: bool): seq<Message<T>> {
    if open then [End] else []
  }

  /** First second that the reader has not taken. */
  function Untaken(r: Reader): nat { if r.active then r.expected + 1 else r.expected }

  /** Partitions that left the writer. */
  function Sent(w: Writer): int { if w.holds then w.prepared - 1 else w.prepared }

  ghost predicate SpoolInv(parts: seq<seq<Chunk>>, w: Writer, files: set<nat>, spool: seq<Message<nat>>, r: Reader) {
    && w.prepared <= |parts| && (w.holds ==> 0 < w.prepared)
    && Untaken(r) <= Sent(w)
    && (w.ended ==> w.prepared == |parts| && !w.holds)
    && (r.drained ==> w.ended && !r.active && r.expected == |parts|)
    && spool == Seconds(Untaken(r), Sent(w)) + Ending(w.ended && !r.drained)
    && |spool| <= SPOOL_QUEUE
    && (forall s :: s in files ==> r.expected <= s < w.prepared)
  }

  /** Chunks that left the reader. */
  function ReaderIndex(parts: seq<seq<Chunk>>, r: Reader): int
    requires r.expected <= |parts|
  {
    Base(parts, r.expected) + r.position - (if r.held.Some? then 1 else 0)
  }

  /** Chunks whose batch left the admitter. */
  function AdmittedIndex(parts: seq<seq<Chunk>>, a: Admitter): int
    requires a.second <= |parts|
  {
    Base(parts, a.second) + a.chunk
  }

  ghost predicate ReaderInv(parts: seq<seq<Chunk>>, r: Reader) {
    && r.expected <= |parts|
    && (if r.active then r.expected < |parts| && r.position <= |parts[r.expected]| else r.position == 0)
    && (r.held.Some? ==> r.active && 0 < r.position && r.held.value == parts[r.expected][r.position - 1])
    && (r.ended ==> r.drained) && (r.drained ==> r.expected == |parts| && !r.active)
  }

  ghost predicate AdmitterInv(parts: seq<seq<Chunk>>, a: Admitter) {
    && a.second <= |parts|
    && (a.second < |parts| ==> a.chunk < |parts[a.second]|)
    && (a.second == |parts| ==> a.chunk == 0 && a.current.None?)
    && (a.current.Some? ==> a.current.value == parts[a.second][a.chunk] && a.done <= |a.current.value.rows|)
    && (a.current.None? ==> a.done == 0)
    && (a.drained ==> a.second == |parts|) && (a.ended ==> a.drained)
  }

  /** The prior row of the order check is the row just before the next one in the schedule. */
  ghost predicate PriorInv(parts: seq<seq<Chunk>>, a: Admitter)
    requires AdmitterInv(parts, a)
  {
    BaseAdmitted(parts, a);
    var n := |ChunkRows(AllChunks(parts)[..AdmittedIndex(parts, a)])| + a.done;
    a.prior.Some? ==> 0 < n <= |Schedule(parts)| && a.prior.value == Schedule(parts)[n - 1]
  }

  lemma BaseAdmitted(parts: seq<seq<Chunk>>, a: Admitter)
    requires AdmitterInv(parts, a)
    ensures 0 <= AdmittedIndex(parts, a) <= |AllChunks(parts)|
    ensures a.second < |parts| ==> AdmittedIndex(parts, a) < |AllChunks(parts)|
                                   && AllChunks(parts)[AdmittedIndex(parts, a)] == parts[a.second][a.chunk]
    ensures a.second == |parts| ==> AdmittedIndex(parts, a) == |AllChunks(parts)|
  {
    BaseBound(parts, a.second);
    if a.second < |parts| { ChunkAt(parts, a.second, a.chunk); }
  }

  /** First chunk that the admitter has not taken. */
  function TakenIndex(parts: seq<seq<Chunk>>, a: Admitter): int
    requires a.second <= |parts|
  {
    AdmittedIndex(parts, a) + (if a.current.Some? then 1 else 0)
  }

  ghost predicate ChunkInv(parts: seq<seq<Chunk>>, r: Reader, chunks: seq<Message<Chunk>>, a: Admitter)
    requires ReaderInv(parts, r) && AdmitterInv(parts, a)
  {
    && 0 <= TakenIndex(parts, a) <= ReaderIndex(parts, r) <= |AllChunks(parts)|
    && chunks == Messages(AllChunks(parts)[TakenIndex(parts, a)..ReaderIndex(parts, r)])
                 + Ending(r.ended && !a.drained)
    && |chunks| <= CHUNK_QUEUE
    && (a.drained ==> r.ended)
  }

  function BatchRows(batches: seq<Message<seq<Row>>>): seq<Row> {
    if batches == [] then []
    else (match batches[0] case Data(rows) => rows case End => []) + BatchRows(batches[1..])
  }

  ghost predicate TraceInv(parts: seq<seq<Chunk>>, a: Admitter, batches: seq<Message<seq<Row>>>, t: Tracer)
    requires AdmitterInv(parts, a)
  {
    BaseAdmitted(parts, a);
    && t.trace + t.writing + BatchRows(batches) == ChunkRows(AllChunks(parts)[..AdmittedIndex(parts, a)])
    && |batches| <= TRACE_QUEUE
    && (!t.busy ==> t.writing == [])
    && (batches == [End] ==> a.ended)
    && (a.ended ==> batches == [End] || (batches == [] && t.ended))
    && (t.ended ==> a.ended && !t.busy && batches == [])
  }

  /** Chunks that the reader decoded. */
  ghost function DecodedIndex(parts: seq<seq<Chunk>>, r: Reader): (n: nat)
    requires ReaderInv(parts, r)
    ensures n <= |AllChunks(parts)|
    ensures r.expected == |parts| ==> n == |AllChunks(parts)|
    ensures r.expected < |parts| && r.position < |parts[r.expected]| ==>
              n < |AllChunks(parts)| && AllChunks(parts)[n] == parts[r.expected][r.position]
  {
    DecodedBound(parts, r);
    Base(parts, r.expected) + r.position
  }

  lemma DecodedBound(parts: seq<seq<Chunk>>, r: Reader)
    requires ReaderInv(parts, r)
    ensures Base(parts, r.expected) + r.position <= |AllChunks(parts)|
    ensures r.expected == |parts| ==> Base(parts, r.expected) + r.position == |AllChunks(parts)|
    ensures r.expected < |parts| && r.position < |parts[r.expected]| ==>
              Base(parts, r.expected) + r.position < |AllChunks(parts)|
              && AllChunks(parts)[Base(parts, r.expected) + r.position] == parts[r.expected][r.position]
  {
    BaseBound(parts, r.expected);
    if r.active {
      BaseBound(parts, r.expected + 1);
      assert Base(parts, r.expected + 1) == Base(parts, r.expected) + |parts[r.expected]|;
    }
    if r.expected < |parts| && r.position < |parts[r.expected]| { ChunkAt(parts, r.expected, r.position); }
  }

  /** The attempted rows are those of the chunks put before and those done of the current one. */
  ghost predicate AttemptsCounted(parts: seq<seq<Chunk>>, a: Admitter)
    requires AdmitterInv(parts, a)
  {
    BaseAdmitted(parts, a);
    a.attempted == |ChunkRows(AllChunks(parts)[..AdmittedIndex(parts, a)])| + a.done
  }

  /** The counters of decoded and attempted rows are right. */
  ghost predicate CountInv(parts: seq<seq<Chunk>>, r: Reader, a: Admitter)
    requires ReaderInv(parts, r) && AdmitterInv(parts, a)
  {
    r.decoded == |ChunkRows(AllChunks(parts)[..DecodedIndex(parts, r)])| && AttemptsCounted(parts, a)
  }

  ghost predicate Inv(parts: seq<seq<Chunk>>, st: State) {
    && StagesInv(parts, st)
    && CountInv(parts, st.reader, st.admitter)
    && (st.cleaned ==> st.aborted)
  }

  /** What every stage and queue promises. */
  ghost predicate StagesInv(parts: seq<seq<Chunk>>, st: State) {
    && ReaderInv(parts, st.reader) && AdmitterInv(parts, st.admitter)
    && SpoolInv(parts, st.writer, st.files, st.spool, st.reader)
    && ChunkInv(parts, st.reader, st.chunks, st.admitter)
    && PriorInv(parts, st.admitter)
    && TraceInv(parts, st.admitter, st.batches, st.tracer)
    && !st.refused
  }

  lemma StartReaders(parts: seq<seq<Chunk>>)
    requires ValidRun(parts)
    ensures ReaderInv(parts, Start().reader) && AdmitterInv(parts, Start().admitter)
  {
    if |parts| > 0 { assert LastMarked(parts[0]); }
  }

  lemma NoMessages(all: seq<Chunk>, taken: int, sent: int)
    requires taken == sent == 0
    ensures [] == Messages(all[taken..sent]) + Ending(false)
  {
  }

  lemma StartChunks(parts: seq<seq<Chunk>>)
    requires ReaderInv(parts, Start().reader) && AdmitterInv(parts, Start().admitter)
    ensures ChunkInv(parts, Start().reader, Start().chunks, Start().admitter)
    ensures PriorInv(parts, Start().admitter)
  {
    BaseBound(parts, 0);
    hide ChunksBefore, AllChunks, ChunkRows, ReaderInv, AdmitterInv;
    var r, a := Start().reader, Start().admitter;
    assert TakenIndex(parts, a) == 0 && ReaderIndex(parts, r) == 0;
    NoMessages(AllChunks(parts), TakenIndex(parts, a), ReaderIndex(parts, r));
  }

  lemma StartTrace(parts: seq<seq<Chunk>>)
    requires AdmitterInv(parts, Start().admitter)
    ensures TraceInv(parts, Start().admitter, Start().batches, Start().tracer)
  {
    BaseBound(parts, 0);
    assert AllChunks(parts)[..0] == [];
  }

  lemma StartSpool(parts: seq<seq<Chunk>>)
    ensures SpoolInv(parts, Start().writer, Start().files, Start().spool, Start().reader)
  {
    assert Seconds(0, 0) + Ending(false) == [];
  }

  lemma StartInv(parts: seq<seq<Chunk>>)
    requires ValidRun(parts)
    ensures Inv(parts, Start())
  {
    hide ValidRun, ReaderInv, AdmitterInv, ChunkInv, PriorInv, TraceInv, SpoolInv, CountInv;
    StartReaders(parts);
    StartChunks(parts);
    StartTrace(parts);
    StartSpool(parts);
    StartCounts(parts);
  }

  lemma StartCounts(parts: seq<seq<Chunk>>)
    requires ReaderInv(parts, Start().reader) && AdmitterInv(parts, Start().admitter)
    ensures CountInv(parts, Start().reader, Start().admitter)
  {
    BaseBound(parts, 0);
    hide AllChunks, ChunksBefore;
    assert AllChunks(parts)[..0] == [];
  }

  // ----- Every step keeps the invariant ----------------------------------------------------------

  lemma WriterKeeps(parts: seq<seq<Chunk>>, st: State, step: Step)
    requires ValidRun(parts) && Inv(parts, st) && WriterStep(parts, st, step).Some?
    ensures StagesInv(parts, WriterStep(parts, st, step).value)
  {
    hide ChunkInv, PriorInv, TraceInv, ValidRun, ReaderInv, AdmitterInv, CountInv;
    var after := WriterStep(parts, st, step).value;
    assert SpoolInv(parts, after.writer, after.files, after.spool, after.reader);
  }

  lemma SpoolTaken(parts: seq<seq<Chunk>>, w: Writer, files: set<nat>, spool: seq<Message<nat>>, r: Reader)
    requires SpoolInv(parts, w, files, spool, r) && r.expected <= |parts| && !r.active && !r.drained && spool != []
    ensures match spool[0]
            case Data(second) =>
              second == r.expected < |parts| && SpoolInv(parts, w, files, spool[1..], r.(active := true, position := 0))
            case End => r.expected == |parts| && SpoolInv(parts, w, files, spool[1..], r.(drained := true))
  {
    var sent := Sent(w);
    if Untaken(r) < sent {
      assert spool[0] == Data(r.expected);
      assert spool[1..] == Seconds(r.expected + 1, sent) + Ending(w.ended);
    } else {
      assert spool[0] == End && spool[1..] == [];
      assert Seconds(sent, sent) + Ending(false) == [];
    }
  }

  lemma AllDecoded(parts: seq<seq<Chunk>>, r: Reader, a: Admitter)
    requires ReaderInv(parts, r) && AdmitterInv(parts, a) && CountInv(parts, r, a)
    ensures r.expected == |parts| ==> r.decoded == |Schedule(parts)|
    ensures a.second == |parts| && a.done == 0 ==> a.attempted == |Schedule(parts)|
  {
    BaseAdmitted(parts, a);
    hide ChunkRows, AllChunks, AdmittedIndex, ReaderInv, AdmitterInv;
    assert AllChunks(parts)[..|AllChunks(parts)|] == AllChunks(parts);
  }

  lemma TakePartitionKeeps(parts: seq<seq<Chunk>>, st: State)
    requires Inv(parts, st) && ReaderStep(parts, st, TakePartition).Some?
    ensures StagesInv(parts, ReaderStep(parts, st, TakePartition).value)
  {
    hide PriorInv, TraceInv, AdmitterInv, AllChunks, ChunksBefore, SpoolInv, CountInv;
    SpoolTaken(parts, st.writer, st.files, st.spool, st.reader);
    AllDecoded(parts, st.reader, st.admitter);
  }

  lemma FinishPartitionKeeps(parts: seq<seq<Chunk>>, st: State)
    requires ValidRun(parts) && Inv(parts, st) && ReaderStep(parts, st, FinishPartition).Some?
    ensures StagesInv(parts, ReaderStep(parts, st, FinishPartition).value)
  {
    hide PriorInv, TraceInv, AdmitterInv, AllChunks, CountInv;
    var after := ReaderStep(parts, st, FinishPartition).value;
    assert LastMarked(parts[st.reader.expected]);
    assert Base(parts, st.reader.expected + 1) == Base(parts, st.reader.expected) + |parts[st.reader.expected]|;
    hide ChunksBefore;
    assert ReaderIndex(parts, after.reader) == ReaderIndex(parts, st.reader);
    assert SpoolInv(parts, after.writer, after.files, after.spool, after.reader);
  }

  lemma PutChunkKeeps(parts: seq<seq<Chunk>>, st: State)
    requires Inv(parts, st) && ReaderStep(parts, st, PutChunk).Some?
    ensures StagesInv(parts, ReaderStep(parts, st, PutChunk).value)
  {
    hide PriorInv, TraceInv, SpoolInv, CountInv;
    var after := ReaderStep(parts, st, PutChunk).value;
    var r := st.reader;
    ChunkAt(parts, r.expected, r.position - 1);
    hide AllChunks, ChunksBefore;
    var all, index := AllChunks(parts), ReaderIndex(parts, r);
    var taken := TakenIndex(parts, st.admitter);
    assert all[taken..index + 1] == all[taken..index] + [all[index]];
    assert ReaderIndex(parts, after.reader) == index + 1;
    SpoolFrame(parts, st.writer, st.files, st.spool, r, after.reader);
  }

  lemma DecodeChunkKeeps(parts: seq<seq<Chunk>>, st: State)
    requires ValidRun(parts) && Inv(parts, st) && ReaderStep(parts, st, DecodeChunk).Some?
    ensures StagesInv(parts, ReaderStep(parts, st, DecodeChunk).value)
  {
    hide PriorInv, TraceInv, AdmitterInv, SpoolInv, AllChunks, ChunksBefore, Schedule, CountInv;
    var after := ReaderStep(parts, st, DecodeChunk).value;
    assert ReaderIndex(parts, after.reader) == ReaderIndex(parts, st.reader);
    SpoolFrame(parts, st.writer, st.files, st.spool, st.reader, after.reader);
  }

  lemma EndChunksKeeps(parts: seq<seq<Chunk>>, st: State)
    requires Inv(parts, st) && ReaderStep(parts, st, EndChunks).Some?
    ensures StagesInv(parts, ReaderStep(parts, st, EndChunks).value)
  {
    hide PriorInv, TraceInv, AdmitterInv, SpoolInv, AllChunks, ChunksBefore, CountInv;
    var after := ReaderStep(parts, st, EndChunks).value;
    assert ReaderIndex(parts, after.reader) == ReaderIndex(parts, st.reader);
    SpoolFrame(parts, st.writer, st.files, st.spool, st.reader, after.reader);
  }

  /** The spool facts depend on the reader only through the second it works on. */
  lemma SpoolFrame(parts: seq<seq<Chunk>>, w: Writer, files: set<nat>, spool: seq<Message<nat>>, r: Reader, r': Reader)
    requires SpoolInv(parts, w, files, spool, r)
    requires r'.expected == r.expected && r'.active == r.active && r'.drained == r.drained
    ensures SpoolInv(parts, w, files, spool, r')
  {
  }

  lemma ReaderKeeps(parts: seq<seq<Chunk>>, st: State, step: Step)
    requires ValidRun(parts) && Inv(parts, st) && ReaderStep(parts, st, step).Some?
    ensures StagesInv(parts, ReaderStep(parts, st, step).value)
  {
    hide Inv, StagesInv, ValidRun;
    match step {
      case TakePartition => TakePartitionKeeps(parts, st);
      case DecodeChunk => DecodeChunkKeeps(parts, st);
      case PutChunk => PutChunkKeeps(parts, st);
      case FinishPartition => FinishPartitionKeeps(parts, st);
      case EndChunks => EndChunksKeeps(parts, st);
      case _ =>
    }
  }

  lemma InMiddle<T>(a: seq<T>, b: seq<T>, c: seq<T>, i: nat)
    requires i < |b|
    ensures |a| + i < |(a + b) + c| && ((a + b) + c)[|a| + i] == b[i]
  {
  }

  /** Where a chunk's rows sit among all rows. */
  lemma RowPosition(all: seq<Chunk>, k: nat, i: nat)
    requires k < |all| && i < |all[k].rows|
    ensures ChunkRows(all[..k + 1]) == ChunkRows(all[..k]) + all[k].rows
    ensures |ChunkRows(all[..k])| + i < |ChunkRows(all)|
    ensures ChunkRows(all)[|ChunkRows(all[..k])| + i] == all[k].rows[i]
  {
    hide ChunkRows;
    assert all == all[..k + 1] + all[k + 1..] && all[..k + 1] == all[..k] + [all[k]];
    ChunkRowsConcat(all[..k + 1], all[k + 1..]);
    ChunkRowsSnoc(all[..k], all[k]);
    InMiddle(ChunkRows(all[..k]), all[k].rows, ChunkRows(all[k + 1..]), i);
  }

  /** The admitter always finds the chunk it expects. */
  lemma NextMessage(parts: seq<seq<Chunk>>, st: State)
    requires ValidRun(parts) && Inv(parts, st)
    requires st.admitter.current.None? && st.admitter.second < |parts| && st.chunks != []
    ensures var a := st.admitter;
            && st.chunks[0] == Data(parts[a.second][a.chunk])
            && parts[a.second][a.chunk].second == a.second && parts[a.second][a.chunk].index == a.chunk
  {
    BaseAdmitted(parts, st.admitter);
    BaseBound(parts, st.reader.expected);
    hide ChunksBefore, PriorInv, TraceInv, SpoolInv, Schedule;
    var taken, index := TakenIndex(parts, st.admitter), ReaderIndex(parts, st.reader);
    assert taken < index;
    assert AllChunks(parts)[taken..index][0] == AllChunks(parts)[taken];
  }

  /** The queue of chunks depends on the admitter only through the first chunk it has not taken. */
  lemma ChunkFrame(parts: seq<seq<Chunk>>, r: Reader, chunks: seq<Message<Chunk>>, a: Admitter, a': Admitter)
    requires ReaderInv(parts, r) && AdmitterInv(parts, a) && AdmitterInv(parts, a')
    requires ChunkInv(parts, r, chunks, a)
    requires TakenIndex(parts, a') == TakenIndex(parts, a) && a'.drained == a.drained
    ensures ChunkInv(parts, r, chunks, a')
  {
  }

  /** The trace depends on the admitter only through the chunks whose batch it put. */
  lemma TraceFrame(parts: seq<seq<Chunk>>, a: Admitter, a': Admitter, batches: seq<Message<seq<Row>>>, t: Tracer)
    requires AdmitterInv(parts, a) && AdmitterInv(parts, a') && TraceInv(parts, a, batches, t)
    requires AdmittedIndex(parts, a') == AdmittedIndex(parts, a) && a'.ended == a.ended
    ensures TraceInv(parts, a', batches, t)
  {
  }

  lemma PriorFrame(parts: seq<seq<Chunk>>, a: Admitter, a': Admitter)
    requires AdmitterInv(parts, a) && AdmitterInv(parts, a') && PriorInv(parts, a)
    requires AdmittedIndex(parts, a') == AdmittedIndex(parts, a) && a'.done == a.done
    requires a'.prior == a.prior || a'.prior.None?
    ensures PriorInv(parts, a')
  {
  }

  lemma FirstMessageLeaves(all: seq<Chunk>, taken: int, index: int, ending: seq<Message<Chunk>>)
    requires 0 <= taken < index <= |all|
    ensures (Messages(all[taken..index]) + ending)[1..] == Messages(all[taken + 1..index]) + ending
  {
  }

  /** The admitter with the chunk it expects. */
  function WithChunk(a: Admitter, chunk: Chunk): Admitter {
    a.(current := Some(chunk), done := 0, prior := if a.chunk == 0 then None else a.prior)
  }

  lemma TakeChunkEnabled(parts: seq<seq<Chunk>>, st: State)
    requires AdmitterStep(parts, st, TakeChunk).Some?
    ensures st.admitter.current.None? && st.admitter.second < |parts| && st.chunks != []
  {
  }

  lemma TakeChunkMoves(parts: seq<seq<Chunk>>, st: State, chunk: Chunk)
    requires AdmitterStep(parts, st, TakeChunk).Some? && st.chunks != [] && st.chunks[0] == Data(chunk)
    requires chunk.second == st.admitter.second && chunk.index == st.admitter.chunk
    ensures AdmitterStep(parts, st, TakeChunk).value == st.(chunks := st.chunks[1..], admitter := WithChunk(st.admitter, chunk))
  {
  }

  lemma ChunkTaken(parts: seq<seq<Chunk>>, r: Reader, chunks: seq<Message<Chunk>>, a: Admitter)
    requires ReaderInv(parts, r) && AdmitterInv(parts, a) && ChunkInv(parts, r, chunks, a)
    requires a.current.None? && a.second < |parts| && a.chunk < |parts[a.second]|
    requires chunks != [] && chunks[0] == Data(parts[a.second][a.chunk])
    ensures var a' := WithChunk(a, parts[a.second][a.chunk]);
            && AdmitterInv(parts, a') && ChunkInv(parts, r, chunks[1..], a')
            && a'.second == a.second && a'.chunk == a.chunk && a'.done == a.done && a'.ended == a.ended
            && (a'.prior == a.prior || a'.prior.None?)
  {
    var a' := WithChunk(a, parts[a.second][a.chunk]);
    assert AdmitterInv(parts, a');
    hide ChunksBefore, AllChunks, Messages, ReaderInv, AdmitterInv, ReaderIndex, Base;
    var taken, index := TakenIndex(parts, a), ReaderIndex(parts, r);
    assert TakenIndex(parts, a') == taken + 1;
    if taken < index {
      FirstMessageLeaves(AllChunks(parts), taken, index, Ending(r.ended && !a.drained));
    } else {
      NoneWaiting(AllChunks(parts), taken, r.ended && !a.drained);
    }
  }

  lemma NoneWaiting(all: seq<Chunk>, n: int, ending: bool)
    requires 0 <= n <= |all|
    ensures Messages(all[n..n]) + Ending(ending) == Ending(ending)
  {
  }

  lemma TakeChunkKeeps(parts: seq<seq<Chunk>>, st: State)
    requires ValidRun(parts) && Inv(parts, st) && AdmitterStep(parts, st, TakeChunk).Some?
    ensures StagesInv(parts, AdmitterStep(parts, st, TakeChunk).value)
  {
    hide *;
    var a := st.admitter;
    InvParts(parts, st);
    TakeChunkEnabled(parts, st);
    ExpectedChunk(parts, a);
    NextMessage(parts, st);
    var chunk := parts[a.second][a.chunk];
    var a' := WithChunk(a, chunk);
    TakeChunkMoves(parts, st, chunk);
    ChunkTaken(parts, st.reader, st.chunks, a);
    SamePlace(parts, a, a');
    PriorFrame(parts, a, a');
    TraceFrame(parts, a, a', st.batches, st.tracer);
    MovesAdmitter(st, a', st.chunks[1..], st.batches);
    SameBatches(st, a', st.chunks[1..]);
    AdmitterMoves(parts, st, st.(chunks := st.chunks[1..], admitter := a'));
  }

  /** Only the admitter, its input queue and its output queue change. */
  ghost predicate AdmitterMoved(st: State, after: State) {
    after == st.(admitter := after.admitter, chunks := after.chunks, batches := after.batches)
  }

  lemma AdmitterMoves(parts: seq<seq<Chunk>>, st: State, after: State)
    requires StagesInv(parts, st) && AdmitterMoved(st, after)
    requires AdmitterInv(parts, after.admitter) && PriorInv(parts, after.admitter)
    requires ChunkInv(parts, st.reader, after.chunks, after.admitter)
    requires TraceInv(parts, after.admitter, after.batches, st.tracer)
    ensures StagesInv(parts, after)
  {
    hide ReaderInv, AdmitterInv, SpoolInv, ChunkInv, PriorInv, TraceInv;
  }

  lemma MovesAdmitter(st: State, a: Admitter, chunks: seq<Message<Chunk>>, batches: seq<Message<seq<Row>>>)
    ensures AdmitterMoved(st, st.(admitter := a, chunks := chunks, batches := batches))
    ensures st.(admitter := a, chunks := st.chunks, batches := st.batches) == st.(admitter := a)
  {
  }

  lemma SameBatches(st: State, a: Admitter, chunks: seq<Message<Chunk>>)
    ensures st.(admitter := a, chunks := chunks, batches := st.batches) == st.(chunks := chunks, admitter := a)
  {
  }

  lemma ExpectedChunk(parts: seq<seq<Chunk>>, a: Admitter)
    requires AdmitterInv(parts, a) && a.second < |parts|
    ensures a.chunk < |parts[a.second]|
  {
  }

  lemma InvParts(parts: seq<seq<Chunk>>, st: State)
    requires Inv(parts, st)
    ensures StagesInv(parts, st) && ReaderInv(parts, st.reader) && AdmitterInv(parts, st.admitter)
    ensures ChunkInv(parts, st.reader, st.chunks, st.admitter) && PriorInv(parts, st.admitter)
    ensures TraceInv(parts, st.admitter, st.batches, st.tracer)
  {
    hide ReaderInv, AdmitterInv, SpoolInv, ChunkInv, PriorInv, TraceInv, CountInv;
  }

  lemma SamePlace(parts: seq<seq<Chunk>>, a: Admitter, a': Admitter)
    requires a.second == a'.second <= |parts| && a.chunk == a'.chunk
    ensures AdmittedIndex(parts, a') == AdmittedIndex(parts, a)
    ensures a.current == a'.current ==> TakenIndex(parts, a') == TakenIndex(parts, a)
  {
  }

  /** The next row comes after the prior one, also across chunks, because both are neighbours in
      the schedule. */
  lemma NextRowFollows(parts: seq<seq<Chunk>>, a: Admitter)
    requires ValidRun(parts) && AdmitterInv(parts, a) && PriorInv(parts, a)
    requires a.current.Some? && a.done < |a.current.value.rows|
    ensures var row := a.current.value.rows[a.done];
            && (a.prior.Some? ==> KeyLess(a.prior.value, row))
            && AdmitterInv(parts, a.(done := a.done + 1, prior := Some(row), attempted := a.attempted + 1))
            && PriorInv(parts, a.(done := a.done + 1, prior := Some(row), attempted := a.attempted + 1))
  {
    BaseAdmitted(parts, a);
    RowPosition(AllChunks(parts), AdmittedIndex(parts, a), a.done);
    hide ChunksBefore, AllChunks, ChunkRows;
    var after := a.(done := a.done + 1, prior := Some(a.current.value.rows[a.done]), attempted := a.attempted + 1);
    assert AdmittedIndex(parts, after) == AdmittedIndex(parts, a);
  }

  lemma AdmitRowMoves(parts: seq<seq<Chunk>>, st: State)
    requires AdmitterStep(parts, st, AdmitRow).Some?
    requires var a := st.admitter;
             a.current.Some? && a.done < |a.current.value.rows| && a.prior.Some? ==>
               KeyLess(a.prior.value, a.current.value.rows[a.done])
    ensures var a := st.admitter;
            && a.current.Some? && a.done < |a.current.value.rows|
            && AdmitterStep(parts, st, AdmitRow).value
                 == st.(admitter := a.(done := a.done + 1, prior := Some(a.current.value.rows[a.done]), attempted := a.attempted + 1))
  {
  }

  lemma SecondInRange(parts: seq<seq<Chunk>>, a: Admitter)
    requires AdmitterInv(parts, a)
    ensures a.second <= |parts|
  {
  }

  lemma AdmitRowEnabled(parts: seq<seq<Chunk>>, st: State)
    requires AdmitterStep(parts, st, AdmitRow).Some?
    ensures st.admitter.current.Some? && st.admitter.done < |st.admitter.current.value.rows|
  {
  }

  lemma AdmitRowKeeps(parts: seq<seq<Chunk>>, st: State)
    requires ValidRun(parts) && Inv(parts, st) && AdmitterStep(parts, st, AdmitRow).Some?
    ensures StagesInv(parts, AdmitterStep(parts, st, AdmitRow).value)
  {
    hide *;
    var a := st.admitter;
    InvParts(parts, st);
    AdmitRowEnabled(parts, st);
    NextRowFollows(parts, a);
    AdmitRowMoves(parts, st);
    var a' := a.(done := a.done + 1, prior := Some(a.current.value.rows[a.done]), attempted := a.attempted + 1);
    SecondInRange(parts, a);
    SamePlace(parts, a, a');
    ChunkFrame(parts, st.reader, st.chunks, a, a');
    TraceFrame(parts, a, a', st.batches, st.tracer);
    assert AdmitterMoved(st, st.(admitter := a')) by { MovesAdmitter(st, a', st.chunks, st.batches); }
    AdmitterMoves(parts, st, st.(admitter := a'));
  }

  lemma NextChunkPosition(parts: seq<seq<Chunk>>, a: Admitter, a': Admitter)
    requires ValidRun(parts) && AdmitterInv(parts, a) && a.current.Some?
    requires a' == a.(current := None, done := 0,
                      second := if a.current.value.last then a.second + 1 else a.second,
                      chunk := if a.current.value.last then 0 else a.chunk + 1)
    ensures AdmitterInv(parts, a')
    ensures AdmittedIndex(parts, a') == AdmittedIndex(parts, a) + 1
  {
    assert LastMarked(parts[a.second]);
    if a'.second < |parts| { assert LastMarked(parts[a'.second]); }
    ChunkAt(parts, a.second, a.chunk);
  }

  /** Putting a batch moves a chunk's rows from the admitter to the trace side. */
  lemma PutBatchTrace(parts: seq<seq<Chunk>>, a: Admitter, a': Admitter, t: Tracer)
    requires AdmitterInv(parts, a) && AdmitterInv(parts, a') && a.current.Some?
    requires AdmittedIndex(parts, a') == AdmittedIndex(parts, a) + 1 && a'.ended == a.ended == false
    requires a'.prior == a.prior && a.done == |a.current.value.rows| && a'.done == 0
    ensures PriorInv(parts, a) ==> PriorInv(parts, a')
    ensures TraceInv(parts, a, [], t) ==> TraceInv(parts, a', [Data(a.current.value.rows)], t)
  {
    BaseAdmitted(parts, a);
    var all, index := AllChunks(parts), AdmittedIndex(parts, a);
    assert all[..index + 1] == all[..index] + [all[index]];
    ChunkRowsSnoc(all[..index], all[index]);
    hide ChunksBefore, AllChunks, ChunkRows;
    assert BatchRows([Data(a.current.value.rows)]) == a.current.value.rows;
    assert BatchRows([]) == [];
  }

  lemma PutBatchKeeps(parts: seq<seq<Chunk>>, st: State)
    requires ValidRun(parts) && Inv(parts, st) && AdmitterStep(parts, st, PutBatch).Some?
    ensures StagesInv(parts, AdmitterStep(parts, st, PutBatch).value)
  {
    var a := st.admitter;
    var after := AdmitterStep(parts, st, PutBatch).value;
    NextChunkPosition(parts, a, after.admitter);
    assert TakenIndex(parts, after.admitter) == TakenIndex(parts, a);
    assert st.batches == [] && !a.ended;
    hide ChunksBefore, AllChunks, SpoolInv, ChunkRows, ValidRun, PriorInv, TraceInv, AdmitterInv, ChunkInv, AdmittedIndex, CountInv;
    PutBatchTrace(parts, a, after.admitter, st.tracer);
    ChunkFrame(parts, st.reader, st.chunks, a, after.admitter);
    assert after.batches == [Data(a.current.value.rows)];
  }

  /** With every chunk admitted, all that the queue can still hold is the end marker. */
  lemma OnlyEndLeft(parts: seq<seq<Chunk>>, r: Reader, chunks: seq<Message<Chunk>>, a: Admitter)
    requires ReaderInv(parts, r) && AdmitterInv(parts, a) && ChunkInv(parts, r, chunks, a)
    requires a.second == |parts| && !a.drained && chunks != []
    ensures chunks == [End] && r.ended
    ensures AdmitterInv(parts, a.(drained := true)) && ChunkInv(parts, r, [], a.(drained := true))
  {
    BaseAdmitted(parts, a);
    hide ChunksBefore, AllChunks, ReaderInv;
    assert AllChunks(parts)[TakenIndex(parts, a)..ReaderIndex(parts, r)] == [];
    assert TakenIndex(parts, a.(drained := true)) == TakenIndex(parts, a);
  }

  lemma EndsAgree(parts: seq<seq<Chunk>>, st: State)
    requires Inv(parts, st) && st.reader.ended && st.admitter.second == |parts|
    ensures st.reader.decoded == st.admitter.attempted == |Schedule(parts)|
  {
    hide ChunksBefore, AllChunks, SpoolInv, PriorInv, TraceInv, ChunkInv, ChunkRows, CountInv;
    AllDecoded(parts, st.reader, st.admitter);
  }

  lemma TakeEndKeeps(parts: seq<seq<Chunk>>, st: State)
    requires Inv(parts, st) && AdmitterStep(parts, st, TakeEnd).Some?
    ensures StagesInv(parts, AdmitterStep(parts, st, TakeEnd).value)
  {
    hide ChunksBefore, AllChunks, SpoolInv, ReaderInv, PriorInv, TraceInv, BatchRows, ChunkRows, Messages, CountInv;
    var a := st.admitter;
    OnlyEndLeft(parts, st.reader, st.chunks, a);
    EndsAgree(parts, st);
    hide AdmitterInv, ChunkInv;
    var a' := a.(drained := true);
    assert AdmittedIndex(parts, a') == AdmittedIndex(parts, a);
    PriorFrame(parts, a, a');
    TraceFrame(parts, a, a', st.batches, st.tracer);
  }

  lemma EndTraceTrace(parts: seq<seq<Chunk>>, a: Admitter, t: Tracer)
    requires AdmitterInv(parts, a) && a.drained && !a.ended && TraceInv(parts, a, [], t)
    ensures AdmitterInv(parts, a.(ended := true)) && TraceInv(parts, a.(ended := true), [End], t)
  {
    hide ChunksBefore, AllChunks, ChunkRows;
    assert BatchRows([End]) == BatchRows([]);
    assert AdmittedIndex(parts, a.(ended := true)) == AdmittedIndex(parts, a);
  }

  lemma EndTraceMoves(parts: seq<seq<Chunk>>, st: State)
    requires AdmitterStep(parts, st, EndTrace).Some?
    ensures st.batches == [] && st.admitter.drained && !st.admitter.ended
    ensures AdmitterStep(parts, st, EndTrace).value == st.(admitter := st.admitter.(ended := true), batches := [End])
  {
    assert st.batches == [];
    assert st.batches + [End] == [End];
  }

  lemma EndTraceKeeps(parts: seq<seq<Chunk>>, st: State)
    requires Inv(parts, st) && AdmitterStep(parts, st, EndTrace).Some?
    ensures StagesInv(parts, AdmitterStep(parts, st, EndTrace).value)
  {
    hide *;
    var a := st.admitter;
    InvParts(parts, st);
    EndTraceMoves(parts, st);
    EndTraceTrace(parts, a, st.tracer);
    SecondInRange(parts, a);
    var a' := a.(ended := true);
    SamePlace(parts, a, a');
    PriorFrame(parts, a, a');
    ChunkFrame(parts, st.reader, st.chunks, a, a');
    MovesAdmitter(st, a', st.chunks, [End]);
    AdmitterMoves(parts, st, st.(admitter := a', batches := [End]));
  }

  lemma AdmitterKeeps(parts: seq<seq<Chunk>>, st: State, step: Step)
    requires ValidRun(parts) && Inv(parts, st) && AdmitterStep(parts, st, step).Some?
    ensures StagesInv(parts, AdmitterStep(parts, st, step).value)
  {
    hide Inv, StagesInv, ValidRun;
    match step {
      case TakeChunk => TakeChunkKeeps(parts, st);
      case AdmitRow => AdmitRowKeeps(parts, st);
      case PutBatch => PutBatchKeeps(parts, st);
      case TakeEnd => TakeEndKeeps(parts, st);
      case EndTrace => EndTraceKeeps(parts, st);
      case _ =>
    }
  }

  /** Only the trace writer and its input queue change. */
  lemma TracerMoves(parts: seq<seq<Chunk>>, st: State, after: State)
    requires StagesInv(parts, st) && after == st.(tracer := after.tracer, batches := after.batches)
    requires AdmitterInv(parts, st.admitter) && TraceInv(parts, st.admitter, after.batches, after.tracer)
    ensures StagesInv(parts, after)
  {
    hide ReaderInv, AdmitterInv, SpoolInv, ChunkInv, PriorInv, TraceInv;
  }

  lemma TraceKeeps(parts: seq<seq<Chunk>>, a: Admitter, st: State, step: Step)
    requires AdmitterInv(parts, a) && TraceInv(parts, a, st.batches, st.tracer) && TracerStep(st, step).Some?
    ensures var after := TracerStep(st, step).value;
            after == st.(tracer := after.tracer, batches := after.batches) && TraceInv(parts, a, after.batches, after.tracer)
  {
    BaseAdmitted(parts, a);
    hide ChunksBefore, AllChunks, ChunkRows, AdmitterInv, AdmittedIndex;
    var t := st.tracer;
    if step.WriteRows? {
      assert t.trace + t.writing[..step.count] + t.writing[step.count..] == t.trace + t.writing;
    }
  }

  lemma TracerKeeps(parts: seq<seq<Chunk>>, st: State, step: Step)
    requires Inv(parts, st) && TracerStep(st, step).Some?
    ensures StagesInv(parts, TracerStep(st, step).value)
  {
    hide *;
    InvParts(parts, st);
    TraceKeeps(parts, st.admitter, st, step);
    TracerMoves(parts, st, TracerStep(st, step).value);
  }

  /** The decoded rows are those of the decoded chunks. */
  lemma DecodeCounts(parts: seq<seq<Chunk>>, r: Reader, r': Reader)
    requires ReaderInv(parts, r) && ReaderInv(parts, r') && r.decoded == |ChunkRows(AllChunks(parts)[..DecodedIndex(parts, r)])|
    requires r.expected < |parts| && r.position < |parts[r.expected]| && r'.expected == r.expected && r'.position == r.position + 1
    requires r'.decoded == r.decoded + |parts[r.expected][r.position].rows|
    ensures r'.decoded == |ChunkRows(AllChunks(parts)[..DecodedIndex(parts, r')])|
  {
    DecodedBound(parts, r);
    var all, n := AllChunks(parts), DecodedIndex(parts, r);
    assert DecodedIndex(parts, r') == n + 1;
    hide ChunkRows, AllChunks, ReaderInv, ChunksBefore, DecodedIndex;
    assert all[..n + 1] == all[..n] + [all[n]];
    ChunkRowsSnoc(all[..n], all[n]);
  }

  lemma FinishCounts(parts: seq<seq<Chunk>>, r: Reader, r': Reader)
    requires ReaderInv(parts, r) && ReaderInv(parts, r') && r.expected < |parts| && r.position == |parts[r.expected]|
    requires r'.expected == r.expected + 1 && r'.position == 0
    ensures DecodedIndex(parts, r') == DecodedIndex(parts, r)
  {
    assert Base(parts, r.expected + 1) == Base(parts, r.expected) + |parts[r.expected]|;
  }

  lemma SamePlaceCounts(parts: seq<seq<Chunk>>, r: Reader, r': Reader)
    requires ReaderInv(parts, r) && ReaderInv(parts, r') && r'.expected == r.expected && r'.position == r.position
    ensures DecodedIndex(parts, r') == DecodedIndex(parts, r)
  {
  }

  lemma ReaderCounts(parts: seq<seq<Chunk>>, st: State, step: Step)
    requires Inv(parts, st) && ReaderStep(parts, st, step).Some?
    requires StagesInv(parts, ReaderStep(parts, st, step).value)
    ensures CountInv(parts, ReaderStep(parts, st, step).value.reader, st.admitter)
  {
    hide ChunkRows, AllChunks, SpoolInv, ChunkInv, PriorInv, TraceInv, AdmitterInv, ChunksBefore, DecodedIndex, AttemptsCounted,
         Schedule;
    var r, r' := st.reader, ReaderStep(parts, st, step).value.reader;
    if step.DecodeChunk? {
      DecodeCounts(parts, r, r');
    } else if step.FinishPartition? {
      FinishCounts(parts, r, r');
    } else {
      SamePlaceCounts(parts, r, r');
    }
  }

  lemma BatchCounts(parts: seq<seq<Chunk>>, a: Admitter, a': Admitter)
    requires AdmitterInv(parts, a) && AdmitterInv(parts, a') && a.current.Some?
    requires AdmittedIndex(parts, a') == AdmittedIndex(parts, a) + 1
    requires a'.attempted == a.attempted && a.done == |a.current.value.rows| && a'.done == 0
    requires AttemptsCounted(parts, a)
    ensures AttemptsCounted(parts, a')
  {
    BaseAdmitted(parts, a);
    var all, n := AllChunks(parts), AdmittedIndex(parts, a);
    assert all[..n + 1] == all[..n] + [all[n]];
    ChunkRowsSnoc(all[..n], all[n]);
    hide ChunksBefore, AllChunks, ChunkRows;
  }

  lemma PutBatchCounts(parts: seq<seq<Chunk>>, st: State)
    requires ValidRun(parts) && AdmitterInv(parts, st.admitter) && AdmitterStep(parts, st, PutBatch).Some?
    requires AdmitterInv(parts, AdmitterStep(parts, st, PutBatch).value.admitter) && AttemptsCounted(parts, st.admitter)
    ensures AttemptsCounted(parts, AdmitterStep(parts, st, PutBatch).value.admitter)
  {
    hide ValidRun, AdmitterInv, AttemptsCounted, ChunksBefore;
    var a, a' := st.admitter, AdmitterStep(parts, st, PutBatch).value.admitter;
    NextChunkPosition(parts, a, a');
    BatchCounts(parts, a, a');
  }

  lemma RowCounts(parts: seq<seq<Chunk>>, st: State, step: Step)
    requires AdmitterInv(parts, st.admitter) && AdmitterStep(parts, st, step).Some? && !step.PutBatch?
    requires AdmitterInv(parts, AdmitterStep(parts, st, step).value.admitter) && AttemptsCounted(parts, st.admitter)
    ensures AttemptsCounted(parts, AdmitterStep(parts, st, step).value.admitter)
  {
    hide ChunksBefore, ChunkRows, AllChunks, Schedule;
    var a, a' := st.admitter, AdmitterStep(parts, st, step).value.admitter;
    assert AdmittedIndex(parts, a') == AdmittedIndex(parts, a);
  }

  lemma AdmitterCounts(parts: seq<seq<Chunk>>, st: State, step: Step)
    requires ValidRun(parts) && Inv(parts, st) && AdmitterStep(parts, st, step).Some?
    requires StagesInv(parts, AdmitterStep(parts, st, step).value)
    ensures CountInv(parts, st.reader, AdmitterStep(parts, st, step).value.admitter)
  {
    hide SpoolInv, ChunkInv, PriorInv, TraceInv, ReaderInv, AdmitterInv, ChunksBefore, AllChunks, ChunkRows, ValidRun, AdmitterStep;
    if step.PutBatch? { PutBatchCounts(parts, st); } else { RowCounts(parts, st, step); }
  }

  lemma StageKeeps(parts: seq<seq<Chunk>>, st: State, step: Step)
    requires ValidRun(parts) && Inv(parts, st) && Apply(parts, st, step).Some?
    ensures StagesInv(parts, Apply(parts, st, step).value)
  {
    hide ValidRun, WriterStep, ReaderStep, AdmitterStep, TracerStep, SpoolInv, ReaderInv, AdmitterInv, ChunkInv, PriorInv, TraceInv,
         CountInv;
    match step {
      case PreparePartition | PutPartition | EndSpool => WriterKeeps(parts, st, step);
      case TakePartition | DecodeChunk | PutChunk | FinishPartition | EndChunks => ReaderKeeps(parts, st, step);
      case TakeChunk | AdmitRow | PutBatch | TakeEnd | EndTrace => AdmitterKeeps(parts, st, step);
      case TakeBatch | WriteRows(_) | FinishBatch => TracerKeeps(parts, st, step);
      case Abort =>
      case CleanUp => CleaningKeeps(parts, st.writer, st.files, st.spool, st.reader);
    }
  }

  lemma CleaningKeeps(parts: seq<seq<Chunk>>, w: Writer, files: set<nat>, spool: seq<Message<nat>>, r: Reader)
    requires SpoolInv(parts, w, files, spool, r)
    ensures SpoolInv(parts, w, {}, spool, r)
  {
  }

  /** A step touches only its own stage, its files and its queues. */
  lemma StepFrame(parts: seq<seq<Chunk>>, st: State, step: Step)
    requires Apply(parts, st, step).Some?
    ensures var after := Apply(parts, st, step).value;
            && (after.reader == st.reader || ReaderStep(parts, st, step) == Some(after))
            && (after.admitter == st.admitter || AdmitterStep(parts, st, step) == Some(after))
            && (after.reader == st.reader || after.admitter == st.admitter)
            && (after.cleaned && !st.cleaned ==> st.aborted) && (st.aborted ==> after.aborted)
  {
    hide ChunkRows, AllChunks, Schedule, LastMarked;
  }

  /** Every step of every stage, in any order, keeps the invariant; in particular none of the
      checks ever refuses. */
  lemma StepKeeps(parts: seq<seq<Chunk>>, st: State, step: Step)
    requires ValidRun(parts) && Inv(parts, st) && Apply(parts, st, step).Some?
    ensures Inv(parts, Apply(parts, st, step).value)
  {
    hide ValidRun, Apply, ReaderStep, AdmitterStep, SpoolInv, ReaderInv, AdmitterInv, ChunkInv, PriorInv, TraceInv, CountInv;
    var after := Apply(parts, st, step).value;
    StageKeeps(parts, st, step);
    StepFrame(parts, st, step);
    if after.reader != st.reader {
      ReaderCounts(parts, st, step);
    } else if after.admitter != st.admitter {
      AdmitterCounts(parts, st, step);
    }
  }

  // ----- Whole runs --------------------------------------------------------------------------------

  /** A run: from the start, each state comes from the one before by one step of some stage. */
  ghost predicate Run(parts: seq<seq<Chunk>>, states: seq<State>) {
    && states != [] && states[0] == Start()
    && forall k :: 0 <= k < |states| - 1 ==> Follows(parts, states[k], states[k + 1])
  }

  ghost predicate Follows(parts: seq<seq<Chunk>>, st: State, after: State) {
    exists step :: Apply(parts, st, step) == Some(after)
  }

  lemma {:induction false} RunKeepsInv(parts: seq<seq<Chunk>>, states: seq<State>, k: nat)
    requires ValidRun(parts) && Run(parts, states) && k < |states|
    ensures Inv(parts, states[k])
  {
    if k == 0 {
      StartInv(parts);
    } else {
      RunKeepsInv(parts, states, k - 1);
      assert Follows(parts, states[k - 1], states[k]);
      var step :| Apply(parts, states[k - 1], step) == Some(states[k]);
      StepKeeps(parts, states[k - 1], step);
    }
  }

  /** Rows on their way: taken from the reader's decoded chunks, in order, but not traced yet. */
  function InTransit(parts: seq<seq<Chunk>>, st: State): seq<Row>
    requires Inv(parts, st)
  {
    st.tracer.writing + BatchRows(st.batches)
    + ChunkRows(AllChunks(parts)[AdmittedIndex(parts, st.admitter)..ReaderIndex(parts, st.reader)])
  }

  /** In every state of every run: the trace followed by the rows in transit is a prefix of the
      schedule, no queue is over its capacity, at most five spool files exist, and no stage has
      refused anything. */
  lemma RunIsSafe(parts: seq<seq<Chunk>>, states: seq<State>, k: nat)
    requires ValidRun(parts) && Run(parts, states) && k < |states|
    ensures Inv(parts, states[k])
    ensures states[k].tracer.trace + InTransit(parts, states[k]) <= Schedule(parts)
    ensures |states[k].spool| <= 3 && |states[k].chunks| <= 2 && |states[k].batches| <= 1
    ensures |states[k].files| <= 5
    ensures !states[k].refused
  {
    RunKeepsInv(parts, states, k);
    TransitIsPrefix(parts, states[k]);
    FilesBounded(parts, states[k]);
  }

  lemma CutInThree<T>(all: seq<T>, a: int, r: int)
    requires 0 <= a <= r <= |all|
    ensures all == all[..a] + (all[a..r] + all[r..])
  {
  }

  lemma TransitIsPrefix(parts: seq<seq<Chunk>>, st: State)
    requires Inv(parts, st)
    ensures st.tracer.trace + InTransit(parts, st) <= Schedule(parts)
  {
    BaseAdmitted(parts, st.admitter);
    hide ChunksBefore, SpoolInv, ReaderInv, AdmitterInv, PriorInv;
    var all, a, r := AllChunks(parts), AdmittedIndex(parts, st.admitter), ReaderIndex(parts, st.reader);
    hide ChunkRows, AllChunks, ReaderIndex, AdmittedIndex;
    CutInThree(all, a, r);
    ChunkRowsConcat(all[a..r], all[r..]);
    ChunkRowsConcat(all[..a], all[a..r] + all[r..]);
    TransitSum(st.tracer.trace, st.tracer.writing, BatchRows(st.batches), ChunkRows(all[..a]), ChunkRows(all[a..r]), ChunkRows(all[r..]));
  }

  lemma TransitSum(trace: seq<Row>, writing: seq<Row>, batch: seq<Row>, before: seq<Row>, moving: seq<Row>, later: seq<Row>)
    requires trace + writing + batch == before
    ensures trace + (writing + batch + moving) <= before + (moving + later)
  {
    assert trace + (writing + batch + moving) == before + moving;
  }

  /** The files belong to seconds between the reader's and the writer's: three queued, one held by
      the writer and one being read. */
  lemma FilesBounded(parts: seq<seq<Chunk>>, st: State)
    requires Inv(parts, st)
    ensures |st.files| <= 5
  {
    var lo := st.reader.expected;
    var bound := {lo, lo + 1, lo + 2, lo + 3, lo + 4};
    assert st.writer.prepared <= lo + 5;
    assert st.files <= bound;
    SubsetSize(st.files, bound);
  }

  lemma SubsetSize(part: set<nat>, whole: set<nat>)
    requires part <= whole
    ensures |part| <= |whole|
  {
    assert whole == part + (whole - part);
  }

  /** When the trace writer has seen the end marker the trace is the whole schedule, so it is
      strictly increasing in (due, id) across all seconds, although the order check starts afresh
      with every second. */
  lemma EndedRunTracesSchedule(parts: seq<seq<Chunk>>, states: seq<State>, k: nat)
    requires ValidRun(parts) && Run(parts, states) && k < |states|
    requires states[k].tracer.ended
    ensures states[k].tracer.trace == Schedule(parts)
    ensures StrictlySorted(states[k].tracer.trace)
    ensures states[k].reader.decoded == states[k].admitter.attempted == |states[k].tracer.trace|
  {
    RunKeepsInv(parts, states, k);
    var st := states[k];
    BaseAdmitted(parts, st.admitter);
    assert AllChunks(parts)[..AdmittedIndex(parts, st.admitter)] == AllChunks(parts);
    assert st.tracer.trace + st.tracer.writing + BatchRows(st.batches) == st.tracer.trace;
  }

  // ----- From the spool to the run ---------------------------------------------------------------

  /** The replay of every second's partition, as the chunk reader promises it. */
  ghost predicate Replays(parts: seq<seq<Chunk>>, schedule: seq<Row>) {
    forall s :: 0 <= s < |parts| ==>
      && LastMarked(parts[s])
      && ChunkRows(parts[s]) == InSecond(schedule, s)
      && forall i :: 0 <= i < |parts[s]| ==> parts[s][i].second == s && parts[s][i].index == i
  }

  /** Replaying the finished spool of a strictly sorted schedule is a valid run of that schedule. */
  lemma ReplayedSpoolIsValidRun(parts: seq<seq<Chunk>>, partitions: seq<Partition>, schedule: seq<Row>)
    requires Replays(parts, schedule) && |partitions| == |parts|
    requires forall s :: 0 <= s < |partitions| ==> partitions[s] == Partition(s, InSecond(schedule, s))
    requires RowsOf(partitions) == schedule && StrictlySorted(schedule)
    ensures ValidRun(parts) && Schedule(parts) == schedule
  {
    ChunksHoldPartitions(parts, partitions, schedule, |parts|);
    assert partitions[..|parts|] == partitions;
  }

  lemma {:induction false} ChunksHoldPartitions(parts: seq<seq<Chunk>>, partitions: seq<Partition>, schedule: seq<Row>, s: nat)
    requires Replays(parts, schedule) && |partitions| == |parts| && s <= |parts|
    requires forall k :: 0 <= k < |partitions| ==> partitions[k] == Partition(k, InSecond(schedule, k))
    ensures ChunkRows(ChunksBefore(parts, s)) == RowsOf(partitions[..s])
  {
    if s > 0 {
      ChunksHoldPartitions(parts, partitions, schedule, s - 1);
      ChunkRowsConcat(ChunksBefore(parts, s - 1), parts[s - 1]);
      assert partitions[..s][..s - 1] == partitions[..s - 1];
    }
  }
}
