/** The bytes of the spool between its writer and its reader: what was written for a second is replayed as
    exactly that second's rows, however the bytes are cut. */
module SpoolFiles {
  import opened Workload
  import opened Ordering
  import opened Framing
  import opened Cuts
  import opened Spool
  import opened Chunks
  import opened Pipeline

  type Encoder = Row -> seq<Byte>

  type Digest = seq<Byte> -> nat

  /** Cuts the content of a second's file into the pieces that its reader gets. */
  type Cutter = (nat, seq<Byte>) -> seq<seq<Byte>>

  /** The reader's row format undoes the writer's, and a row is one line. Rows carry a payload. */
  ghost predicate Codec(encode: Encoder, decode: Decoder) {
    && DecodesPayloads(decode)
    && forall row: Row :: 0 < row.body.payloadBytes ==> decode(encode(row)) == Some(row) && OneLine(encode(row))
  }

  ghost predicate CarryPayloads(rows: seq<Row>) {
    forall k :: 0 <= k < |rows| ==> 0 < rows[k].body.payloadBytes
  }

  /** The writer's bound on a line. */
  ghost predicate LinesFit(rows: seq<Row>, encode: Encoder) {
    forall k :: 0 <= k < |rows| ==> |encode(rows[k])| <= MAX_LINE
  }

  /** The chunk reader's bound on a row, which the writer does not check. */
  ghost predicate PayloadsFit(rows: seq<Row>) {
    forall k :: 0 <= k < |rows| ==> rows[k].body.payloadBytes <= MAX_PAYLOAD
  }

  function Encoded(rows: seq<Row>, encode: Encoder): (lines: seq<seq<Byte>>)
    ensures |lines| == |rows| && forall k :: 0 <= k < |rows| ==> lines[k] == encode(rows[k])
  {
    seq(|rows|, k requires 0 <= k < |rows| => encode(rows[k]))
  }

  // ----- Writing --------------------------------------------------------------------------------------

  /** The file of a partition and the facts recorded about it. */
  datatype Written = Written(content: seq<Byte>, facts: SpoolFacts)

  ghost predicate IsWritten(w: Written, p: Partition, encode: Encoder, digest: Digest) {
    && w.content == Flatten(Encoded(p.rows, encode))
    && w.facts == SpoolFacts(p.rows != [], p.second, Artifact(|p.rows|, |w.content|, digest(w.content)))
  }

  /** Writes one partition, row by row. A line over the bound stops the writer; an empty second gets no file. */
  method WritePartition(p: Partition, encode: Encoder, digest: Digest) returns (r: Option<Written>)
    ensures r.Some? <==> LinesFit(p.rows, encode)
    ensures r.Some? ==> IsWritten(r.value, p, encode, digest)
  {
    if p.rows == [] {
      return Some(Written([], SpoolFacts(false, p.second, Artifact(0, 0, digest([])))));
    }
    var content: seq<Byte> := [];
    for k := 0 to |p.rows|
      invariant content == Flatten(Encoded(p.rows[..k], encode)) && LinesFit(p.rows[..k], encode)
    {
      var line := encode(p.rows[k]);
      if |line| > MAX_LINE {
        return None;
      }
      FlattenSnoc(Encoded(p.rows[..k], encode), line);
      assert Encoded(p.rows[..k + 1], encode) == Encoded(p.rows[..k], encode) + [line];
      content := content + line;
    }
    assert p.rows[..|p.rows|] == p.rows;
    r := Some(Written(content, SpoolFacts(true, p.second, Artifact(|p.rows|, |content|, digest(content)))));
  }

  // ----- Reading back ---------------------------------------------------------------------------------

  /** Lines put together are found again. */
  lemma {:induction false} LinesOfFlatten(lines: seq<seq<Byte>>)
    requires forall k :: 0 <= k < |lines| ==> OneLine(lines[k])
    ensures LinesOf(Flatten(lines)) == lines && TailOf(Flatten(lines)) == []
  {
    hide LinesOf, TailOf, FirstNewline;
    if lines == [] {
      EmptyContent();
    } else {
      var line, rest := lines[0], Flatten(lines[1..]);
      LinesOfFlatten(lines[1..]);
      CutLine(line, rest);
      assert line[..|line|] == line && line[|line|..] + rest == rest;
      assert lines == [line] + lines[1..];
    }
  }

  lemma EmptyContent()
    ensures LinesOf([]) == [] && TailOf([]) == []
  {
  }

  lemma EncodedLines(rows: seq<Row>, encode: Encoder, decode: Decoder)
    requires Codec(encode, decode) && CarryPayloads(rows)
    ensures LinesOf(Flatten(Encoded(rows, encode))) == Encoded(rows, encode) && TailOf(Flatten(Encoded(rows, encode))) == []
  {
    LinesOfFlatten(Encoded(rows, encode));
  }

  /** A written file is accepted under every cut exactly when the payloads fit into a chunk. */
  lemma WrittenIsAccepted(p: Partition, w: Written, encode: Encoder, decode: Decoder, digest: Digest, pieces: seq<seq<Byte>>)
    requires Codec(encode, decode) && CarryPayloads(p.rows) && LinesFit(p.rows, encode) && IsWritten(w, p, encode, digest)
    requires forall k :: 0 <= k < |p.rows| ==> SecondOf(p.rows[k]) == p.second
    requires CutOf(w.content, pieces)
    ensures !Overlong(pieces)
    ensures PartitionAccepts(w.content, decode, digest, p.second, w.facts.artifact) <==> PayloadsFit(p.rows)
  {
    hide Overlong, Flatten, LinesOf, TailOf, SecondOf;
    EncodedLines(p.rows, encode, decode);
    PassesEveryCut(w.content);
    hide OneLine;
    assert forall k :: 0 <= k < |p.rows| ==> decode(encode(p.rows[k])) == Some(p.rows[k]);
    forall k | 0 <= k < |p.rows|
      ensures FineLine(LinesOf(w.content)[k], decode, p.second) <==> p.rows[k].body.payloadBytes <= MAX_PAYLOAD
    {
    }
  }

  /** Replaying the file of one second gives back its rows, under every cut of its bytes. */
  method ReplaySecond(p: Partition, w: Written, pieces: seq<seq<Byte>>, ghost encode: Encoder, decode: Decoder, digest: Digest)
    returns (ok: bool, emitted: seq<Chunk>)
    requires Codec(encode, decode) && CarryPayloads(p.rows) && LinesFit(p.rows, encode) && IsWritten(w, p, encode, digest)
    requires forall k :: 0 <= k < |p.rows| ==> SecondOf(p.rows[k]) == p.second
    requires CutOf(w.content, pieces)
    ensures ok <==> PayloadsFit(p.rows)
    ensures ok ==> ReplayOf(emitted, p)
  {
    hide Overlong, PartitionAccepts, PartialReplay, SecondOf, PayloadsFit, LinesFit;
    WrittenIsAccepted(p, w, encode, decode, digest, pieces);
    ok, emitted := ReplayPartition(pieces, decode, digest, w.facts);
    if p.rows == [] {
      EmptySecond(p, emitted);
    } else if ok {
      ReplayedRows(p, w.content, encode, decode, emitted);
    }
  }

  /** The chunks hold the partition's rows in order, are numbered from zero, and the final one is marked. */
  ghost predicate ReplayOf(emitted: seq<Chunk>, p: Partition) {
    && LastMarked(emitted) && ChunkRows(emitted) == p.rows
    && forall i :: 0 <= i < |emitted| ==> emitted[i].second == p.second && emitted[i].index == i
  }

  lemma EmptySecond(p: Partition, emitted: seq<Chunk>)
    requires p.rows == []
    ensures PayloadsFit(p.rows)
    ensures emitted == [Chunk(p.second, 0, [], true)] ==> ReplayOf(emitted, p)
  {
    if emitted == [Chunk(p.second, 0, [], true)] {
      assert emitted[..0] == [];
    }
  }

  lemma ReplayedRows(p: Partition, content: seq<Byte>, encode: Encoder, decode: Decoder, emitted: seq<Chunk>)
    requires Codec(encode, decode) && CarryPayloads(p.rows) && content == Flatten(Encoded(p.rows, encode))
    requires WellChunked(p.second, emitted) && LastMarked(emitted) && Decodes(ChunkRows(emitted), LinesOf(content), decode)
    ensures ReplayOf(emitted, p)
  {
    hide ChunkRows, LinesOf, OneLine;
    EncodedLines(p.rows, encode, decode);
  }

  // ----- The whole spool --------------------------------------------------------------------------------

  /** The partitions of a schedule: second by second, nothing lost. */
  ghost predicate PartitionsOf(partitions: seq<Partition>, schedule: seq<Row>) {
    && (forall s :: 0 <= s < |partitions| ==> partitions[s] == Partition(s, InSecond(schedule, s)))
    && RowsOf(partitions) == schedule
  }

  lemma {:induction false} PartOfRows(rows: seq<Row>, second: int, row: Row)
    ensures row in InSecond(rows, second) <==> row in rows && SecondOf(row) == second
  {
    if rows != [] { PartOfRows(rows[1..], second, row); }
  }

  /** What holds of all rows of a schedule holds of the rows of a second. */
  lemma PartitionFacts(schedule: seq<Row>, second: nat, encode: Encoder)
    ensures forall k :: 0 <= k < |InSecond(schedule, second)| ==> SecondOf(InSecond(schedule, second)[k]) == second
    ensures CarryPayloads(schedule) ==> CarryPayloads(InSecond(schedule, second))
    ensures LinesFit(schedule, encode) ==> LinesFit(InSecond(schedule, second), encode)
    ensures PayloadsFit(schedule) ==> PayloadsFit(InSecond(schedule, second))
  {
    var rows := InSecond(schedule, second);
    forall k | 0 <= k < |rows| ensures rows[k] in schedule && SecondOf(rows[k]) == second {
      PartOfRows(schedule, second, rows[k]);
    }
    hide InSecond, SecondOf;
  }

  /** What holds of the rows of every second holds of the schedule. */
  lemma SecondsCover(partitions: seq<Partition>, schedule: seq<Row>, k: nat) returns (s: nat, i: nat)
    requires PartitionsOf(partitions, schedule) && k < |schedule|
    ensures s < |partitions| && i < |partitions[s].rows| && partitions[s].rows[i] == schedule[k]
  {
    PartitionedEarlier(schedule, partitions);
    assert schedule[k] in RowsOf(partitions);
    s := SecondOf(schedule[k]);
    PartOfRows(schedule, s, schedule[k]);
    i :| 0 <= i < |InSecond(schedule, s)| && InSecond(schedule, s)[i] == schedule[k];
  }

  lemma AllSecondsFit(partitions: seq<Partition>, schedule: seq<Row>, encode: Encoder)
    requires PartitionsOf(partitions, schedule)
    ensures (forall s :: 0 <= s < |partitions| ==> LinesFit(partitions[s].rows, encode)) <==> LinesFit(schedule, encode)
    ensures (forall s :: 0 <= s < |partitions| ==> PayloadsFit(partitions[s].rows)) <==> PayloadsFit(schedule)
  {
    hide InSecond, SecondOf, RowsOf;
    forall s | 0 <= s < |partitions|
      ensures LinesFit(schedule, encode) ==> LinesFit(partitions[s].rows, encode)
      ensures PayloadsFit(schedule) ==> PayloadsFit(partitions[s].rows)
    {
      PartitionFacts(schedule, s, encode);
    }
    if forall s :: 0 <= s < |partitions| ==> LinesFit(partitions[s].rows, encode) {
      forall k | 0 <= k < |schedule| ensures |encode(schedule[k])| <= MAX_LINE {
        var s, i := SecondsCover(partitions, schedule, k);
      }
    }
    if forall s :: 0 <= s < |partitions| ==> PayloadsFit(partitions[s].rows) {
      forall k | 0 <= k < |schedule| ensures schedule[k].body.payloadBytes <= MAX_PAYLOAD {
        var s, i := SecondsCover(partitions, schedule, k);
      }
    }
  }

  lemma ReplaysAll(parts: seq<seq<Chunk>>, partitions: seq<Partition>, schedule: seq<Row>)
    requires PartitionsOf(partitions, schedule) && |parts| == |partitions| && StrictlySorted(schedule)
    requires forall s :: 0 <= s < |parts| ==> ReplayOf(parts[s], partitions[s])
    ensures Replays(parts, schedule) && ValidRun(parts) && Schedule(parts) == schedule
  {
    hide InSecond, RowsOf, ChunkRows, LastMarked, ValidRun, Schedule;
    ReplayedSpoolIsValidRun(parts, partitions, schedule);
  }

  /** Writes and replays the spool of a schedule. It succeeds exactly when every row is due in the run, there
      is one, every line keeps the writer's bound and every payload the reader's; however the bytes are cut,
      the chunks are then a valid run of the pipeline over exactly this schedule. */
  method WriteAndReplay(seconds: nat, schedule: seq<Row>, encode: Encoder, decode: Decoder, digest: Digest, cutter: Cutter)
    returns (ok: bool, parts: seq<seq<Chunk>>)
    requires SecondsAscend(schedule) && StrictlySorted(schedule)
    requires forall k :: 0 <= k < |schedule| ==> 0 <= SecondOf(schedule[k])
    requires Codec(encode, decode) && CarryPayloads(schedule)
    requires forall s, content :: CutOf(content, cutter(s, content))
    ensures ok <==> DueWithinRun(schedule, seconds) && schedule != [] && LinesFit(schedule, encode) && PayloadsFit(schedule)
    ensures ok ==> |parts| == seconds && Replays(parts, schedule) && ValidRun(parts) && Schedule(parts) == schedule
  {
    hide Codec, InSecond, SecondOf, RowsOf, LinesFit, PayloadsFit, CarryPayloads, ReplayOf, Replays, ValidRun, Schedule, IsWritten,
         CutOf, SecondsAscend, StrictlySorted;
    parts := [];
    var built := PrepareExchangeSpool(seconds, schedule);
    if built.Refused? {
      return false, parts;
    }
    var partitions := built.value;
    AllSecondsFit(partitions, schedule, encode);
    for s := 0 to seconds
      invariant |parts| == s
      invariant forall i :: 0 <= i < s ==> ReplayOf(parts[i], partitions[i])
      invariant forall i :: 0 <= i < s ==> LinesFit(partitions[i].rows, encode) && PayloadsFit(partitions[i].rows)
    {
      PartitionFacts(schedule, s, encode);
      var written := WritePartition(partitions[s], encode, digest);
      if written.None? {
        return false, parts;
      }
      var fine, emitted := ReplaySecond(partitions[s], written.value, cutter(s, written.value.content), encode, decode, digest);
      if !fine {
        return false, parts;
      }
      parts := parts + [emitted];
    }
    ReplaysAll(parts, partitions, schedule);
    ok := true;
  }
}
