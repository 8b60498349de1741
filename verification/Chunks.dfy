/** Replaying one spool partition as bounded admission chunks. */
module Chunks {
  import opened Workload
  import opened Ordering
  import opened Framing
  import opened Cuts
  import opened Spool

  const MAX_ROWS := 1_024
  const MAX_PAYLOAD := 8 * 1024 * 1024

  datatype Chunk = Chunk(second: nat, index: nat, rows: seq<Row>, last: bool)

  function PayloadOf(rows: seq<Row>): nat {
    if rows == [] then 0 else PayloadOf(rows[..|rows| - 1]) + rows[|rows| - 1].body.payloadBytes
  }

  function ChunkRows(chunks: seq<Chunk>): seq<Row> {
    if chunks == [] then [] else ChunkRows(chunks[..|chunks| - 1]) + chunks[|chunks| - 1].rows
  }

  /** The chunk could not have taken one more row of the given payload. */
  predicate NoRoom(rows: seq<Row>, payload: nat) {
    |rows| >= MAX_ROWS || PayloadOf(rows) + payload > MAX_PAYLOAD
  }

  /** What holds of every chunk list that a partition's replay emits. */
  ghost predicate WellChunked(second: nat, chunks: seq<Chunk>) {
    && (forall k :: 0 <= k < |chunks| ==>
          && chunks[k].second == second && chunks[k].index == k
          && 0 < |chunks[k].rows| <= MAX_ROWS && PayloadOf(chunks[k].rows) <= MAX_PAYLOAD
          && forall i :: 0 <= i < |chunks[k].rows| ==> SecondOf(chunks[k].rows[i]) == second)
    && (forall k :: 0 <= k < |chunks| - 1 ==> NoRoom(chunks[k].rows, chunks[k + 1].rows[0].body.payloadBytes))
  }

  /** Only the final chunk is marked last. */
  ghost predicate LastMarked(chunks: seq<Chunk>) {
    chunks != [] && forall k :: 0 <= k < |chunks| ==> (chunks[k].last <==> k == |chunks| - 1)
  }

  ghost predicate NoneLast(chunks: seq<Chunk>) {
    forall k :: 0 <= k < |chunks| ==> !chunks[k].last
  }

  // ----- Chunking is greedy, and greedy chunking is unique --------------------------------------

  lemma {:induction false} PayloadPrefix(rows: seq<Row>, n: nat)
    requires n < |rows|
    ensures PayloadOf(rows[..n]) + rows[n].body.payloadBytes <= PayloadOf(rows)
  {
    var last := |rows| - 1;
    if n < last {
      PayloadPrefix(rows[..last], n);
      assert rows[..last][..n] == rows[..n];
    }
  }

  /** The chunk row lists of a well-formed replay. */
  ghost predicate Greedy(parts: seq<seq<Row>>) {
    && (forall k :: 0 <= k < |parts| ==> 0 < |parts[k]| <= MAX_ROWS && PayloadOf(parts[k]) <= MAX_PAYLOAD)
    && (forall k :: 0 <= k < |parts| - 1 ==> NoRoom(parts[k], parts[k + 1][0].body.payloadBytes))
  }

  lemma FlattenEmpty(a: seq<seq<Row>>)
    requires Greedy(a)
    ensures Flatten(a) == [] <==> a == []
  {
    if a != [] { assert 0 < |a[0]| <= |Flatten(a)|; }
  }

  /** Any longer first part would break a bound. */
  lemma FirstPartIsFull(a: seq<seq<Row>>, n: nat)
    requires Greedy(a) && a != [] && |a[0]| < n <= |Flatten(a)|
    ensures n > MAX_ROWS || PayloadOf(Flatten(a)[..n]) > MAX_PAYLOAD
  {
    var rows, rest := Flatten(a), a[1..];
    assert rest != [];
    assert rest[0] == a[1] && Flatten(rest)[0] == rest[0][0];
    assert rows == a[0] + Flatten(rest);
    assert NoRoom(a[0], a[1][0].body.payloadBytes);
    assert rows[..n][..|a[0]|] == a[0] && rows[..n][|a[0]|] == a[1][0];
    PayloadPrefix(rows[..n], |a[0]|);
  }

  lemma ShorterFirstPart(a: seq<seq<Row>>, b: seq<seq<Row>>)
    requires Greedy(a) && Greedy(b) && a != [] && b != []
    requires Flatten(a) == Flatten(b)
    ensures |b[0]| <= |a[0]|
  {
    assert Flatten(b)[..|b[0]|] == b[0];
    if |a[0]| < |b[0]| { FirstPartIsFull(a, |b[0]|); }
  }

  /** The same rows have one greedy chunking: how the rows are cut does not depend on how the
      bytes arrived. */
  lemma {:induction false} GreedyIsUnique(a: seq<seq<Row>>, b: seq<seq<Row>>)
    requires Greedy(a) && Greedy(b) && Flatten(a) == Flatten(b)
    ensures a == b
  {
    FlattenEmpty(a);
    FlattenEmpty(b);
    if a != [] {
      ShorterFirstPart(a, b);
      ShorterFirstPart(b, a);
      var rows := Flatten(a);
      assert rows[..|a[0]|] == a[0] && rows[|a[0]|..] == Flatten(a[1..]);
      assert rows[..|b[0]|] == b[0] && rows[|b[0]|..] == Flatten(b[1..]);
      GreedyIsUnique(a[1..], b[1..]);
      assert a == [a[0]] + a[1..] && b == [b[0]] + b[1..];
    }
  }

  /** Parts within the bounds, cut in any way. */
  ghost predicate Bounded(parts: seq<seq<Row>>) {
    forall k :: 0 <= k < |parts| ==> |parts[k]| <= 1_024 && PayloadOf(parts[k]) <= 8 * 1024 * 1024
  }

  lemma {:induction false} PayloadSuffix(rows: seq<Row>, d: nat)
    requires d <= |rows|
    ensures PayloadOf(rows[d..]) <= PayloadOf(rows)
  {
    if d < |rows| {
      var init := rows[..|rows| - 1];
      PayloadSuffix(init, d);
      assert rows[d..][..|rows| - d - 1] == init[d..];
    }
  }

  /** A greedy chunking of the last rows has no more parts than any bounded one of all rows. */
  lemma {:induction false} GreedyOfSuffix(a: seq<seq<Row>>, b: seq<seq<Row>>, d: nat)
    requires Greedy(a) && Bounded(b) && d <= |Flatten(b)| && Flatten(b)[d..] == Flatten(a)
    ensures |a| <= |b|
    decreases |b|
  {
    FlattenEmpty(a);
    if a != [] {
      assert Flatten(b) != [];
      var first, rest, rows := b[0], b[1..], Flatten(a);
      assert Flatten(b) == first + Flatten(rest);
      assert Flatten(a) == a[0] + Flatten(a[1..]);
      if |first| <= d {
        assert Flatten(rest)[d - |first|..] == Flatten(a);
        GreedyOfSuffix(a, rest, d - |first|);
      } else {
        var n := |first| - d;
        assert first[d..] == rows[..n];
        PayloadSuffix(first, d);
        if |a[0]| < n { FirstPartIsFull(a, n); }
        assert Flatten(rest)[|a[0]| - n..] == rows[|a[0]|..] == Flatten(a[1..]);
        GreedyOfSuffix(a[1..], rest, |a[0]| - n);
      }
    }
  }

  /** A greedy chunking is as short as any: no other way to cut the rows into chunks of at most 1024 rows and
      8 MiB of payload takes fewer chunks. */
  lemma GreedyIsFewest(a: seq<seq<Row>>, b: seq<seq<Row>>)
    requires Greedy(a) && Bounded(b) && Flatten(a) == Flatten(b)
    ensures |a| <= |b|
  {
    GreedyOfSuffix(a, b, 0);
  }

  // ----- The replay loop --------------------------------------------------------------------------

  /** The loop's variables: chunks already yielded, the open chunk, and the captured final chunk. */
  datatype Replay = Replay(out: seq<Chunk>, open: seq<Row>, rowCount: nat, final: Option<Chunk>) {
    ghost function All(): seq<Chunk> {
      if final.Some? then out + [final.value] else out
    }
  }

  /** What the replay knows after consuming some rows of a partition of `target` rows. */
  ghost predicate ReplayState(st: Replay, second: nat, target: nat, consumed: seq<Row>) {
    && ChunkRows(st.All()) + st.open == consumed
    && st.rowCount == |consumed| <= target
    && (st.final.Some? <==> |consumed| == target)
    && NoneLast(st.out) && (st.final.Some? ==> st.final.value.last && st.open == [])
    && WellChunked(second, st.All())
    && |st.open| < MAX_ROWS && PayloadOf(st.open) < MAX_PAYLOAD
    && (forall i :: 0 <= i < |st.open| ==> SecondOf(st.open[i]) == second)
    && (st.out != [] && st.final.None? ==>
          NoRoom(st.out[|st.out| - 1].rows, if st.open == [] then 1 else st.open[0].body.payloadBytes))
  }

  /** A row that fits a chunk by itself. */
  predicate FinePayload(row: Row) {
    0 < row.body.payloadBytes <= MAX_PAYLOAD
  }

  lemma AppendChunk(second: nat, chunks: seq<Chunk>, rows: seq<Row>, last: bool)
    requires WellChunked(second, chunks)
    requires 0 < |rows| <= MAX_ROWS && PayloadOf(rows) <= MAX_PAYLOAD
    requires forall i :: 0 <= i < |rows| ==> SecondOf(rows[i]) == second
    requires chunks != [] ==> NoRoom(chunks[|chunks| - 1].rows, rows[0].body.payloadBytes)
    ensures WellChunked(second, chunks + [Chunk(second, |chunks|, rows, last)])
    ensures ChunkRows(chunks + [Chunk(second, |chunks|, rows, last)]) == ChunkRows(chunks) + rows
  {
    hide PayloadOf, SecondOf, NoRoom;
    var after := chunks + [Chunk(second, |chunks|, rows, last)];
    assert after[..|chunks|] == chunks;
  }

  lemma OpenGrows(open: seq<Row>, row: Row)
    ensures PayloadOf(open + [row]) == PayloadOf(open) + row.body.payloadBytes
  {
    assert (open + [row])[..|open|] == open;
  }

  /** The payload of the first row of an open chunk that a row is about to join. */
  function FirstPayload(open: seq<Row>, row: Row): nat {
    if open == [] then row.body.payloadBytes else open[0].body.payloadBytes
  }

  /** An open chunk behind the yielded ones, with room for the row. */
  ghost predicate Roomy(second: nat, out: seq<Chunk>, open: seq<Row>, row: Row) {
    && WellChunked(second, out) && NoneLast(out)
    && (forall i :: 0 <= i < |open| ==> SecondOf(open[i]) == second)
    && |open| < MAX_ROWS && PayloadOf(open) + row.body.payloadBytes <= MAX_PAYLOAD
    && (out != [] ==> NoRoom(out[|out| - 1].rows, FirstPayload(open, row)))
  }

  /** Yields the open chunk when the next row does not fit into it. */
  method FlushBefore(st: Replay, second: nat, target: nat, row: Row, ghost consumed: seq<Row>)
    returns (out: seq<Chunk>, open: seq<Row>)
    requires ReplayState(st, second, target, consumed) && st.final.None? && FinePayload(row)
    ensures Roomy(second, out, open, row) && ChunkRows(out) + open == consumed
  {
    hide ChunkRows, WellChunked;
    out, open := st.out, st.open;
    if open != [] && NoRoom(open, row.body.payloadBytes) {
      AppendChunk(second, out, open, false);
      out, open := out + [Chunk(second, |out|, open, false)], [];
    }
  }

  /** The chunk to be closed or kept open after a row was added to it. */
  ghost predicate Filled(second: nat, out: seq<Chunk>, open: seq<Row>) {
    && WellChunked(second, out) && NoneLast(out)
    && 0 < |open| <= MAX_ROWS && PayloadOf(open) <= MAX_PAYLOAD
    && (forall i :: 0 <= i < |open| ==> SecondOf(open[i]) == second)
    && (out != [] ==> NoRoom(out[|out| - 1].rows, open[0].body.payloadBytes))
  }

  lemma ClosingKeeps(second: nat, target: nat, out: seq<Chunk>, open: seq<Row>, consumed: seq<Row>)
    requires Filled(second, out, open) && ChunkRows(out) + open == consumed && |consumed| == target
    ensures ReplayState(Replay(out, [], |consumed|, Some(Chunk(second, |out|, open, true))), second, target, consumed)
  {
    AppendChunk(second, out, open, true);
    hide ChunkRows, WellChunked;
    assert consumed + [] == consumed;
  }

  lemma YieldingKeeps(second: nat, target: nat, out: seq<Chunk>, open: seq<Row>, consumed: seq<Row>)
    requires Filled(second, out, open) && ChunkRows(out) + open == consumed && |consumed| < target
    requires |open| == MAX_ROWS || PayloadOf(open) == MAX_PAYLOAD
    ensures ReplayState(Replay(out + [Chunk(second, |out|, open, false)], [], |consumed|, None), second, target, consumed)
  {
    AppendChunk(second, out, open, false);
    hide ChunkRows, WellChunked;
    assert consumed + [] == consumed;
  }

  lemma KeepingKeeps(second: nat, target: nat, out: seq<Chunk>, open: seq<Row>, consumed: seq<Row>)
    requires Filled(second, out, open) && ChunkRows(out) + open == consumed && |consumed| < target
    requires |open| < MAX_ROWS && PayloadOf(open) < MAX_PAYLOAD
    ensures ReplayState(Replay(out, open, |consumed|, None), second, target, consumed)
  {
    hide ChunkRows, WellChunked;
  }

  /** A chunk that ends the partition is held back, a full one is yielded, any other stays open. */
  method CloseIfFull(second: nat, target: nat, out: seq<Chunk>, open: seq<Row>, rowCount: nat, ghost consumed: seq<Row>)
    returns (r: Replay)
    requires Filled(second, out, open) && ChunkRows(out) + open == consumed && rowCount == |consumed| <= target
    ensures ReplayState(r, second, target, consumed)
  {
    hide ChunkRows, WellChunked, Filled, ReplayState;
    assert |open| <= MAX_ROWS && PayloadOf(open) <= MAX_PAYLOAD by { FilledBounds(second, out, open); }
    if rowCount == target {
      ClosingKeeps(second, target, out, open, consumed);
      r := Replay(out, [], rowCount, Some(Chunk(second, |out|, open, true)));
    } else if |open| == MAX_ROWS || PayloadOf(open) == MAX_PAYLOAD {
      YieldingKeeps(second, target, out, open, consumed);
      r := Replay(out + [Chunk(second, |out|, open, false)], [], rowCount, None);
    } else {
      KeepingKeeps(second, target, out, open, consumed);
      r := Replay(out, open, rowCount, None);
    }
  }

  lemma FilledBounds(second: nat, out: seq<Chunk>, open: seq<Row>)
    requires Filled(second, out, open)
    ensures |open| <= MAX_ROWS && PayloadOf(open) <= MAX_PAYLOAD
  {
  }

  /** Takes one decoded row: an open chunk without room is yielded first; a chunk that is full,
      or that ends the partition, is closed at once. The closing chunk is held back. A chunk with
      a row of another second cannot be built, so such a row stops the replay. */
  method TakeRow(st: Replay, second: nat, target: nat, row: Row, ghost consumed: seq<Row>)
    returns (ok: bool, r: Replay)
    requires ReplayState(st, second, target, consumed) && st.rowCount < target && FinePayload(row)
    ensures ok <==> SecondOf(row) == second
    ensures ok ==> ReplayState(r, second, target, consumed + [row])
    ensures !ok ==> WellChunked(second, r.out) && NoneLast(r.out) && ChunkRows(r.out) <= consumed
  {
    hide ChunkRows, WellChunked;
    var out, open := FlushBefore(st, second, target, row, consumed);
    if SecondOf(row) != second {
      assert ChunkRows(out) + open == consumed;
      return false, Replay(out, open, st.rowCount, None);
    }
    OpenGrows(open, row);
    assert ChunkRows(out) + (open + [row]) == consumed + [row];
    assert Filled(second, out, open + [row]);
    r := CloseIfFull(second, target, out, open + [row], st.rowCount + 1, consumed + [row]);
    ok := true;
  }

  // ----- One partition -----------------------------------------------------------------------------

  type Decoder = seq<Byte> -> Option<Row>

  /** Decoded rows carry a payload, as the row format demands. */
  ghost predicate DecodesPayloads(decode: Decoder) {
    forall line :: decode(line).Some? ==> 0 < decode(line).value.body.payloadBytes
  }

  /** A line that becomes a row of the partition. */
  ghost predicate FineLine(line: seq<Byte>, decode: Decoder, second: nat) {
    && decode(line).Some?
    && FinePayload(decode(line).value) && SecondOf(decode(line).value) == second
  }

  /** Acceptance as a property of the content alone. */
  ghost predicate PartitionAccepts(content: seq<Byte>, decode: Decoder, digest: seq<Byte> -> nat,
                                   second: nat, facts: Artifact) {
    && RowsAccepted(content, decode, second, facts.rowCount)
    && |content| == facts.contentSize && digest(content) == facts.digest
  }

  ghost predicate RowsAccepted(content: seq<Byte>, decode: Decoder, second: nat, target: nat) {
    && TailOf(content) == []
    && |LinesOf(content)| == target
    && forall k :: 0 <= k < |LinesOf(content)| ==> FineLine(LinesOf(content)[k], decode, second)
  }

  /** What has been yielded when a replay stops early: a part of the chunks, none marked last. */
  ghost predicate PartialReplay(second: nat, emitted: seq<Chunk>, content: seq<Byte>, decode: Decoder) {
    && WellChunked(second, emitted) && NoneLast(emitted)
    && |ChunkRows(emitted)| <= |LinesOf(content)|
    && Decodes(ChunkRows(emitted), LinesOf(content)[..|ChunkRows(emitted)|], decode)
  }

  /** The replay's position in the content. */
  ghost predicate ReplayAt(content: seq<Byte>, lines: seq<seq<Byte>>, rows: seq<Row>, st: Replay, pending: seq<Byte>,
                           rest: seq<Byte>, decode: Decoder, second: nat, target: nat) {
    && Decodes(rows, lines, decode)
    && Unread(content, lines, pending, rest)
    && ReplayState(st, second, target, rows)
    && forall k :: 0 <= k < |lines| ==> FineLine(lines[k], decode, second)
  }

  lemma PartialFromPrefix(second: nat, emitted: seq<Chunk>, content: seq<Byte>, decode: Decoder,
                          rows: seq<Row>, lines: seq<seq<Byte>>)
    requires WellChunked(second, emitted) && NoneLast(emitted) && ChunkRows(emitted) <= rows
    requires Decodes(rows, lines, decode) && lines <= LinesOf(content)
    ensures PartialReplay(second, emitted, content, decode)
  {
    var n := |ChunkRows(emitted)|;
    assert LinesOf(content)[..n] == lines[..n];
  }

  lemma WithoutFinal(st: Replay, second: nat, target: nat, consumed: seq<Row>)
    requires ReplayState(st, second, target, consumed)
    ensures WellChunked(second, st.out) && NoneLast(st.out) && ChunkRows(st.out) <= consumed
  {
    if st.final.Some? {
      assert st.All()[..|st.out|] == st.out;
      assert forall k :: 0 <= k < |st.out| ==> st.All()[k] == st.out[k];
    }
  }

  /** Turns the complete pending lines into rows and chunks. */
  method DrainRows(st: Replay, pending: seq<Byte>, decode: Decoder, second: nat, target: nat,
                   ghost content: seq<Byte>, ghost lines: seq<seq<Byte>>, ghost rows: seq<Row>, ghost rest: seq<Byte>)
    returns (ok: bool, st': Replay, pending': seq<Byte>, ghost lines': seq<seq<Byte>>, ghost rows': seq<Row>)
    requires DecodesPayloads(decode)
    requires ReplayAt(content, lines, rows, st, pending, rest, decode, second, target)
    ensures ok ==> ReplayAt(content, lines', rows', st', pending', rest, decode, second, target)
    ensures ok ==> FirstNewline(pending') == |pending'| && TailOf(pending') == TailOf(pending)
    ensures !ok ==> !RowsAccepted(content, decode, second, target)
    ensures PartialReplay(second, st'.out, content, decode)
  {
    hide ReplayState, WellChunked, ChunkRows, LinesOf, TailOf, PartialReplay;
    st', pending', lines', rows' := st, pending, lines, rows;
    WithoutFinal(st, second, target, rows);
    PartialFromPrefix(second, st.out, content, decode, rows, lines);
    while FirstNewline(pending') < |pending'|
      invariant ReplayAt(content, lines', rows', st', pending', rest, decode, second, target)
      invariant TailOf(pending') == TailOf(pending)
      invariant PartialReplay(second, st'.out, content, decode)
      decreases |pending'|
    {
      var size := FirstNewline(pending') + 1;
      var line := pending'[..size];
      CutUnread(content, lines', pending', rest);
      CountsAgree(st', second, target, rows');
      if decode(line).None? {
        return false, st', pending', lines', rows';
      }
      var row := decode(line).value;
      if st'.rowCount >= target || row.body.payloadBytes > MAX_PAYLOAD {
        return false, st', pending', lines', rows';
      }
      var fine;
      fine, st' := TakeRow(st', second, target, row, rows');
      if !fine {
        PartialFromPrefix(second, st'.out, content, decode, rows', lines');
        return false, st', pending', lines', rows';
      }
      rows' := rows' + [row];
      lines' := lines' + [line];
      pending' := pending'[size..];
      WithoutFinal(st', second, target, rows');
      PartialFromPrefix(second, st'.out, content, decode, rows', lines');
    }
    ok := true;
  }

  lemma CountsAgree(st: Replay, second: nat, target: nat, consumed: seq<Row>)
    requires ReplayState(st, second, target, consumed)
    ensures st.rowCount == |consumed| <= target
    ensures st.final.Some? <==> |consumed| == target
    ensures st.final.Some? ==> st.open == [] && WellChunked(second, st.out + [st.final.value])
                               && LastMarked(st.out + [st.final.value])
                               && ChunkRows(st.out + [st.final.value]) == consumed
  {
    if st.final.Some? {
      assert ChunkRows(st.All()) + [] == consumed;
    }
  }

  /** Replays a nonempty partition whose bytes arrive in the given pieces. */
  method ReplayRows(pieces: seq<seq<Byte>>, decode: Decoder, digest: seq<Byte> -> nat, second: nat, facts: Artifact)
    returns (ok: bool, emitted: seq<Chunk>)
    requires DecodesPayloads(decode) && 0 < facts.rowCount
    ensures ok <==> PartitionAccepts(Flatten(pieces), decode, digest, second, facts) && !Overlong(pieces)
    ensures ok ==> WellChunked(second, emitted) && LastMarked(emitted)
                   && Decodes(ChunkRows(emitted), LinesOf(Flatten(pieces)), decode)
    ensures !ok ==> PartialReplay(second, emitted, Flatten(pieces), decode)
  {
    hide ReplayState, WellChunked, ChunkRows, LinesOf, TailOf, PartialReplay, Flatten, RowsAccepted, LastMarked;
    ghost var content := Flatten(pieces);
    var st := Replay([], [], 0, None);
    var seen, pending: seq<Byte> := [], [];
    ghost var lines: seq<seq<Byte>>, rows: seq<Row> := [], [];
    ReplayStarts(content, decode, second, facts.rowCount);
    assert pieces[0..] == pieces;
    FlattenNone(pieces);
    for k := 0 to |pieces|
      invariant content == seen + Flatten(pieces[k..]) && seen == Flatten(pieces[..k])
      invariant ReplayAt(content, lines, rows, st, pending, Flatten(pieces[k..]), decode, second, facts.rowCount)
      invariant FirstNewline(pending) == |pending| && pending == TailOf(seen)
      invariant forall j :: 0 < j <= k ==> |TailOf(Flatten(pieces[..j]))| <= MAX_LINE
      invariant PartialReplay(second, st.out, content, decode)
    {
      NextChunk(pieces, k, seen, pending);
      FlattenSnoc(pieces[..k], pieces[k]);
      assert pieces[..k + 1] == pieces[..k] + [pieces[k]];
      TailConcat(seen, pieces[k]);
      seen := seen + pieces[k];
      var fine;
      fine, st, pending, lines, rows := DrainRows(st, pending + pieces[k], decode, second, facts.rowCount,
                                                  content, lines, rows, Flatten(pieces[k + 1..]));
      if !fine {
        return false, st.out;
      }
      TailOfNoNewline(pending);
      if |pending| > MAX_LINE {
        return false, st.out;
      }
    }
    assert pieces[..|pieces|] == pieces;
    ReaderEnds(pieces, pending);
    CountsAgree(st, second, facts.rowCount, rows);
    FinishedRows(content, lines, rows, st, pending, decode, second, facts.rowCount);
    if pending != [] || st.final.None? || |seen| != facts.contentSize || digest(seen) != facts.digest {
      return false, st.out;
    }
    ok, emitted := true, st.out + [st.final.value];
  }

  lemma FlattenNone(pieces: seq<seq<Byte>>)
    ensures Flatten(pieces[..0]) == [] && TailOf([]) == []
    ensures [] + Flatten(pieces) == Flatten(pieces)
  {
  }

  lemma TailOfNoNewline(pending: seq<Byte>)
    requires FirstNewline(pending) == |pending|
    ensures TailOf(pending) == pending
  {
  }

  lemma ReplayStarts(content: seq<Byte>, decode: Decoder, second: nat, target: nat)
    requires 0 < target
    ensures ReplayAt(content, [], [], Replay([], [], 0, None), [], content, decode, second, target)
    ensures PartialReplay(second, [], content, decode)
  {
    assert [] + content == content;
  }

  /** At the end of the content, the rows are accepted exactly when no bytes are left over and the
      final chunk was reached. */
  lemma FinishedRows(content: seq<Byte>, lines: seq<seq<Byte>>, rows: seq<Row>, st: Replay, pending: seq<Byte>,
                     decode: Decoder, second: nat, target: nat)
    requires ReplayAt(content, lines, rows, st, pending, [], decode, second, target)
    requires FirstNewline(pending) == |pending|
    ensures RowsAccepted(content, decode, second, target) <==> pending == [] && st.final.Some?
    ensures LinesOf(content) == lines
  {
    assert pending + [] == pending;
    assert LinesOf(content) == lines;
  }

  /** A partition as the spool records it: an empty one has no file. */
  datatype SpoolFacts = SpoolFacts(hasFile: bool, second: nat, artifact: Artifact)

  /** Replays one partition. An empty second yields one empty final chunk; otherwise success yields
      the greedy chunks of the decoded rows, the last one marked. */
  method ReplayPartition(pieces: seq<seq<Byte>>, decode: Decoder, digest: seq<Byte> -> nat, facts: SpoolFacts)
    returns (ok: bool, emitted: seq<Chunk>)
    requires DecodesPayloads(decode)
    ensures facts.artifact.rowCount == 0 ==>
      && (ok <==> !facts.hasFile && facts.artifact.contentSize == 0 && facts.artifact.digest == digest([]))
      && emitted == if ok then [Chunk(facts.second, 0, [], true)] else []
    ensures facts.artifact.rowCount > 0 ==>
      && (ok <==> facts.hasFile && !Overlong(pieces)
                  && PartitionAccepts(Flatten(pieces), decode, digest, facts.second, facts.artifact))
      && (ok ==> WellChunked(facts.second, emitted) && LastMarked(emitted)
                 && Decodes(ChunkRows(emitted), LinesOf(Flatten(pieces)), decode))
      && (!ok ==> PartialReplay(facts.second, emitted, Flatten(pieces), decode))
  {
    if facts.artifact.rowCount == 0 {
      if facts.hasFile || facts.artifact.contentSize != 0 || facts.artifact.digest != digest([]) {
        return false, [];
      }
      return true, [Chunk(facts.second, 0, [], true)];
    }
    if !facts.hasFile {
      ReplayStarts(Flatten(pieces), decode, facts.second, facts.artifact.rowCount);
      return false, [];
    }
    ok, emitted := ReplayRows(pieces, decode, digest, facts.second, facts.artifact);
  }

  // ----- The chunks do not depend on the pieces ---------------------------------------------------------

  function Parts(chunks: seq<Chunk>): (parts: seq<seq<Row>>)
    ensures |parts| == |chunks|
    ensures forall k :: 0 <= k < |chunks| ==> parts[k] == chunks[k].rows
  {
    seq(|chunks|, k requires 0 <= k < |chunks| => chunks[k].rows)
  }

  lemma {:induction false} ChunkRowsAreParts(chunks: seq<Chunk>)
    ensures ChunkRows(chunks) == Flatten(Parts(chunks))
  {
    if chunks != [] {
      var last := |chunks| - 1;
      ChunkRowsAreParts(chunks[..last]);
      FlattenSnoc(Parts(chunks[..last]), chunks[last].rows);
      assert Parts(chunks) == Parts(chunks[..last]) + [chunks[last].rows];
    }
  }

  /** Two successful replays of the same rows yield the same chunks. */
  lemma SameRowsSameChunks(second: nat, a: seq<Chunk>, b: seq<Chunk>)
    requires WellChunked(second, a) && LastMarked(a) && WellChunked(second, b) && LastMarked(b)
    requires ChunkRows(a) == ChunkRows(b)
    ensures a == b
  {
    ChunkRowsAreParts(a);
    ChunkRowsAreParts(b);
    hide ChunkRows, PayloadOf, SecondOf, NoRoom;
    GreedyIsUnique(Parts(a), Parts(b));
    forall k | 0 <= k < |a| ensures a[k] == b[k] {
      assert Parts(a)[k] == Parts(b)[k];
    }
  }

  /** A replay yields as few chunks as any way to cut its rows within the bounds. */
  lemma ReplayIsFewest(second: nat, chunks: seq<Chunk>, other: seq<seq<Row>>)
    requires WellChunked(second, chunks) && Bounded(other) && Flatten(other) == ChunkRows(chunks)
    ensures |chunks| <= |other|
  {
    ChunkRowsAreParts(chunks);
    hide ChunkRows, PayloadOf, SecondOf, NoRoom;
    GreedyIsFewest(Parts(chunks), other);
  }
}
