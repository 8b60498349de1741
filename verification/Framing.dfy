/** Reading newline-framed rows from a byte stream that arrives in arbitrary pieces. */
module Framing {
  import opened Workload
  import opened Ordering

  newtype Byte = b: int | 0 <= b < 256

  const NEWLINE: Byte := 10

  /** Position of the first newline, or the length when there is none. */
  function FirstNewline(b: seq<Byte>): (i: nat)
    ensures i <= |b|
    ensures i < |b| ==> b[i] == NEWLINE
    ensures forall k :: 0 <= k < i ==> b[k] != NEWLINE
  {
    if b == [] then 0 else if b[0] == NEWLINE then 0 else 1 + FirstNewline(b[1..])
  }

  /** The complete lines of some bytes, each with its newline. */
  function LinesOf(b: seq<Byte>): seq<seq<Byte>>
    decreases |b|
  {
    var i := FirstNewline(b);
    if i == |b| then [] else [b[..i + 1]] + LinesOf(b[i + 1..])
  }

  /** What follows the last newline. */
  function TailOf(b: seq<Byte>): seq<Byte>
    decreases |b|
  {
    var i := FirstNewline(b);
    if i == |b| then b else TailOf(b[i + 1..])
  }

  lemma FirstNewlineIs(b: seq<Byte>, i: nat)
    requires i < |b| && b[i] == NEWLINE && forall k :: 0 <= k < i ==> b[k] != NEWLINE
    ensures FirstNewline(b) == i
  {
    assert b[i] == NEWLINE;
  }

  /** The lines and the tail are the bytes again: nothing is lost or reordered. */
  lemma {:induction false} LinesAndTail(b: seq<Byte>)
    ensures Flatten(LinesOf(b)) + TailOf(b) == b
    ensures NEWLINE !in TailOf(b)
    decreases |b|
  {
    hide FirstNewline;
    var i := FirstNewline(b);
    if i < |b| {
      LinesAndTail(b[i + 1..]);
      assert b == b[..i + 1] + b[i + 1..];
      assert b[..i + 1] + (Flatten(LinesOf(b[i + 1..])) + TailOf(b[i + 1..])) == b;
    }
  }

  /** Every line ends with the one newline it holds. */
  lemma {:induction false} LinesEndOnce(b: seq<Byte>, k: nat)
    requires k < |LinesOf(b)|
    ensures var line := LinesOf(b)[k];
            line != [] && line[|line| - 1] == NEWLINE && NEWLINE !in line[..|line| - 1]
    decreases |b|
  {
    var i := FirstNewline(b);
    if k == 0 {
      assert b[..i + 1][..i] == b[..i];
    } else {
      LinesEndOnce(b[i + 1..], k - 1);
    }
  }

  // ----- Reading ----------------------------------------------------------------------------

  /** The facts that a reference records about an artifact. */
  datatype Artifact = Artifact(rowCount: nat, contentSize: nat, digest: nat)

  datatype Limits = Limits(rows: nat, content: nat, line: nat)

  /** Whole-content acceptance: the definition the streaming reader is measured against. */
  ghost predicate Accepts<T>(content: seq<Byte>, decode: seq<Byte> -> Option<T>, digest: seq<Byte> -> nat,
                             artifact: Artifact, limits: Limits) {
    && artifact.rowCount <= limits.rows && artifact.contentSize <= limits.content
    && |content| == artifact.contentSize && digest(content) == artifact.digest
    && |LinesOf(content)| == artifact.rowCount
    && LinesFine(content, decode, limits)
  }

  /** Every line is complete, within its bound and decodable, and there are not too many. */
  ghost predicate LinesFine<T>(content: seq<Byte>, decode: seq<Byte> -> Option<T>, limits: Limits) {
    && TailOf(content) == []
    && |LinesOf(content)| <= limits.rows
    && forall k :: 0 <= k < |LinesOf(content)| ==>
         |LinesOf(content)[k]| <= limits.line && decode(LinesOf(content)[k]).Some?
  }

  /** The rows are the decoded lines, in order. */
  ghost predicate Decodes<T>(rows: seq<T>, lines: seq<seq<Byte>>, decode: seq<Byte> -> Option<T>) {
    && |rows| == |lines|
    && forall k :: 0 <= k < |rows| ==> decode(lines[k]) == Some(rows[k])
  }

  /** Cutting the first line off what is still unread. */
  lemma CutLine(pending: seq<Byte>, rest: seq<Byte>)
    requires FirstNewline(pending) < |pending|
    ensures var i := FirstNewline(pending);
            && LinesOf(pending + rest) == [pending[..i + 1]] + LinesOf(pending[i + 1..] + rest)
            && TailOf(pending + rest) == TailOf(pending[i + 1..] + rest)
  {
    var i := FirstNewline(pending);
    FirstNewlineIs(pending + rest, i);
    assert (pending + rest)[..i + 1] == pending[..i + 1];
    assert (pending + rest)[i + 1..] == pending[i + 1..] + rest;
  }

  /** A newline-free remainder that is too long already decides the outcome. */
  lemma LongRemainder(pending: seq<Byte>, rest: seq<Byte>, limit: nat)
    requires FirstNewline(pending) == |pending| && |pending| > limit
    ensures TailOf(pending + rest) != [] || (LinesOf(pending + rest) != [] && |LinesOf(pending + rest)[0]| > limit + 1)
  {
    var all := pending + rest;
    assert forall k :: 0 <= k < |pending| ==> all[k] == pending[k];
  }

  /** What is left to read after some lines: the pending bytes and the rest. */
  ghost predicate Unread(content: seq<Byte>, consumed: seq<seq<Byte>>, pending: seq<Byte>, rest: seq<Byte>) {
    && LinesOf(content) == consumed + LinesOf(pending + rest)
    && TailOf(content) == TailOf(pending + rest)
  }

  /** Consuming the first pending line. */
  lemma CutUnread(content: seq<Byte>, consumed: seq<seq<Byte>>, pending: seq<Byte>, rest: seq<Byte>)
    requires Unread(content, consumed, pending, rest) && FirstNewline(pending) < |pending|
    ensures var size := FirstNewline(pending) + 1;
            && Unread(content, consumed + [pending[..size]], pending[size..], rest)
            && |consumed| < |LinesOf(content)| && LinesOf(content)[|consumed|] == pending[..size]
            && TailOf(pending[size..]) == TailOf(pending)
  {
    var size := FirstNewline(pending) + 1;
    CutLine(pending, rest);
    CutLine(pending, []);
    assert pending + [] == pending && pending[size..] + [] == pending[size..];
    var more := LinesOf(pending[size..] + rest);
    assert consumed + ([pending[..size]] + more) == consumed + [pending[..size]] + more;
  }

  lemma TailAfterLine(a: seq<Byte>, i: nat, rest: seq<Byte>)
    requires i == FirstNewline(a) < |a| && rest == a[i + 1..]
    ensures TailOf(a) == TailOf(rest)
  {
    hide FirstNewline;
  }

  lemma {:induction false} TailConcat(a: seq<Byte>, b: seq<Byte>)
    ensures TailOf(a + b) == TailOf(TailOf(a) + b)
    decreases |a|
  {
    hide FirstNewline;
    var i := FirstNewline(a);
    if i < |a| {
      hide TailOf, LinesOf;
      CutLine(a, b);
      TailAfterLine(a, i, a[i + 1..]);
      TailConcat(a[i + 1..], b);
    } else {
      assert TailOf(a) == a;
    }
  }

  /** The reader's position: lines already turned into rows, and bytes still pending. */
  ghost predicate ReaderAt<T>(content: seq<Byte>, consumed: seq<seq<Byte>>, rows: seq<T>, pending: seq<Byte>,
                              rest: seq<Byte>, decode: seq<Byte> -> Option<T>, limits: Limits) {
    && Decodes(rows, consumed, decode)
    && Unread(content, consumed, pending, rest)
    && |consumed| <= limits.rows
    && forall k :: 0 <= k < |consumed| ==> |consumed[k]| <= limits.line
  }

  /** Turns the complete lines of the pending bytes into rows. */
  method DrainLines<T>(pending: seq<Byte>, rows: seq<T>, decode: seq<Byte> -> Option<T>, limits: Limits,
                       ghost content: seq<Byte>, ghost consumed: seq<seq<Byte>>, ghost rest: seq<Byte>)
    returns (ok: bool, pending': seq<Byte>, rows': seq<T>, ghost consumed': seq<seq<Byte>>)
    requires ReaderAt(content, consumed, rows, pending, rest, decode, limits)
    ensures ok ==> ReaderAt(content, consumed', rows', pending', rest, decode, limits)
    ensures ok ==> FirstNewline(pending') == |pending'| && |pending'| <= limits.line
    ensures !ok ==> !LinesFine(content, decode, limits)
    ensures Decodes(rows', consumed', decode) && consumed' <= LinesOf(content)
  {
    pending', rows', consumed' := pending, rows, consumed;
    while FirstNewline(pending') < |pending'|
      invariant ReaderAt(content, consumed', rows', pending', rest, decode, limits)
      decreases |pending'|
    {
      var size := FirstNewline(pending') + 1;
      var line := pending'[..size];
      CutUnread(content, consumed', pending', rest);
      if size > limits.line || |rows'| + 1 > limits.rows || decode(line).None? {
        return false, pending', rows', consumed';
      }
      rows' := rows' + [decode(line).value];
      consumed' := consumed' + [line];
      pending' := pending'[size..];
    }
    if |pending'| > limits.line {
      LongRemainder(pending', rest, limits.line);
      assert LinesOf(pending' + rest) != [] ==> LinesOf(content)[|consumed'|] == LinesOf(pending' + rest)[0];
      return false, pending', rows', consumed';
    }
    ok := true;
  }

  /** Streams the rows of an artifact. Whatever the pieces, success is decided by the content
      alone and yields exactly its decoded lines; a failure has yielded only a prefix of them. */
  method ReadJsonl<T>(chunks: seq<seq<Byte>>, decode: seq<Byte> -> Option<T>, digest: seq<Byte> -> nat,
                      artifact: Artifact, limits: Limits)
    returns (ok: bool, rows: seq<T>)
    ensures ok <==> Accepts(Flatten(chunks), decode, digest, artifact, limits)
    ensures ok ==> Decodes(rows, LinesOf(Flatten(chunks)), decode)
    ensures |rows| <= |LinesOf(Flatten(chunks))| && Decodes(rows, LinesOf(Flatten(chunks))[..|rows|], decode)
  {
    hide LinesOf, TailOf, Flatten, LinesFine;
    ghost var content := Flatten(chunks);
    rows := [];
    ReaderStarts(content, decode, limits);
    if artifact.rowCount > limits.rows || artifact.contentSize > limits.content {
      return false, rows;
    }
    var seen, pending: seq<Byte> := [], [];
    ghost var consumed: seq<seq<Byte>> := [];
    assert chunks[0..] == chunks;
    for k := 0 to |chunks|
      invariant content == seen + Flatten(chunks[k..])
      invariant |seen| <= limits.content
      invariant ReaderAt(content, consumed, rows, pending, Flatten(chunks[k..]), decode, limits)
      invariant FirstNewline(pending) == |pending|
    {
      NextChunk(chunks, k, seen, pending);
      seen := seen + chunks[k];
      if |seen| > limits.content {
        return false, rows;
      }
      var fine;
      fine, pending, rows, consumed := DrainLines(pending + chunks[k], rows, decode, limits, content, consumed, Flatten(chunks[k + 1..]));
      if !fine {
        return false, rows;
      }
    }
    ReaderEnds(chunks, pending);
    assert seen + Flatten(chunks[|chunks|..]) == seen;
    ok := pending == [] && |rows| == artifact.rowCount && |seen| == artifact.contentSize && digest(seen) == artifact.digest;
    if pending == [] {
      assert LinesOf(content) == consumed;
      AllLinesFine(content, rows, consumed, decode, limits);
    } else {
      TailIsNotFine(content, decode, limits);
    }
  }

  lemma TailIsNotFine<T>(content: seq<Byte>, decode: seq<Byte> -> Option<T>, limits: Limits)
    requires TailOf(content) != []
    ensures !LinesFine(content, decode, limits)
  {
  }

  lemma AllLinesFine<T>(content: seq<Byte>, rows: seq<T>, consumed: seq<seq<Byte>>, decode: seq<Byte> -> Option<T>, limits: Limits)
    requires ReaderAt(content, consumed, rows, [], [], decode, limits)
    ensures LinesFine(content, decode, limits)
  {
  }

  lemma ReaderStarts<T>(content: seq<Byte>, decode: seq<Byte> -> Option<T>, limits: Limits)
    ensures ReaderAt<T>(content, [], [], [], content, decode, limits)
  {
    assert [] + content == content;
  }

  lemma NextChunk(chunks: seq<seq<Byte>>, k: nat, seen: seq<Byte>, pending: seq<Byte>)
    requires k < |chunks|
    ensures seen + Flatten(chunks[k..]) == (seen + chunks[k]) + Flatten(chunks[k + 1..])
    ensures pending + Flatten(chunks[k..]) == (pending + chunks[k]) + Flatten(chunks[k + 1..])
  {
    assert chunks[k..][1..] == chunks[k + 1..];
  }

  lemma ReaderEnds(chunks: seq<seq<Byte>>, pending: seq<Byte>)
    requires FirstNewline(pending) == |pending|
    ensures Flatten(chunks[|chunks|..]) == []
    ensures LinesOf(pending + Flatten(chunks[|chunks|..])) == []
    ensures TailOf(pending + Flatten(chunks[|chunks|..])) == pending
  {
    assert pending + Flatten(chunks[|chunks|..]) == pending;
  }
}
