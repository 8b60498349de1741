/** Which contents a bounded line reader lets through, when the bytes arrive in arbitrary reads. The reader
    checks its bound only on the unfinished line that is left after a read. */
module Cuts {
  import opened Ordering
  import opened Framing

  const MAX_LINE := 2 * 1024 * 1024
  const READ_SIZE := 64 * 1024

  /** After some read, the unfinished line is over the line bound. */
  ghost predicate Overlong(pieces: seq<seq<Byte>>) {
    exists k :: 0 < k <= |pieces| && |TailOf(Flatten(pieces[..k]))| > MAX_LINE
  }

  /** The pieces are the content, cut anywhere. */
  ghost predicate CutOf(content: seq<Byte>, pieces: seq<seq<Byte>>) {
    Flatten(pieces) == content
  }

  /** The pieces are the content, cut into reads. */
  ghost predicate ReadsOf(content: seq<Byte>, pieces: seq<seq<Byte>>) {
    CutOf(content, pieces) && forall k :: 0 <= k < |pieces| ==> |pieces[k]| <= READ_SIZE
  }

  /** Every line, its newline included, has at most the given number of bytes. */
  ghost predicate LinesWithin(content: seq<Byte>, limit: nat) {
    forall k :: 0 <= k < |LinesOf(content)| ==> |LinesOf(content)[k]| <= limit
  }

  // ----- Prefixes of a content -----------------------------------------------------------------------

  lemma UnreadCons(line: seq<Byte>, a: seq<Byte>, rest: seq<Byte>, b: seq<Byte>)
    requires Unread(rest + b, LinesOf(rest), TailOf(rest), b)
    requires LinesOf(a + b) == [line] + LinesOf(rest + b) && TailOf(a + b) == TailOf(rest + b)
    requires LinesOf(a) == [line] + LinesOf(rest) && TailOf(a) == TailOf(rest)
    ensures Unread(a + b, LinesOf(a), TailOf(a), b)
  {
    hide LinesOf, TailOf;
    ConcatAssoc([line], LinesOf(rest), LinesOf(TailOf(rest) + b));
  }

  lemma {:induction false} LinesOfPrefix(a: seq<Byte>, b: seq<Byte>)
    ensures Unread(a + b, LinesOf(a), TailOf(a), b)
    ensures FirstNewline(TailOf(a)) == |TailOf(a)|
    decreases |a|
  {
    var i := FirstNewline(a);
    if i < |a| {
      CutLine(a, b);
      LinesOfPrefix(a[i + 1..], b);
      UnreadCons(a[..i + 1], a, a[i + 1..], b);
    } else {
      assert LinesOf(a) == [] && TailOf(a) == a;
    }
  }

  lemma HeadAfter<T>(a: seq<T>, b: seq<T>)
    ensures b != [] ==> (a + b)[|a|] == b[0]
  {
  }

  lemma {:induction false} FlattenSplit<T>(pieces: seq<seq<T>>, k: nat)
    requires k <= |pieces|
    ensures Flatten(pieces) == Flatten(pieces[..k]) + Flatten(pieces[k..])
  {
    if k == 0 {
      assert pieces[0..] == pieces;
    } else {
      FlattenSplit(pieces[1..], k - 1);
      assert pieces[1..][..k - 1] == pieces[..k][1..] && pieces[1..][k - 1..] == pieces[k..];
    }
  }

  lemma FlattenCons<T>(a: seq<T>, b: seq<seq<T>>)
    ensures Flatten([a] + b) == a + Flatten(b)
  {
    assert ([a] + b)[1..] == b;
  }

  /** Where a line starts. */
  function LineStart(b: seq<Byte>, k: nat): nat
    requires k < |LinesOf(b)|
    decreases |b|
  {
    if k == 0 then 0 else FirstNewline(b) + 1 + LineStart(b[FirstNewline(b) + 1..], k - 1)
  }

  lemma LineCons(b: seq<Byte>, k: nat)
    requires k < |LinesOf(b)|
    ensures FirstNewline(b) < |b|
    ensures k == 0 ==> LinesOf(b)[0] == b[..FirstNewline(b) + 1]
    ensures k > 0 ==> k - 1 < |LinesOf(b[FirstNewline(b) + 1..])| && LinesOf(b)[k] == LinesOf(b[FirstNewline(b) + 1..])[k - 1]
  {
    hide FirstNewline;
  }

  /** A prefix that ends inside a line leaves the part of the line that it holds. */
  lemma {:induction false} TailInsideLine(b: seq<Byte>, k: nat, n: nat)
    requires k < |LinesOf(b)| && n < |LinesOf(b)[k]|
    ensures LineStart(b, k) + |LinesOf(b)[k]| <= |b|
    ensures |TailOf(b[..LineStart(b, k) + n])| == n
    decreases |b|
  {
    hide LinesOf, TailOf, FirstNewline;
    LineCons(b, k);
    var i := FirstNewline(b);
    if k == 0 {
      NoNewlineBefore(b, n);
    } else {
      TailInsideLine(b[i + 1..], k - 1, n);
      TailBehindLine(b, i, LineStart(b[i + 1..], k - 1) + n);
    }
  }

  lemma TailBehindLine(b: seq<Byte>, i: nat, s: nat)
    requires i == FirstNewline(b) && i + 1 + s <= |b|
    ensures TailOf(b[..i + 1 + s]) == TailOf(b[i + 1..][..s])
  {
    hide FirstNewline, TailOf;
    assert b[..i + 1 + s][i + 1..] == b[i + 1..][..s];
    StillFirst(b, i + 1 + s);
    TailAfterLine(b[..i + 1 + s], i, b[i + 1..][..s]);
  }

  lemma NoNewlineBefore(b: seq<Byte>, n: nat)
    requires n <= FirstNewline(b)
    ensures TailOf(b[..n]) == b[..n]
  {
    assert forall k :: 0 <= k < n ==> b[..n][k] == b[k];
  }

  lemma StillFirst(b: seq<Byte>, n: nat)
    requires FirstNewline(b) < n <= |b|
    ensures FirstNewline(b[..n]) == FirstNewline(b)
  {
    FirstNewlineIs(b[..n], FirstNewline(b));
  }

  // ----- Content that passes under every cut ----------------------------------------------------------

  /** While no line is more than one byte over the bound, no cut is overlong: the check counts the bytes
      before the newline. */
  lemma BoundedLinesPass(pieces: seq<seq<Byte>>)
    requires TailOf(Flatten(pieces)) == [] && LinesWithin(Flatten(pieces), MAX_LINE + 1)
    ensures !Overlong(pieces)
  {
    hide LinesOf, TailOf, Flatten;
    var content := Flatten(pieces);
    forall k | 0 < k <= |pieces| ensures |TailOf(Flatten(pieces[..k]))| <= MAX_LINE {
      var before, after := Flatten(pieces[..k]), Flatten(pieces[k..]);
      FlattenSplit(pieces, k);
      LinesOfPrefix(before, after);
      HeadAfter(LinesOf(before), LinesOf(TailOf(before) + after));
      if |TailOf(before)| > MAX_LINE { LongRemainder(TailOf(before), after, MAX_LINE); }
    }
  }

  /** Reads of one byte each. */
  function Singles(b: seq<Byte>): (pieces: seq<seq<Byte>>)
    ensures |pieces| == |b| && forall k :: 0 <= k < |b| ==> pieces[k] == [b[k]]
  {
    seq(|b|, k requires 0 <= k < |b| => [b[k]])
  }

  lemma {:induction false} SinglesWhole(b: seq<Byte>)
    ensures Flatten(Singles(b)) == b
  {
    if b != [] {
      var last := |b| - 1;
      SinglesWhole(b[..last]);
      FlattenSnoc(Singles(b[..last]), [b[last]]);
      assert Singles(b) == Singles(b[..last]) + [[b[last]]];
    }
  }

  /** A read that ends inside a line, more than the bound behind its start, is overlong. */
  lemma OverlongInside(content: seq<Byte>, pieces: seq<seq<Byte>>, j: nat, k: nat, n: nat)
    requires CutOf(content, pieces) && j <= |pieces|
    requires k < |LinesOf(content)| && MAX_LINE < n < |LinesOf(content)[k]|
    requires |Flatten(pieces[..j])| == LineStart(content, k) + n
    ensures Overlong(pieces)
  {
    hide LinesOf, TailOf;
    FlattenSplit(pieces, j);
    TailInsideLine(content, k, n);
    assert Flatten(pieces[..j]) == content[..LineStart(content, k) + n];
    NothingRead(pieces);
  }

  /** Byte by byte, a line that is over the bound by more than one byte is refused. */
  lemma SinglesOverlong(content: seq<Byte>, k: nat)
    requires k < |LinesOf(content)| && MAX_LINE + 1 < |LinesOf(content)[k]|
    ensures ReadsOf(content, Singles(content)) && Overlong(Singles(content))
  {
    hide LinesOf, TailOf, Overlong, Flatten;
    SinglesWhole(content);
    TailInsideLine(content, k, MAX_LINE + 1);
    var j := LineStart(content, k) + MAX_LINE + 1;
    SinglesWhole(content[..j]);
    assert Singles(content)[..j] == Singles(content[..j]);
    OverlongInside(content, Singles(content), j, k, MAX_LINE + 1);
  }

  /** A content passes under every cut exactly when no line is more than one byte over the bound, and it
      makes no difference whether the cuts are limited to reads. */
  lemma PassesEveryCut(content: seq<Byte>)
    requires TailOf(content) == []
    ensures (forall pieces :: CutOf(content, pieces) ==> !Overlong(pieces)) <==> LinesWithin(content, MAX_LINE + 1)
    ensures (forall pieces :: ReadsOf(content, pieces) ==> !Overlong(pieces)) <==> LinesWithin(content, MAX_LINE + 1)
  {
    hide LinesOf, TailOf, Overlong, Flatten;
    if LinesWithin(content, MAX_LINE + 1) {
      forall pieces | CutOf(content, pieces) ensures !Overlong(pieces) {
        BoundedLinesPass(pieces);
      }
    } else {
      var k: nat :| k < |LinesOf(content)| && MAX_LINE + 1 < |LinesOf(content)[k]|;
      SinglesOverlong(content, k);
      assert CutOf(content, Singles(content));
    }
  }

  // ----- Content that passes under some reads ----------------------------------------------------------

  /** The first read that reaches a position ends at most one read behind the end of the read before. */
  lemma ReadReaches(pieces: seq<seq<Byte>>, e: nat) returns (j: nat)
    requires forall k :: 0 <= k < |pieces| ==> |pieces[k]| <= READ_SIZE
    requires 0 < e <= |Flatten(pieces)|
    ensures j < |pieces| && |Flatten(pieces[..j])| < e <= |Flatten(pieces[..j])| + READ_SIZE
  {
    hide Flatten;
    j := 0;
    NothingRead(pieces);
    assert pieces[..|pieces|] == pieces;
    while |Flatten(pieces[..j + 1])| < e
      invariant j < |pieces| && |Flatten(pieces[..j])| < e
      decreases |pieces| - j
    {
      j := j + 1;
    }
    assert pieces[..j + 1] == pieces[..j] + [pieces[j]];
    FlattenSnoc(pieces[..j], pieces[j]);
  }

  lemma NoPieces<T>()
    ensures Flatten<T>([]) == []
  {
  }

  lemma NothingRead<T>(pieces: seq<seq<T>>)
    ensures Flatten(pieces[..0]) == []
  {
  }

  lemma LongLineFails(content: seq<Byte>, pieces: seq<seq<Byte>>, k: nat)
    requires ReadsOf(content, pieces) && k < |LinesOf(content)| && MAX_LINE + READ_SIZE < |LinesOf(content)[k]|
    ensures Overlong(pieces)
  {
    hide LinesOf, TailOf, Overlong, Flatten;
    TailInsideLine(content, k, 0);
    var start := LineStart(content, k);
    var j := ReadReaches(pieces, start + |LinesOf(content)[k]|);
    OverlongInside(content, pieces, j, k, |Flatten(pieces[..j])| - start);
  }

  /** Full reads, and a shorter one for what is left. */
  function FullReads(b: seq<Byte>): seq<seq<Byte>>
    decreases |b|
  {
    if |b| <= READ_SIZE then [b] else [b[..READ_SIZE]] + FullReads(b[READ_SIZE..])
  }

  lemma {:induction false} FullReadsWhole(b: seq<Byte>)
    ensures Flatten(FullReads(b)) == b
    ensures forall i :: 0 <= i < |FullReads(b)| ==> |FullReads(b)[i]| <= READ_SIZE
    decreases |b|
  {
    if |b| > READ_SIZE {
      FullReadsWhole(b[READ_SIZE..]);
      assert b == b[..READ_SIZE] + b[READ_SIZE..];
    }
  }

  /** How much of a content the first k full reads deliver. */
  function BytesRead(k: nat, size: nat): (n: nat)
    ensures n <= size
  {
    if k * READ_SIZE <= size then k * READ_SIZE else size
  }

  lemma OneMoreRead(k: nat, size: nat)
    requires 0 < k && READ_SIZE < size
    ensures BytesRead(k, size) == READ_SIZE + BytesRead(k - 1, size - READ_SIZE)
  {
  }

  lemma PrefixAfterHead<T>(b: seq<T>, head: nat, n: nat)
    requires head + n <= |b|
    ensures b[..head] + b[head..][..n] == b[..head + n]
  {
  }

  lemma {:induction false} FullReadsPrefix(b: seq<Byte>, k: nat)
    requires k <= |FullReads(b)|
    ensures Flatten(FullReads(b)[..k]) == b[..BytesRead(k, |b|)]
    decreases |b|
  {
    if k > 0 {
      if |b| <= READ_SIZE {
        assert FullReads(b)[..1] == [b];
      } else {
        var head, rest := b[..READ_SIZE], b[READ_SIZE..];
        assert FullReads(b)[..k] == [head] + FullReads(rest)[..k - 1];
        FullReadsPrefix(rest, k - 1);
        hide FullReads, BytesRead;
        FlattenCons(head, FullReads(rest)[..k - 1]);
        OneMoreRead(k, |b|);
        PrefixAfterHead(b, READ_SIZE, BytesRead(k - 1, |rest|));
      }
    }
  }

  /** The line bound is a whole number of reads, so a read that does not finish the line stays within it. */
  lemma UnfinishedReads(k: nat, size: nat)
    requires size <= MAX_LINE + READ_SIZE
    ensures BytesRead(k, size) < size ==> BytesRead(k, size) <= MAX_LINE
  {
  }

  /** A line by itself: it ends at its only newline. */
  predicate OneLine(line: seq<Byte>) {
    line != [] && FirstNewline(line) == |line| - 1
  }

  lemma PrefixOfOneLine(line: seq<Byte>, n: nat)
    requires OneLine(line) && n <= |line| && (n < |line| ==> n <= MAX_LINE)
    ensures |TailOf(line[..n])| <= MAX_LINE && TailOf(line) == []
  {
    hide TailOf;
    TailAfterLine(line, |line| - 1, []);
    TailEmpty();
    assert line[..|line|] == line;
    if n < |line| { NoNewlineBefore(line, n); }
  }

  lemma TailEmpty()
    ensures TailOf([]) == []
  {
  }

  lemma OneLineReads(line: seq<Byte>, k: nat)
    requires OneLine(line) && |line| <= MAX_LINE + READ_SIZE && k <= |FullReads(line)|
    ensures |TailOf(Flatten(FullReads(line)[..k]))| <= MAX_LINE
  {
    hide *;
    FullReadsPrefix(line, k);
    UnfinishedReads(k, |line|);
    PrefixOfOneLine(line, BytesRead(k, |line|));
  }

  /** Reads that end with every line. */
  function LineReads(lines: seq<seq<Byte>>): seq<seq<Byte>> {
    if lines == [] then [] else FullReads(lines[0]) + LineReads(lines[1..])
  }

  lemma {:induction false} FlattenConcat<T>(a: seq<seq<T>>, b: seq<seq<T>>)
    ensures Flatten(a + b) == Flatten(a) + Flatten(b)
  {
    FlattenSplit(a + b, |a|);
    assert (a + b)[..|a|] == a && (a + b)[|a|..] == b;
  }

  lemma {:induction false} LineReadsWhole(lines: seq<seq<Byte>>)
    ensures Flatten(LineReads(lines)) == Flatten(lines)
    ensures forall i :: 0 <= i < |LineReads(lines)| ==> |LineReads(lines)[i]| <= READ_SIZE
  {
    if lines != [] {
      FullReadsWhole(lines[0]);
      LineReadsWhole(lines[1..]);
      FlattenConcat(FullReads(lines[0]), LineReads(lines[1..]));
    }
  }

  lemma {:induction false} LineReadsPass(lines: seq<seq<Byte>>, k: nat)
    requires forall i :: 0 <= i < |lines| ==> OneLine(lines[i]) && |lines[i]| <= MAX_LINE + READ_SIZE
    requires k <= |LineReads(lines)|
    ensures |TailOf(Flatten(LineReads(lines)[..k]))| <= MAX_LINE
  {
    hide FullReads, TailOf, Flatten, OneLine;
    NoPieces<Byte>();
    TailEmpty();
    if lines != [] {
      var first, rest := FullReads(lines[0]), LineReads(lines[1..]);
      if k <= |first| {
        OneLineReads(lines[0], k);
        assert LineReads(lines)[..k] == first[..k];
      } else {
        LineReadsPass(lines[1..], k - |first|);
        assert LineReads(lines)[..k] == first + rest[..k - |first|];
        FlattenConcat(first, rest[..k - |first|]);
        FullReadsWhole(lines[0]);
        WholeLineDrops(lines[0], Flatten(rest[..k - |first|]));
      }
    } else {
      assert LineReads(lines)[..k] == [];
    }
  }

  lemma WholeLineDrops(line: seq<Byte>, after: seq<Byte>)
    requires OneLine(line)
    ensures TailOf(line + after) == TailOf(after)
  {
    hide TailOf;
    TailConcat(line, after);
    PrefixOfOneLine(line, |line|);
    assert [] + after == after;
  }

  lemma {:induction false} LinesAreLines(b: seq<Byte>, k: nat)
    requires k < |LinesOf(b)|
    ensures OneLine(LinesOf(b)[k])
    decreases |b|
  {
    var i := FirstNewline(b);
    if k == 0 {
      FirstNewlineIs(b[..i + 1], i);
    } else {
      LinesAreLines(b[i + 1..], k - 1);
    }
  }

  /** A content passes under some reads exactly when every line is over the bound by at most one read. */
  lemma PassesSomeReads(content: seq<Byte>)
    requires TailOf(content) == []
    ensures (exists pieces :: ReadsOf(content, pieces) && !Overlong(pieces)) <==> LinesWithin(content, MAX_LINE + READ_SIZE)
  {
    hide LinesOf, TailOf, Flatten, OneLine, LineReads, FullReads;
    if LinesWithin(content, MAX_LINE + READ_SIZE) {
      var pieces := LineReads(LinesOf(content));
      LinesAndTail(content);
      LineReadsWhole(LinesOf(content));
      forall i | 0 <= i < |LinesOf(content)| ensures OneLine(LinesOf(content)[i]) {
        LinesAreLines(content, i);
      }
      forall k | 0 < k <= |pieces| ensures |TailOf(Flatten(pieces[..k]))| <= MAX_LINE {
        LineReadsPass(LinesOf(content), k);
      }
      assert ReadsOf(content, pieces) && !Overlong(pieces);
    } else {
      var k: nat :| k < |LinesOf(content)| && MAX_LINE + READ_SIZE < |LinesOf(content)[k]|;
      forall pieces | ReadsOf(content, pieces) ensures Overlong(pieces) {
        LongLineFails(content, pieces, k);
      }
    }
  }

  /** A content passes or fails with the reads exactly when some line is more than one byte over the bound
      and none is over it by more than a read. */
  lemma LongLinesDependOnReads(content: seq<Byte>)
    requires TailOf(content) == []
    ensures (exists pieces :: ReadsOf(content, pieces) && !Overlong(pieces))
              && (exists pieces :: ReadsOf(content, pieces) && Overlong(pieces))
       <==> LinesWithin(content, MAX_LINE + READ_SIZE) && !LinesWithin(content, MAX_LINE + 1)
  {
    hide LinesWithin, ReadsOf, Overlong, TailOf;
    PassesEveryCut(content);
    PassesSomeReads(content);
  }
}
