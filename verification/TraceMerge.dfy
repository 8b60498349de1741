/** Reading the trace partitions of all exchanges back as one globally ordered trace. */
module TraceMerge {
  import opened Workload
  import opened Ordering

  /** What a trace row carries beside its due time and planned event id. */
  datatype TraceBody = TraceBody(exchange: Exchange, group: StreamGroup, ordinal: nat)

  type TraceRow = Item<TraceBody>

  ghost predicate OnExchange(rows: seq<TraceRow>, exchange: Exchange) {
    forall k :: 0 <= k < |rows| ==> rows[k].body.exchange == exchange
  }

  /** Checks a partition while it streams: each row is compared with the one before it only. The
      neighbour checks are enough for the whole partition to be strictly increasing. */
  method ReadPartition(rows: seq<TraceRow>, exchange: Exchange) returns (ok: bool, emitted: seq<TraceRow>)
    ensures ok <==> OnExchange(rows, exchange) && StrictlySorted(rows)
    ensures ok ==> emitted == rows
    ensures emitted <= rows && OnExchange(emitted, exchange) && StrictlySorted(emitted)
  {
    emitted := [];
    for k := 0 to |rows|
      invariant emitted == rows[..k]
      invariant OnExchange(emitted, exchange) && StrictlySorted(emitted)
    {
      var row := rows[k];
      if row.body.exchange != exchange {
        return false, emitted;
      }
      if k > 0 && !KeyLess(rows[k - 1], row) {
        return false, emitted;
      }
      emitted := emitted + [row];
    }
    ok := true;
  }

  ghost predicate AllStrict(partitions: seq<seq<TraceRow>>) {
    forall k :: 0 <= k < |partitions| ==> StrictlySorted(partitions[k])
  }

  /** No event id occurs twice in the sequence. */
  ghost predicate IdsDistinct(rows: seq<TraceRow>) {
    forall i, j :: 0 <= i < j < |rows| ==> rows[i].id != rows[j].id
  }

  lemma IdsDistinctIsDistinct(rows: seq<TraceRow>)
    ensures IdsDistinct(rows) <==> Distinct(multiset(rows))
  {
    if Distinct(multiset(rows)) {
      forall i, j | 0 <= i < j < |rows| ensures rows[i].id != rows[j].id {
        assert rows[i] in multiset(rows) && rows[j] in multiset(rows);
        if rows[i].id == rows[j].id { RepeatedElement(rows, i, j); }
      }
    }
    if IdsDistinct(rows) {
      forall x | x in multiset(rows) ensures multiset(rows)[x] == 1 {
        OnlyOnce(rows, x);
      }
      forall x, y | x in multiset(rows) && y in multiset(rows) && x.id == y.id ensures x == y {
        var i :| 0 <= i < |rows| && rows[i] == x;
        var j :| 0 <= j < |rows| && rows[j] == y;
        assert i == j;
      }
    }
  }

  lemma {:induction false} OnlyOnce(rows: seq<TraceRow>, x: TraceRow)
    requires IdsDistinct(rows)
    ensures multiset(rows)[x] <= 1
  {
    if rows != [] {
      OnlyOnce(rows[1..], x);
      assert rows == [rows[0]] + rows[1..];
      if x == rows[0] {
        assert forall k :: 0 <= k < |rows[1..]| ==> rows[1..][k] == rows[k + 1];
        assert x !in rows[1..];
      }
    }
  }

  ghost function IdsOf(rows: seq<TraceRow>): set<nat> {
    set row | row in rows :: row.id
  }

  /** Passes rows on until an event id comes a second time or a bound on rows or bytes is passed. */
  method PassOn(rows: seq<TraceRow>, size: TraceRow -> nat, maxRows: nat, maxBytes: nat)
    returns (ok: bool, emitted: seq<TraceRow>, rowCount: nat, byteCount: nat)
    ensures ok <==> IdsDistinct(rows) && |rows| <= maxRows && SumBy(size, rows) <= maxBytes
    ensures ok ==> emitted == rows && rowCount == |rows| && byteCount == SumBy(size, rows)
    ensures emitted <= rows
  {
    hide SumBy;
    emitted, rowCount, byteCount := [], 0, 0;
    var seen: set<nat> := {};
    SumOfNone(size);
    for k := 0 to |rows|
      invariant emitted == rows[..k] && IdsDistinct(emitted)
      invariant seen == IdsOf(emitted)
      invariant rowCount == k <= maxRows && byteCount == SumBy(size, rows[..k]) <= maxBytes
    {
      if rows[k].id in seen {
        assert exists row :: row in emitted && row.id == rows[k].id;
        return false, emitted, rowCount, byteCount;
      }
      forall i | 0 <= i < k ensures rows[i].id != rows[k].id {
        assert emitted[i] in emitted;
      }
      seen := seen + {rows[k].id};
      assert rows[..k + 1] == rows[..k] + [rows[k]];
      SumBySnoc(size, rows[..k], rows[k]);
      SumByPrefix(size, rows, k + 1);
      rowCount := rowCount + 1;
      byteCount := byteCount + size(rows[k]);
      if rowCount > maxRows || byteCount > maxBytes {
        return false, emitted, rowCount, byteCount;
      }
      emitted := emitted + [rows[k]];
    }
    assert rows[..|rows|] == rows;
    ok := true;
  }

  lemma SumOfNone<T>(size: T -> nat)
    ensures SumBy(size, []) == 0
  {
  }

  /** The row and byte counts recorded for a partition. */
  datatype PartitionFacts = PartitionFacts(rows: nat, bytes: nat)

  function RecordedRows(facts: seq<PartitionFacts>): nat {
    SumBy((f: PartitionFacts) => f.rows, facts)
  }

  function RecordedBytes(facts: seq<PartitionFacts>): nat {
    SumBy((f: PartitionFacts) => f.bytes, facts)
  }

  /** What the partitions must be for their merge to succeed: no event id occurs twice, and their rows and
      bytes are as recorded and within the caller's bounds. */
  ghost predicate Mergeable(partitions: seq<seq<TraceRow>>, facts: seq<PartitionFacts>, size: TraceRow -> nat,
                            maxRows: nat, maxBytes: nat) {
    && Distinct(multiset(Flatten(partitions)))
    && |Flatten(partitions)| == RecordedRows(facts) <= maxRows
    && SumBy(size, Flatten(partitions)) == RecordedBytes(facts) <= maxBytes
  }

  /** Merges the partitions and refuses an event id seen before and counts other than recorded. Success
      depends only on the partitions and their facts, and then the merged trace is the one strictly
      increasing arrangement of all rows. A refusal has emitted a part of it. */
  method MergePartitions(partitions: seq<seq<TraceRow>>, facts: seq<PartitionFacts>, size: TraceRow -> nat,
                         maxRows: nat, maxBytes: nat)
    returns (ok: bool, merged: seq<TraceRow>)
    requires AllStrict(partitions)
    ensures ok <==> Mergeable(partitions, facts, size, maxRows, maxBytes)
    ensures ok ==> StrictlySorted(merged) && multiset(merged) == multiset(Flatten(partitions))
    ensures ok ==> merged == Sort(Flatten(partitions))
    ensures merged <= MergeAll(partitions)
  {
    hide IdsDistinct, Distinct, MergeAll, Flatten, Sort, SumBy, RecordedRows, RecordedBytes;
    merged := [];
    if RecordedRows(facts) > maxRows || RecordedBytes(facts) > maxBytes {
      return false, merged;
    }
    MergeAllIsSortedPermutation(partitions);
    IdsDistinctIsDistinct(MergeAll(partitions));
    SumByPermutes(size, MergeAll(partitions), Flatten(partitions));
    SameLength(MergeAll(partitions), Flatten(partitions));
    var rowCount, byteCount;
    ok, merged, rowCount, byteCount := PassOn(MergeAll(partitions), size, maxRows, maxBytes);
    if ok {
      SortedArrangementIsSort(merged, Flatten(partitions));
      ok := rowCount == RecordedRows(facts) && byteCount == RecordedBytes(facts);
    }
  }

  lemma SameLength<T>(a: seq<T>, b: seq<T>)
    requires multiset(a) == multiset(b)
    ensures |a| == |b|
  {
    assert |multiset(a)| == |multiset(b)|;
  }
}
