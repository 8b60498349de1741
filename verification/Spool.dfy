/** The per-second spool of one exchange's admissions: rows are grouped by the second they are
    due in, and every second of the run gets a partition, empty or not. */
module Spool {
  import opened Arithmetic
  import opened Workload
  import opened Ordering

  /** What admission needs of a row beside its key. */
  datatype Prepared = Prepared(payloadBytes: nat)

  type Row = Item<Prepared>

  function SecondOf(row: Row): int {
    row.due / ONE_SECOND_NS
  }

  /** The rows of one second, in schedule order. */
  function InSecond(rows: seq<Row>, second: int): seq<Row> {
    if rows == [] then []
    else (if SecondOf(rows[0]) == second then [rows[0]] else []) + InSecond(rows[1..], second)
  }

  ghost predicate SecondsAscend(rows: seq<Row>) {
    forall i, j :: 0 <= i < j < |rows| ==> SecondOf(rows[i]) <= SecondOf(rows[j])
  }

  ghost predicate DueWithinRun(rows: seq<Row>, seconds: nat) {
    forall k :: 0 <= k < |rows| ==> 0 <= SecondOf(rows[k]) < seconds
  }

  /** The leading rows that share the first row's second: one group of the grouping iterator. */
  function GroupLength(rows: seq<Row>): (n: nat)
    requires rows != []
    ensures 1 <= n <= |rows|
    ensures forall k :: 0 <= k < n ==> SecondOf(rows[k]) == SecondOf(rows[0])
    ensures n < |rows| ==> SecondOf(rows[n]) != SecondOf(rows[0])
  {
    if |rows| == 1 || SecondOf(rows[1]) != SecondOf(rows[0]) then 1 else 1 + GroupLength(rows[1..])
  }

  lemma {:induction false} SameSecond(rows: seq<Row>, second: int)
    requires forall k :: 0 <= k < |rows| ==> SecondOf(rows[k]) == second
    ensures InSecond(rows, second) == rows
  {
    if rows != [] { SameSecond(rows[1..], second); }
  }

  lemma {:induction false} NoneInSecond(rows: seq<Row>, second: int)
    requires forall k :: 0 <= k < |rows| ==> SecondOf(rows[k]) != second
    ensures InSecond(rows, second) == []
  {
    if rows != [] { NoneInSecond(rows[1..], second); }
  }

  lemma InSecondCons(row: Row, rows: seq<Row>, second: int)
    ensures InSecond([row] + rows, second) == (if SecondOf(row) == second then [row] else []) + InSecond(rows, second)
  {
    assert ([row] + rows)[1..] == rows;
  }

  lemma {:induction false} InSecondConcat(a: seq<Row>, b: seq<Row>, second: int)
    ensures InSecond(a + b, second) == InSecond(a, second) + InSecond(b, second)
  {
    if a == [] {
      assert a + b == b;
    } else {
      InSecondConcat(a[1..], b, second);
      InSecondCons(a[0], a[1..] + b, second);
      InSecondCons(a[0], a[1..], second);
      assert a + b == [a[0]] + (a[1..] + b) && a == [a[0]] + a[1..];
    }
  }

  /** A finished partition: its second and its rows. */
  datatype Partition = Partition(second: nat, rows: seq<Row>)

  datatype BuildError = AlreadyComplete | MovedBackwards | EndedEarly | EscapedDuration | Empty

  datatype BuildResult<+T> = Built(value: T) | Refused(error: BuildError)

  function RowsOf(partitions: seq<Partition>): seq<Row> {
    if partitions == [] then [] else RowsOf(partitions[..|partitions| - 1]) + partitions[|partitions| - 1].rows
  }

  /** One second's rows, not before the given second, with only later seconds after them. */
  ghost predicate IsGroup(group: seq<Row>, later: seq<Row>, second: nat) {
    && group != [] && second <= SecondOf(group[0])
    && (forall k :: 0 <= k < |group| ==> SecondOf(group[k]) == SecondOf(group[0]))
    && (forall k :: 0 <= k < |later| ==> SecondOf(group[0]) < SecondOf(later[k]))
  }

  lemma LaterSeconds(rows: seq<Row>, n: nat)
    requires SecondsAscend(rows) && rows != [] && n == GroupLength(rows)
    ensures forall k :: 0 <= k < |rows[n..]| ==> SecondOf(rows[0]) < SecondOf(rows[n..][k])
  {
    forall k | n <= k < |rows| ensures SecondOf(rows[0]) < SecondOf(rows[k]) {
      assert SecondOf(rows[0]) <= SecondOf(rows[n]);
      if k > n { assert SecondOf(rows[n]) <= SecondOf(rows[k]); }
    }
  }
  lemma SuffixAscends(a: seq<Row>, b: seq<Row>)
    requires SecondsAscend(a + b)
    ensures SecondsAscend(b)
  {
    forall i, j | 0 <= i < j < |b| ensures SecondOf(b[i]) <= SecondOf(b[j]) {
      assert (a + b)[|a| + i] == b[i] && (a + b)[|a| + j] == b[j];
    }
  }

  /** A row is in the part of a second exactly when it is one of the rows and due in that second. */
  lemma {:induction false} InSecondMeans(rows: seq<Row>, second: nat, row: Row)
    ensures row in InSecond(rows, second) <==>
              row in rows && second * 1_000_000_000 <= row.due < (second + 1) * 1_000_000_000
  {
    assert SecondOf(row) == second <==> second * ONE_SECOND_NS <= row.due < (second + 1) * ONE_SECOND_NS;
    if rows != [] {
      InSecondMeans(rows[1..], second, row);
      assert rows == [rows[0]] + rows[1..];
    }
  }

  lemma {:induction false} InSecondMembers(rows: seq<Row>, second: int)
    ensures forall row :: row in InSecond(rows, second) ==> SecondOf(row) == second
  {
    if rows != [] { InSecondMembers(rows[1..], second); }
  }

  /** Finished partitions hold only rows of their own, earlier seconds. */
  lemma {:induction false} PartitionedEarlier(schedule: seq<Row>, partitions: seq<Partition>)
    requires forall k :: 0 <= k < |partitions| ==> partitions[k].rows == InSecond(schedule, k)
    ensures forall row :: row in RowsOf(partitions) ==> 0 <= SecondOf(row) < |partitions|
  {
    if partitions != [] {
      var last := |partitions| - 1;
      PartitionedEarlier(schedule, partitions[..last]);
      InSecondMembers(schedule, last);
    }
  }

  lemma NextSecond(schedule: seq<Row>, partitions: seq<Partition>, group: seq<Row>, later: seq<Row>)
    requires forall k :: 0 <= k < |partitions| ==> partitions[k].rows == InSecond(schedule, k)
    requires schedule == RowsOf(partitions) + (group + later)
    requires if group == [] then later == [] else IsGroup(group, later, |partitions|)
    ensures InSecond(schedule, |partitions|)
         == if group != [] && SecondOf(group[0]) == |partitions| then group else []
  {
    var second := |partitions|;
    PartitionedEarlier(schedule, partitions);
    assert forall k :: 0 <= k < |RowsOf(partitions)| ==> RowsOf(partitions)[k] in RowsOf(partitions);
    NoneInSecond(RowsOf(partitions), second);
    InSecondConcat(RowsOf(partitions), group + later, second);
    InSecondConcat(group, later, second);
    NoneInSecond(later, second);
    if group != [] && SecondOf(group[0]) == second {
      SameSecond(group, second);
    } else {
      NoneInSecond(group, second);
    }
  }

  /** The next group of the grouping iterator and what it leaves. */
  function TakeGroup(rows: seq<Row>): (Option<seq<Row>>, seq<Row>) {
    if rows == [] then (None, [])
    else
      var n := GroupLength(rows);
      (Some(rows[..n]), rows[n..])
  }

  lemma TakeGroupFacts(rows: seq<Row>, second: nat)
    requires SecondsAscend(rows) && forall k :: 0 <= k < |rows| ==> second <= SecondOf(rows[k])
    ensures var (group, later) := TakeGroup(rows);
            if rows == [] then group.None? && later == []
            else group.Some? && rows == group.value + later && IsGroup(group.value, later, second)
  {
    if rows != [] { LaterSeconds(rows, GroupLength(rows)); }
  }

  /** What a builder holds: finished partitions, one group ahead, and the rows not yet grouped. */
  ghost predicate SpoolState(schedule: seq<Row>, seconds: nat, partitions: seq<Partition>,
                             group: Option<seq<Row>>, later: seq<Row>, rowCount: nat) {
    && SecondsAscend(schedule)
    && |partitions| <= seconds
    && (forall k :: 0 <= k < |partitions| ==> partitions[k] == Partition(k, InSecond(schedule, k)))
    && schedule == RowsOf(partitions) + (Ahead(group) + later)
    && rowCount == |RowsOf(partitions)|
    && if group.None? then later == [] else IsGroup(group.value, later, |partitions|)
  }

  function Ahead(group: Option<seq<Row>>): seq<Row> {
    if group.Some? then group.value else []
  }

  lemma SpoolStarts(schedule: seq<Row>, seconds: nat)
    requires SecondsAscend(schedule) && forall k :: 0 <= k < |schedule| ==> 0 <= SecondOf(schedule[k])
    ensures SpoolState(schedule, seconds, [], TakeGroup(schedule).0, TakeGroup(schedule).1, 0)
  {
    TakeGroupFacts(schedule, 0);
  }

  lemma LaterThan(group: seq<Row>, later: seq<Row>, second: nat)
    requires IsGroup(group, later, second) && SecondOf(group[0]) == second
    ensures forall k :: 0 <= k < |later| ==> second + 1 <= SecondOf(later[k])
  {
  }

  lemma RowsOfSnoc(partitions: seq<Partition>, p: Partition)
    ensures RowsOf(partitions + [p]) == RowsOf(partitions) + p.rows
  {
    assert (partitions + [p])[..|partitions|] == partitions;
  }

  /** The group ahead belongs to the second: it becomes the partition, and the next group is looked up. */
  lemma TakesGroup(schedule: seq<Row>, seconds: nat, partitions: seq<Partition>,
                   group: seq<Row>, later: seq<Row>, rowCount: nat, rows: seq<Row>)
    requires SpoolState(schedule, seconds, partitions, Some(group), later, rowCount) && |partitions| < seconds
    requires SecondOf(group[0]) == |partitions| && rows == InSecond(schedule, |partitions|) == group
    ensures SpoolState(schedule, seconds, partitions + [Partition(|partitions|, rows)],
                       TakeGroup(later).0, TakeGroup(later).1, rowCount + |rows|)
  {
    hide InSecond, RowsOf, TakeGroup, GroupLength, SecondOf, SecondsAscend;
    var before := RowsOf(partitions);
    RowsOfSnoc(partitions, Partition(|partitions|, rows));
    ConcatAssoc(before, group, later);
    SuffixAscends(before + group, later);
    LaterThan(group, later, |partitions|);
    TakeGroupFacts(later, |partitions| + 1);
  }

  /** Nothing is due in the second: its partition is empty. */
  lemma SkipsSecond(schedule: seq<Row>, seconds: nat, partitions: seq<Partition>,
                    group: Option<seq<Row>>, later: seq<Row>, rowCount: nat, rows: seq<Row>)
    requires SpoolState(schedule, seconds, partitions, group, later, rowCount) && |partitions| < seconds
    requires group.Some? ==> SecondOf(group.value[0]) != |partitions|
    requires rows == InSecond(schedule, |partitions|) == []
    ensures SpoolState(schedule, seconds, partitions + [Partition(|partitions|, rows)], group, later, rowCount)
  {
    hide InSecond, RowsOf, SecondsAscend;
    RowsOfSnoc(partitions, Partition(|partitions|, rows));
    assert RowsOf(partitions) + rows == RowsOf(partitions);
  }

  /** The group ahead is never in an earlier second, and taking it when its second comes keeps
      every row in place. */
  lemma SpoolAdvances(schedule: seq<Row>, seconds: nat, partitions: seq<Partition>,
                      group: Option<seq<Row>>, later: seq<Row>, rowCount: nat)
    requires SpoolState(schedule, seconds, partitions, group, later, rowCount) && |partitions| < seconds
    ensures group.Some? ==> group.value != [] && |partitions| <= SecondOf(group.value[0])
    ensures var second := |partitions|;
            var rows := InSecond(schedule, second);
            var after := partitions + [Partition(second, rows)];
            if group.Some? && SecondOf(group.value[0]) == second then
              rows == group.value
              && SpoolState(schedule, seconds, after, TakeGroup(later).0, TakeGroup(later).1, rowCount + |rows|)
            else rows == [] && SpoolState(schedule, seconds, after, group, later, rowCount)
  {
    var second := |partitions|;
    hide InSecond, RowsOf, TakeGroup, SecondsAscend;
    NextSecond(schedule, partitions, Ahead(group), later);
    var rows := InSecond(schedule, second);
    if group.Some? && SecondOf(group.value[0]) == second {
      TakesGroup(schedule, seconds, partitions, group.value, later, rowCount, rows);
    } else {
      SkipsSecond(schedule, seconds, partitions, group, later, rowCount, rows);
    }
  }

  /** Whether a finished spool has lost a row is visible from the group ahead alone. */
  lemma SpoolEnds(schedule: seq<Row>, seconds: nat, partitions: seq<Partition>,
                  group: Option<seq<Row>>, later: seq<Row>, rowCount: nat)
    requires SpoolState(schedule, seconds, partitions, group, later, rowCount) && |partitions| == seconds
    ensures group.None? <==> DueWithinRun(schedule, seconds)
    ensures group.None? ==> RowsOf(partitions) == schedule && rowCount == |schedule|
  {
    PartitionedEarlier(schedule, partitions);
    if group.Some? {
      assert schedule[|RowsOf(partitions)|] == group.value[0];
    } else {
      assert schedule == RowsOf(partitions);
      assert forall k :: 0 <= k < |schedule| ==> schedule[k] in RowsOf(partitions);
    }
  }

  /** The rows of the next second: the group ahead when it belongs to the second, nothing when it comes
      later. A group from an earlier second is refused, and never met. */
  method TakeSecond(seconds: nat, partitions: seq<Partition>, group: Option<seq<Row>>, later: seq<Row>, rowCount: nat,
                    ghost schedule: seq<Row>)
    returns (rows: Option<seq<Row>>, group': Option<seq<Row>>, later': seq<Row>)
    requires SpoolState(schedule, seconds, partitions, group, later, rowCount) && |partitions| < seconds
    ensures rows == Some(InSecond(schedule, |partitions|))
    ensures SpoolState(schedule, seconds, partitions + [Partition(|partitions|, rows.value)], group', later', rowCount + |rows.value|)
  {
    hide SpoolState, InSecond, SecondOf, TakeGroup, GroupLength;
    SpoolAdvances(schedule, seconds, partitions, group, later, rowCount);
    rows, group', later' := Some([]), group, later;
    if group.Some? {
      var dueSecond := SecondOf(group.value[0]);
      if dueSecond == |partitions| {
        rows := group;
        group', later' := TakeGroup(later).0, TakeGroup(later).1;
      } else if dueSecond < |partitions| {
        assert false;
        return None, group, later;
      }
    }
  }

  /** Builds the spool second by second from the exchange's schedule. */
  class SpoolBuilder {
    const durationSeconds: nat
    ghost const schedule: seq<Row>
    var ungrouped: seq<Row>
    var nextGroup: Option<seq<Row>>
    var partitions: seq<Partition>
    var rowCount: nat

    ghost predicate Valid()
      reads this
    {
      SpoolState(schedule, durationSeconds, partitions, nextGroup, ungrouped, rowCount)
    }

    constructor (durationSeconds: nat, schedule: seq<Row>)
      requires SecondsAscend(schedule) && forall k :: 0 <= k < |schedule| ==> 0 <= SecondOf(schedule[k])
      ensures Valid() && partitions == []
      ensures this.durationSeconds == durationSeconds && this.schedule == schedule
    {
      hide SpoolState;
      this.durationSeconds := durationSeconds;
      this.schedule := schedule;
      partitions, rowCount := [], 0;
      nextGroup, ungrouped := TakeGroup(schedule).0, TakeGroup(schedule).1;
      SpoolStarts(schedule, durationSeconds);
    }

    /** Writes the partition of the next second. On a schedule whose seconds never decrease the
        moved-backwards refusal cannot happen: the call is refused only when the spool is complete. */
    method PrepareNext() returns (r: BuildResult<Partition>)
      requires Valid()
      modifies this
      ensures Valid()
      ensures r.Refused? <==> old(|partitions|) == durationSeconds
      ensures r.Refused? ==> r.error == AlreadyComplete && partitions == old(partitions)
      ensures r.Built? ==>
        && r.value == Partition(old(|partitions|), InSecond(schedule, old(|partitions|)))
        && partitions == old(partitions) + [r.value]
    {
      var second := |partitions|;
      assert second <= durationSeconds;
      if second >= durationSeconds {
        return Refused(AlreadyComplete);
      }
      hide SpoolState, InSecond;
      var rows, group, later := TakeSecond(durationSeconds, partitions, nextGroup, ungrouped, rowCount, schedule);
      if rows.None? {
        return Refused(MovedBackwards);
      }
      var partition := Partition(second, rows.value);
      nextGroup, ungrouped := group, later;
      partitions := partitions + [partition];
      rowCount := rowCount + |rows.value|;
      r := Built(partition);
    }

    /** Prepares partitions up to the given second. */
    method PrepareUntil(count: nat)
      requires Valid() && count <= durationSeconds
      modifies this
      ensures Valid() && |partitions| == Max(old(|partitions|), count)
    {
      while |partitions| < count
        invariant Valid() && old(|partitions|) <= |partitions| <= Max(old(|partitions|), count)
        decreases count - |partitions|
      {
        var prepared := PrepareNext();
      }
    }

    /** Hands over the finished spool: exactly when every second is prepared, no row is due after
        the run and there is a row at all. Then the partitions hold the whole schedule in order. */
    method Finish() returns (r: BuildResult<seq<Partition>>)
      requires Valid()
      ensures r.Built? <==> |partitions| == durationSeconds && DueWithinRun(schedule, durationSeconds) && schedule != []
      ensures r.Built? ==> r.value == partitions && RowsOf(r.value) == schedule
    {
      if |partitions| != durationSeconds {
        return Refused(EndedEarly);
      }
      SpoolEnds(schedule, durationSeconds, partitions, nextGroup, ungrouped, rowCount);
      if nextGroup.Some? {
        return Refused(EscapedDuration);
      }
      if rowCount == 0 {
        return Refused(Empty);
      }
      r := Built(partitions);
    }
  }

  /** Prepares the whole spool of an exchange at once. */
  method PrepareExchangeSpool(durationSeconds: nat, schedule: seq<Row>) returns (r: BuildResult<seq<Partition>>)
    requires SecondsAscend(schedule) && forall k :: 0 <= k < |schedule| ==> 0 <= SecondOf(schedule[k])
    ensures r.Built? <==> DueWithinRun(schedule, durationSeconds) && schedule != []
    ensures r.Built? ==>
      && |r.value| == durationSeconds && RowsOf(r.value) == schedule
      && forall k :: 0 <= k < durationSeconds ==> r.value[k] == Partition(k, InSecond(schedule, k))
  {
    var builder := new SpoolBuilder(durationSeconds, schedule);
    builder.PrepareUntil(durationSeconds);
    r := builder.Finish();
  }
}
