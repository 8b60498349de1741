/** The runner's join of accepted and durable rows: two tables with unique keys, and the checks
    that make them an exact join with contiguous acceptance ordinals. */
module Join {
  import opened Workload

  /** Routes, workers, digests and hours are texts that are only compared for equality. */
  type Text = nat

  datatype Key = Key(route: Text, writerSequence: int)

  datatype Accepted = Accepted(
    worker: Text, ordinal: int, configHash: Text, configGeneration: int,
    eventId: Text, payloadHash: Text, payloadBytes: nat)

  datatype Durable = Durable(worker: Text, eventId: Text, payloadHash: Text, payloadBytes: nat, utcHour: Text)

  /** What an accepted trace carries; the identity may be missing. */
  datatype Identity = Identity(
    writerSequence: int, worker: Text, ordinal: int, configHash: Text, configGeneration: int)

  datatype AcceptedTrace = AcceptedTrace(
    route: Text, eventId: Text, payloadHash: Text, payloadBytes: nat, identity: Option<Identity>)

  type AcceptedTable = map<Key, Accepted>
  type DurableTable = map<Key, Durable>

  // ----- Sums over keys ----------------------------------------------------------------

  ghost function SumOver<K(!new)>(keys: set<K>, f: K -> nat): nat {
    if keys == {} then 0 else
      var k :| k in keys;
      f(k) + SumOver(keys - {k}, f)
  }

  /** A sum does not depend on which key is taken first. */
  lemma {:induction false} SumOverPick<K(!new)>(keys: set<K>, f: K -> nat, k: K)
    requires k in keys
    ensures SumOver(keys, f) == f(k) + SumOver(keys - {k}, f)
    decreases |keys|
  {
    var first :| first in keys && SumOver(keys, f) == f(first) + SumOver(keys - {first}, f);
    if first != k {
      SumOverPick(keys - {first}, f, k);
      SumOverPick(keys - {k}, f, first);
      assert keys - {first} - {k} == keys - {k} - {first};
    }
  }

  lemma {:induction false} SumOverAgrees<K(!new)>(keys: set<K>, f: K -> nat, g: K -> nat)
    requires forall k :: k in keys ==> f(k) == g(k)
    ensures SumOver(keys, f) == SumOver(keys, g)
    decreases |keys|
  {
    if keys != {} {
      var k :| k in keys;
      SumOverPick(keys, f, k);
      SumOverPick(keys, g, k);
      SumOverAgrees(keys - {k}, f, g);
    }
  }

  // ----- Table invariants ----------------------------------------------------------------

  ghost predicate UniqueAccepted(accepted: AcceptedTable) {
    && (forall a, b :: a in accepted && b in accepted && accepted[a].eventId == accepted[b].eventId ==> a == b)
    && (forall a, b ::
          a in accepted && b in accepted && accepted[a].worker == accepted[b].worker && accepted[a].ordinal == accepted[b].ordinal ==>
          a == b)
  }

  ghost predicate UniqueDurable(durable: DurableTable) {
    forall a, b :: a in durable && b in durable && durable[a].eventId == durable[b].eventId ==> a == b
  }

  // ----- The join --------------------------------------------------------------------------

  predicate RowsAgree(a: Accepted, d: Durable) {
    a.worker == d.worker && a.eventId == d.eventId && a.payloadHash == d.payloadHash && a.payloadBytes == d.payloadBytes
  }

  /** Rows of either side that the outer joins report: an accepted row without an agreeing durable
      row, or a durable row without an accepted one. */
  function Disagreements(accepted: AcceptedTable, durable: DurableTable): nat {
    |set k | k in accepted && (k !in durable || !RowsAgree(accepted[k], durable[k]))|
    + |set k | k in durable && k !in accepted|
  }

  /** The two tables pair up: the same keys, with the same worker, event, digest and size. */
  ghost predicate ExactJoin(accepted: AcceptedTable, durable: DurableTable) {
    accepted.Keys == durable.Keys && forall k :: k in accepted ==> RowsAgree(accepted[k], durable[k])
  }

  lemma NoDisagreementIsExactJoin(accepted: AcceptedTable, durable: DurableTable)
    ensures Disagreements(accepted, durable) == 0 <==> ExactJoin(accepted, durable)
  {
    var left := set k | k in accepted && (k !in durable || !RowsAgree(accepted[k], durable[k]));
    var right := set k | k in durable && k !in accepted;
    if Disagreements(accepted, durable) == 0 {
      assert left == {} && right == {};
      forall k ensures k in accepted <==> k in durable {
        assert k !in left && k !in right;
      }
      forall k | k in accepted ensures RowsAgree(accepted[k], durable[k]) {
        assert k !in left;
      }
    }
    if ExactJoin(accepted, durable) {
      assert forall k :: k in accepted.Keys <==> k in durable.Keys;
      assert left == {} && right == {};
    }
  }

  ghost function AcceptedBytes(accepted: AcceptedTable): nat {
    SumOver(accepted.Keys, AcceptedSize(accepted))
  }

  ghost function DurableBytes(durable: DurableTable): nat {
    SumOver(durable.Keys, DurableSize(durable))
  }

  ghost function AcceptedSize(accepted: AcceptedTable): Key -> nat {
    k => if k in accepted then accepted[k].payloadBytes else 0
  }

  ghost function DurableSize(durable: DurableTable): Key -> nat {
    k => if k in durable then durable[k].payloadBytes else 0
  }

  function OfWorker(accepted: AcceptedTable, worker: Text): set<Key> {
    set k | k in accepted && accepted[k].worker == worker
  }

  function DurableOfWorker(durable: DurableTable, worker: Text): set<Key> {
    set k | k in durable && durable[k].worker == worker
  }

  function AcceptedEvents(accepted: AcceptedTable): set<Text> { set k | k in accepted :: accepted[k].eventId }

  function DurableEvents(durable: DurableTable): set<Text> { set k | k in durable :: durable[k].eventId }

  lemma SameEvents(accepted: AcceptedTable, durable: DurableTable)
    requires ExactJoin(accepted, durable)
    ensures AcceptedEvents(accepted) == DurableEvents(durable)
  {
    forall e | e in AcceptedEvents(accepted) ensures e in DurableEvents(durable) {
      var k :| k in accepted.Keys && accepted[k].eventId == e;
      assert k in durable.Keys && RowsAgree(accepted[k], durable[k]);
    }
    forall e | e in DurableEvents(durable) ensures e in AcceptedEvents(accepted) {
      var k :| k in durable.Keys && durable[k].eventId == e;
      assert k in accepted.Keys && RowsAgree(accepted[k], durable[k]);
    }
  }

  /** An exact join conserves rows and bytes, in all and for every worker, and pairs the events. */
  lemma ExactJoinConserves(accepted: AcceptedTable, durable: DurableTable)
    requires ExactJoin(accepted, durable)
    ensures |accepted| == |durable| && AcceptedBytes(accepted) == DurableBytes(durable)
    ensures forall worker :: OfWorker(accepted, worker) == DurableOfWorker(durable, worker)
    ensures AcceptedEvents(accepted) == DurableEvents(durable)
  {
    assert |accepted.Keys| == |accepted| && |durable.Keys| == |durable|;
    forall k | k in accepted.Keys ensures AcceptedSize(accepted)(k) == DurableSize(durable)(k) {
      assert k in durable && RowsAgree(accepted[k], durable[k]);
    }
    SumOverAgrees(accepted.Keys, AcceptedSize(accepted), DurableSize(durable));
    forall worker ensures OfWorker(accepted, worker) == DurableOfWorker(durable, worker) {
      forall k ensures k in OfWorker(accepted, worker) <==> k in DurableOfWorker(durable, worker) {
        if k in accepted { assert k in durable.Keys && RowsAgree(accepted[k], durable[k]); }
        if k in durable { assert k in accepted.Keys; }
      }
    }
    SameEvents(accepted, durable);
  }

  // ----- Acceptance ordinals -----------------------------------------------------------------

  function Ordinals(accepted: AcceptedTable, keys: set<Key>): set<int>
    requires keys <= accepted.Keys
  {
    set k | k in keys :: accepted[k].ordinal
  }

  /** The set {0, ..., n - 1}. */
  function UpTo(n: nat): (s: set<int>)
    ensures |s| == n
    ensures forall i :: i in s <==> 0 <= i < n
  {
    if n == 0 then {} else UpTo(n - 1) + {n - 1}
  }

  lemma SubsetOfSameSize<T>(a: set<T>, b: set<T>)
    requires a <= b && |a| == |b|
    ensures a == b
  {
    assert b == a + (b - a);
    assert |b| == |a| + |b - a|;
    assert b - a == {};
  }

  /** Different rows of a worker have different ordinals, so there are as many ordinals as rows. */
  lemma {:induction false} OrdinalsAreDistinct(accepted: AcceptedTable, worker: Text, keys: set<Key>)
    requires UniqueAccepted(accepted) && keys <= OfWorker(accepted, worker)
    ensures |Ordinals(accepted, keys)| == |keys|
    decreases |keys|
  {
    if keys == {} {
      assert Ordinals(accepted, keys) == {};
    } else {
      var k :| k in keys;
      OrdinalsAreDistinct(accepted, worker, keys - {k});
      assert Ordinals(accepted, keys) == Ordinals(accepted, keys - {k}) + {accepted[k].ordinal};
      assert accepted[k].ordinal !in Ordinals(accepted, keys - {k});
    }
  }

  ghost predicate IsLeast(s: set<int>, x: int) { x in s && forall y :: y in s ==> x <= y }

  ghost predicate IsGreatest(s: set<int>, x: int) { x in s && forall y :: y in s ==> y <= x }

  /** The worker's ordinals are exactly 0, ..., n - 1. */
  ghost predicate Contiguous(accepted: AcceptedTable, worker: Text) {
    Ordinals(accepted, OfWorker(accepted, worker)) == UpTo(|OfWorker(accepted, worker)|)
  }

  /** Unique ordinals with minimum 0 and maximum n - 1 are exactly 0, ..., n - 1, and only those are:
      the two ends decide it, by the pigeonhole principle. */
  lemma EndsDecideContiguity(accepted: AcceptedTable, worker: Text, least: int, greatest: int)
    requires UniqueAccepted(accepted)
    requires IsLeast(Ordinals(accepted, OfWorker(accepted, worker)), least)
    requires IsGreatest(Ordinals(accepted, OfWorker(accepted, worker)), greatest)
    ensures least == 0 && greatest == |OfWorker(accepted, worker)| - 1 <==> Contiguous(accepted, worker)
  {
    var n := |OfWorker(accepted, worker)|;
    var ordinals := Ordinals(accepted, OfWorker(accepted, worker));
    OrdinalsAreDistinct(accepted, worker, OfWorker(accepted, worker));
    hide OfWorker, Ordinals, UniqueAccepted;
    if least == 0 && greatest == n - 1 {
      assert ordinals <= UpTo(n);
      SubsetOfSameSize(ordinals, UpTo(n));
    }
    if ordinals == UpTo(n) {
      assert least in UpTo(n) && 0 in UpTo(n) && n - 1 in UpTo(n);
    }
  }

  // ----- The database --------------------------------------------------------------------------

  datatype WorkerFacts = WorkerFacts(
    configHash: Text, configGeneration: int, acceptedCount: nat, durableCount: nat, ordinalMin: int, ordinalMax: int)

  datatype JoinFacts = JoinFacts(
    uniqueAccepted: nat, durableRecords: nat, durableBytes: nat, touchedIdentities: nat, hours: set<Text>, workers: map<Text, WorkerFacts>)

  function Workers(accepted: AcceptedTable): set<Text> { set k | k in accepted :: accepted[k].worker }

  /** Every worker reports one configuration. */
  ghost predicate OneConfig(accepted: AcceptedTable, worker: Text) {
    forall a, b :: a in OfWorker(accepted, worker) && b in OfWorker(accepted, worker) ==>
      accepted[a].configHash == accepted[b].configHash && accepted[a].configGeneration == accepted[b].configGeneration
  }

  /** What finalisation accepts. */
  ghost predicate Joined(accepted: AcceptedTable, durable: DurableTable) {
    && ExactJoin(accepted, durable)
    && forall worker :: worker in Workers(accepted) ==> WorkerPasses(accepted, worker)
  }

  ghost predicate FactsOf(accepted: AcceptedTable, durable: DurableTable, worker: Text, f: WorkerFacts) {
    && f.acceptedCount == f.durableCount == |OfWorker(accepted, worker)| > 0
    && f.ordinalMin == 0 && f.ordinalMax == f.acceptedCount - 1
    && forall k :: k in OfWorker(accepted, worker) ==>
         accepted[k].configHash == f.configHash && accepted[k].configGeneration == f.configGeneration
  }

  /** The grouped query of one worker: the smallest and largest ordinal of its rows, and whether the
      rows carry one configuration. */
  method WorkerRow(accepted: AcceptedTable, worker: Text) returns (least: int, greatest: int, sample: Key, oneConfig: bool)
    requires worker in Workers(accepted)
    ensures sample in OfWorker(accepted, worker)
    ensures IsLeast(Ordinals(accepted, OfWorker(accepted, worker)), least)
    ensures IsGreatest(Ordinals(accepted, OfWorker(accepted, worker)), greatest)
    ensures oneConfig <==> OneConfig(accepted, worker)
  {
    var keys := OfWorker(accepted, worker);
    assert keys != {} by {
      var k :| k in accepted && accepted[k].worker == worker;
      assert k in keys;
    }
    sample :| sample in keys;
    least, greatest, oneConfig := accepted[sample].ordinal, accepted[sample].ordinal, true;
    var left := keys;
    while left != {}
      invariant left <= keys
      invariant least in Ordinals(accepted, keys) && greatest in Ordinals(accepted, keys)
      invariant forall k :: k in keys && k !in left ==> least <= accepted[k].ordinal <= greatest
      invariant oneConfig <==> forall k :: k in keys && k !in left ==>
                  accepted[k].configHash == accepted[sample].configHash
                  && accepted[k].configGeneration == accepted[sample].configGeneration
      decreases |left|
    {
      var k :| k in left;
      left := left - {k};
      if accepted[k].ordinal < least { least := accepted[k].ordinal; }
      if greatest < accepted[k].ordinal { greatest := accepted[k].ordinal; }
      oneConfig := oneConfig && accepted[k].configHash == accepted[sample].configHash
                   && accepted[k].configGeneration == accepted[sample].configGeneration;
    }
  }

  ghost predicate WorkerPasses(accepted: AcceptedTable, worker: Text) {
    OneConfig(accepted, worker) && Contiguous(accepted, worker)
  }

  /** One worker's row of the grouped query, or no row when the worker fails a check. */
  method WorkerFactsOf(accepted: AcceptedTable, durable: DurableTable, worker: Text) returns (r: Option<WorkerFacts>)
    requires UniqueAccepted(accepted) && worker in Workers(accepted)
    requires OfWorker(accepted, worker) == DurableOfWorker(durable, worker)
    ensures r.Some? <==> WorkerPasses(accepted, worker)
    ensures r.Some? ==> FactsOf(accepted, durable, worker, r.value)
  {
    var least, greatest, sample, oneConfig := WorkerRow(accepted, worker);
    EndsDecideContiguity(accepted, worker, least, greatest);
    hide Contiguous, Ordinals, UniqueAccepted;
    var count := |OfWorker(accepted, worker)|;
    if !oneConfig || least != 0 || greatest != count - 1 {
      return None;
    }
    r := Some(WorkerFacts(accepted[sample].configHash, accepted[sample].configGeneration, count,
                          |DurableOfWorker(durable, worker)|, least, greatest));
  }

  /** The rows of all workers, or none when one fails. */
  method GroupByWorker(accepted: AcceptedTable, durable: DurableTable) returns (r: Option<map<Text, WorkerFacts>>)
    requires UniqueAccepted(accepted)
    requires forall worker :: OfWorker(accepted, worker) == DurableOfWorker(durable, worker)
    ensures r.Some? <==> forall worker :: worker in Workers(accepted) ==> WorkerPasses(accepted, worker)
    ensures r.Some? ==>
      && r.value.Keys == Workers(accepted)
      && forall worker :: worker in Workers(accepted) ==> FactsOf(accepted, durable, worker, r.value[worker])
  {
    hide FactsOf, WorkerPasses, UniqueAccepted, OfWorker, DurableOfWorker;
    var facts: map<Text, WorkerFacts> := map[];
    var left := Workers(accepted);
    while left != {}
      invariant left <= Workers(accepted) && facts.Keys == Workers(accepted) - left
      invariant forall worker :: worker in facts ==>
        WorkerPasses(accepted, worker) && FactsOf(accepted, durable, worker, facts[worker])
      decreases |left|
    {
      var worker :| worker in left;
      var row := WorkerFactsOf(accepted, durable, worker);
      if row.None? {
        return None;
      }
      facts := facts[worker := row.value];
      left := left - {worker};
    }
    r := Some(facts);
  }

  /** The sum over the durable table, taken in any order. */
  method TotalDurableBytes(durable: DurableTable) returns (bytes: nat)
    ensures bytes == DurableBytes(durable)
  {
    bytes := 0;
    var left := durable.Keys;
    while left != {}
      invariant left <= durable.Keys
      invariant bytes + SumOver(left, DurableSize(durable)) == DurableBytes(durable)
      decreases |left|
    {
      var k :| k in left;
      SumOverPick(left, DurableSize(durable), k);
      bytes := bytes + durable[k].payloadBytes;
      left := left - {k};
    }
  }

  /** A row of the worker has this ordinal. */
  ghost predicate HasOrdinal(accepted: AcceptedTable, worker: Text, ordinal: int) {
    exists k :: k in accepted && accepted[k].worker == worker && accepted[k].ordinal == ordinal
  }

  /** None of the worker's ordinals is negative and none below another is missing. */
  ghost predicate NoneMissing(accepted: AcceptedTable, worker: Text) {
    && (forall k :: k in accepted && accepted[k].worker == worker ==> 0 <= accepted[k].ordinal)
    && (forall k, i :: k in accepted && accepted[k].worker == worker && 0 <= i < accepted[k].ordinal ==>
          HasOrdinal(accepted, worker, i))
  }

  /** A worker's ordinals are 0, ..., n - 1 exactly when none is missing. */
  lemma ContiguousMeans(accepted: AcceptedTable, worker: Text)
    requires UniqueAccepted(accepted)
    ensures Contiguous(accepted, worker) <==> NoneMissing(accepted, worker)
  {
    var keys := OfWorker(accepted, worker);
    var ordinals := Ordinals(accepted, keys);
    OrdinalsAreDistinct(accepted, worker, keys);
    hide UniqueAccepted;
    forall i ensures i in ordinals <==> HasOrdinal(accepted, worker, i) {
      if HasOrdinal(accepted, worker, i) {
        var k :| k in accepted && accepted[k].worker == worker && accepted[k].ordinal == i;
        assert k in keys;
      }
    }
    forall k | k in accepted && accepted[k].worker == worker ensures accepted[k].ordinal in ordinals {
      assert k in keys;
    }
    if NoneMissing(accepted, worker) { ClosedBelowIsUpTo(ordinals); }
  }

  lemma ClosedBelowIsUpTo(s: set<int>)
    requires forall x :: x in s ==> 0 <= x
    requires forall x, i :: x in s && 0 <= i < x ==> i in s
    ensures s == UpTo(|s|)
  {
    forall x | x in s ensures x < |s| {
      assert UpTo(x + 1) <= s;
      SubsetSize(UpTo(x + 1), s);
    }
    assert s <= UpTo(|s|);
    SubsetOfSameSize(s, UpTo(|s|));
  }

  lemma SubsetSize(a: set<int>, b: set<int>)
    requires a <= b
    ensures |a| <= |b|
  {
    assert b == a + (b - a);
  }

  lemma ExactJoinMeans(accepted: AcceptedTable, durable: DurableTable)
    ensures ExactJoin(accepted, durable) <==>
              && (forall k :: k in accepted <==> k in durable)
              && (forall k :: k in accepted && k in durable ==>
                    && accepted[k].worker == durable[k].worker && accepted[k].eventId == durable[k].eventId
                    && accepted[k].payloadHash == durable[k].payloadHash && accepted[k].payloadBytes == durable[k].payloadBytes)
  {
    assert accepted.Keys == durable.Keys <==> forall k :: k in accepted <==> k in durable;
    if ExactJoin(accepted, durable) {
      forall k | k in accepted && k in durable ensures RowsAgree(accepted[k], durable[k]) {
      }
    }
  }

  /** Rows of one worker carry one configuration. */
  ghost predicate SameConfig(accepted: AcceptedTable, a: Key, b: Key) {
    a in accepted && b in accepted && accepted[a].worker == accepted[b].worker ==>
      accepted[a].configHash == accepted[b].configHash && accepted[a].configGeneration == accepted[b].configGeneration
  }

  lemma WorkersPassMeans(accepted: AcceptedTable)
    requires UniqueAccepted(accepted)
    ensures (forall worker :: worker in Workers(accepted) ==> WorkerPasses(accepted, worker)) <==>
              (forall a, b :: SameConfig(accepted, a, b)) && forall worker :: NoneMissing(accepted, worker)
  {
    hide UniqueAccepted, Contiguous, NoneMissing;
    forall worker ensures Contiguous(accepted, worker) <==> NoneMissing(accepted, worker) {
      ContiguousMeans(accepted, worker);
    }
    forall worker | worker !in Workers(accepted) ensures WorkerPasses(accepted, worker) {
      NoRowsPass(accepted, worker);
    }
    if forall worker :: WorkerPasses(accepted, worker) {
      forall a, b ensures SameConfig(accepted, a, b) {
        if a in accepted { assert WorkerPasses(accepted, accepted[a].worker); }
      }
      forall worker ensures NoneMissing(accepted, worker) { assert WorkerPasses(accepted, worker); }
    }
    if (forall a, b :: SameConfig(accepted, a, b)) && forall worker :: NoneMissing(accepted, worker) {
      forall worker ensures WorkerPasses(accepted, worker) {
        assert NoneMissing(accepted, worker);
        forall a, b | a in OfWorker(accepted, worker) && b in OfWorker(accepted, worker)
          ensures accepted[a].configHash == accepted[b].configHash && accepted[a].configGeneration == accepted[b].configGeneration
        {
          assert SameConfig(accepted, a, b);
        }
      }
    }
  }

  lemma NoRowsPass(accepted: AcceptedTable, worker: Text)
    requires worker !in Workers(accepted)
    ensures WorkerPasses(accepted, worker)
  {
    assert OfWorker(accepted, worker) == {};
    assert UpTo(0) == {};
  }

  /** What finalisation accepts, by the rows' own fields. */
  lemma JoinedMeans(accepted: AcceptedTable, durable: DurableTable)
    requires UniqueAccepted(accepted)
    ensures Joined(accepted, durable) <==>
              && (forall k :: k in accepted <==> k in durable)
              && (forall k :: k in accepted && k in durable ==>
                    && accepted[k].worker == durable[k].worker && accepted[k].eventId == durable[k].eventId
                    && accepted[k].payloadHash == durable[k].payloadHash && accepted[k].payloadBytes == durable[k].payloadBytes)
              && (forall a, b :: SameConfig(accepted, a, b)) && forall worker :: NoneMissing(accepted, worker)
  {
    hide ExactJoin, WorkerPasses, UniqueAccepted, NoneMissing, SameConfig, Workers;
    ExactJoinMeans(accepted, durable);
    WorkersPassMeans(accepted);
  }

  class JoinDatabase {
    var accepted: AcceptedTable
    var durable: DurableTable

    ghost predicate Valid()
      reads this
    {
      UniqueAccepted(accepted) && UniqueDurable(durable)
    }

    constructor ()
      ensures Valid() && accepted == map[] && durable == map[]
    {
      accepted := map[];
      durable := map[];
    }

    /** Inserts an accepted row. It refuses, and changes nothing, when the identity is missing or
        when the route position, the event or the worker's ordinal is already taken. */
    method AddAccepted(trace: AcceptedTrace) returns (ok: bool)
      requires Valid()
      modifies this`accepted
      ensures Valid()
      ensures ok <==>
        && trace.identity.Some?
        && Key(trace.route, trace.identity.value.writerSequence) !in old(accepted)
        && forall k :: k in old(accepted) ==>
             && old(accepted)[k].eventId != trace.eventId
             && (old(accepted)[k].worker, old(accepted)[k].ordinal) != (trace.identity.value.worker, trace.identity.value.ordinal)
      ensures !ok ==> accepted == old(accepted)
      ensures ok ==>
        var i := trace.identity.value;
        accepted == old(accepted)[Key(trace.route, i.writerSequence) :=
          Accepted(i.worker, i.ordinal, i.configHash, i.configGeneration, trace.eventId, trace.payloadHash, trace.payloadBytes)]
    {
      if trace.identity.None? {
        return false;
      }
      var row := RowOf(trace);
      ok := AcceptedFits(accepted, trace);
      if ok {
        accepted := accepted[KeyOf(trace) := row];
      }
    }

    /** Inserts a durable row under the same rules, without ordinals. */
    method AddDurable(key: Key, row: Durable) returns (ok: bool)
      requires Valid()
      modifies this`durable
      ensures Valid()
      ensures ok <==> key !in old(durable) && forall k :: k in old(durable) ==> old(durable)[k].eventId != row.eventId
      ensures durable == if ok then old(durable)[key := row] else old(durable)
    {
      ok := key !in durable && forall k :: k in durable ==> durable[k].eventId != row.eventId;
      if ok {
        durable := durable[key := row];
      }
    }

    /** Checks the join and returns its facts. It succeeds exactly when the tables pair up, every
        worker has one configuration, and every worker's ordinals are 0, ..., n - 1. One row with a
        different worker, event, payload digest or size on the other side is enough to fail. */
    method Finalize() returns (r: Option<JoinFacts>)
      requires Valid()
      ensures r.Some? <==> Joined(accepted, durable)
      ensures r.Some? <==>
        && (forall k :: k in accepted <==> k in durable)
        && (forall k :: k in accepted && k in durable ==>
              && accepted[k].worker == durable[k].worker && accepted[k].eventId == durable[k].eventId
              && accepted[k].payloadHash == durable[k].payloadHash && accepted[k].payloadBytes == durable[k].payloadBytes)
        && (forall a, b :: SameConfig(accepted, a, b)) && forall worker :: NoneMissing(accepted, worker)
      ensures r.Some? ==>
        && r.value.uniqueAccepted == r.value.durableRecords == |accepted|
        && r.value.durableBytes == DurableBytes(durable) == AcceptedBytes(accepted)
        && r.value.touchedIdentities == |set k | k in durable :: k.route|
        && r.value.hours == (set k | k in durable :: durable[k].utcHour)
        && r.value.workers.Keys == Workers(accepted)
        && forall worker :: worker in Workers(accepted) ==> FactsOf(accepted, durable, worker, r.value.workers[worker])
    {
      JoinedMeans(accepted, durable);
      NoDisagreementIsExactJoin(accepted, durable);
      if Disagreements(accepted, durable) != 0 {
        return None;
      }
      ExactJoinConserves(accepted, durable);
      var workers := GroupByWorker(accepted, durable);
      if workers.None? {
        return None;
      }
      var bytes := TotalDurableBytes(durable);
      r := Some(JoinFacts(|accepted|, |durable|, bytes, |set k | k in durable :: k.route|,
                          set k | k in durable :: durable[k].utcHour, workers.value));
    }
  }

  function KeyOf(trace: AcceptedTrace): Key
    requires trace.identity.Some?
  {
    Key(trace.route, trace.identity.value.writerSequence)
  }

  function RowOf(trace: AcceptedTrace): Accepted
    requires trace.identity.Some?
  {
    var i := trace.identity.value;
    Accepted(i.worker, i.ordinal, i.configHash, i.configGeneration, trace.eventId, trace.payloadHash, trace.payloadBytes)
  }

  /** None of the three unique keys of the row is taken. */
  predicate AcceptedFits(accepted: AcceptedTable, trace: AcceptedTrace)
    requires trace.identity.Some?
  {
    && KeyOf(trace) !in accepted
    && forall k :: k in accepted ==>
         && accepted[k].eventId != trace.eventId
         && !(accepted[k].worker == trace.identity.value.worker && accepted[k].ordinal == trace.identity.value.ordinal)
  }

  // ----- The whole worker partition ---------------------------------------------------------------

  function OfWorkers(accepted: AcceptedTable, workers: set<Text>): set<Key> {
    set k | k in accepted && accepted[k].worker in workers
  }

  lemma OneMoreWorker(accepted: AcceptedTable, workers: set<Text>, worker: Text)
    requires worker in workers
    ensures |OfWorkers(accepted, workers)| == |OfWorkers(accepted, workers - {worker})| + |OfWorker(accepted, worker)|
  {
    var rest, own := OfWorkers(accepted, workers - {worker}), OfWorker(accepted, worker);
    assert OfWorkers(accepted, workers) == rest + own;
    assert rest !! own;
  }

  /** The row counts of the workers add up to the table: no accepted row belongs to no worker or to two. */
  lemma {:induction false} WorkerCountsCover(accepted: AcceptedTable, workers: set<Text>)
    ensures SumOver(workers, CountOf(accepted)) == |OfWorkers(accepted, workers)|
    decreases |workers|
  {
    if workers == {} {
      assert OfWorkers(accepted, workers) == {};
    } else {
      var worker :| worker in workers;
      SumOverPick(workers, CountOf(accepted), worker);
      WorkerCountsCover(accepted, workers - {worker});
      OneMoreWorker(accepted, workers, worker);
      assert CountOf(accepted)(worker) == |OfWorker(accepted, worker)|;
    }
  }

  ghost function CountOf(accepted: AcceptedTable): Text -> nat {
    worker => |OfWorker(accepted, worker)|
  }

  /** After a successful join every worker has rows with the ordinals 0, ..., n - 1, the n of all
      workers sum to the number of durable rows, and the two tables hold the same bytes. */
  lemma JoinedRunIsWhole(accepted: AcceptedTable, durable: DurableTable)
    requires Joined(accepted, durable)
    ensures SumOver(Workers(accepted), CountOf(accepted)) == |durable|
    ensures AcceptedBytes(accepted) == DurableBytes(durable)
    ensures forall worker, i :: worker in Workers(accepted) && 0 <= i < |OfWorker(accepted, worker)| ==>
              HasDurable(accepted, durable, worker, i)
  {
    ExactJoinConserves(accepted, durable);
    WorkerCountsCover(accepted, Workers(accepted));
    assert accepted.Keys == OfWorkers(accepted, Workers(accepted));
    forall worker, i | worker in Workers(accepted) && 0 <= i < |OfWorker(accepted, worker)|
      ensures HasDurable(accepted, durable, worker, i)
    {
      EveryOrdinalIsDurable(accepted, durable, worker, i);
    }
  }

  /** The worker's row with this ordinal is durable. */
  ghost predicate HasDurable(accepted: AcceptedTable, durable: DurableTable, worker: Text, ordinal: int) {
    exists k :: k in durable && k in accepted && durable[k].worker == worker && accepted[k].ordinal == ordinal
  }

  lemma EveryOrdinalIsDurable(accepted: AcceptedTable, durable: DurableTable, worker: Text, i: nat)
    requires ExactJoin(accepted, durable) && Contiguous(accepted, worker) && i < |OfWorker(accepted, worker)|
    ensures HasDurable(accepted, durable, worker, i)
  {
    assert i in UpTo(|OfWorker(accepted, worker)|);
    assert i in Ordinals(accepted, OfWorker(accepted, worker));
    var k :| k in OfWorker(accepted, worker) && accepted[k].ordinal == i;
    assert k in durable.Keys && RowsAgree(accepted[k], durable[k]);
  }

  // ----- The verifier's own check -------------------------------------------------------------------

  /** The verifier counts both tables and both outer joins. */
  function CompleteDurableSet(accepted: set<Key>, durable: set<Key>, expected: nat): bool {
    |accepted| == expected && |durable| == expected && |accepted - durable| == 0 && |durable - accepted| == 0
  }

  /** The four counts hold exactly when the two key sets are one set of the expected size; after the
      first three the fourth cannot fail. */
  lemma CompleteDurableSetExactly(accepted: set<Key>, durable: set<Key>, expected: nat)
    ensures CompleteDurableSet(accepted, durable, expected) <==> accepted == durable && |accepted| == expected
    ensures |accepted| == |durable| && |accepted - durable| == 0 ==> |durable - accepted| == 0
  {
    if |accepted - durable| == 0 {
      assert forall k :: k in accepted ==> k in accepted - durable || k in durable;
      if |accepted| == |durable| {
        SubsetOfSameSize(accepted, durable);
      }
    }
    if accepted == durable {
      assert accepted - durable == {} && durable - accepted == {};
    }
  }
}
