/** Which selected instruments an exchange's WebSocket connections can carry: the admission of
    one market and the sharing of connections between markets. Instrument keys are compared by
    their position in text order. */
module Capacity {
  import opened Arithmetic
  import opened Workload

  datatype Priority = Fixed | NewListing | TopN

  datatype Candidate = Candidate(key: nat, priority: Priority, firstSeenNs: nat, topNRank: nat)

  /** A lexicographic sort key. */
  datatype Rank = Rank(level: int, weight: int, key: nat)

  predicate RankLess(a: Rank, b: Rank) {
    || a.level < b.level
    || (a.level == b.level && a.weight < b.weight)
    || (a.level == b.level && a.weight == b.weight && a.key < b.key)
  }

  function AdmissionOrder(c: Candidate): Rank {
    match c.priority
    case Fixed => Rank(0, 0, c.key)
    case NewListing => Rank(1, c.firstSeenNs, c.key)
    case TopN => Rank(2, c.topNRank, c.key)
  }

  function EvictionOrder(c: Candidate): Rank {
    match c.priority
    case TopN => Rank(0, 0 - c.topNRank, c.key)
    case NewListing => Rank(1, 0 - c.firstSeenNs, c.key)
    case Fixed => Rank(2, 0, c.key)
  }

  datatype SortKey = ByAdmission | ByEviction

  function RankOf(order: SortKey, c: Candidate): Rank {
    match order
    case ByAdmission => AdmissionOrder(c)
    case ByEviction => EvictionOrder(c)
  }

  function Insert(order: SortKey, c: Candidate, sorted: seq<Candidate>): seq<Candidate> {
    if sorted == [] || !RankLess(RankOf(order, sorted[0]), RankOf(order, c)) then [c] + sorted
    else [sorted[0]] + Insert(order, c, sorted[1..])
  }

  function SortBy(order: SortKey, candidates: seq<Candidate>): seq<Candidate> {
    if candidates == [] then [] else Insert(order, candidates[0], SortBy(order, candidates[1..]))
  }

  ghost predicate Ascending(order: SortKey, s: seq<Candidate>) {
    forall i, j :: 0 <= i < j < |s| ==> !RankLess(RankOf(order, s[j]), RankOf(order, s[i]))
  }

  lemma FirstInOrder(order: SortKey, first: Candidate, rest: seq<Candidate>)
    requires Ascending(order, rest)
    requires forall x :: x in rest ==> !RankLess(RankOf(order, x), RankOf(order, first))
    ensures Ascending(order, [first] + rest)
  {
    hide RankLess, RankOf;
  }

  lemma NoneComesBefore(order: SortKey, c: Candidate, sorted: seq<Candidate>, x: Candidate)
    requires Ascending(order, sorted) && sorted != [] && x in sorted
    requires !RankLess(RankOf(order, sorted[0]), RankOf(order, c))
    ensures !RankLess(RankOf(order, x), RankOf(order, c))
  {
    hide RankOf;
    var k :| 0 <= k < |sorted| && sorted[k] == x;
    if 0 < k { assert !RankLess(RankOf(order, sorted[k]), RankOf(order, sorted[0])); }
  }

  lemma NotBoth(a: Rank, b: Rank)
    ensures !(RankLess(a, b) && RankLess(b, a))
  {
  }

  lemma {:induction false} InsertKeepsOrder(order: SortKey, c: Candidate, sorted: seq<Candidate>)
    requires Ascending(order, sorted)
    ensures Ascending(order, Insert(order, c, sorted))
    ensures multiset(Insert(order, c, sorted)) == multiset{c} + multiset(sorted)
  {
    hide RankLess, RankOf;
    if sorted == [] || !RankLess(RankOf(order, sorted[0]), RankOf(order, c)) {
      forall x | x in sorted ensures !RankLess(RankOf(order, x), RankOf(order, c)) { NoneComesBefore(order, c, sorted, x); }
      FirstInOrder(order, c, sorted);
    } else {
      var first, tail := sorted[0], sorted[1..];
      assert sorted == [first] + tail;
      InsertKeepsOrder(order, c, tail);
      var rest := Insert(order, c, tail);
      NotBoth(RankOf(order, first), RankOf(order, c));
      forall x | x in rest ensures !RankLess(RankOf(order, x), RankOf(order, first)) {
        assert x in multiset(rest);
        if x != c {
          var k :| 0 <= k < |tail| && tail[k] == x;
          assert sorted[k + 1] == x;
        }
      }
      FirstInOrder(order, first, rest);
    }
  }

  lemma {:induction false} SortByIsSorted(order: SortKey, candidates: seq<Candidate>)
    ensures Ascending(order, SortBy(order, candidates))
    ensures multiset(SortBy(order, candidates)) == multiset(candidates)
  {
    if candidates != [] {
      SortByIsSorted(order, candidates[1..]);
      InsertKeepsOrder(order, candidates[0], SortBy(order, candidates[1..]));
      assert candidates == [candidates[0]] + candidates[1..];
    }
  }

  lemma SortLength(order: SortKey, candidates: seq<Candidate>)
    ensures |SortBy(order, candidates)| == |candidates|
  {
    SortByIsSorted(order, candidates);
    assert |multiset(SortBy(order, candidates))| == |multiset(candidates)|;
  }

  function Keys(candidates: seq<Candidate>): set<nat> {
    set c | c in candidates :: c.key
  }

  ghost predicate DistinctKeys(candidates: seq<Candidate>) {
    forall i, j :: 0 <= i < j < |candidates| ==> candidates[i].key != candidates[j].key
  }

  function FixedCount(candidates: seq<Candidate>): nat {
    if candidates == [] then 0
    else (if candidates[0].priority == Fixed then 1 else 0) + FixedCount(candidates[1..])
  }

  /** The removable candidates, in the order given. */
  function NotFixed(candidates: seq<Candidate>): seq<Candidate> {
    if candidates == [] then []
    else (if candidates[0].priority == Fixed then [] else [candidates[0]]) + NotFixed(candidates[1..])
  }

  lemma {:induction false} NotFixedFacts(candidates: seq<Candidate>)
    ensures |NotFixed(candidates)| == |candidates| - FixedCount(candidates)
    ensures forall c :: c in NotFixed(candidates) <==> c in candidates && c.priority != Fixed
    ensures multiset(NotFixed(candidates)) <= multiset(candidates)
  {
    if candidates != [] {
      NotFixedFacts(candidates[1..]);
      assert candidates == [candidates[0]] + candidates[1..];
    }
  }

  function Without(candidates: seq<Candidate>, rejected: set<nat>): seq<Candidate> {
    if candidates == [] then []
    else (if candidates[0].key in rejected then [] else [candidates[0]]) + Without(candidates[1..], rejected)
  }

  lemma {:induction false} WithoutMembers(candidates: seq<Candidate>, rejected: set<nat>)
    ensures forall c :: c in Without(candidates, rejected) <==> c in candidates && c.key !in rejected
    ensures multiset(Without(candidates, rejected)) <= multiset(candidates)
  {
    if candidates != [] {
      WithoutMembers(candidates[1..], rejected);
      assert candidates == [candidates[0]] + candidates[1..];
    }
  }

  // ----- One market -----------------------------------------------------------------------

  datatype Admission = Admission(admitted: seq<Candidate>, rejected: seq<Candidate>)

  datatype Outcome<+T> = Success(value: T) | Shortfall

  /** The candidates that do not fit: the first removable ones in eviction order. */
  function Evicted(candidates: seq<Candidate>, slots: nat): seq<Candidate> {
    var removable := SortBy(ByEviction, NotFixed(candidates));
    if |candidates| <= slots then [] else removable[..Min(|candidates| - slots, |removable|)]
  }

  /** When there are too few slots but enough for the fixed candidates, the removable ones suffice. */
  lemma EvictedWhenFull(candidates: seq<Candidate>, slots: nat)
    requires FixedCount(candidates) <= slots < |candidates|
    ensures |candidates| - slots <= |SortBy(ByEviction, NotFixed(candidates))|
    ensures Evicted(candidates, slots) == SortBy(ByEviction, NotFixed(candidates))[..|candidates| - slots]
  {
    hide NotFixed, FixedCount;
    NotFixedFacts(candidates);
    SortLength(ByEviction, NotFixed(candidates));
  }

  lemma FullAdmission(candidates: seq<Candidate>, slots: nat)
    requires DistinctKeys(candidates) && FixedCount(candidates) <= slots < |candidates|
    ensures AdmissionOf(candidates, slots,
                        Admission(Without(SortBy(ByAdmission, candidates), Keys(Evicted(candidates, slots))), Evicted(candidates, slots)))
  {
    hide SortBy, NotFixed, FixedCount, Ascending, DistinctKeys, Without, AdmissionOf, Evicted;
    SortByIsSorted(ByAdmission, candidates);
    SortByIsSorted(ByEviction, NotFixed(candidates));
    EvictedWhenFull(candidates, slots);
    EvictionSplits(candidates, SortBy(ByAdmission, candidates), SortBy(ByEviction, NotFixed(candidates)), |candidates| - slots);
  }

  /** Admits as many candidates as there are slots, never refusing a fixed one. */
  method Admit(candidates: seq<Candidate>, slots: nat) returns (r: Outcome<Admission>)
    requires DistinctKeys(candidates)
    ensures r.Shortfall? <==> FixedCount(candidates) > slots
    ensures r.Success? ==> AdmissionOf(candidates, slots, r.value) && r.value.rejected == Evicted(candidates, slots)
  {
    hide SortBy, NotFixed, FixedCount, DistinctKeys, Without, AdmissionOf, Evicted, Ascending, Keys;
    if FixedCount(candidates) > slots {
      return Shortfall;
    }
    var required := |candidates|;
    var ordered := SortBy(ByAdmission, candidates);
    if required <= slots {
      SortByIsSorted(ByAdmission, candidates);
      EverythingFits(candidates, ordered, slots);
      return Success(Admission(ordered, []));
    }
    var removable := SortBy(ByEviction, NotFixed(candidates));
    EvictedWhenFull(candidates, slots);
    FullAdmission(candidates, slots);
    var rejected := removable[..required - slots];
    r := Success(Admission(Without(ordered, Keys(rejected)), rejected));
  }

  /** What an admission promises: the candidates are split in two, each part in its own order, fixed ones
      are all admitted, nothing is refused while slots remain, and every refused candidate goes before
      every admitted removable one in eviction order. */
  ghost predicate AdmissionOf(candidates: seq<Candidate>, slots: nat, a: Admission) {
    && multiset(a.admitted) + multiset(a.rejected) == multiset(candidates)
    && Ascending(ByAdmission, a.admitted) && Ascending(ByEviction, a.rejected)
    && (forall c, d :: c in a.admitted && d in a.rejected ==> c.key != d.key)
    && (forall c :: c in a.rejected ==> c.priority != Fixed)
    && |a.rejected| == Max(0, |candidates| - slots)
    && |a.admitted| <= slots
    && (forall c, d :: c in a.rejected && d in a.admitted && d.priority != Fixed ==>
          RankLess(EvictionOrder(c), EvictionOrder(d)))
  }

  lemma AdmissionCovers(candidates: seq<Candidate>, slots: nat, a: Admission)
    requires AdmissionOf(candidates, slots, a)
    ensures forall c :: c in candidates <==> c in a.admitted || c in a.rejected
  {
    forall c ensures c in candidates <==> c in a.admitted || c in a.rejected {
      assert c in candidates <==> c in multiset(candidates);
      assert c in a.admitted <==> c in multiset(a.admitted);
      assert c in a.rejected <==> c in multiset(a.rejected);
    }
  }

  lemma EverythingFits(candidates: seq<Candidate>, ordered: seq<Candidate>, slots: nat)
    requires multiset(ordered) == multiset(candidates) && Ascending(ByAdmission, ordered) && |candidates| <= slots
    ensures AdmissionOf(candidates, slots, Admission(ordered, [])) && Evicted(candidates, slots) == []
  {
    assert |multiset(ordered)| == |multiset(candidates)|;
  }

  lemma SameMembers(a: seq<Candidate>, b: seq<Candidate>)
    requires multiset(a) == multiset(b)
    ensures forall c :: c in a <==> c in b
  {
    forall c ensures c in a <==> c in b {
      assert c in a <==> c in multiset(a);
      assert c in b <==> c in multiset(b);
    }
  }

  lemma RejectedAreFirst(removable: seq<Candidate>, count: nat, c: Candidate, d: Candidate)
    requires count <= |removable| && Ascending(ByEviction, removable)
    requires c in removable[..count] && d in removable && d.key !in Keys(removable[..count])
    ensures RankLess(EvictionOrder(c), EvictionOrder(d))
  {
    var i :| 0 <= i < count && removable[i] == c;
    var j :| 0 <= j < |removable| && removable[j] == d;
    assert forall k :: 0 <= k < count ==> removable[k] in removable[..count];
    assert !RankLess(RankOf(ByEviction, removable[j]), RankOf(ByEviction, removable[i]));
    assert EvictionOrder(c).key == c.key && EvictionOrder(d).key == d.key;
  }

  lemma {:induction false} DistinctOnce(candidates: seq<Candidate>, c: Candidate)
    requires DistinctKeys(candidates)
    ensures multiset(candidates)[c] <= 1
    ensures forall d :: c in candidates && d in candidates && c.key == d.key ==> c == d
  {
    if candidates != [] {
      DistinctOnce(candidates[1..], c);
      assert candidates == [candidates[0]] + candidates[1..];
      assert forall k :: 0 <= k < |candidates[1..]| ==> candidates[1..][k] == candidates[k + 1];
    }
  }

  lemma {:induction false} WithoutCount(candidates: seq<Candidate>, rejected: set<nat>, c: Candidate)
    ensures multiset(Without(candidates, rejected))[c] == if c.key in rejected then 0 else multiset(candidates)[c]
  {
    if candidates != [] {
      WithoutCount(candidates[1..], rejected, c);
      assert candidates == [candidates[0]] + candidates[1..];
    }
  }

  /** Every candidate is kept or rejected, once. */
  lemma SplitCovers(candidates: seq<Candidate>, ordered: seq<Candidate>, rejected: seq<Candidate>, c: Candidate)
    requires DistinctKeys(candidates) && multiset(ordered) == multiset(candidates) && multiset(rejected) <= multiset(candidates)
    ensures multiset(Without(ordered, Keys(rejected)))[c] + multiset(rejected)[c] == multiset(candidates)[c]
  {
    WithoutCount(ordered, Keys(rejected), c);
    DistinctOnce(candidates, c);
    assert c in rejected <==> c in multiset(rejected);
    assert c in candidates <==> c in multiset(candidates);
    if c.key in Keys(rejected) && c !in rejected {
      var d :| d in rejected && d.key == c.key;
      assert d in multiset(rejected);
      assert d in candidates by { assert d in multiset(candidates); }
      assert c !in candidates;
    }
  }

  /** Keeping and rejecting disjoint parts uses no candidate twice. */
  lemma SplitSize(ordered: seq<Candidate>, kept: seq<Candidate>, rejected: seq<Candidate>)
    requires multiset(kept) <= multiset(ordered) && multiset(rejected) <= multiset(ordered)
    requires forall c :: c in kept ==> c !in rejected
    ensures |kept| + |rejected| <= |ordered|
  {
    var both := multiset(kept) + multiset(rejected);
    forall c ensures both[c] <= multiset(ordered)[c] {
      assert c in kept <==> c in multiset(kept);
      assert c in rejected <==> c in multiset(rejected);
    }
    SubmultisetSize(both, multiset(ordered));
    assert |both| == |kept| + |rejected|;
  }

  lemma SubmultisetSize(part: multiset<Candidate>, whole: multiset<Candidate>)
    requires part <= whole
    ensures |part| <= |whole|
  {
    assert whole == part + (whole - part);
  }

  lemma SplitsAll(candidates: seq<Candidate>, ordered: seq<Candidate>, rejected: seq<Candidate>)
    requires DistinctKeys(candidates) && multiset(ordered) == multiset(candidates) && multiset(rejected) <= multiset(candidates)
    ensures multiset(Without(ordered, Keys(rejected))) + multiset(rejected) == multiset(candidates)
  {
    hide Without, Keys, DistinctKeys;
    forall c ensures (multiset(Without(ordered, Keys(rejected))) + multiset(rejected))[c] == multiset(candidates)[c] {
      SplitCovers(candidates, ordered, rejected, c);
    }
  }

  lemma {:induction false} WithoutAscends(order: SortKey, s: seq<Candidate>, rejected: set<nat>)
    requires Ascending(order, s)
    ensures Ascending(order, Without(s, rejected))
  {
    if s != [] {
      WithoutAscends(order, s[1..], rejected);
      WithoutMembers(s[1..], rejected);
      var rest := Without(s[1..], rejected);
      forall k | 0 <= k < |rest| ensures !RankLess(RankOf(order, rest[k]), RankOf(order, s[0])) {
        assert rest[k] in s[1..];
      }
    }
  }

  lemma PrefixAscends(order: SortKey, s: seq<Candidate>, count: nat)
    requires Ascending(order, s) && count <= |s|
    ensures Ascending(order, s[..count])
  {
  }

  lemma {:induction false} EvictionSplits(candidates: seq<Candidate>, ordered: seq<Candidate>, removable: seq<Candidate>, count: nat)
    requires DistinctKeys(candidates) && 0 < count <= |removable|
    requires multiset(ordered) == multiset(candidates)
    requires Ascending(ByAdmission, ordered) && Ascending(ByEviction, removable)
    requires multiset(removable) == multiset(NotFixed(candidates))
    requires count <= |candidates|
    ensures AdmissionOf(candidates, |candidates| - count,
                        Admission(Without(ordered, Keys(removable[..count])), removable[..count]))
  {
    hide Without, NotFixed, Ascending, RankLess, DistinctKeys;
    var rejected := removable[..count];
    var admitted := Without(ordered, Keys(rejected));
    WithoutMembers(ordered, Keys(rejected));
    WithoutAscends(ByAdmission, ordered, Keys(rejected));
    assert Ascending(ByEviction, rejected) by { PrefixAscends(ByEviction, removable, count); }
    NotFixedFacts(candidates);
    SameMembers(ordered, candidates);
    SameMembers(removable, NotFixed(candidates));
    assert removable == removable[..count] + removable[count..];
    SplitsAll(candidates, ordered, rejected);
    forall c | c in rejected ensures c.key in Keys(rejected) {
    }
    SplitSize(ordered, admitted, rejected);
    assert |multiset(ordered)| == |multiset(candidates)|;
    hide EvictionOrder, FixedCount, Keys;
    forall c, d | c in rejected && d in admitted && d.priority != Fixed
      ensures RankLess(EvictionOrder(c), EvictionOrder(d))
    {
      RejectedAreFirst(removable, count, c, d);
    }
  }

  // ----- The two orders, by the candidates' own fields ----------------------------------------

  lemma EvictionOrderMeans(c: Candidate, d: Candidate)
    ensures RankLess(EvictionOrder(c), EvictionOrder(d)) <==>
              || (c.priority == TopN && d.priority != TopN)
              || (c.priority == NewListing && d.priority == Fixed)
              || (c.priority == TopN == d.priority
                  && (c.topNRank > d.topNRank || (c.topNRank == d.topNRank && c.key < d.key)))
              || (c.priority == NewListing == d.priority
                  && (c.firstSeenNs > d.firstSeenNs || (c.firstSeenNs == d.firstSeenNs && c.key < d.key)))
              || (c.priority == Fixed == d.priority && c.key < d.key)
  {
  }

  lemma AdmissionOrderMeans(c: Candidate, d: Candidate)
    ensures RankLess(AdmissionOrder(c), AdmissionOrder(d)) <==>
              || (c.priority == Fixed && d.priority != Fixed)
              || (c.priority == NewListing && d.priority == TopN)
              || (c.priority == Fixed == d.priority && c.key < d.key)
              || (c.priority == NewListing == d.priority
                  && (c.firstSeenNs < d.firstSeenNs || (c.firstSeenNs == d.firstSeenNs && c.key < d.key)))
              || (c.priority == TopN == d.priority
                  && (c.topNRank < d.topNRank || (c.topNRank == d.topNRank && c.key < d.key)))
  {
  }

  /** Who is refused: a top-ranked instrument only after all those of worse rank, a new listing only after every
      top-ranked one and every later listing, and a fixed one never. Ties go to the smaller key. */
  lemma WorstAreRefused(candidates: seq<Candidate>, slots: nat, a: Admission, c: Candidate, d: Candidate)
    requires AdmissionOf(candidates, slots, a) && c in a.rejected && d in candidates
    ensures c.priority != Fixed
    ensures c.priority == NewListing && d.priority == TopN ==> d in a.rejected
    ensures c.priority == TopN == d.priority && c.topNRank < d.topNRank ==> d in a.rejected
    ensures c.priority == NewListing == d.priority && c.firstSeenNs < d.firstSeenNs ==> d in a.rejected
    ensures c.priority == TopN == d.priority && c.topNRank == d.topNRank && d.key < c.key ==> d in a.rejected
    ensures c.priority == NewListing == d.priority && c.firstSeenNs == d.firstSeenNs && d.key < c.key ==> d in a.rejected
  {
    AdmissionCovers(candidates, slots, a);
    EvictionOrderMeans(c, d);
  }

  /** Refused candidates come worst first, and admitted ones best first. */
  lemma AdmissionIsOrdered(candidates: seq<Candidate>, slots: nat, a: Admission, i: nat, j: nat)
    requires AdmissionOf(candidates, slots, a) && i < j
    ensures j < |a.rejected| ==>
              var c, d := a.rejected[i], a.rejected[j];
              && (c.priority == d.priority || (c.priority == TopN && d.priority == NewListing))
              && (c.priority == TopN == d.priority ==> c.topNRank >= d.topNRank)
              && (c.priority == NewListing == d.priority ==> c.firstSeenNs >= d.firstSeenNs)
    ensures j < |a.admitted| ==>
              var c, d := a.admitted[i], a.admitted[j];
              && (c.priority == d.priority || c.priority == Fixed || d.priority == TopN)
              && (c.priority == TopN == d.priority ==> c.topNRank <= d.topNRank)
              && (c.priority == NewListing == d.priority ==> c.firstSeenNs <= d.firstSeenNs)
  {
    hide EvictionOrder, AdmissionOrder, RankLess;
    if j < |a.rejected| {
      assert a.rejected[i] in a.rejected && a.rejected[j] in a.rejected;
      EvictionOrderMeans(a.rejected[j], a.rejected[i]);
    }
    if j < |a.admitted| { AdmissionOrderMeans(a.admitted[j], a.admitted[i]); }
  }

  // ----- The markets of one exchange --------------------------------------------------------

  /** What one market asks for. The markets come in canonical scope order. */
  datatype Demand = Demand(market: Market, candidates: seq<Candidate>, perConnection: nat, failKeys: set<nat>)

  ghost predicate ValidDemands(demands: seq<Demand>) {
    && (forall k :: 0 <= k < |demands| ==> 0 < demands[k].perConnection && DistinctKeys(demands[k].candidates))
    && (forall j, k :: 0 <= j < k < |demands| ==> demands[j].market != demands[k].market)
  }

  function Sum(s: seq<nat>): nat {
    if s == [] then 0 else s[0] + Sum(s[1..])
  }

  lemma {:induction false} SumUpdate(s: seq<nat>, k: nat, v: nat)
    requires k < |s|
    ensures Sum(s[k := v]) == Sum(s) - s[k] + v
  {
    if k == 0 {
      assert s[0 := v] == [v] + s[1..];
    } else {
      assert s[k := v] == [s[0]] + s[1..][k - 1 := v];
      SumUpdate(s[1..], k - 1, v);
    }
  }

  lemma {:induction false} SumPointwise(s: seq<nat>, t: seq<nat>)
    requires |s| == |t| && forall k :: 0 <= k < |s| ==> s[k] <= t[k]
    ensures Sum(s) <= Sum(t)
    ensures Sum(s) == Sum(t) ==> s == t
  {
    if s != [] {
      SumPointwise(s[1..], t[1..]);
      assert s == [s[0]] + s[1..] && t == [t[0]] + t[1..];
    }
  }

  lemma {:induction false} SumSnoc(s: seq<nat>, v: nat)
    ensures Sum(s + [v]) == Sum(s) + v
  {
    if s == [] {
      assert s + [v] == [v];
    } else {
      SumSnoc(s[1..], v);
      assert (s + [v])[1..] == s[1..] + [v];
    }
  }

  /** The connections a market needs to carry all its candidates. */
  function Needed(d: Demand): nat
    requires 0 < d.perConnection
  {
    CeilAtMost(|d.candidates|, d.perConnection, -1);
    CeilDiv(|d.candidates|, d.perConnection)
  }

  function NeededAll(demands: seq<Demand>): seq<nat>
    requires forall k :: 0 <= k < |demands| ==> 0 < demands[k].perConnection
  {
    if demands == [] then [] else [Needed(demands[0])] + NeededAll(demands[1..])
  }

  lemma {:induction false} NeededAt(demands: seq<Demand>)
    requires forall k :: 0 <= k < |demands| ==> 0 < demands[k].perConnection
    ensures |NeededAll(demands)| == |demands|
    ensures forall k :: 0 <= k < |demands| ==> NeededAll(demands)[k] == Needed(demands[k])
  {
    if demands != [] { NeededAt(demands[1..]); }
  }

  /** The next connection-sized group of candidates in admission order. */
  function ConnectionChunk(d: Demand, taken: nat): seq<Candidate>
    requires 0 < d.perConnection
  {
    var ordered := SortBy(ByAdmission, d.candidates);
    var start := taken * d.perConnection;
    if start >= |ordered| then []
    else ordered[start..Min(start + d.perConnection, |ordered|)]
  }

  lemma ChunkNonempty(d: Demand, taken: nat)
    requires 0 < d.perConnection
    ensures ConnectionChunk(d, taken) != [] <==> taken < Needed(d)
  {
    hide SortBy, CeilDiv;
    SortLength(ByAdmission, d.candidates);
    CeilAtMost(|d.candidates|, d.perConnection, taken);
  }

  /** The candidates that come before one in admission order. */
  ghost function Ahead(candidates: seq<Candidate>, c: Candidate): set<Candidate> {
    set x | x in candidates && RankLess(AdmissionOrder(x), AdmissionOrder(c))
  }

  /** A market's k-th group holds exactly the candidates whose place in admission order falls into it. */
  lemma ChunkHoldsPlaces(d: Demand, taken: nat, c: Candidate)
    requires 0 < d.perConnection && DistinctKeys(d.candidates) && c in d.candidates
    ensures c in ConnectionChunk(d, taken) <==>
              taken * d.perConnection <= |Ahead(d.candidates, c)| < (taken + 1) * d.perConnection
  {
    hide SortBy, Ahead, DistinctKeys;
    var ordered := SortBy(ByAdmission, d.candidates);
    SortByIsSorted(ByAdmission, d.candidates);
    SameMembers(ordered, d.candidates);
    var i :| 0 <= i < |ordered| && ordered[i] == c;
    SortKeepsKeys(ordered, d.candidates);
    PlaceIsCount(ordered, d.candidates, i);
    assert (taken + 1) * d.perConnection == taken * d.perConnection + d.perConnection;
    var start, end := taken * d.perConnection, Min((taken + 1) * d.perConnection, |ordered|);
    if start <= i < end { assert ordered[start..end][i - start] == c; }
    if c in ConnectionChunk(d, taken) {
      var j :| 0 <= j < |ConnectionChunk(d, taken)| && ConnectionChunk(d, taken)[j] == c;
      assert ordered[start + j] == ordered[i];
      SameKeySamePlace(ordered, i, start + j);
    }
  }

  lemma SameKeySamePlace(s: seq<Candidate>, i: nat, j: nat)
    requires DistinctKeys(s) && i < |s| && j < |s| && s[i].key == s[j].key
    ensures i == j
  {
  }

  lemma SortKeepsKeys(ordered: seq<Candidate>, candidates: seq<Candidate>)
    requires multiset(ordered) == multiset(candidates) && DistinctKeys(candidates)
    ensures DistinctKeys(ordered)
  {
    forall i, j | 0 <= i < j < |ordered| ensures ordered[i].key != ordered[j].key {
      SameMembers(ordered, candidates);
      assert ordered[i] in ordered && ordered[j] in ordered;
      DistinctOnce(candidates, ordered[i]);
      CountedTwice(ordered, i, j);
    }
  }

  lemma CountedTwice(s: seq<Candidate>, i: nat, j: nat)
    requires i < j < |s|
    ensures s[i] == s[j] ==> 2 <= multiset(s)[s[i]]
  {
    assert s == s[..j] + s[j..];
    assert s[i] in s[..j] by { assert s[..j][i] == s[i]; }
    assert s[j] in s[j..] by { assert s[j..][0] == s[j]; }
    assert s[i] in multiset(s[..j]) && s[j] in multiset(s[j..]);
  }

  lemma PlaceIsCount(ordered: seq<Candidate>, candidates: seq<Candidate>, i: nat)
    requires Ascending(ByAdmission, ordered) && DistinctKeys(ordered) && i < |ordered|
    requires forall x :: x in ordered <==> x in candidates
    ensures |Ahead(candidates, ordered[i])| == i
  {
    var before := set k | 0 <= k < i :: ordered[k];
    forall x ensures x in before <==> x in Ahead(candidates, ordered[i]) {
      if x in candidates {
        var k :| 0 <= k < |ordered| && ordered[k] == x;
        if k < i { AscendsStrictly(ordered, k, i); }
        else if k > i { AscendsStrictly(ordered, i, k); }
      }
    }
    assert before == Ahead(candidates, ordered[i]);
    PrefixSize(ordered, i);
  }

  lemma AscendsStrictly(ordered: seq<Candidate>, i: nat, j: nat)
    requires Ascending(ByAdmission, ordered) && DistinctKeys(ordered) && i < j < |ordered|
    ensures RankLess(AdmissionOrder(ordered[i]), AdmissionOrder(ordered[j]))
    ensures !RankLess(AdmissionOrder(ordered[j]), AdmissionOrder(ordered[i]))
  {
    assert !RankLess(RankOf(ByAdmission, ordered[j]), RankOf(ByAdmission, ordered[i]));
    assert ordered[i].key != ordered[j].key;
  }

  lemma {:induction false} PrefixSize(ordered: seq<Candidate>, n: nat)
    requires DistinctKeys(ordered) && n <= |ordered|
    ensures |(set k | 0 <= k < n :: ordered[k])| == n
  {
    var all := set k | 0 <= k < n :: ordered[k];
    if n == 0 {
      assert all == {};
    } else {
      PrefixSize(ordered, n - 1);
      var rest := set k | 0 <= k < n - 1 :: ordered[k];
      assert ordered[n - 1] !in rest;
      assert all == rest + {ordered[n - 1]};
    }
  }

  /** Compares two chunks position by position in admission order; a shorter chunk is padded
      with a rank above every candidate. */
  predicate ChunkLess(a: seq<Candidate>, b: seq<Candidate>) {
    if a == [] then false
    else if b == [] then true
    else RankLess(AdmissionOrder(a[0]), AdmissionOrder(b[0]))
         || (AdmissionOrder(a[0]) == AdmissionOrder(b[0]) && ChunkLess(a[1..], b[1..]))
  }

  /** One group comes before another exactly when, after equal ranks, it has a candidate that comes first or
      the other has no more candidates. */
  lemma {:induction false} ChunkLessMeans(a: seq<Candidate>, b: seq<Candidate>)
    ensures ChunkLess(a, b) <==> exists p :: FirstDifference(a, b, p)
  {
    hide AdmissionOrder, RankLess;
    if a != [] && b != [] {
      RankTotal(AdmissionOrder(a[0]), AdmissionOrder(b[0]));
      ChunkLessMeans(a[1..], b[1..]);
      if RankLess(AdmissionOrder(a[0]), AdmissionOrder(b[0])) {
        assert FirstDifference(a, b, 0);
      } else if AdmissionOrder(a[0]) == AdmissionOrder(b[0]) {
        if p :| FirstDifference(a[1..], b[1..], p) {
          forall q | 0 <= q < p + 1 ensures AdmissionOrder(a[q]) == AdmissionOrder(b[q]) {
            if q > 0 { assert AdmissionOrder(a[1..][q - 1]) == AdmissionOrder(b[1..][q - 1]); }
          }
          assert FirstDifference(a, b, p + 1);
        }
        if p :| FirstDifference(a, b, p) {
          assert FirstDifference(a[1..], b[1..], p - 1);
        }
      }
    } else if a != [] {
      assert FirstDifference(a, b, 0);
    }
  }

  ghost predicate FirstDifference(a: seq<Candidate>, b: seq<Candidate>, p: int) {
    && 0 <= p < |a| && p <= |b|
    && (forall q :: 0 <= q < p ==> AdmissionOrder(a[q]) == AdmissionOrder(b[q]))
    && (p < |b| ==> RankLess(AdmissionOrder(a[p]), AdmissionOrder(b[p])))
  }

  lemma RankTotal(a: Rank, b: Rank)
    ensures RankLess(a, b) || RankLess(b, a) || a == b
    ensures !(RankLess(a, b) && RankLess(b, a)) && !RankLess(a, a)
  {
  }

  lemma RankTransitive(a: Rank, b: Rank, c: Rank)
    requires RankLess(a, b) && RankLess(b, c)
    ensures RankLess(a, c)
  {
  }

  /** What does not come after b comes before everything that b comes before. */
  lemma {:induction false} ChunkLessThrough(a: seq<Candidate>, b: seq<Candidate>, c: seq<Candidate>)
    requires !ChunkLess(b, a) && ChunkLess(b, c)
    ensures ChunkLess(a, c)
    decreases |b|
  {
    if a != [] && b != [] && c != [] {
      hide AdmissionOrder, RankLess;
      var x, y, z := AdmissionOrder(a[0]), AdmissionOrder(b[0]), AdmissionOrder(c[0]);
      RankTotal(x, y);
      RankTotal(y, z);
      if RankLess(x, y) && RankLess(y, z) { RankTransitive(x, y, z); }
      if x == y == z { ChunkLessThrough(a[1..], b[1..], c[1..]); }
    }
  }

  lemma {:induction false} ChunkLessIsStrict(a: seq<Candidate>, b: seq<Candidate>)
    requires ChunkLess(a, b)
    ensures !ChunkLess(b, a)
  {
    if a != [] && b != [] {
      RankTotal(AdmissionOrder(a[0]), AdmissionOrder(b[0]));
      if AdmissionOrder(a[0]) == AdmissionOrder(b[0]) { ChunkLessIsStrict(a[1..], b[1..]); }
    }
  }

  /** A market's next group at its current share. */
  function NextChunk(demands: seq<Demand>, allocations: seq<nat>, k: nat): seq<Candidate>
    requires k < |demands| == |allocations| && 0 < demands[k].perConnection
  {
    ConnectionChunk(demands[k], allocations[k])
  }

  predicate Wants(demands: seq<Demand>, allocations: seq<nat>, k: nat)
    requires k < |demands| == |allocations| && 0 < demands[k].perConnection
  {
    allocations[k] < Needed(demands[k])
  }

  /** Among the first n markets, the one whose next group comes first; ties go to the earlier market. */
  ghost predicate IsBestScope(demands: seq<Demand>, allocations: seq<nat>, n: nat, best: nat)
    requires n <= |demands| == |allocations| && forall k :: 0 <= k < |demands| ==> 0 < demands[k].perConnection
  {
    && best < n && Wants(demands, allocations, best)
    && (forall k :: 0 <= k < n && k < best && Wants(demands, allocations, k) ==>
          ChunkLess(NextChunk(demands, allocations, best), NextChunk(demands, allocations, k)))
    && (forall k :: 0 <= k < n && best < k && Wants(demands, allocations, k) ==>
          !ChunkLess(NextChunk(demands, allocations, k), NextChunk(demands, allocations, best)))
  }

  /** There is no choice: one market is the best. */
  lemma BestScopeIsUnique(demands: seq<Demand>, allocations: seq<nat>, n: nat, a: nat, b: nat)
    requires n <= |demands| == |allocations| && forall k :: 0 <= k < |demands| ==> 0 < demands[k].perConnection
    requires IsBestScope(demands, allocations, n, a) && IsBestScope(demands, allocations, n, b)
    ensures a == b
  {
  }

  /** A later market takes over exactly when its next group comes strictly first. */
  lemma NextBest(demands: seq<Demand>, allocations: seq<nat>, n: nat, best: nat)
    requires n < |demands| == |allocations| && forall k :: 0 <= k < |demands| ==> 0 < demands[k].perConnection
    requires IsBestScope(demands, allocations, n, best)
    ensures Wants(demands, allocations, n)
              && ChunkLess(NextChunk(demands, allocations, n), NextChunk(demands, allocations, best)) ==>
            IsBestScope(demands, allocations, n + 1, n)
    ensures !(Wants(demands, allocations, n)
              && ChunkLess(NextChunk(demands, allocations, n), NextChunk(demands, allocations, best))) ==>
            IsBestScope(demands, allocations, n + 1, best)
  {
    hide ChunkLess, NextChunk, Wants;
    var mine, now := NextChunk(demands, allocations, n), NextChunk(demands, allocations, best);
    if Wants(demands, allocations, n) && ChunkLess(mine, now) {
      forall k | 0 <= k < n && Wants(demands, allocations, k) ensures ChunkLess(mine, NextChunk(demands, allocations, k)) {
        var other := NextChunk(demands, allocations, k);
        if k < best {
          ChunkLessIsStrict(mine, now);
          ChunkLessThrough(mine, now, other);
        } else if k > best {
          if !ChunkLess(mine, other) {
            ChunkLessThrough(other, mine, now);
            assert false;
          }
        }
      }
    }
  }

  /** The market whose next group comes first; ties go to the earlier market. */
  method BestConnectionScope(demands: seq<Demand>, allocations: seq<nat>) returns (best: Outcome<nat>)
    requires ValidDemands(demands) && |allocations| == |demands|
    ensures best.Success? ==> IsBestScope(demands, allocations, |demands|, best.value)
    ensures best.Shortfall? <==> forall k :: 0 <= k < |demands| ==> !Wants(demands, allocations, k)
  {
    best := Shortfall;
    for k := 0 to |demands|
      invariant best.Success? ==> IsBestScope(demands, allocations, k, best.value)
      invariant best.Shortfall? ==> forall i :: 0 <= i < k ==> !Wants(demands, allocations, i)
    {
      hide ChunkLess, ConnectionChunk, Needed;
      var chunk := ConnectionChunk(demands[k], allocations[k]);
      ChunkNonempty(demands[k], allocations[k]);
      if best.Success? { NextBest(demands, allocations, k, best.value); }
      if chunk != [] {
        if best.Shortfall? {
          best := Success(k);
        } else if ChunkLess(chunk, ConnectionChunk(demands[best.value], allocations[best.value])) {
          best := Success(k);
        }
      }
    }
  }

  /** Handing out connections one at a time, each to the best market, until none is left or none is wanted. */
  ghost predicate HandedOut(demands: seq<Demand>, before: seq<nat>, remaining: nat, after: seq<nat>)
    requires |before| == |demands| && forall k :: 0 <= k < |demands| ==> 0 < demands[k].perConnection
    decreases remaining
  {
    if remaining == 0 || forall k :: 0 <= k < |demands| ==> !Wants(demands, before, k) then after == before
    else exists k: nat :: k < |demands| && IsBestScope(demands, before, |demands|, k)
                          && HandedOut(demands, before[k := before[k] + 1], remaining - 1, after)
  }

  /** The shares are determined by the demands. */
  lemma {:induction false} HandedOutIsUnique(demands: seq<Demand>, before: seq<nat>, remaining: nat, a: seq<nat>, b: seq<nat>)
    requires |before| == |demands| && forall k :: 0 <= k < |demands| ==> 0 < demands[k].perConnection
    requires HandedOut(demands, before, remaining, a) && HandedOut(demands, before, remaining, b)
    ensures a == b
    decreases remaining
  {
    hide IsBestScope, Wants;
    if remaining > 0 && exists k :: 0 <= k < |demands| && Wants(demands, before, k) {
      var k: nat :| k < |demands| && IsBestScope(demands, before, |demands|, k)
                    && HandedOut(demands, before[k := before[k] + 1], remaining - 1, a);
      var l: nat :| l < |demands| && IsBestScope(demands, before, |demands|, l)
                    && HandedOut(demands, before[l := before[l] + 1], remaining - 1, b);
      BestScopeIsUnique(demands, before, |demands|, k, l);
      HandedOutIsUnique(demands, before[k := before[k] + 1], remaining - 1, a, b);
    }
  }

  /** Connections that the fixed candidates of a market need. */
  function FixedNeed(d: Demand): nat
    requires 0 < d.perConnection
  {
    CeilAtMost(FixedCount(d.candidates), d.perConnection, -1);
    CeilDiv(FixedCount(d.candidates), d.perConnection)
  }

  lemma FixedWithinNeed(d: Demand)
    requires 0 < d.perConnection
    ensures FixedNeed(d) <= Needed(d)
    ensures FixedCount(d.candidates) <= FixedNeed(d) * d.perConnection
  {
    NotFixedFacts(d.candidates);
    CeilBrackets(|d.candidates|, d.perConnection);
    CeilBrackets(FixedCount(d.candidates), d.perConnection);
    CeilAtMost(FixedCount(d.candidates), d.perConnection, Needed(d));
  }

  datatype ExchangeAdmission = ExchangeAdmission(connections: seq<nat>, admissions: seq<Admission>)

  /** A refused exchange names the market that cannot be carried. */
  datatype ExchangeOutcome = Admitted(value: ExchangeAdmission) | ScopeFails(market: Market)

  function FixedNeeds(demands: seq<Demand>): (needs: seq<nat>)
    requires forall k :: 0 <= k < |demands| ==> 0 < demands[k].perConnection
    ensures |needs| == |demands| && forall k :: 0 <= k < |demands| ==> needs[k] == FixedNeed(demands[k])
  {
    seq(|demands|, k requires 0 <= k < |demands| => FixedNeed(demands[k]))
  }

  /** The fixed candidates can be carried exactly when some shares within the connections hold them all, and then
      no market can do with less than its need. */
  lemma FixedNeedsAreLeast(demands: seq<Demand>, available: nat)
    requires forall k :: 0 <= k < |demands| ==> 0 < demands[k].perConnection
    ensures Sum(FixedNeeds(demands)) <= available <==>
              exists shares :: CarriesFixed(demands, shares) && Sum(shares) <= available
    ensures forall shares :: CarriesFixed(demands, shares) ==>
              forall k :: 0 <= k < |demands| ==> FixedNeed(demands[k]) <= shares[k]
  {
    hide FixedCount, FixedNeed;
    forall k | 0 <= k < |demands| ensures FixedCount(demands[k].candidates) <= FixedNeed(demands[k]) * demands[k].perConnection {
      FixedWithinNeed(demands[k]);
    }
    assert CarriesFixed(demands, FixedNeeds(demands));
    forall shares | CarriesFixed(demands, shares)
      ensures Sum(FixedNeeds(demands)) <= Sum(shares)
      ensures forall k :: 0 <= k < |demands| ==> FixedNeed(demands[k]) <= shares[k]
    {
      forall k | 0 <= k < |demands| ensures FixedNeed(demands[k]) <= shares[k] { FixedNeedFits(demands[k], shares[k]); }
      SumPointwise(FixedNeeds(demands), shares);
    }
  }

  lemma FixedNeedFits(d: Demand, share: nat)
    requires 0 < d.perConnection && FixedCount(d.candidates) <= share * d.perConnection
    ensures FixedNeed(d) <= share
  {
    CeilAtMost(FixedCount(d.candidates), d.perConnection, share);
  }

  /** Every market's share has room for its fixed candidates. */
  ghost predicate CarriesFixed(demands: seq<Demand>, shares: seq<nat>) {
    && |shares| == |demands|
    && forall k :: 0 <= k < |demands| ==> FixedCount(demands[k].candidates) <= shares[k] * demands[k].perConnection
  }

  /** The last market, in canonical order, that holds connections for fixed candidates. */
  ghost predicate IsLastHolder(allocations: seq<nat>, holder: nat) {
    holder < |allocations| && 0 < allocations[holder] && forall k :: holder < k < |allocations| ==> allocations[k] == 0
  }

  method LastHolder(allocations: seq<nat>) returns (holder: nat)
    requires Sum(allocations) > 0
    ensures IsLastHolder(allocations, holder)
  {
    holder := |allocations|;
    for k := 0 to |allocations|
      invariant if holder < |allocations| then IsLastHolder(allocations[..k], holder)
                else holder == |allocations| && Sum(allocations[..k]) == 0
    {
      assert allocations[..k + 1] == allocations[..k] + [allocations[k]];
      SumSnoc(allocations[..k], allocations[k]);
      if allocations[k] > 0 { holder := k; }
    }
    assert allocations[..|allocations|] == allocations;
  }

  /** The share makes the market turn away a candidate under a fail policy. */
  ghost predicate RefusesFailPolicy(d: Demand, connections: nat) {
    exists c :: c in Evicted(d.candidates, connections * d.perConnection) && c.key in d.failKeys
  }

  /** Admits one market into its share; refusing a fail-policy candidate is a shortfall. */
  method AdmitMarket(d: Demand, connections: nat) returns (r: Outcome<Admission>)
    requires DistinctKeys(d.candidates) && 0 < d.perConnection && FixedNeed(d) <= connections
    ensures r.Shortfall? <==> RefusesFailPolicy(d, connections)
    ensures r.Success? ==> MarketAdmitted(d, connections, r.value)
  {
    r := Admit(d.candidates, connections * d.perConnection);
    FixedWithinNeed(d);
    MulMono(FixedNeed(d), connections, d.perConnection);
    hide Evicted, AdmissionOf, FixedNeed;
    if exists c :: c in r.value.rejected && c.key in d.failKeys {
      r := Shortfall;
    }
  }

  ghost predicate MarketAdmitted(d: Demand, connections: nat, a: Admission) {
    && AdmissionOf(d.candidates, connections * d.perConnection, a)
    && a.rejected == Evicted(d.candidates, connections * d.perConnection)
    && forall c :: c in a.rejected ==> c.key !in d.failKeys
  }

  /** The connections left after every market has those of its fixed candidates are shared. */
  ghost predicate SharesOf(demands: seq<Demand>, available: nat, shares: seq<nat>)
    requires ValidDemands(demands)
  {
    && Sum(FixedNeeds(demands)) <= available
    && |shares| == |demands|
    && HandedOut(demands, FixedNeeds(demands), available - Sum(FixedNeeds(demands)), shares)
  }

  /** Why an exchange is refused because of its k-th market: the fixed candidates need more connections
      than there are and it is the last market that holds any, or it is the first market whose share
      makes it turn away a fail-policy candidate. */
  ghost predicate ScopeFailsAt(demands: seq<Demand>, available: nat, k: nat)
    requires ValidDemands(demands)
  {
    if Sum(FixedNeeds(demands)) > available then IsLastHolder(FixedNeeds(demands), k)
    else
      exists shares :: SharesOf(demands, available, shares) && FirstToRefuse(demands, shares, k)
  }

  ghost predicate FirstToRefuse(demands: seq<Demand>, shares: seq<nat>, k: nat)
    requires |shares| == |demands|
  {
    && k < |demands| && RefusesFailPolicy(demands[k], shares[k])
    && forall j :: 0 <= j < k ==> !RefusesFailPolicy(demands[j], shares[j])
  }

  /** Shares the connections between the markets and admits each market into its share. A refusal is
      always justified, and an admission excludes every ground for one. */
  method AdmitExchangeCapacity(demands: seq<Demand>, available: nat) returns (r: ExchangeOutcome)
    requires ValidDemands(demands)
    ensures r.ScopeFails? ==> exists k: nat :: k < |demands| && demands[k].market == r.market && ScopeFailsAt(demands, available, k)
    ensures r.Admitted? ==> ExchangeAdmissionOf(demands, available, r.value) && forall k: nat :: !ScopeFailsAt(demands, available, k)
  {
    hide HandedOut, RefusesFailPolicy, MarketAdmitted;
    var allocations := FixedNeeds(demands);
    if Sum(allocations) > available {
      var rejected := LastHolder(allocations);
      assert ScopeFailsAt(demands, available, rejected);
      return ScopeFails(demands[rejected].market);
    }
    allocations := ShareConnections(demands, allocations, available);
    assert SharesOf(demands, available, allocations);
    var admissions: seq<Admission> := [];
    for k := 0 to |demands|
      invariant |admissions| == k
      invariant forall i :: 0 <= i < k ==>
                  MarketAdmitted(demands[i], allocations[i], admissions[i]) && !RefusesFailPolicy(demands[i], allocations[i])
    {
      var admission := AdmitMarket(demands[k], allocations[k]);
      if admission.Shortfall? {
        assert FirstToRefuse(demands, allocations, k);
        return ScopeFails(demands[k].market);
      }
      admissions := admissions + [admission.value];
    }
    NoneRefuses(demands, available, allocations);
    r := Admitted(ExchangeAdmission(allocations, admissions));
  }

  lemma NoneRefuses(demands: seq<Demand>, available: nat, shares: seq<nat>)
    requires ValidDemands(demands) && SharesOf(demands, available, shares)
    requires forall k :: 0 <= k < |demands| ==> !RefusesFailPolicy(demands[k], shares[k])
    ensures forall k: nat :: !ScopeFailsAt(demands, available, k)
  {
    hide HandedOut, RefusesFailPolicy;
    forall k: nat ensures !ScopeFailsAt(demands, available, k) {
      if ScopeFailsAt(demands, available, k) {
        var other :| SharesOf(demands, available, other) && FirstToRefuse(demands, other, k);
        HandedOutIsUnique(demands, FixedNeeds(demands), available - Sum(FixedNeeds(demands)), shares, other);
        assert false;
      }
    }
  }

  /** Hands out the remaining connections one at a time, each to the market whose next group comes first,
      until none is left or none is wanted. */
  method ShareConnections(demands: seq<Demand>, initial: seq<nat>, available: nat) returns (allocations: seq<nat>)
    requires ValidDemands(demands) && initial == FixedNeeds(demands) && Sum(initial) <= available
    ensures |allocations| == |demands|
    ensures HandedOut(demands, initial, available - Sum(initial), allocations)
    ensures forall k :: 0 <= k < |demands| ==> FixedNeed(demands[k]) <= allocations[k] <= Needed(demands[k])
    ensures Sum(allocations) == Min(available, Sum(NeededAll(demands)))
  {
    hide IsBestScope, FixedNeed, Needed, HandedOut, Wants, NeededAll;
    allocations := initial;
    var remaining := available - Sum(initial);
    forall k | 0 <= k < |demands| ensures initial[k] <= Needed(demands[k]) {
      FixedWithinNeed(demands[k]);
    }
    while remaining > 0
      invariant |allocations| == |demands|
      invariant forall k :: 0 <= k < |demands| ==> FixedNeed(demands[k]) <= allocations[k] <= Needed(demands[k])
      invariant 0 <= remaining && Sum(allocations) + remaining == available
      invariant forall after :: HandedOut(demands, allocations, remaining, after) ==>
                  HandedOut(demands, initial, available - Sum(initial), after)
    {
      var best := BestConnectionScope(demands, allocations);
      if best.Shortfall? {
        break;
      }
      BestWants(demands, allocations, best.value);
      HandOutOne(demands, initial, available - Sum(initial), allocations, remaining, best.value);
      SumUpdate(allocations, best.value, allocations[best.value] + 1);
      allocations := allocations[best.value := allocations[best.value] + 1];
      remaining := remaining - 1;
    }
    SharingEnds(demands, allocations, remaining);
  }

  /** When no connection is left, or no market wants one, the sharing is over. */
  lemma SharingEnds(demands: seq<Demand>, allocations: seq<nat>, remaining: nat)
    requires |allocations| == |demands| && forall k :: 0 <= k < |demands| ==> 0 < demands[k].perConnection
    requires forall k :: 0 <= k < |demands| ==> allocations[k] <= Needed(demands[k])
    requires remaining == 0 || forall k :: 0 <= k < |demands| ==> !Wants(demands, allocations, k)
    ensures HandedOut(demands, allocations, remaining, allocations)
    ensures Sum(allocations) == Min(Sum(allocations) + remaining, Sum(NeededAll(demands)))
  {
    hide Needed;
    NeededAt(demands);
    SumPointwise(allocations, NeededAll(demands));
    if remaining > 0 {
      forall k | 0 <= k < |demands| ensures allocations[k] == NeededAll(demands)[k] {
        assert !Wants(demands, allocations, k);
      }
      assert allocations == NeededAll(demands);
    }
  }

  /** One more connection to the best market keeps every outcome an outcome of the whole sharing. */
  lemma HandOutOne(demands: seq<Demand>, initial: seq<nat>, total: nat, allocations: seq<nat>, remaining: nat, best: nat)
    requires |initial| == |allocations| == |demands| && forall k :: 0 <= k < |demands| ==> 0 < demands[k].perConnection
    requires 0 < remaining && IsBestScope(demands, allocations, |demands|, best)
    requires forall after :: HandedOut(demands, allocations, remaining, after) ==> HandedOut(demands, initial, total, after)
    ensures forall after :: HandedOut(demands, allocations[best := allocations[best] + 1], remaining - 1, after) ==>
              HandedOut(demands, initial, total, after)
  {
    forall after | HandedOut(demands, allocations[best := allocations[best] + 1], remaining - 1, after)
      ensures HandedOut(demands, initial, total, after)
    {
      BestWants(demands, allocations, best);
      hide IsBestScope, Wants;
      assert HandedOut(demands, allocations, remaining, after);
    }
  }

  lemma BestWants(demands: seq<Demand>, allocations: seq<nat>, best: nat)
    requires |demands| == |allocations| && forall k :: 0 <= k < |demands| ==> 0 < demands[k].perConnection
    requires IsBestScope(demands, allocations, |demands|, best)
    ensures best < |demands| && allocations[best] < Needed(demands[best]) && Wants(demands, allocations, best)
  {
  }

  /** What a shared admission promises: the shares are those handed out, no connection is left idle while
      a market still wants one, every market's admission fits its share, and no fail-policy candidate is
      refused. */
  ghost predicate ExchangeAdmissionOf(demands: seq<Demand>, available: nat, e: ExchangeAdmission)
    requires ValidDemands(demands)
  {
    && |e.connections| == |demands| && |e.admissions| == |demands|
    && SharesOf(demands, available, e.connections)
    && Sum(e.connections) == Min(available, Sum(NeededAll(demands)))
    && forall k :: 0 <= k < |demands| ==> MarketAdmitted(demands[k], e.connections[k], e.admissions[k])
  }
}
