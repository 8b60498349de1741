/** Which physical connection of which egress each market gets. Egresses are listed in id order,
    the order in which the allocator tries them. */
module Reservation {
  import opened Capacity
  import opened Ordering

  datatype Egress = Egress(id: nat, quotaGroup: nat, maxConnections: nat)

  /** Connection number `index` of the egress at a position of the list. */
  datatype Slot = Slot(egress: nat, index: nat)

  /** The first `count` connections of one egress. */
  function Run(egress: nat, count: nat): (slots: seq<Slot>)
    ensures |slots| == count
    ensures forall k :: 0 <= k < count ==> slots[k] == Slot(egress, k)
  {
    seq(count, k requires 0 <= k => Slot(egress, k))
  }

  /** The slots used when egress e has handed out its first used[e] connections. */
  function SlotsOf(used: seq<nat>): seq<Slot> {
    if used == [] then [] else SlotsOf(used[..|used| - 1]) + Run(|used| - 1, used[|used| - 1])
  }

  function Limits(egresses: seq<Egress>): (limits: seq<nat>)
    ensures |limits| == |egresses|
    ensures forall e :: 0 <= e < |egresses| ==> limits[e] == egresses[e].maxConnections
  {
    seq(|egresses|, e requires 0 <= e < |egresses| => egresses[e].maxConnections)
  }

  /** Every physical connection, egress by egress. */
  function AllSlots(egresses: seq<Egress>): seq<Slot> {
    SlotsOf(Limits(egresses))
  }

  lemma {:induction false} SlotsOfMembers(used: seq<nat>, slot: Slot)
    ensures slot in SlotsOf(used) <==> slot.egress < |used| && slot.index < used[slot.egress]
    ensures multiset(SlotsOf(used))[slot] <= 1
  {
    if used != [] {
      var last := |used| - 1;
      SlotsOfMembers(used[..last], slot);
      var run := Run(last, used[last]);
      RunMembers(last, used[last], slot);
      if slot in SlotsOf(used[..last]) { assert slot.egress < last; }
    }
  }

  lemma {:induction false} RunMembers(egress: nat, count: nat, slot: Slot)
    ensures slot in Run(egress, count) <==> slot.egress == egress && slot.index < count
    ensures multiset(Run(egress, count))[slot] <= 1
  {
    if count > 0 {
      RunMembers(egress, count - 1, slot);
      assert Run(egress, count) == Run(egress, count - 1) + [Slot(egress, count - 1)];
    }
  }

  lemma {:induction false} SlotsOfLength(used: seq<nat>)
    ensures |SlotsOf(used)| == Sum(used)
  {
    if used != [] {
      var last := |used| - 1;
      SlotsOfLength(used[..last]);
      SumSnoc(used[..last], used[last]);
      assert used == used[..last] + [used[last]];
    }
  }

  /** Egresses are filled one after the other: all before position p are full, all after it unused. */
  ghost predicate Frontier(used: seq<nat>, limits: seq<nat>, p: nat) {
    && |used| == |limits| && p <= |used|
    && (forall e :: 0 <= e < p ==> used[e] == limits[e])
    && (forall e :: p < e < |used| ==> used[e] == 0)
    && (p < |used| ==> used[p] <= limits[p])
  }

  lemma {:induction false} DropUnused(used: seq<nat>, n: nat)
    requires n <= |used| && forall e :: n <= e < |used| ==> used[e] == 0
    ensures SlotsOf(used) == SlotsOf(used[..n])
  {
    if n < |used| {
      var shorter := used[..|used| - 1];
      DropUnused(shorter, n);
      assert shorter[..n] == used[..n];
    } else {
      assert used[..n] == used;
    }
  }

  /** Taking the next connection at the frontier appends exactly that slot. */
  lemma TakeNext(used: seq<nat>, limits: seq<nat>, p: nat)
    requires Frontier(used, limits, p) && p < |used| && used[p] < limits[p]
    ensures SlotsOf(used[p := used[p] + 1]) == SlotsOf(used) + [Slot(p, used[p])]
    ensures Frontier(used[p := used[p] + 1], limits, p)
  {
    var after := used[p := used[p] + 1];
    DropUnused(used, p + 1);
    DropUnused(after, p + 1);
    assert used[..p + 1][..p] == used[..p] && after[..p + 1][..p] == used[..p];
    assert Run(p, used[p] + 1) == Run(p, used[p]) + [Slot(p, used[p])];
  }

  /** What has been handed out at a frontier is a prefix of all slots. */
  lemma {:induction false} FrontierIsPrefix(used: seq<nat>, limits: seq<nat>, p: nat)
    requires Frontier(used, limits, p)
    ensures SlotsOf(used) <= SlotsOf(limits)
  {
    if used == [] {
      assert limits == [];
    } else {
      var last := |used| - 1;
      if p <= last {
        DropUnused(used, if p == last then p + 1 else last);
      }
      if p == last {
        assert used[..last] == limits[..last];
        assert Run(last, used[last]) <= Run(last, limits[last]);
      } else if p < last {
        FrontierIsPrefix(used[..last], limits[..last], p);
      } else {
        assert used == limits;
      }
    }
  }

  /** The least position whose egress still has a connection, as the allocator finds it. */
  method FirstAvailable(egresses: seq<Egress>, next: seq<nat>) returns (p: nat)
    requires |next| == |egresses|
    ensures p <= |egresses|
    ensures forall e :: 0 <= e < p ==> egresses[e].maxConnections <= next[e]
    ensures p < |egresses| ==> next[p] < egresses[p].maxConnections
  {
    p := 0;
    while p < |egresses| && egresses[p].maxConnections <= next[p]
      invariant p <= |egresses|
      invariant forall e :: 0 <= e < p ==> egresses[e].maxConnections <= next[e]
    {
      p := p + 1;
    }
  }

  /** Moves the frontier past full egresses. */
  lemma AdvanceFrontier(used: seq<nat>, limits: seq<nat>, p: nat, q: nat)
    requires Frontier(used, limits, p) && q <= |used|
    requires forall e :: 0 <= e < q ==> limits[e] <= used[e]
    requires q < |used| ==> used[q] < limits[q]
    ensures Frontier(used, limits, q)
  {
  }

  /** Reserves connections for one market, one at a time. */
  method ReserveMarket(egresses: seq<Egress>, used: seq<nat>, count: nat, ghost p: nat)
    returns (r: Outcome<seq<Slot>>, next: seq<nat>, ghost q: nat)
    requires Frontier(used, Limits(egresses), p)
    ensures Frontier(next, Limits(egresses), q)
    ensures r.Shortfall? ==> Sum(used) + count > Sum(Limits(egresses))
    ensures r.Success? ==>
      && |r.value| == count
      && SlotsOf(next) == SlotsOf(used) + r.value
      && Sum(next) == Sum(used) + count
  {
    hide SlotsOf, Frontier, Sum;
    next, q := used, p;
    var reserved: seq<Slot> := [];
    FrontierLength(used, Limits(egresses), p);
    for k := 0 to count
      invariant |next| == |egresses| && Frontier(next, Limits(egresses), q)
      invariant |reserved| == k
      invariant SlotsOf(next) == SlotsOf(used) + reserved
      invariant Sum(next) == Sum(used) + k
    {
      var available := FirstAvailable(egresses, next);
      AdvanceFrontier(next, Limits(egresses), q, available);
      q := available;
      if available == |egresses| {
        FullFrontier(next, Limits(egresses));
        return Shortfall, next, q;
      }
      TakeNext(next, Limits(egresses), available);
      SumUpdate(next, available, next[available] + 1);
      reserved := reserved + [Slot(available, next[available])];
      next := next[available := next[available] + 1];
    }
    r := Success(reserved);
  }

  lemma FrontierLength(used: seq<nat>, limits: seq<nat>, p: nat)
    requires Frontier(used, limits, p)
    ensures |used| == |limits|
  {
  }

  lemma FullFrontier(used: seq<nat>, limits: seq<nat>)
    requires Frontier(used, limits, |used|)
    ensures Sum(used) == Sum(limits)
  {
    assert used == limits;
  }

  /** Reserves the requested number of connections for each market in turn. The granted slots,
      market after market, are the first slots in egress order; the call fails exactly when the
      markets together ask for more than all healthy egresses have. */
  method ReserveConnections(egresses: seq<Egress>, connections: seq<nat>) returns (r: Outcome<seq<seq<Slot>>>)
    ensures r.Shortfall? <==> Sum(connections) > Sum(Limits(egresses))
    ensures r.Success? ==>
      && |r.value| == |connections|
      && (forall m :: 0 <= m < |connections| ==> |r.value[m]| == connections[m])
      && |AllSlots(egresses)| == Sum(Limits(egresses))
      && Flatten(r.value) == AllSlots(egresses)[..Sum(connections)]
  {
    ghost var limits := Limits(egresses);
    var next := seq(|egresses|, e => 0);
    ghost var p := 0;
    DropUnused(next, 0);
    SlotsOfLength(next);
    var reservations: seq<seq<Slot>> := [];
    for m := 0 to |connections|
      invariant Frontier(next, limits, p)
      invariant |reservations| == m
      invariant forall i :: 0 <= i < m ==> |reservations[i]| == connections[i]
      invariant SlotsOf(next) == Flatten(reservations)
      invariant Sum(next) == Sum(connections[..m])
    {
      var reserved;
      hide AllSlots, Frontier, SlotsOf, Limits;
      reserved, next, p := ReserveMarket(egresses, next, connections[m], p);
      PrefixSum(connections, m);
      if reserved.Shortfall? {
        return Shortfall;
      }
      FlattenSnoc(reservations, reserved.value);
      reservations := reservations + [reserved.value];
    }
    assert connections[..|connections|] == connections;
    ReservedAreFirst(egresses, next, p);
    hide AllSlots, Frontier, SlotsOf, Limits;
    r := Success(reservations);
  }

  /** What has been granted is a prefix of all slots. */
  lemma ReservedAreFirst(egresses: seq<Egress>, next: seq<nat>, p: nat)
    requires Frontier(next, Limits(egresses), p)
    ensures |AllSlots(egresses)| == Sum(Limits(egresses)) && Sum(next) <= Sum(Limits(egresses))
    ensures SlotsOf(next) == AllSlots(egresses)[..Sum(next)]
  {
    FrontierIsPrefix(next, Limits(egresses), p);
    SlotsOfLength(next);
    SlotsOfLength(Limits(egresses));
    SumPointwise(next, Limits(egresses));
  }

  lemma {:induction false} PrefixSum(s: seq<nat>, m: nat)
    requires m < |s|
    ensures Sum(s[..m + 1]) == Sum(s[..m]) + s[m] <= Sum(s)
  {
    assert s[..m + 1] == s[..m] + [s[m]];
    SumSnoc(s[..m], s[m]);
    SumConcat(s[..m + 1], s[m + 1..]);
    assert s == s[..m + 1] + s[m + 1..];
  }

  lemma {:induction false} SumConcat(s: seq<nat>, t: seq<nat>)
    ensures Sum(s + t) == Sum(s) + Sum(t)
  {
    if s == [] {
      assert s + t == t;
    } else {
      SumConcat(s[1..], t);
      assert (s + t)[1..] == s[1..] + t;
    }
  }

  // ----- What the reservation guarantees ----------------------------------------------------

  /** No slot goes to two markets or twice to one. */
  lemma ReservationsDisjoint(egresses: seq<Egress>, total: nat, reservations: seq<seq<Slot>>, slot: Slot)
    requires total <= |AllSlots(egresses)| && Flatten(reservations) == AllSlots(egresses)[..total]
    ensures multiset(Flatten(reservations))[slot] <= 1
    ensures slot in Flatten(reservations) ==>
              slot.egress < |egresses| && slot.index < egresses[slot.egress].maxConnections
  {
    var slots := AllSlots(egresses);
    SlotsOfMembers(Limits(egresses), slot);
    assert slots == slots[..total] + slots[total..];
    if slot in slots[..total] { assert slot in slots; }
  }

  /** The slots handed out on one egress are its connections 0, 1, ... without a gap. */
  lemma {:induction false} PrefixHasNoGap(used: seq<nat>, total: nat, slot: Slot, lower: nat)
    requires total <= |SlotsOf(used)| && slot in SlotsOf(used)[..total] && lower <= slot.index
    ensures Slot(slot.egress, lower) in SlotsOf(used)[..total]
  {
    var last := |used| - 1;
    var before := SlotsOf(used[..last]);
    if total <= |before| {
      assert SlotsOf(used)[..total] == before[..total];
      PrefixHasNoGap(used[..last], total, slot, lower);
    } else {
      var run := Run(last, used[last]);
      assert SlotsOf(used)[..total] == before + run[..total - |before|];
      if slot in before {
        SlotsOfMembers(used[..last], slot);
        SlotsOfMembers(used[..last], Slot(slot.egress, lower));
      } else {
        var k :| 0 <= k < total - |before| && run[k] == slot;
        assert run[..total - |before|][lower] == Slot(slot.egress, lower);
      }
    }
  }

  /** Connections of a later egress are handed out only when those of every earlier one are. */
  lemma {:induction false} EarlierEgressesFirst(used: seq<nat>, total: nat, slot: Slot, earlier: Slot)
    requires total <= |SlotsOf(used)| && slot in SlotsOf(used)[..total]
    requires earlier.egress < slot.egress && earlier.egress < |used| && earlier.index < used[earlier.egress]
    ensures earlier in SlotsOf(used)[..total]
  {
    var last := |used| - 1;
    var before := SlotsOf(used[..last]);
    SlotsOfMembers(used[..last], earlier);
    if total <= |before| {
      assert SlotsOf(used)[..total] == before[..total];
      assert slot in before;
      SlotsOfMembers(used[..last], slot);
      EarlierEgressesFirst(used[..last], total, slot, earlier);
    } else {
      assert SlotsOf(used)[..total] == before + Run(last, used[last])[..total - |before|];
      if slot in before { SlotsOfMembers(used[..last], slot); }
    }
  }

  // ----- Report shards ------------------------------------------------------------------------

  /** A shard as the packer numbers it: the index counts the market's own connections of an egress. */
  datatype PackedShard = PackedShard(egress: nat, index: nat)

  /** The physical indices a market holds on one egress, in grant order. */
  function PhysicalIndices(slots: seq<Slot>, egress: nat): seq<nat> {
    if slots == [] then []
    else (if slots[0].egress == egress then [slots[0].index] else []) + PhysicalIndices(slots[1..], egress)
  }

  function ReportSlot(slots: seq<Slot>, shard: PackedShard): Slot
    requires shard.index < |PhysicalIndices(slots, shard.egress)|
  {
    Slot(shard.egress, PhysicalIndices(slots, shard.egress)[shard.index])
  }

  lemma {:induction false} ReportSlotIsReserved(slots: seq<Slot>, shard: PackedShard)
    requires shard.index < |PhysicalIndices(slots, shard.egress)|
    ensures ReportSlot(slots, shard) in slots
  {
    if slots[0].egress == shard.egress {
      if shard.index > 0 { ReportSlotIsReserved(slots[1..], PackedShard(shard.egress, shard.index - 1)); }
    } else {
      ReportSlotIsReserved(slots[1..], shard);
    }
  }

  lemma {:induction false} DistinctShardsDistinctSlots(slots: seq<Slot>, a: PackedShard, b: PackedShard)
    requires forall slot :: multiset(slots)[slot] <= 1
    requires a.index < |PhysicalIndices(slots, a.egress)| && b.index < |PhysicalIndices(slots, b.egress)|
    requires a != b
    ensures ReportSlot(slots, a) != ReportSlot(slots, b)
  {
    if a.egress == b.egress {
      var rest := slots[1..];
      assert slots == [slots[0]] + rest;
      forall slot ensures multiset(rest)[slot] <= 1 {
        assert multiset(slots)[slot] <= 1;
      }
      if slots[0].egress != a.egress {
        DistinctShardsDistinctSlots(rest, a, b);
      } else if a.index > 0 && b.index > 0 {
        DistinctShardsDistinctSlots(rest, PackedShard(a.egress, a.index - 1), PackedShard(b.egress, b.index - 1));
      } else {
        var later := if a.index > 0 then a else b;
        ReportSlotIsReserved(rest, PackedShard(later.egress, later.index - 1));
        assert multiset(slots)[slots[0]] <= 1;
        assert slots[0] !in rest;
      }
    }
  }

  lemma {:induction false} FlattenCounts(parts: seq<seq<Slot>>, m: nat, n: nat, slot: Slot)
    requires m < n < |parts| && slot in parts[m] && slot in parts[n]
    ensures multiset(Flatten(parts))[slot] >= 2
  {
    if m > 0 {
      FlattenCounts(parts[1..], m - 1, n - 1, slot);
    } else {
      FlattenContains(parts[1..], n - 1, slot);
    }
  }

  lemma {:induction false} FlattenPart(parts: seq<seq<Slot>>, m: nat, slot: Slot)
    requires m < |parts|
    ensures multiset(parts[m])[slot] <= multiset(Flatten(parts))[slot]
  {
    if m > 0 { FlattenPart(parts[1..], m - 1, slot); }
  }

  lemma {:induction false} FlattenContains(parts: seq<seq<Slot>>, n: nat, slot: Slot)
    requires n < |parts| && slot in parts[n]
    ensures slot in Flatten(parts)
  {
    if n > 0 { FlattenContains(parts[1..], n - 1, slot); }
  }

  /** Two shards reported for one exchange, by the same market or by two, never share a physical connection. */
  lemma ReportShardsDisjoint(egresses: seq<Egress>, total: nat, reservations: seq<seq<Slot>>,
                             m: nat, n: nat, a: PackedShard, b: PackedShard)
    requires total <= |AllSlots(egresses)| && Flatten(reservations) == AllSlots(egresses)[..total]
    requires m < |reservations| && n < |reservations| && (m, a) != (n, b)
    requires a.index < |PhysicalIndices(reservations[m], a.egress)|
    requires b.index < |PhysicalIndices(reservations[n], b.egress)|
    ensures ReportSlot(reservations[m], a) != ReportSlot(reservations[n], b)
  {
    var slot := ReportSlot(reservations[m], a);
    if m == n {
      forall s ensures multiset(reservations[m])[s] <= 1 {
        ReservationsDisjoint(egresses, total, reservations, s);
        FlattenPart(reservations, m, s);
      }
      DistinctShardsDistinctSlots(reservations[m], a, b);
    } else if slot == ReportSlot(reservations[n], b) {
      ReportSlotIsReserved(reservations[m], a);
      ReportSlotIsReserved(reservations[n], b);
      ReservationsDisjoint(egresses, total, reservations, slot);
      if m < n { FlattenCounts(reservations, m, n, slot); } else { FlattenCounts(reservations, n, m, slot); }
    }
  }
}
