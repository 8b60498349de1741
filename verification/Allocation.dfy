/** How the oracle spreads N records over M identities, and which ordinals it reserves
    for the burst. The closed forms are proved against a filter over single ordinals. */
module Allocation {
  import opened Arithmetic
  import opened Workload

  /** The division of a stream's records over its identities, as divmod gives it,
      with the burst quota of one identity. */
  datatype Spread = Spread(records: nat, identities: nat, quotient: nat, remainder: nat, quota: nat) {
    ghost predicate Valid() {
      remainder < identities && records == identities * quotient + remainder
    }
  }

  function BurstQuota(s: StreamPlan): nat {
    s.burstRecordsIn1s * (if s.group == Control then s.multiplier else 1)
  }

  function SpreadOf(s: StreamPlan): (spread: Spread)
    requires 0 < s.identityCount
    ensures spread.Valid()
  {
    Spread(s.expectedRecordCount, s.identityCount,
           s.expectedRecordCount / s.identityCount, s.expectedRecordCount % s.identityCount, BurstQuota(s))
  }

  function AllocatedCount(s: Spread, identity: nat): nat {
    s.quotient + (if identity < s.remainder then 1 else 0)
  }

  function IdentityOrdinalStart(s: Spread, identity: nat): nat {
    identity * s.quotient + Min(identity, s.remainder)
  }

  /** The running start of an identity's ordinals is the sum of the counts before it,
      and the counts add up to the stream's records. */
  lemma StartStep(s: Spread, identity: nat)
    requires s.Valid() && identity < s.identities
    ensures IdentityOrdinalStart(s, identity + 1) == IdentityOrdinalStart(s, identity) + AllocatedCount(s, identity)
    ensures IdentityOrdinalStart(s, 0) == 0
    ensures IdentityOrdinalStart(s, s.identities) == s.records
  {
    assert (identity + 1) * s.quotient == identity * s.quotient + s.quotient;
  }

  lemma {:induction false} StartMono(s: Spread, i: nat, j: nat)
    requires s.Valid() && i <= j <= s.identities
    ensures IdentityOrdinalStart(s, i) <= IdentityOrdinalStart(s, j)
    decreases j
  {
    if i < j {
      StartMono(s, i, j - 1);
      StartStep(s, j - 1);
    }
  }

  lemma LongerSpan(s: Spread)
    requires s.Valid()
    ensures s.remainder <= s.identities
    ensures IdentityOrdinalStart(s, s.remainder) == s.remainder * (s.quotient + 1)
    ensures s.quotient == 0 ==> s.remainder * (s.quotient + 1) == s.records
  {
    assert s.records == s.identities * s.quotient + s.remainder;
  }

  /** The identity and the local sequence of an ordinal, by two divisions. With a zero
      quotient every ordinal is in the longer span, so the assertion in the generator's division never fires. */
  function IdentityAndSequence(s: Spread, ordinal: nat): (nat, nat)
    requires s.Valid() && ordinal < s.records
  {
    var quotient := s.quotient;
    var longerSpan := s.remainder * (quotient + 1);
    if ordinal < longerSpan then
      (ordinal / (quotient + 1), ordinal % (quotient + 1))
    else
      LongerSpan(s);
      var tail := ordinal - longerSpan;
      (s.remainder + tail / quotient, tail % quotient)
  }

  lemma LongOwner(q: nat, r: nat, ordinal: nat)
    requires ordinal < r * (q + 1)
    ensures var i := ordinal / (q + 1);
            0 <= i < r && i * q + i + ordinal % (q + 1) == ordinal && ordinal % (q + 1) <= q
  {
    var i := ordinal / (q + 1);
    FloorBrackets(ordinal, q + 1);
    MulCancel(i, r, q + 1);
    assert i * (q + 1) == i * q + i;
  }

  lemma Distribute(a: int, b: int, c: int)
    ensures (a + b) * c == a * c + b * c
  {
  }

  lemma ShortOwner(m: nat, q: nat, r: nat, tail: nat)
    requires r < m && q > 0 && tail < (m - r) * q
    ensures var k := tail / q;
            0 <= k < m - r && (r + k) * q + tail % q == r * q + tail && tail % q < q
  {
    var k := tail / q;
    FloorBrackets(tail, q);
    MulCancel(k, m - r, q);
    Distribute(r, k, q);
    assert tail == q * k + tail % q;
  }

  /** Every ordinal belongs to one identity at one local sequence number. */
  lemma OrdinalHasOwner(s: Spread, ordinal: nat)
    requires s.Valid() && ordinal < s.records
    ensures var (identity, sequence) := IdentityAndSequence(s, ordinal);
            && identity < s.identities
            && sequence < AllocatedCount(s, identity)
            && ordinal == IdentityOrdinalStart(s, identity) + sequence
  {
    var m, q, r := s.identities, s.quotient, s.remainder;
    LongerSpan(s);
    if ordinal < r * (q + 1) {
      LongOwner(q, r, ordinal);
    } else {
      assert r * (q + 1) == r * q + r && (m - r) * q == m * q - r * q;
      ShortOwner(m, q, r, ordinal - r * (q + 1));
    }
  }

  /** And every (identity, local sequence) pair in range has its own ordinal. */
  lemma OwnerHasOrdinal(s: Spread, identity: nat, sequence: nat)
    requires s.Valid() && identity < s.identities && sequence < AllocatedCount(s, identity)
    ensures IdentityOrdinalStart(s, identity) + sequence < s.records
    ensures IdentityAndSequence(s, IdentityOrdinalStart(s, identity) + sequence) == (identity, sequence)
  {
    StartStep(s, identity);
    StartMono(s, identity + 1, s.identities);
    var ordinal := IdentityOrdinalStart(s, identity) + sequence;
    OrdinalHasOwner(s, ordinal);
    var (i, l) := IdentityAndSequence(s, ordinal);
    StartStep(s, i);
    if i < identity {
      StartMono(s, i + 1, identity);
    } else if identity < i {
      StartMono(s, identity + 1, i);
    }
  }

  /** Exactly min(N, M) identities receive a record: the first of them. */
  lemma TouchedIdentities(s: Spread, identity: nat)
    requires s.Valid() && identity < s.identities
    ensures AllocatedCount(s, identity) > 0 <==> identity < Min(s.records, s.identities)
  {
    if s.quotient > 0 { MulMono(1, s.quotient, s.identities); }
  }

  // ----- The burst ------------------------------------------------------------

  /** An ordinal is in the burst when its local sequence is within the identity's quota. */
  predicate IsBurst(s: Spread, ordinal: nat)
    requires s.Valid() && ordinal < s.records
  {
    IdentityAndSequence(s, ordinal).1 < s.quota
  }

  /** The reference selection: the ordinals of [lo, hi) on one side of the burst test, in order. */
  function Selected(s: Spread, burst: bool, lo: nat, hi: nat): seq<nat>
    requires s.Valid() && lo <= hi <= s.records
    decreases hi
  {
    if lo == hi then []
    else Selected(s, burst, lo, hi - 1) + (if IsBurst(s, hi - 1) == burst then [hi - 1] else [])
  }

  lemma {:induction false} SelectedMembers(s: Spread, burst: bool, lo: nat, hi: nat)
    requires s.Valid() && lo <= hi <= s.records
    ensures forall o :: o in Selected(s, burst, lo, hi) <==> lo <= o < hi && IsBurst(s, o) == burst
    decreases hi
  {
    if lo != hi { SelectedMembers(s, burst, lo, hi - 1); }
  }

  lemma {:induction false} SelectionSizes(s: Spread, lo: nat, hi: nat)
    requires s.Valid() && lo <= hi <= s.records
    ensures |Selected(s, true, lo, hi)| + |Selected(s, false, lo, hi)| == hi - lo
    decreases hi
  {
    if lo != hi { SelectionSizes(s, lo, hi - 1); }
  }

  /** The two selections of any range partition it: every ordinal of the range is in exactly one of them, once. */
  lemma SelectionsPartition(s: Spread, lo: nat, hi: nat)
    requires s.Valid() && lo <= hi <= s.records
    ensures var burst, smooth := Selected(s, true, lo, hi), Selected(s, false, lo, hi);
            && |burst| + |smooth| == hi - lo
            && (forall o :: o in burst || o in smooth <==> lo <= o < hi)
            && (forall o :: !(o in burst && o in smooth))
            && (forall o :: multiset(burst)[o] <= 1 && multiset(smooth)[o] <= 1)
  {
    SelectionSizes(s, lo, hi);
    SelectedMembers(s, true, lo, hi);
    SelectedMembers(s, false, lo, hi);
    SelectedOnce(s, true, lo, hi);
    SelectedOnce(s, false, lo, hi);
  }

  lemma {:induction false} SelectedOnce(s: Spread, burst: bool, lo: nat, hi: nat)
    requires s.Valid() && lo <= hi <= s.records
    ensures forall o :: multiset(Selected(s, burst, lo, hi))[o] <= 1
    decreases hi
  {
    if lo != hi {
      SelectedOnce(s, burst, lo, hi - 1);
      SelectedMembers(s, burst, lo, hi - 1);
    }
  }

  lemma {:induction false} SelectedConcat(s: Spread, burst: bool, lo: nat, mid: nat, hi: nat)
    requires s.Valid() && lo <= mid <= hi <= s.records
    ensures Selected(s, burst, lo, hi) == Selected(s, burst, lo, mid) + Selected(s, burst, mid, hi)
    decreases hi
  {
    if mid != hi { SelectedConcat(s, burst, lo, mid, hi - 1); }
  }

  function Range(lo: nat, hi: nat): (r: seq<nat>)
    requires lo <= hi
    ensures |r| == hi - lo
  {
    seq(hi - lo, k requires 0 <= k => lo + k)
  }

  /** Within one identity the burst takes the first ordinals up to the quota. */
  lemma {:induction false} SelectedWithinIdentity(s: Spread, burst: bool, identity: nat, count: nat)
    requires s.Valid() && identity < s.identities && count <= AllocatedCount(s, identity)
    ensures IdentityOrdinalStart(s, identity) + count <= s.records
    ensures var start := IdentityOrdinalStart(s, identity);
            var cut := start + Min(count, s.quota);
            Selected(s, burst, start, start + count) == if burst then Range(start, cut) else Range(cut, start + count)
  {
    StartStep(s, identity);
    StartMono(s, identity + 1, s.identities);
    if count > 0 {
      SelectedWithinIdentity(s, burst, identity, count - 1);
      OwnerHasOrdinal(s, identity, count - 1);
    }
  }

  // ----- Closed-form counts -----------------------------------------------------

  /** A per-identity value summed over the first identities, in closed form: the first
      Remainder identities hold one record more than the rest. */
  function BurstCountBefore(s: Spread, identity: nat): nat
    requires s.Valid() && identity <= s.identities
  {
    var longer := Min(identity, s.remainder);
    longer * Min(s.quotient + 1, s.quota) + (identity - longer) * Min(s.quotient, s.quota)
  }

  function SmoothCountBefore(s: Spread, identity: nat): nat
    requires s.Valid() && identity <= s.identities
  {
    var longer := Min(identity, s.remainder);
    longer * Max(s.quotient + 1 - s.quota, 0) + (identity - longer) * Max(s.quotient - s.quota, 0)
  }

  lemma StepProduct(a: int, b: int)
    ensures (a + 1) * b == a * b + b
  {
  }

  lemma CountsStep(s: Spread, identity: nat)
    requires s.Valid() && identity < s.identities
    ensures BurstCountBefore(s, identity + 1)
         == BurstCountBefore(s, identity) + Min(AllocatedCount(s, identity), s.quota)
    ensures SmoothCountBefore(s, identity + 1)
         == SmoothCountBefore(s, identity) + AllocatedCount(s, identity) - Min(AllocatedCount(s, identity), s.quota)
  {
    var longer := Min(identity, s.remainder);
    var q: int, quota: int := s.quotient, s.quota;
    StepProduct(longer, Min(q + 1, quota));
    StepProduct(identity - longer, Min(q, quota));
    StepProduct(longer, Max(q + 1 - quota, 0));
    StepProduct(identity - longer, Max(q - quota, 0));
  }

  /** The closed-form counts are the counts that iterating over the ordinals gives. */
  lemma {:induction false} ClosedFormCounts(s: Spread, identity: nat)
    requires s.Valid() && identity <= s.identities
    ensures IdentityOrdinalStart(s, identity) <= s.records
    ensures |Selected(s, true, 0, IdentityOrdinalStart(s, identity))| == BurstCountBefore(s, identity)
    ensures |Selected(s, false, 0, IdentityOrdinalStart(s, identity))| == SmoothCountBefore(s, identity)
  {
    if identity > 0 {
      var previous := identity - 1;
      ClosedFormCounts(s, previous);
      StartStep(s, previous);
      StartMono(s, identity, s.identities);
      CountsStep(s, previous);
      var start, stop := IdentityOrdinalStart(s, previous), IdentityOrdinalStart(s, identity);
      SelectedWithinIdentity(s, true, previous, AllocatedCount(s, previous));
      SelectedWithinIdentity(s, false, previous, AllocatedCount(s, previous));
      SelectedConcat(s, true, 0, start, stop);
      SelectedConcat(s, false, 0, start, stop);
    }
  }

  lemma ProductOrder(b: nat, r: nat, m: nat)
    ensures b * r * m == b * m * r == b * (r * m)
  {
  }

  lemma RequiredIsQuotaTimesIdentities(s: StreamPlan)
    requires s.ValidScope() && s.ValidCounts()
    ensures s.requiredBurstCount == s.identityCount * BurstQuota(s)
  {
    ProductOrder(s.baseInstanceCount, s.burstRecordsIn1s, s.multiplier);
  }

  lemma CappedTotal(m: nat, q: nat, r: nat, quota: nat)
    requires r < m
    ensures r * Min(q + 1, quota) + (m - r) * Min(q, quota) == Min(m * q + r, m * quota)
  {
    if quota <= q {
      assert r * quota + (m - r) * quota == m * quota;
      MulMono(quota, q, m);
    } else {
      assert r * (q + 1) + (m - r) * q == m * q + r;
      MulMono(q + 1, quota, m);
      assert (q + 1) * m == m * q + m;
    }
  }

  /** The burst quota spread over the identities totals exactly the capped burst, with the
      control stream's own quota included: the distributed-burst and smooth-count assertions
      of the generator never fire. */
  lemma DistributedBurstTotal(p: StreamPlan)
    requires p.ValidScope() && p.ValidCounts()
    ensures var s := SpreadOf(p);
            && |Selected(s, true, 0, s.records)| == p.scheduledBurstCount
            && |Selected(s, false, 0, s.records)| == p.expectedRecordCount - p.scheduledBurstCount
  {
    var s := SpreadOf(p);
    StartStep(s, 0);
    ClosedFormCounts(s, s.identities);
    RequiredIsQuotaTimesIdentities(p);
    CappedTotal(s.identities, s.quotient, s.remainder, s.quota);
    SelectionSizes(s, 0, s.records);
  }

  // ----- The generators -----------------------------------------------------------

  /** Streams the burst ordinals of an identity span. */
  method BurstOrdinalsForSpan(s: Spread, identityStart: nat, identityStop: nat) returns (ordinals: seq<nat>)
    requires s.Valid() && identityStart <= identityStop <= s.identities
    ensures IdentityOrdinalStart(s, identityStart) <= IdentityOrdinalStart(s, identityStop) <= s.records
    ensures ordinals == Selected(s, true, IdentityOrdinalStart(s, identityStart), IdentityOrdinalStart(s, identityStop))
  {
    ghost var first := IdentityOrdinalStart(s, identityStart);
    StartStep(s, 0);
    StartMono(s, identityStart, identityStop);
    StartMono(s, identityStop, s.identities);
    ordinals := [];
    var ordinalStart := IdentityOrdinalStart(s, identityStart);
    var quota := s.quota;
    for identity := identityStart to identityStop
      invariant ordinalStart == IdentityOrdinalStart(s, identity)
      invariant first <= ordinalStart <= s.records
      invariant ordinals == Selected(s, true, first, ordinalStart)
    {
      var allocatedCount := AllocatedCount(s, identity);
      var selectedForIdentity := Min(allocatedCount, quota);
      SelectedWithinIdentity(s, true, identity, allocatedCount);
      StartStep(s, identity);
      SelectedConcat(s, true, first, ordinalStart, ordinalStart + allocatedCount);
      ordinals := ordinals + Range(ordinalStart, ordinalStart + selectedForIdentity);
      ordinalStart := ordinalStart + allocatedCount;
    }
  }

  /** Ordinals paired with consecutive stream-wide indices. */
  function Indexed(base: nat, ordinals: seq<nat>): seq<(nat, nat)> {
    seq(|ordinals|, k requires 0 <= k < |ordinals| => (base + k, ordinals[k]))
  }

  lemma IndexedLength(base: nat, ordinals: seq<nat>)
    ensures |Indexed(base, ordinals)| == |ordinals|
  {
  }

  lemma IndexedConcat(base: nat, a: seq<nat>, b: seq<nat>)
    ensures Indexed(base, a + b) == Indexed(base, a) + Indexed(base + |a|, b)
  {
  }

  /** The smooth ordinals of one identity, numbered from the running rank. */
  method IndexRange(rows: seq<(nat, nat)>, smoothIndex: nat, cut: nat, stop: nat)
    returns (rows': seq<(nat, nat)>, smoothIndex': nat)
    requires cut <= stop
    ensures rows' == rows + Indexed(smoothIndex, Range(cut, stop))
    ensures smoothIndex' == smoothIndex + (stop - cut)
  {
    rows', smoothIndex' := rows, smoothIndex;
    for ordinal := cut to stop
      invariant smoothIndex' == smoothIndex + (ordinal - cut)
      invariant rows' == rows + Indexed(smoothIndex, Range(cut, ordinal))
    {
      rows' := rows' + [(smoothIndex', ordinal)];
      smoothIndex' := smoothIndex' + 1;
    }
  }

  /** What one more identity adds to the indexed smooth ordinals of a span. */
  lemma NextIdentity(s: Spread, base: nat, first: nat, identity: nat)
    requires s.Valid() && identity < s.identities && first <= IdentityOrdinalStart(s, identity)
    ensures var start, count := IdentityOrdinalStart(s, identity), AllocatedCount(s, identity);
            && IdentityOrdinalStart(s, identity + 1) == start + count <= s.records
            && Indexed(base, Selected(s, false, first, start + count))
               == Indexed(base, Selected(s, false, first, start))
                  + Indexed(base + |Indexed(base, Selected(s, false, first, start))|, Range(start + Min(count, s.quota), start + count))
  {
    hide IdentityOrdinalStart, AllocatedCount, Selected, Range;
    var start, count := IdentityOrdinalStart(s, identity), AllocatedCount(s, identity);
    SelectedWithinIdentity(s, false, identity, count);
    StartStep(s, identity);
    SelectedConcat(s, false, first, start, start + count);
    IndexedLength(base, Selected(s, false, first, start));
    IndexedConcat(base, Selected(s, false, first, start), Range(start + Min(count, s.quota), start + count));
  }

  /** Streams the smooth ordinals of an identity span, each with its rank among the smooth
      ordinals of the whole stream; the rank starts from the closed form, without visiting
      the identities before the span. */
  method IndexedSmoothOrdinalsForSpan(s: Spread, identityStart: nat, identityStop: nat)
    returns (rows: seq<(nat, nat)>)
    requires s.Valid() && identityStart <= identityStop <= s.identities
    ensures IdentityOrdinalStart(s, identityStart) <= IdentityOrdinalStart(s, identityStop) <= s.records
    ensures rows == Indexed(|Selected(s, false, 0, IdentityOrdinalStart(s, identityStart))|,
                            Selected(s, false, IdentityOrdinalStart(s, identityStart), IdentityOrdinalStart(s, identityStop)))
  {
    ghost var first := IdentityOrdinalStart(s, identityStart);
    StartStep(s, 0);
    StartMono(s, identityStart, identityStop);
    StartMono(s, identityStop, s.identities);
    ClosedFormCounts(s, identityStart);
    ghost var base := |Selected(s, false, 0, first)|;
    rows := [];
    assert Indexed(base, Selected(s, false, first, first)) == [];
    hide IdentityOrdinalStart, Selected, Indexed, Range, SmoothCountBefore, Spread.Valid;
    var ordinalStart := IdentityOrdinalStart(s, identityStart);
    var smoothIndex := SmoothCountBefore(s, identityStart);
    var quota := s.quota;
    for identity := identityStart to identityStop
      invariant ordinalStart == IdentityOrdinalStart(s, identity)
      invariant first <= ordinalStart <= s.records
      invariant smoothIndex == base + |rows|
      invariant rows == Indexed(base, Selected(s, false, first, ordinalStart))
    {
      var allocatedCount := AllocatedCount(s, identity);
      var cut := ordinalStart + Min(allocatedCount, quota);
      rows, smoothIndex := IndexRange(rows, smoothIndex, cut, ordinalStart + allocatedCount);
      NextIdentity(s, base, first, identity);
      ordinalStart := ordinalStart + allocatedCount;
    }
  }
}
