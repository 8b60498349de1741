/** When a smooth event is due: floor spacing over the run with the burst second and the
    final drain second cut out. */
module Spacing {
  import opened Arithmetic
  import opened Workload

  /** The reserved burst second, the run, and the number of events spaced around the burst. */
  datatype Timing = Timing(burstStartNs: nat, durationNs: nat, smoothCount: nat) {
    ghost predicate Valid() {
      && 10 * ONE_SECOND_NS <= durationNs
      && burstStartNs + 2 * ONE_SECOND_NS <= durationNs
    }

    /** Nanoseconds left once the burst second and the drain second are removed. */
    function OutsideNs(): int {
      durationNs - ONE_SECOND_NS - ONE_SECOND_NS
    }
  }

  function Compressed(t: Timing, index: nat): int
    requires 0 < t.smoothCount
  {
    index * t.OutsideNs() / t.smoothCount
  }

  function SmoothDue(t: Timing, index: nat): int
    requires 0 < t.smoothCount
  {
    var compressed := Compressed(t, index);
    if compressed < t.burstStartNs then compressed else compressed + ONE_SECOND_NS
  }

  lemma CompressedBounds(t: Timing, index: nat)
    requires t.Valid() && index < t.smoothCount
    ensures 0 <= Compressed(t, index) < t.OutsideNs()
  {
    FloorAtLeast(index * t.OutsideNs(), t.smoothCount, 0);
    FloorAtLeast(index * t.OutsideNs(), t.smoothCount, t.OutsideNs());
    assert index * t.OutsideNs() < t.smoothCount * t.OutsideNs();
  }

  /** No smooth event is due in the burst second, and its one-second deadline is inside the run. */
  lemma SmoothDueBounds(t: Timing, index: nat)
    requires t.Valid() && index < t.smoothCount
    ensures var due := SmoothDue(t, index);
            && 0 <= due
            && !(t.burstStartNs <= due < t.burstStartNs + ONE_SECOND_NS)
            && due + ONE_SECOND_NS < t.durationNs
  {
    CompressedBounds(t, index);
  }

  /** The due time, without the burst second, is the floor of the row's share of the time outside the burst second
      and the last second. */
  lemma SmoothDueIsFloor(t: Timing, index: nat)
    requires t.Valid() && index < t.smoothCount
    ensures var due := SmoothDue(t, index);
            var outside := if due < t.burstStartNs then due else due - 1_000_000_000;
            && outside * t.smoothCount <= index * (t.durationNs - 2_000_000_000) < (outside + 1) * t.smoothCount
            && (due < t.burstStartNs || t.burstStartNs + 1_000_000_000 <= due)
  {
    FloorBrackets(index * t.OutsideNs(), t.smoothCount);
  }

  /** Due times never decrease along the stream. */
  lemma SmoothDueMono(t: Timing, i: nat, j: nat)
    requires t.Valid() && i <= j && 0 < t.smoothCount
    ensures SmoothDue(t, i) <= SmoothDue(t, j)
  {
    MulMono(i, j, t.OutsideNs());
    FloorMono(i * t.OutsideNs(), j * t.OutsideNs(), t.smoothCount);
  }

  // ----- Evenness -----------------------------------------------------------------

  /** The first index whose compressed time reaches a. */
  lemma CompressedReaches(t: Timing, index: nat, a: nat)
    requires t.Valid() && index < t.smoothCount
    ensures a <= Compressed(t, index) <==> CeilDiv(a * t.smoothCount, t.OutsideNs()) <= index
  {
    FloorAtLeast(index * t.OutsideNs(), t.smoothCount, a);
    CeilAtMost(a * t.smoothCount, t.OutsideNs(), index);
  }

  /** Adding w shifts a ceiling by the floor or the ceiling of the added ratio. */
  lemma CeilShift(a: nat, w: nat, d: int)
    requires d > 0
    ensures var shift := CeilDiv(a + w, d) - CeilDiv(a, d);
            shift == w / d || shift == CeilDiv(w, d)
  {
    var c, f := CeilDiv(a, d), w / d;
    CeilBrackets(a, d);
    FloorBrackets(w, d);
    assert (c + f) * d == c * d + f * d && (c + f + 1) * d == (c + f) * d + d && (c - 1) * d == c * d - d;
    assert (f + 1) * d == f * d + d;
    if a + w <= (c + f) * d {
      assert (c + f - 1) * d == (c + f) * d - d;
      CeilUnique(a + w, d, c + f);
    } else {
      CeilUnique(a + w, d, c + f + 1);
      assert w > f * d;
      CeilUnique(w, d, f + 1);
    }
  }

  /** The smooth events due in [x, x + w). */
  ghost function DueWithin(t: Timing, x: nat, w: nat): set<nat>
    requires 0 < t.smoothCount
  {
    set i: nat | i < t.smoothCount && x <= SmoothDue(t, i) < x + w
  }

  ghost function Interval(lo: nat, hi: nat): set<nat>
    requires lo <= hi
    decreases hi
  {
    if lo == hi then {} else Interval(lo, hi - 1) + {hi - 1}
  }

  lemma {:induction false} IntervalSize(lo: nat, hi: nat)
    requires lo <= hi
    ensures forall i :: i in Interval(lo, hi) <==> lo <= i < hi
    ensures |Interval(lo, hi)| == hi - lo
    decreases hi
  {
    if lo != hi { IntervalSize(lo, hi - 1); }
  }

  /** In compressed time a window holds one run of consecutive indices. */
  lemma WindowIsRun(t: Timing, a: nat, w: nat)
    requires t.Valid() && 0 < t.smoothCount && a + w <= t.OutsideNs()
    ensures var lo := CeilDiv(a * t.smoothCount, t.OutsideNs());
            var hi := CeilDiv((a + w) * t.smoothCount, t.OutsideNs());
            && 0 <= lo <= hi <= t.smoothCount
            && (hi - lo == w * t.smoothCount / t.OutsideNs() || hi - lo == CeilDiv(w * t.smoothCount, t.OutsideNs()))
            && forall i: nat :: i < t.smoothCount ==> (a <= Compressed(t, i) < a + w <==> lo <= i < hi)
  {
    var o, r := t.OutsideNs(), t.smoothCount;
    var lo, hi := CeilDiv(a * r, o), CeilDiv((a + w) * r, o);
    assert (a + w) * r == a * r + w * r;
    CeilShift(a * r, w * r, o);
    MulMono(a + w, o, r);
    CeilAtMost((a + w) * r, o, r);
    CeilBrackets(a * r, o);
    MulCancel(-1, lo, o);
    FloorAtLeast(w * r, o, 0);
    CeilBrackets(w * r, o);
    MulCancel(-1, CeilDiv(w * r, o), o);
    forall i: nat | i < r ensures a <= Compressed(t, i) < a + w <==> lo <= i < hi {
      CompressedReaches(t, i, a);
      CompressedReaches(t, i, a + w);
    }
  }

  /** Smooth spacing is even: a window of w nanoseconds that stays clear of the burst second
      and of the drain second holds the floor or the ceiling of its share of the smooth events. */
  lemma SpacingIsEven(t: Timing, x: nat, w: nat)
    requires t.Valid() && 0 < t.smoothCount
    requires x + w <= t.burstStartNs
             || (t.burstStartNs + ONE_SECOND_NS <= x && x + w <= t.durationNs - ONE_SECOND_NS)
    ensures var share := w * t.smoothCount;
            |DueWithin(t, x, w)| == share / t.OutsideNs() || |DueWithin(t, x, w)| == CeilDiv(share, t.OutsideNs())
  {
    var a := if x + w <= t.burstStartNs then x else x - ONE_SECOND_NS;
    WindowIsRun(t, a, w);
    var lo := CeilDiv(a * t.smoothCount, t.OutsideNs());
    var hi := CeilDiv((a + w) * t.smoothCount, t.OutsideNs());
    IntervalSize(lo, hi);
    assert DueWithin(t, x, w) == Interval(lo, hi);
  }
}
