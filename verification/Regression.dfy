/** The least-squares trend of resident memory over the sampling rounds. */
module Regression {
  import opened Arithmetic

  datatype Point = Point(x: int, y: int)

  function SumX(p: seq<Point>): int { if p == [] then 0 else SumX(p[..|p| - 1]) + p[|p| - 1].x }

  function SumY(p: seq<Point>): int { if p == [] then 0 else SumY(p[..|p| - 1]) + p[|p| - 1].y }

  function SumXY(p: seq<Point>): int {
    if p == [] then 0 else SumXY(p[..|p| - 1]) + p[|p| - 1].x * p[|p| - 1].y
  }

  function Numerator(p: seq<Point>): int { |p| * SumXY(p) - SumX(p) * SumY(p) }

  /** The denominator is the numerator with every y replaced by x. */
  function Diagonal(p: seq<Point>): (r: seq<Point>)
    ensures |r| == |p| && forall i :: 0 <= i < |p| ==> r[i] == Point(p[i].x, p[i].x)
  {
    seq(|p|, i requires 0 <= i < |p| => Point(p[i].x, p[i].x))
  }

  function SumXX(p: seq<Point>): int {
    if p == [] then 0 else SumXX(p[..|p| - 1]) + p[|p| - 1].x * p[|p| - 1].x
  }

  function Denominator(p: seq<Point>): int { |p| * SumXX(p) - SumX(p) * SumX(p) }

  /** Times are measured from the first point. */
  function Shifted(p: seq<Point>, origin: int): (r: seq<Point>)
    ensures |r| == |p| && forall i :: 0 <= i < |p| ==> r[i] == Point(p[i].x - origin, p[i].y)
  {
    seq(|p|, i requires 0 <= i < |p| => Point(p[i].x - origin, p[i].y))
  }

  const NS_PER_MINUTE := 60_000_000_000

  /** The exact slope before it is rounded to fifty digits; `Refused` is the error about the denominator. */
  datatype Trend = NoTrend | Refused | Slope(numerator: nat, denominator: nat)

  function RssTrend(points: seq<Point>): Trend {
    if |points| < 2 then NoTrend
    else
      var p := Shifted(points, points[0].x);
      var n, d := Numerator(p), Denominator(p);
      if d <= 0 then Refused
      else if n <= 0 then Slope(0, 1)
      else Slope(n * NS_PER_MINUTE, d)
  }

  // ----- Sums over pairs -------------------------------------------------------------------------

  /** The products of differences of one point with every point of a sequence. */
  function CrossWith(p: seq<Point>, q: Point): int {
    if p == [] then 0
    else CrossWith(p[..|p| - 1], q) + (q.x - p[|p| - 1].x) * (q.y - p[|p| - 1].y)
  }

  /** The products of differences over all pairs of points. */
  function PairCross(p: seq<Point>): int {
    if p == [] then 0 else PairCross(p[..|p| - 1]) + CrossWith(p[..|p| - 1], p[|p| - 1])
  }

  lemma OneMoreFactor(n: int, xy: int, sx: int, sy: int, lx: int, ly: int, x: int, y: int)
    ensures (xy + n * (x * y) - sx * y - x * sy) + (x - lx) * (y - ly)
         == (xy + lx * ly) + (n + 1) * (x * y) - (sx + lx) * y - x * (sy + ly)
  {
  }

  lemma {:induction false} CrossWithExpands(p: seq<Point>, q: Point)
    ensures CrossWith(p, q) == SumXY(p) + |p| * (q.x * q.y) - SumX(p) * q.y - q.x * SumY(p)
  {
    if p != [] {
      var init, last := p[..|p| - 1], p[|p| - 1];
      CrossWithExpands(init, q);
      OneMoreFactor(|init|, SumXY(init), SumX(init), SumY(init), last.x, last.y, q.x, q.y);
    }
  }

  lemma OneMorePoint(n: int, xy: int, sx: int, sy: int, x: int, y: int)
    ensures (n + 1) * (xy + x * y) - (sx + x) * (sy + y) == (n * xy - sx * sy) + (xy + n * (x * y) - sx * y - x * sy)
  {
  }

  /** The numerator is the sum over all pairs of the products of their differences. */
  lemma {:induction false} NumeratorIsPairs(p: seq<Point>)
    ensures Numerator(p) == PairCross(p)
  {
    if p != [] {
      var init, last := p[..|p| - 1], p[|p| - 1];
      NumeratorIsPairs(init);
      CrossWithExpands(init, last);
      OneMorePoint(|init|, SumXY(init), SumX(init), SumY(init), last.x, last.y);
    }
  }

  lemma {:induction false} DiagonalSums(p: seq<Point>)
    ensures SumX(Diagonal(p)) == SumX(p) == SumY(Diagonal(p)) && SumXY(Diagonal(p)) == SumXX(p)
  {
    if p != [] {
      DiagonalSums(p[..|p| - 1]);
      assert Diagonal(p)[..|p| - 1] == Diagonal(p[..|p| - 1]);
    }
  }

  /** The denominator is the sum of the squared differences over all pairs. */
  lemma DenominatorIsPairs(p: seq<Point>)
    ensures Denominator(p) == PairCross(Diagonal(p))
  {
    DiagonalSums(p);
    NumeratorIsPairs(Diagonal(p));
  }

  lemma {:induction false} CrossWithShifts(p: seq<Point>, q: Point, origin: int)
    ensures CrossWith(Shifted(p, origin), Point(q.x - origin, q.y)) == CrossWith(p, q)
  {
    if p != [] {
      CrossWithShifts(p[..|p| - 1], q, origin);
      assert Shifted(p, origin)[..|p| - 1] == Shifted(p[..|p| - 1], origin);
    }
  }

  lemma {:induction false} PairCrossShifts(p: seq<Point>, origin: int)
    ensures PairCross(Shifted(p, origin)) == PairCross(p)
  {
    if p != [] {
      PairCrossShifts(p[..|p| - 1], origin);
      CrossWithShifts(p[..|p| - 1], p[|p| - 1], origin);
      assert Shifted(p, origin)[..|p| - 1] == Shifted(p[..|p| - 1], origin);
    }
  }

  lemma {:induction false} CrossWithDiagonalShifts(p: seq<Point>, q: Point, origin: int)
    ensures CrossWith(Diagonal(Shifted(p, origin)), Point(q.x - origin, q.x - origin)) == CrossWith(Diagonal(p), Point(q.x, q.x))
  {
    if p != [] {
      var init := p[..|p| - 1];
      CrossWithDiagonalShifts(init, q, origin);
      assert Diagonal(Shifted(p, origin))[..|p| - 1] == Diagonal(Shifted(init, origin));
      assert Diagonal(p)[..|p| - 1] == Diagonal(init);
    }
  }

  lemma {:induction false} DiagonalShifts(p: seq<Point>, origin: int)
    ensures PairCross(Diagonal(Shifted(p, origin))) == PairCross(Diagonal(p))
  {
    if p != [] {
      var init := p[..|p| - 1];
      DiagonalShifts(init, origin);
      CrossWithDiagonalShifts(init, p[|p| - 1], origin);
      assert Diagonal(Shifted(p, origin))[..|p| - 1] == Diagonal(Shifted(init, origin));
      assert Diagonal(p)[..|p| - 1] == Diagonal(init);
    }
  }

  /** The slope does not depend on where time starts. */
  lemma OriginDoesNotMatter(p: seq<Point>, origin: int)
    ensures Numerator(Shifted(p, origin)) == Numerator(p) && Denominator(Shifted(p, origin)) == Denominator(p)
  {
    NumeratorIsPairs(Shifted(p, origin));
    NumeratorIsPairs(p);
    PairCrossShifts(p, origin);
    DenominatorIsPairs(Shifted(p, origin));
    DenominatorIsPairs(p);
    DiagonalShifts(p, origin);
  }

  // ----- The slope between its extremes --------------------------------------------------------------

  ghost predicate TimesIncrease(p: seq<Point>) {
    forall i, j :: 0 <= i < j < |p| ==> p[i].x < p[j].x
  }

  /** a * u is below b * v: the ratio v / u of positive numbers exceeds a / b. */
  ghost predicate Under(a: int, u: int, b: int, v: int) { a * u < b * v }

  ghost predicate NotOver(a: int, u: int, b: int, v: int) { a * u <= b * v }

  /** The pair that ends in point i is steeper than a / b. */
  ghost predicate Steeper(p: seq<Point>, i: nat, a: int, b: int)
    requires 0 < i < |p|
  {
    Under(a, p[i].x - p[i - 1].x, b, p[i].y - p[i - 1].y)
  }

  ghost predicate NeighboursSteeper(p: seq<Point>, a: int, b: int) {
    forall i :: 0 < i < |p| ==> Steeper(p, i, a, b)
  }

  lemma UnderAdds(a: int, b: int, u: int, v: int, s: int, t: int)
    requires NotOver(a, u, b, v) && Under(a, s, b, t)
    ensures Under(a, u + s, b, v + t)
  {
    assert a * (u + s) == a * u + a * s && b * (v + t) == b * v + b * t;
  }

  /** Scaling a strict comparison by a positive difference. */
  lemma UnderScales(a: int, b: int, dx: int, dy: int)
    requires 0 < dx && Under(a, dx, b, dy)
    ensures Under(a, dx * dx, b, dx * dy)
  {
    assert (a * dx) * dx < (b * dy) * dx;
    assert (a * dx) * dx == a * (dx * dx) && (b * dy) * dx == b * (dx * dy);
  }

  lemma UnderIsNotOver(a: int, u: int, b: int, v: int)
    requires Under(a, u, b, v)
    ensures NotOver(a, u, b, v)
  {
  }

  lemma {:induction false} PairsSteeper(p: seq<Point>, a: int, b: int, i: nat, j: nat)
    requires NeighboursSteeper(p, a, b) && i < j < |p|
    ensures Under(a, p[j].x - p[i].x, b, p[j].y - p[i].y)
    decreases j
  {
    hide Under, NotOver;
    assert Steeper(p, j, a, b);
    if i < j - 1 {
      PairsSteeper(p, a, b, i, j - 1);
      UnderIsNotOver(a, p[j - 1].x - p[i].x, b, p[j - 1].y - p[i].y);
      UnderAdds(a, b, p[j - 1].x - p[i].x, p[j - 1].y - p[i].y, p[j].x - p[j - 1].x, p[j].y - p[j - 1].y);
    }
  }

  /** The point is later than every other one, and steeper from each of them than a / b. */
  ghost predicate SteeperFrom(p: seq<Point>, q: Point, a: int, b: int) {
    forall i :: 0 <= i < |p| ==> p[i].x < q.x && Under(a, q.x - p[i].x, b, q.y - p[i].y)
  }

  lemma NothingIsLevel(a: int, b: int)
    ensures NotOver(a, 0, b, 0)
  {
  }

  lemma {:induction false} CrossWithSteeper(p: seq<Point>, q: Point, a: int, b: int)
    requires SteeperFrom(p, q, a, b)
    ensures NotOver(a, CrossWith(Diagonal(p), Point(q.x, q.x)), b, CrossWith(p, q))
    ensures p != [] ==> Under(a, CrossWith(Diagonal(p), Point(q.x, q.x)), b, CrossWith(p, q))
  {
    hide Under, NotOver;
    if p == [] {
      NothingIsLevel(a, b);
    } else {
      var init, last := p[..|p| - 1], p[|p| - 1];
      CrossWithSteeper(init, q, a, b);
      assert Diagonal(p)[..|p| - 1] == Diagonal(init);
      var dx, dy := q.x - last.x, q.y - last.y;
      UnderScales(a, b, dx, dy);
      UnderAdds(a, b, CrossWith(Diagonal(init), Point(q.x, q.x)), CrossWith(init, q), dx * dx, dx * dy);
      UnderIsNotOver(a, CrossWith(Diagonal(p), Point(q.x, q.x)), b, CrossWith(p, q));
    }
  }

  lemma SteeperFromPrefix(p: seq<Point>, a: int, b: int, k: nat)
    requires TimesIncrease(p) && NeighboursSteeper(p, a, b) && k < |p|
    ensures SteeperFrom(p[..k], p[k], a, b)
  {
    hide Under, Steeper;
    forall i | 0 <= i < k ensures Under(a, p[k].x - p[i].x, b, p[k].y - p[i].y) {
      PairsSteeper(p, a, b, i, k);
    }
  }

  lemma PrefixSteeper(p: seq<Point>, a: int, b: int, k: nat)
    requires NeighboursSteeper(p, a, b) && k <= |p|
    ensures NeighboursSteeper(p[..k], a, b)
  {
    hide Under;
    forall i | 0 < i < k ensures Steeper(p[..k], i, a, b) {
      assert Steeper(p, i, a, b);
    }
  }

  lemma {:induction false} AllSteeper(p: seq<Point>, a: int, b: int)
    requires TimesIncrease(p) && NeighboursSteeper(p, a, b)
    ensures NotOver(a, PairCross(Diagonal(p)), b, PairCross(p))
    ensures 2 <= |p| ==> Under(a, PairCross(Diagonal(p)), b, PairCross(p))
  {
    hide Under, NotOver, CrossWith, NeighboursSteeper, SteeperFrom;
    NothingIsLevel(a, b);
    if p != [] {
      var init, last := p[..|p| - 1], p[|p| - 1];
      SteeperFromPrefix(p, a, b, |p| - 1);
      PrefixSteeper(p, a, b, |p| - 1);
      AllSteeper(init, a, b);
      CrossWithSteeper(init, last, a, b);
      assert Diagonal(p)[..|p| - 1] == Diagonal(init);
      var u, v := CrossWith(Diagonal(init), Point(last.x, last.x)), CrossWith(init, last);
      if init == [] {
        NoCross(last);
      } else {
        UnderAdds(a, b, PairCross(Diagonal(init)), PairCross(init), u, v);
        UnderIsNotOver(a, PairCross(Diagonal(p)), b, PairCross(p));
      }
    }
  }

  lemma NoCross(q: Point)
    ensures CrossWith([], q) == 0
    ensures CrossWith(Diagonal([]), Point(q.x, q.x)) == 0
  {
  }

  /** When every neighbouring pair is steeper than a / b, so is the least-squares line. */
  lemma LineIsSteeper(p: seq<Point>, a: int, b: int)
    requires TimesIncrease(p) && 2 <= |p| && NeighboursSteeper(p, a, b)
    ensures Under(a, Denominator(p), b, Numerator(p))
  {
    hide NeighboursSteeper, Numerator, Denominator, Under;
    AllSteeper(p, a, b);
    NumeratorIsPairs(p);
    DenominatorIsPairs(p);
  }

  /** For strictly increasing times the denominator is positive. */
  lemma DenominatorIsPositive(p: seq<Point>)
    requires TimesIncrease(p) && 2 <= |p|
    ensures 0 < Denominator(p)
  {
    var q := Diagonal(p);
    assert TimesIncrease(q);
    assert forall i :: 0 < i < |q| ==> Steeper(q, i, 0, 1);
    assert NeighboursSteeper(q, 0, 1);
    LineIsSteeper(q, 0, 1);
    DiagonalSums(p);
  }

  lemma NotUnderItself(n: int, d: int)
    ensures !Under(n, d, d, n)
  {
  }

  /** Not every neighbouring pair is steeper than the line. */
  lemma NotSteeper(p: seq<Point>, n: int, d: int) returns (i: nat)
    requires TimesIncrease(p) && 2 <= |p| && n == Numerator(p) && d == Denominator(p)
    ensures 0 < i < |p| && !Steeper(p, i, n, d)
  {
    if NeighboursSteeper(p, n, d) {
      hide NeighboursSteeper, Numerator, Denominator, Under;
      LineIsSteeper(p, n, d);
      NotUnderItself(n, d);
      assert false;
    }
    i :| 0 < i < |p| && !Steeper(p, i, n, d);
  }

  /** The least-squares slope lies between the slopes of two neighbouring pairs of rounds. */
  lemma SlopeBetweenNeighbours(p: seq<Point>) returns (low: nat, high: nat)
    requires TimesIncrease(p) && 2 <= |p|
    ensures 0 < low < |p| && 0 < high < |p|
    ensures (p[low].y - p[low - 1].y) * Denominator(p) <= Numerator(p) * (p[low].x - p[low - 1].x)
    ensures Numerator(p) * (p[high].x - p[high - 1].x) <= (p[high].y - p[high - 1].y) * Denominator(p)
  {
    var n, d := Numerator(p), Denominator(p);
    hide Numerator, Denominator;
    low := NotSteeper(p, n, d);
    high := NotShallower(p, n, d);
  }

  /** The points turned upside down. */
  function Mirrored(p: seq<Point>): (r: seq<Point>)
    ensures |r| == |p| && forall i :: 0 <= i < |p| ==> r[i] == Point(p[i].x, 0 - p[i].y)
  {
    seq(|p|, i requires 0 <= i < |p| => Point(p[i].x, 0 - p[i].y))
  }

  lemma {:induction false} MirrorSums(p: seq<Point>)
    ensures SumX(Mirrored(p)) == SumX(p) && SumY(Mirrored(p)) == 0 - SumY(p)
    ensures SumXY(Mirrored(p)) == 0 - SumXY(p) && SumXX(Mirrored(p)) == SumXX(p)
  {
    if p != [] {
      var last := p[|p| - 1];
      MirrorSums(p[..|p| - 1]);
      assert Mirrored(p)[..|p| - 1] == Mirrored(p[..|p| - 1]);
      assert last.x * (0 - last.y) == 0 - last.x * last.y;
    }
  }

  lemma OppositeSigns(n: int, sxy: int, sx: int, sy: int)
    ensures n * (0 - sxy) - sx * (0 - sy) == 0 - (n * sxy - sx * sy)
  {
  }

  lemma MirrorNumerator(p: seq<Point>)
    ensures Numerator(Mirrored(p)) == 0 - Numerator(p) && Denominator(Mirrored(p)) == Denominator(p)
  {
    MirrorSums(p);
    hide SumX, SumY, SumXY, SumXX;
    OppositeSigns(|p|, SumXY(p), SumX(p), SumY(p));
  }

  lemma NotShallower(p: seq<Point>, n: int, d: int) returns (i: nat)
    requires TimesIncrease(p) && 2 <= |p| && n == Numerator(p) && d == Denominator(p)
    ensures 0 < i < |p| && n * (p[i].x - p[i - 1].x) <= (p[i].y - p[i - 1].y) * d
  {
    MirrorNumerator(p);
    hide Numerator, Denominator, Under;
    i := NotSteeper(Mirrored(p), 0 - n, d);
    Unmirror(p[i].x - p[i - 1].x, p[i].y - p[i - 1].y, 0 - p[i].y - (0 - p[i - 1].y), n, d);
  }

  lemma Unmirror(dx: int, dy: int, mirrored: int, n: int, d: int)
    requires mirrored == 0 - dy && !Under(0 - n, dx, d, mirrored)
    ensures n * dx <= dy * d
  {
  }

  // ----- The trend of strictly increasing rounds ----------------------------------------------------------

  /** With at least two rounds at strictly increasing times the error about the denominator cannot be
      raised, and the trend is the clamped slope of the unshifted points. */
  lemma TrendNeverRefused(p: seq<Point>)
    requires TimesIncrease(p) && 2 <= |p|
    ensures 0 < Denominator(p)
    ensures RssTrend(p) == if Numerator(p) <= 0 then Slope(0, 1) else Slope(Numerator(p) * 60_000_000_000, Denominator(p))
  {
    DenominatorIsPositive(p);
    OriginDoesNotMatter(p, p[0].x);
  }

  /** When every neighbouring pair is at least level, the line does not fall. */
  lemma GrowingMemoryNotClamped(p: seq<Point>)
    requires TimesIncrease(p) && 2 <= |p|
    requires forall i :: 0 < i < |p| ==> p[i - 1].y <= p[i].y
    ensures 0 <= Numerator(p)
  {
    DenominatorIsPositive(p);
    var i := NotSteeper(p, Numerator(p), Denominator(p));
    var dx, dy := p[i].x - p[i - 1].x, p[i].y - p[i - 1].y;
    LevelLine(dx, dy, Numerator(p), Denominator(p));
  }

  lemma LevelLine(dx: int, dy: int, n: int, d: int)
    requires 0 < dx && 0 <= dy && 0 < d && dy * d <= n * dx
    ensures 0 <= n
  {
    MulMono(0, dy, d);
    if n < 0 { MulMono(n, 0 - 1, dx); }
  }
}
