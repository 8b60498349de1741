/** Polling intervals for one REST endpoint: how far the flexible demands must be stretched so
    that every demand together stays inside the endpoint's token rate. */
module Intervals {
  import opened Arithmetic
  import opened Workload
  import opened Fractions
  import opened Capacity
  import Texts

  /** One polling cohort: its instruments are polled together at one interval. Each poll of an
      instrument takes jobsPerInstrument jobs of the given token cost. */
  datatype IntervalDemand = IntervalDemand(
    market: Market,
    depth: nat,
    keys: seq<nat>,
    requestedNs: nat,
    failPolicy: bool,
    jobsPerInstrument: nat,
    cost: Fraction)
  {
    ghost predicate Valid() {
      keys != [] && 0 < requestedNs && 0 < jobsPerInstrument && cost.Valid() && 0 < cost.numerator
    }

    function Jobs(): nat { |keys| * jobsPerInstrument }
  }

  ghost predicate ValidDemandsAt(demands: seq<IntervalDemand>) {
    forall i :: 0 <= i < |demands| ==> demands[i].Valid()
  }

  /** Tokens that one round of polls costs, in billionths of a token-second per second. */
  ghost function Weight(d: IntervalDemand): (w: real)
    requires d.Valid()
    ensures 0.0 <= w
  {
    SignOfValue(d.cost);
    var w := d.Jobs() as real * d.cost.Value() * 1_000_000_000.0;
    assert 0.0 <= d.Jobs() as real * d.cost.Value();
    w
  }

  /** The tokens of a number of jobs, one after the other. */
  ghost function JobTokens(jobs: nat, cost: real): real {
    if jobs == 0 then 0.0 else cost + JobTokens(jobs - 1, cost)
  }

  /** The tokens of one round of polls: for each instrument all its jobs. */
  ghost function RoundTokens(keys: seq<nat>, jobs: nat, cost: real): real {
    if keys == [] then 0.0 else JobTokens(jobs, cost) + RoundTokens(keys[1..], jobs, cost)
  }

  lemma {:induction false} JobTokensAre(jobs: nat, cost: real)
    ensures JobTokens(jobs, cost) == jobs as real * cost
  {
    if jobs > 0 { JobTokensAre(jobs - 1, cost); }
  }

  lemma {:induction false} RoundTokensAre(keys: seq<nat>, jobs: nat, cost: real)
    ensures RoundTokens(keys, jobs, cost) == (|keys| * jobs) as real * cost
  {
    if keys != [] {
      RoundTokensAre(keys[1..], jobs, cost);
      JobTokensAre(jobs, cost);
      assert |keys| * jobs == jobs + |keys[1..]| * jobs;
      assert (|keys| * jobs) as real == jobs as real + (|keys[1..]| * jobs) as real;
    }
  }

  /** A demand's weight counts every job of every instrument; polled every second it takes the tokens of one round
      a second. */
  lemma WeightIsRound(d: IntervalDemand)
    requires d.Valid()
    ensures Weight(d) / 1_000_000_000.0 == RoundTokens(d.keys, d.jobsPerInstrument, d.cost.Value())
  {
    RoundTokensAre(d.keys, d.jobsPerInstrument, d.cost.Value());
  }

  /** Tokens per second at the requested interval. */
  function Rate(d: IntervalDemand): (r: Fraction)
    requires d.Valid()
    ensures r.Valid() && r.Value() == Weight(d) / d.requestedNs as real
  {
    Divide(Multiply(Multiply(FromInt(d.Jobs()), d.cost), FromInt(1_000_000_000)), FromInt(d.requestedNs))
  }

  /** The exact rate of the demands with one policy. */
  function SumRates(demands: seq<IntervalDemand>, failPolicy: bool): (r: Fraction)
    requires ValidDemandsAt(demands)
    ensures r.Valid() && r.Value() == RateOf(demands, failPolicy)
  {
    if demands == [] then FromInt(0)
    else
      var rest := SumRates(demands[1..], failPolicy);
      if demands[0].failPolicy == failPolicy then Add(Rate(demands[0]), rest) else rest
  }

  ghost function RateOf(demands: seq<IntervalDemand>, failPolicy: bool): real
    requires ValidDemandsAt(demands)
  {
    if demands == [] then 0.0
    else (if demands[0].failPolicy == failPolicy then Weight(demands[0]) / demands[0].requestedNs as real else 0.0)
         + RateOf(demands[1..], failPolicy)
  }

  /** Tokens per second that the demands take when polled at the given intervals. */
  ghost function TokenRate(demands: seq<IntervalDemand>, intervals: seq<int>): real
    requires ValidDemandsAt(demands) && |intervals| == |demands|
    requires forall i :: 0 <= i < |intervals| ==> 0 < intervals[i]
  {
    if demands == [] then 0.0
    else Weight(demands[0]) / intervals[0] as real + TokenRate(demands[1..], intervals[1..])
  }

  // ----- The stretch --------------------------------------------------------------------------

  /** The common stretch of the flexible demands: one when they fit, else the exact overload. */
  function Stretch(flexibleRequired: Fraction, remaining: Fraction): (s: Fraction)
    requires flexibleRequired.Valid() && remaining.Valid() && 0 < remaining.numerator
    ensures s.Valid() && 0 < s.numerator && 1.0 <= s.Value()
    ensures flexibleRequired.Value() / s.Value() <= remaining.Value()
  {
    var ratio := Divide(flexibleRequired, remaining);
    LessIsOrder(FromInt(1), ratio);
    SignOfValue(remaining);
    StretchSuffices(flexibleRequired.Value(), remaining.Value());
    var s := if Less(FromInt(1), ratio) then ratio else FromInt(1);
    SignOfValue(s);
    s
  }

  lemma StretchSuffices(need: real, have: real)
    requires 0.0 < have
    ensures need / have <= 1.0 ==> need / 1.0 <= have
    ensures 1.0 < need / have ==> need / (need / have) == have
  {
    var x := need / have;
    assert x * have == need;
    if 1.0 < x {
      assert need == have * x;
      RatioIs(need, x, have);
    } else {
      assert x * have <= 1.0 * have;
    }
  }

  lemma LeastStretch(need: real, have: real, other: real)
    requires 0.0 < have && 1.0 <= other && need / other <= have
    ensures need / have <= other
  {
    var q, x := need / other, need / have;
    assert q * other == need && x * have == need;
    RealMulMonoLe(q, have, other);
    RealMulCancelLe(x, other, have);
  }

  /** No smaller factor would do: any stretch of at least one under which the flexible demands
      fit is at least the chosen one. */
  lemma StretchIsLeast(flexibleRequired: Fraction, remaining: Fraction, other: real)
    requires flexibleRequired.Valid() && remaining.Valid() && 0 < remaining.numerator
    requires 1.0 <= other && flexibleRequired.Value() / other <= remaining.Value()
    ensures Stretch(flexibleRequired, remaining).Value() <= other
  {
    SignOfValue(remaining);
    LeastStretch(flexibleRequired.Value(), remaining.Value(), other);
  }

  /** The interval a demand gets: its requested one rounded up after stretching. */
  function Scaled(d: IntervalDemand, stretch: Fraction): (f: Fraction)
    requires stretch.Valid()
    ensures f.Valid()
    ensures f.Value() == d.requestedNs as real * (if d.failPolicy then 1.0 else stretch.Value())
  {
    if d.failPolicy then Multiply(FromInt(d.requestedNs), FromInt(1))
    else Multiply(FromInt(d.requestedNs), stretch)
  }

  lemma ScaledIsAtLeastRequested(d: IntervalDemand, stretch: Fraction)
    requires d.Valid() && stretch.Valid() && 1.0 <= stretch.Value()
    ensures d.requestedNs <= Ceiling(Scaled(d, stretch))
    ensures d.failPolicy ==> Ceiling(Scaled(d, stretch)) == d.requestedNs
  {
    hide Scaled, Ceiling, Fraction.Value;
    var f := Scaled(d, stretch);
    var r := d.requestedNs as real;
    RealMulMonoLe(1.0, stretch.Value(), r);
    CeilingReaches(f, d.requestedNs);
    CeilingReaches(f, d.requestedNs - 1);
    assert (d.requestedNs - 1) as real == r - 1.0;
  }

  lemma SlowerPollsCostLess(w: real, a: real, b: real)
    requires 0.0 <= w && 0.0 < a <= b
    ensures w / b <= w / a
  {
    var x, y := w / a, w / b;
    assert x * a == w && y * b == w;
    RealMulCancelLe(0.0, x, a);
    RealMulMonoLe(a, b, x);
    RealMulCancelLe(y, x, b);
  }

  lemma StretchedRate(w: real, r: real, s: real, v: real)
    requires 0.0 < r && 0.0 < s && v == r * s
    ensures 0.0 < v && w / v == (w / r) / s
  {
    var x := w / r;
    var y := x / s;
    assert y * s == x && x * r == w;
    assert y * (r * s) == (y * s) * r;
    assert 0.0 < r * s;
    RatioIs(w, v, y);
  }

  /** At its stretched interval, rounding included, a demand takes at most its share. */
  lemma DemandShare(d: IntervalDemand, stretch: Fraction)
    requires d.Valid() && stretch.Valid() && 1.0 <= stretch.Value()
    ensures 0 < Ceiling(Scaled(d, stretch))
    ensures var rate := Weight(d) / d.requestedNs as real;
            Weight(d) / Ceiling(Scaled(d, stretch)) as real <= if d.failPolicy then rate else rate / stretch.Value()
  {
    ScaledIsAtLeastRequested(d, stretch);
    if !d.failPolicy {
      hide Weight, Scaled, Ceiling, Fraction.Value;
      var f, c := Scaled(d, stretch), Ceiling(Scaled(d, stretch));
      CeilingReaches(f, c);
      StretchedRate(Weight(d), d.requestedNs as real, stretch.Value(), f.Value());
      SlowerPollsCostLess(Weight(d), f.Value(), c as real);
    }
  }

  function EffectiveIntervals(demands: seq<IntervalDemand>, stretch: Fraction): (intervals: seq<int>)
    requires stretch.Valid()
    ensures |intervals| == |demands|
    ensures forall i :: 0 <= i < |demands| ==> intervals[i] == Ceiling(Scaled(demands[i], stretch))
  {
    seq(|demands|, i requires 0 <= i < |demands| => Ceiling(Scaled(demands[i], stretch)))
  }

  lemma RealDistribute(a: real, b: real, s: real)
    requires 0.0 < s
    ensures (a + b) / s == a / s + b / s
  {
  }

  lemma {:induction false} StretchedTokenRate(demands: seq<IntervalDemand>, stretch: Fraction)
    requires ValidDemandsAt(demands) && stretch.Valid() && 1.0 <= stretch.Value()
    ensures forall i :: 0 <= i < |demands| ==> 0 < EffectiveIntervals(demands, stretch)[i]
    ensures TokenRate(demands, EffectiveIntervals(demands, stretch))
         <= RateOf(demands, true) + RateOf(demands, false) / stretch.Value()
  {
    forall i | 0 <= i < |demands| ensures 0 < EffectiveIntervals(demands, stretch)[i] {
      DemandShare(demands[i], stretch);
    }
    if demands != [] {
      StretchedTokenRate(demands[1..], stretch);
      DemandShare(demands[0], stretch);
      assert EffectiveIntervals(demands, stretch)[1..] == EffectiveIntervals(demands[1..], stretch);
      var rate := Weight(demands[0]) / demands[0].requestedNs as real;
      if !demands[0].failPolicy { RealDistribute(rate, RateOf(demands[1..], false), stretch.Value()); }
    }
  }

  /** The whole endpoint stays inside its token rate: the fail-policy demands at their requested
      intervals and the flexible demands at their stretched ones, rounded to whole nanoseconds. */
  lemma EndpointWithinBudget(demands: seq<IntervalDemand>, available: Fraction, stretch: Fraction)
    requires ValidDemandsAt(demands) && stretch.Valid() && 1.0 <= stretch.Value()
    requires available.Valid()
    requires RateOf(demands, false) / stretch.Value() <= available.Value() - RateOf(demands, true)
    ensures forall i :: 0 <= i < |demands| ==> 0 < EffectiveIntervals(demands, stretch)[i]
    ensures TokenRate(demands, EffectiveIntervals(demands, stretch)) <= available.Value()
  {
    StretchedTokenRate(demands, stretch);
  }

  // ----- Which instrument gives way ---------------------------------------------------------

  datatype Books = Books(enabled: bool, depth: nat, requestedNs: nat, failPolicy: bool)

  /** A selected instrument with its effective configuration. */
  datatype Instrument = Instrument(candidate: Candidate, capacityFail: bool, books: Books)

  /** The selected instruments of the markets, by market and instrument key. */
  type Catalog = map<(Market, nat), Instrument>

  /** Lexicographic eviction order over markets; the market name decides before the key. */
  datatype Eviction = Eviction(level: int, weight: int, market: nat, key: nat)

  /** Position of a market's name in text order. */
  function MarketTextRank(m: Market): nat {
    match m
    case Perpetual => 0
    case Spot => 1
  }

  function SelectionEvictionOrder(market: Market, i: Instrument, key: nat): Eviction {
    var rank := EvictionOrder(i.candidate);
    Eviction(rank.level, rank.weight, MarketTextRank(market), key)
  }

  predicate EvictionLess(a: Eviction, b: Eviction) {
    || a.level < b.level
    || (a.level == b.level && a.weight < b.weight)
    || (a.level == b.level && a.weight == b.weight && a.market < b.market)
    || (a.level == b.level && a.weight == b.weight && a.market == b.market && a.key < b.key)
  }

  /** Only an instrument that is neither fixed nor under a fail policy may be rejected. */
  predicate Evictable(catalog: Catalog, market: Market, key: nat) {
    (market, key) in catalog
    && catalog[(market, key)].candidate.priority != Fixed && !catalog[(market, key)].capacityFail
  }

  ghost predicate Polled(demands: seq<IntervalDemand>, market: Market, key: nat) {
    exists i :: 0 <= i < |demands| && demands[i].market == market && key in demands[i].keys
  }

  function OrderIn(catalog: Catalog, market: Market, key: nat): Eviction
    requires (market, key) in catalog
  {
    SelectionEvictionOrder(market, catalog[(market, key)], key)
  }

  /** The candidate is evictable and polled, and no other evictable polled instrument goes first. */
  ghost predicate FirstToGo(catalog: Catalog, demands: seq<IntervalDemand>, market: Market, key: nat) {
    && Polled(demands, market, key) && Evictable(catalog, market, key)
    && forall m, k: nat :: Polled(demands, m, k) && Evictable(catalog, m, k) ==>
         !EvictionLess(OrderIn(catalog, m, k), OrderIn(catalog, market, key))
  }

  ghost predicate NothingToGo(catalog: Catalog, demands: seq<IntervalDemand>) {
    forall m, k: nat :: Polled(demands, m, k) ==> !Evictable(catalog, m, k)
  }

  /** The better of a candidate so far and the keys of one more cohort. */
  method BestOf(catalog: Catalog, d: IntervalDemand, ghost before: seq<IntervalDemand>, best: Option<(Market, nat)>)
    returns (r: Option<(Market, nat)>)
    requires best.None? ==> NothingToGo(catalog, before)
    requires best.Some? ==> FirstToGo(catalog, before, best.value.0, best.value.1)
    ensures r.None? ==> NothingToGo(catalog, before + [d])
    ensures r.Some? ==> FirstToGo(catalog, before + [d], r.value.0, r.value.1)
  {
    r := best;
    PolledStart(before, d);
    for k := 0 to |d.keys|
      invariant r.None? ==> NothingToGo(catalog, before + [d.(keys := d.keys[..k])])
      invariant r.Some? ==> FirstToGo(catalog, before + [d.(keys := d.keys[..k])], r.value.0, r.value.1)
    {
      var key := d.keys[k];
      PolledGrows(before, d, k);
      if Evictable(catalog, d.market, key) {
        if r.None? || EvictionLess(OrderIn(catalog, d.market, key), OrderIn(catalog, r.value.0, r.value.1)) {
          r := Some((d.market, key));
        }
      }
    }
    assert d.(keys := d.keys[..|d.keys|]) == d;
  }

  lemma PolledSnoc(before: seq<IntervalDemand>, d: IntervalDemand, m: Market, key: nat)
    ensures Polled(before + [d], m, key) <==> Polled(before, m, key) || (d.market == m && key in d.keys)
  {
    var all := before + [d];
    if Polled(before, m, key) {
      var i :| 0 <= i < |before| && before[i].market == m && key in before[i].keys;
      assert all[i].market == m;
    }
    assert all[|before|] == d;
  }

  lemma PolledStart(before: seq<IntervalDemand>, d: IntervalDemand)
    ensures forall m, key: nat :: Polled(before + [d.(keys := d.keys[..0])], m, key) <==> Polled(before, m, key)
  {
    forall m, key: nat ensures Polled(before + [d.(keys := d.keys[..0])], m, key) <==> Polled(before, m, key) {
      PolledSnoc(before, d.(keys := d.keys[..0]), m, key);
    }
  }

  lemma PolledGrows(before: seq<IntervalDemand>, d: IntervalDemand, k: nat)
    requires k < |d.keys|
    ensures forall m, key: nat :: Polled(before + [d.(keys := d.keys[..k + 1])], m, key)
              <==> Polled(before + [d.(keys := d.keys[..k])], m, key) || (m, key) == (d.market, d.keys[k])
  {
    forall m, key: nat ensures Polled(before + [d.(keys := d.keys[..k + 1])], m, key)
              <==> Polled(before + [d.(keys := d.keys[..k])], m, key) || (m, key) == (d.market, d.keys[k])
    {
      PolledSnoc(before, d.(keys := d.keys[..k + 1]), m, key);
      PolledSnoc(before, d.(keys := d.keys[..k]), m, key);
      assert d.keys[..k + 1] == d.keys[..k] + [d.keys[k]];
    }
  }

  /** The polled instrument that gives way first, if any may. */
  method RestReductionCandidate(catalog: Catalog, demands: seq<IntervalDemand>) returns (r: Option<(Market, nat)>)
    ensures r.None? ==> NothingToGo(catalog, demands)
    ensures r.Some? ==> FirstToGo(catalog, demands, r.value.0, r.value.1)
  {
    r := None;
    for i := 0 to |demands|
      invariant r.None? ==> NothingToGo(catalog, demands[..i])
      invariant r.Some? ==> FirstToGo(catalog, demands[..i], r.value.0, r.value.1)
    {
      r := BestOf(catalog, demands[i], demands[..i], r);
      assert demands[..i + 1] == demands[..i] + [demands[i]];
    }
    assert demands[..|demands|] == demands;
  }

  /** Market names compare by their first characters. */
  lemma MarketsByName(m: Market, m': Market)
    ensures MarketTextRank(m) < MarketTextRank(m') <==> Texts.MarketText(m)[0] < Texts.MarketText(m')[0]
  {
  }

  /** Who gives way first at an endpoint: a new listing only when no top-ranked instrument is polled there that may
      go, and of two of one kind the worse ranked or the later listed, then the one of the market first by name,
      then the one of the smaller key. */
  lemma WorstGivesWay(catalog: Catalog, demands: seq<IntervalDemand>, m: Market, k: nat, m': Market, k': nat)
    requires FirstToGo(catalog, demands, m, k)
    requires (m', k') in catalog && exists i :: 0 <= i < |demands| && demands[i].market == m' && k' in demands[i].keys
    requires catalog[(m', k')].candidate.priority != Fixed && !catalog[(m', k')].capacityFail
    ensures (m, k) in catalog
    ensures var c, c' := catalog[(m, k)].candidate, catalog[(m', k')].candidate;
            && (c.priority == NewListing ==> c'.priority == NewListing && c'.firstSeenNs <= c.firstSeenNs)
            && (c.priority == TopN == c'.priority ==> c'.topNRank <= c.topNRank)
            && (c.priority == c'.priority && (if c.priority == TopN then c.topNRank == c'.topNRank else c.firstSeenNs == c'.firstSeenNs) ==>
                  || Texts.MarketText(m)[0] < Texts.MarketText(m')[0]
                  || (m == m' && k <= k'))
  {
    assert Polled(demands, m', k') && Evictable(catalog, m', k');
    MarketsByName(m, m');
  }

  /** What gives way is polled there, known, not fixed and not under a fail policy. */
  lemma FirstMayGo(catalog: Catalog, demands: seq<IntervalDemand>, m: Market, k: nat)
    requires FirstToGo(catalog, demands, m, k)
    ensures exists i :: 0 <= i < |demands| && demands[i].market == m && k in demands[i].keys
    ensures (m, k) in catalog && catalog[(m, k)].candidate.priority != Fixed && !catalog[(m, k)].capacityFail
  {
  }

  /** When nothing may go, every instrument polled there is fixed, under a fail policy or unknown. */
  lemma NobodyGivesWay(catalog: Catalog, demands: seq<IntervalDemand>, i: nat, k: nat)
    requires NothingToGo(catalog, demands) && i < |demands| && k in demands[i].keys
    ensures (demands[i].market, k) in catalog ==>
              catalog[(demands[i].market, k)].candidate.priority == Fixed || catalog[(demands[i].market, k)].capacityFail
  {
    assert Polled(demands, demands[i].market, k);
  }

  // ----- One endpoint -------------------------------------------------------------------------

  datatype Reason = MaxEffectiveInterval | OverloadPolicy | ZeroRate

  datatype EndpointResult =
    | Intervals(effective: seq<int>)
    | ReduceRest(market: Market, key: nat, reason: Reason)
    | EndpointFails(markets: set<Market>)

  function MarketsOf(demands: seq<IntervalDemand>): set<Market> {
    set d | d in demands :: d.market
  }

  function WithPolicy(demands: seq<IntervalDemand>, failPolicy: bool): seq<IntervalDemand> {
    if demands == [] then []
    else (if demands[0].failPolicy == failPolicy then [demands[0]] else []) + WithPolicy(demands[1..], failPolicy)
  }

  lemma {:induction false} WithPolicyMembers(demands: seq<IntervalDemand>, failPolicy: bool)
    ensures forall d :: d in WithPolicy(demands, failPolicy) <==> d in demands && d.failPolicy == failPolicy
    ensures WithPolicy(demands, failPolicy) == [] ==> RateFree(demands, failPolicy)
  {
    if demands != [] { WithPolicyMembers(demands[1..], failPolicy); }
  }

  ghost predicate RateFree(demands: seq<IntervalDemand>, failPolicy: bool) {
    forall d :: d in demands ==> d.failPolicy != failPolicy
  }

  /** The demands whose stretched interval fails the maximum test. */
  function OverMaximumDemands(demands: seq<IntervalDemand>, stretch: Fraction, maximum: nat): seq<IntervalDemand>
    requires stretch.Valid()
  {
    if demands == [] then []
    else (if OverMaximum(Scaled(demands[0], stretch), maximum) then [demands[0]] else [])
         + OverMaximumDemands(demands[1..], stretch, maximum)
  }

  lemma {:induction false} OverMaximumMembers(demands: seq<IntervalDemand>, stretch: Fraction, maximum: nat)
    requires stretch.Valid()
    ensures forall d :: d in OverMaximumDemands(demands, stretch, maximum) <==>
              d in demands && OverMaximum(Scaled(d, stretch), maximum)
  {
    if demands != [] { OverMaximumMembers(demands[1..], stretch, maximum); }
  }

  lemma PolledInPart(part: seq<IntervalDemand>, whole: seq<IntervalDemand>, market: Market, key: nat)
    requires forall d :: d in part ==> d in whole
    requires Polled(part, market, key)
    ensures Polled(whole, market, key)
  {
    var i :| 0 <= i < |part| && part[i].market == market && key in part[i].keys;
    assert part[i] in whole;
  }

  /** Demands that do not fit: from which of them an instrument may give way, which of them fail when none
      may, and why. */
  datatype Overload = Overload(active: seq<IntervalDemand>, failing: seq<IntervalDemand>, reason: Reason)

  /** What an overload leads to: the instrument that gives way first or, when none may, failed markets. */
  ghost predicate GivesWay(catalog: Catalog, o: Overload, r: EndpointResult) {
    match r
    case Intervals(_) => false
    case ReduceRest(m, k, reason) => FirstToGo(catalog, o.active, m, k) && reason == o.reason
    case EndpointFails(markets) => NothingToGo(catalog, o.active) && markets == MarketsOf(o.failing)
  }

  /** Either rejects the instrument that gives way first among the active demands or, when none
      may, fails the markets of the failing demands. */
  method ReduceRestOrFail(catalog: Catalog, ghost all: seq<IntervalDemand>, o: Overload) returns (r: EndpointResult)
    requires forall d :: d in o.active ==> d in all
    requires o.failing != [] && forall d :: d in o.failing ==> d in all
    ensures GivesWay(catalog, o, r) && Within(catalog, all, r)
  {
    var candidate := RestReductionCandidate(catalog, o.active);
    if candidate.Some? {
      PolledInPart(o.active, all, candidate.value.0, candidate.value.1);
      return ReduceRest(candidate.value.0, candidate.value.1, o.reason);
    }
    assert o.failing[0].market in MarketsOf(o.failing);
    r := EndpointFails(MarketsOf(o.failing));
  }

  /** What gives way belongs to the demands: a polled and evictable instrument, or some of their markets. */
  ghost predicate Within(catalog: Catalog, demands: seq<IntervalDemand>, r: EndpointResult) {
    && (r.ReduceRest? ==> Polled(demands, r.market, r.key) && Evictable(catalog, r.market, r.key))
    && (r.EndpointFails? ==> r.markets != {} && r.markets <= MarketsOf(demands))
  }

  /** A plan for one endpoint: inside the token rate, never faster than requested, never slower
      than the maximum, and unchanged for fail-policy demands. */
  ghost predicate EndpointPlan(demands: seq<IntervalDemand>, available: Fraction, maximum: nat, effective: seq<int>)
    requires ValidDemandsAt(demands) && available.Valid()
  {
    && |effective| == |demands|
    && (forall i :: 0 <= i < |demands| ==> demands[i].requestedNs <= effective[i] <= maximum)
    && (forall i :: 0 <= i < |demands| && demands[i].failPolicy ==> effective[i] == demands[i].requestedNs)
    && (forall i :: 0 <= i < |demands| ==> 0 < effective[i])
    && TokenRate(demands, effective) <= available.Value()
  }

  lemma NoRateNoNumerator(demands: seq<IntervalDemand>, failPolicy: bool)
    requires ValidDemandsAt(demands)
    ensures 0.0 <= RateOf(demands, failPolicy)
    ensures RateFree(demands, failPolicy) ==> RateOf(demands, failPolicy) == 0.0
  {
    if demands != [] {
      NoRateNoNumerator(demands[1..], failPolicy);
      assert 0.0 <= Weight(demands[0]) / demands[0].requestedNs as real;
      assert demands[0] in demands;
    }
  }

  /** When nothing is over the maximum, the stretched intervals are a plan: the guard on the
      rounded interval that follows the pre-check can never fire. */
  lemma StretchedIsPlan(demands: seq<IntervalDemand>, available: Fraction, maximum: nat, stretch: Fraction)
    requires ValidDemandsAt(demands) && available.Valid()
    requires stretch.Valid() && 1.0 <= stretch.Value()
    requires RateOf(demands, false) / stretch.Value() <= available.Value() - RateOf(demands, true)
    requires OverMaximumDemands(demands, stretch, maximum) == []
    ensures EndpointPlan(demands, available, maximum, EffectiveIntervals(demands, stretch))
  {
    EndpointWithinBudget(demands, available, stretch);
    OverMaximumMembers(demands, stretch, maximum);
    forall i | 0 <= i < |demands|
      ensures demands[i].requestedNs <= EffectiveIntervals(demands, stretch)[i] <= maximum
      ensures demands[i].failPolicy ==> EffectiveIntervals(demands, stretch)[i] == demands[i].requestedNs
    {
      assert demands[i] in demands;
      ScaledIsAtLeastRequested(demands[i], stretch);
      PreCheckIsSound(Scaled(demands[i], stretch), maximum);
    }
  }

  // ----- When the demands of an endpoint fit ---------------------------------------------------

  predicate HasFlexible(demands: seq<IntervalDemand>) {
    exists i :: 0 <= i < |demands| && !demands[i].failPolicy
  }

  /** There is a rate, the fail-policy demands keep their cadence within it, and some of it is left when
      there are flexible demands. */
  ghost predicate RateSuffices(demands: seq<IntervalDemand>, available: Fraction)
    requires ValidDemandsAt(demands) && available.Valid()
  {
    && 0.0 < available.Value()
    && RateOf(demands, true) <= available.Value()
    && (HasFlexible(demands) ==> RateOf(demands, true) < available.Value())
  }

  /** The stretch that the flexible demands then need. */
  function StretchOf(demands: seq<IntervalDemand>, available: Fraction): (stretch: Fraction)
    requires ValidDemandsAt(demands) && available.Valid() && RateSuffices(demands, available)
    ensures stretch.Valid() && 1.0 <= stretch.Value()
    ensures RateOf(demands, false) / stretch.Value() <= available.Value() - RateOf(demands, true)
  {
    if HasFlexible(demands) then
      var remaining := Subtract(available, SumRates(demands, true));
      SignOfValue(remaining);
      Stretch(SumRates(demands, false), remaining)
    else
      NoFlexibleRate(demands);
      FromInt(1)
  }

  lemma NoFlexibleRate(demands: seq<IntervalDemand>)
    requires ValidDemandsAt(demands) && !HasFlexible(demands)
    ensures RateOf(demands, false) == 0.0
  {
    forall d | d in demands ensures d.failPolicy {
      var i :| 0 <= i < |demands| && demands[i] == d;
    }
    NoRateNoNumerator(demands, false);
  }

  /** The demands fit: the rate suffices, and no stretched interval fails the maximum test. */
  ghost predicate Fits(demands: seq<IntervalDemand>, available: Fraction, maximum: nat)
    requires ValidDemandsAt(demands) && available.Valid()
  {
    RateSuffices(demands, available) && OverMaximumDemands(demands, StretchOf(demands, available), maximum) == []
  }

  ghost function OverloadOf(demands: seq<IntervalDemand>, available: Fraction, maximum: nat): Overload
    requires ValidDemandsAt(demands) && available.Valid() && !Fits(demands, available, maximum)
  {
    var failDemands, flexible := WithPolicy(demands, true), WithPolicy(demands, false);
    if available.Value() <= 0.0 then Overload(demands, demands, ZeroRate)
    else if available.Value() < RateOf(demands, true) then Overload(failDemands, failDemands, OverloadPolicy)
    else if !RateSuffices(demands, available) then Overload(flexible, flexible, ZeroRate)
    else
      var over := OverMaximumDemands(demands, StretchOf(demands, available), maximum);
      if HasFailPolicy(over) then Overload(WithPolicy(over, true), WithPolicy(over, true), MaxEffectiveInterval)
      else Overload(flexible, over, MaxEffectiveInterval)
  }

  predicate HasFailPolicy(demands: seq<IntervalDemand>) {
    exists i :: 0 <= i < |demands| && demands[i].failPolicy
  }

  lemma {:induction false} WithPolicyIsEmpty(demands: seq<IntervalDemand>)
    ensures WithPolicy(demands, false) == [] <==> !HasFlexible(demands)
    ensures WithPolicy(demands, true) == [] <==> !HasFailPolicy(demands)
  {
    WithPolicyMembers(demands, true);
    WithPolicyMembers(demands, false);
    if i :| 0 <= i < |demands| && !demands[i].failPolicy { assert demands[i] in WithPolicy(demands, false); }
    if i :| 0 <= i < |demands| && demands[i].failPolicy { assert demands[i] in WithPolicy(demands, true); }
    if WithPolicy(demands, false) != [] {
      assert WithPolicy(demands, false)[0] in WithPolicy(demands, false);
    }
    if WithPolicy(demands, true) != [] {
      assert WithPolicy(demands, true)[0] in WithPolicy(demands, true);
    }
  }

  /** What an endpoint's demands come to: a plan exactly when they fit, and otherwise the instrument that
      gives way first or, when none may, the markets that fail. */
  ghost predicate EndpointResultOf(catalog: Catalog, demands: seq<IntervalDemand>, available: Fraction, maximum: nat,
                                   r: EndpointResult)
    requires ValidDemandsAt(demands) && available.Valid()
  {
    if Fits(demands, available, maximum) then r == Intervals(EffectiveIntervals(demands, StretchOf(demands, available)))
    else GivesWay(catalog, OverloadOf(demands, available, maximum), r)
  }

  /** What an overload comes to, demand by demand: an instrument of an active one is rejected for this reason and
      goes first among those that may go or, when none may, exactly the markets of the failing ones fail. */
  ghost predicate FallsOn(catalog: Catalog, demands: seq<IntervalDemand>, active: IntervalDemand -> bool,
                          failing: IntervalDemand -> bool, reason: Reason, r: EndpointResult)
  {
    match r
    case Intervals(_) => false
    case ReduceRest(m, k, why) =>
      && why == reason
      && (exists d :: d in demands && active(d) && d.market == m && k in d.keys)
      && Evictable(catalog, m, k)
      && (forall d, k' :: d in demands && active(d) && k' in d.keys && Evictable(catalog, d.market, k') ==>
            !EvictionLess(OrderIn(catalog, d.market, k'), OrderIn(catalog, m, k)))
    case EndpointFails(markets) =>
      && (forall d, k :: d in demands && active(d) && k in d.keys ==> !Evictable(catalog, d.market, k))
      && (forall m :: m in markets <==> exists d :: d in demands && failing(d) && d.market == m)
  }

  lemma OverloadFallsOn(catalog: Catalog, demands: seq<IntervalDemand>, active: IntervalDemand -> bool,
                        failing: IntervalDemand -> bool, o: Overload, r: EndpointResult)
    requires GivesWay(catalog, o, r)
    requires forall d :: d in o.active <==> d in demands && active(d)
    requires forall d :: d in o.failing <==> d in demands && failing(d)
    ensures FallsOn(catalog, demands, active, failing, o.reason, r)
  {
    forall d, k | d in o.active && k in d.keys ensures Polled(o.active, d.market, k) {
      var i :| 0 <= i < |o.active| && o.active[i] == d;
    }
    if r.ReduceRest? {
      var i :| 0 <= i < |o.active| && o.active[i].market == r.market && r.key in o.active[i].keys;
      assert o.active[i] in o.active;
    }
  }

  /** Which demands an overload falls on, by its cause: without any rate on all, when the fail-policy demands need
      more than there is on these, when they leave nothing for the flexible ones on the flexible ones, when
      fail-policy demands are over the maximum on these, and otherwise on the flexible ones, of which those over
      the maximum fail. */
  lemma WhoGivesWay(catalog: Catalog, demands: seq<IntervalDemand>, available: Fraction, maximum: nat, r: EndpointResult)
    requires ValidDemandsAt(demands) && available.Valid() && EndpointResultOf(catalog, demands, available, maximum, r)
    ensures available.Value() <= 0.0 ==> FallsOn(catalog, demands, (d: IntervalDemand) => true, (d: IntervalDemand) => true, ZeroRate, r)
    ensures 0.0 < available.Value() < RateOf(demands, true) ==>
              FallsOn(catalog, demands, (d: IntervalDemand) => d.failPolicy, (d: IntervalDemand) => d.failPolicy, OverloadPolicy, r)
    ensures 0.0 < available.Value() == RateOf(demands, true) && (exists d :: d in demands && !d.failPolicy) ==>
              FallsOn(catalog, demands, (d: IntervalDemand) => !d.failPolicy, (d: IntervalDemand) => !d.failPolicy, ZeroRate, r)
  {
    hide FallsOn, GivesWay, WithPolicy, RateOf, OverMaximumDemands, StretchOf;
    WithPolicyMembers(demands, true);
    WithPolicyMembers(demands, false);
    if d :| d in demands && !d.failPolicy { var i :| 0 <= i < |demands| && demands[i] == d; assert HasFlexible(demands); }
    if available.Value() <= 0.0 {
      OverloadFallsOn(catalog, demands, (d: IntervalDemand) => true, (d: IntervalDemand) => true,
                      OverloadOf(demands, available, maximum), r);
    } else if available.Value() < RateOf(demands, true) {
      OverloadFallsOn(catalog, demands, (d: IntervalDemand) => d.failPolicy, (d: IntervalDemand) => d.failPolicy,
                      OverloadOf(demands, available, maximum), r);
    } else if HasFlexible(demands) && available.Value() == RateOf(demands, true) {
      OverloadFallsOn(catalog, demands, (d: IntervalDemand) => !d.failPolicy, (d: IntervalDemand) => !d.failPolicy,
                      OverloadOf(demands, available, maximum), r);
    }
  }

  lemma FailPolicyOverMaximum(d: IntervalDemand, stretch: Fraction, maximum: nat)
    requires d.failPolicy && stretch.Valid()
    ensures OverMaximum(Scaled(d, stretch), maximum) <==> maximum < d.requestedNs
  {
    LowestIsUnique(Scaled(d, stretch), FromInt(d.requestedNs));
  }

  /** The same once the rate suffices: on the fail-policy demands that ask for more than the maximum if there are
      any, else on the flexible ones if some of them is over the maximum when stretched, of which these fail. */
  lemma WhoGivesWayAtMaximum(catalog: Catalog, demands: seq<IntervalDemand>, available: Fraction, maximum: nat, r: EndpointResult)
    requires ValidDemandsAt(demands) && available.Valid() && RateSuffices(demands, available)
    requires EndpointResultOf(catalog, demands, available, maximum, r)
    ensures (exists d :: d in demands && d.failPolicy && maximum < d.requestedNs) ==>
              FallsOn(catalog, demands, (d: IntervalDemand) => d.failPolicy && maximum < d.requestedNs,
                      (d: IntervalDemand) => d.failPolicy && maximum < d.requestedNs, MaxEffectiveInterval, r)
    ensures (forall d :: d in demands && d.failPolicy ==> d.requestedNs <= maximum) ==>
              var stretch := StretchOf(demands, available);
              if exists d :: d in demands && !d.failPolicy && OverMaximum(Scaled(d, stretch), maximum) then
                FallsOn(catalog, demands, (d: IntervalDemand) => !d.failPolicy,
                        (d: IntervalDemand) => !d.failPolicy && OverMaximum(Scaled(d, stretch), maximum), MaxEffectiveInterval, r)
              else r == Intervals(EffectiveIntervals(demands, stretch))
  {
    hide FallsOn, GivesWay, WithPolicy, OverMaximumDemands, StretchOf, RateSuffices, Scaled, OverMaximum, EffectiveIntervals;
    var stretch := StretchOf(demands, available);
    var over := OverMaximumDemands(demands, stretch, maximum);
    OverMaximumMembers(demands, stretch, maximum);
    WithPolicyMembers(demands, false);
    WithPolicyMembers(over, true);
    WithPolicyIsEmpty(over);
    OverloadByMaximum(demands, available, maximum, over);
    forall d: IntervalDemand | d.failPolicy ensures OverMaximum(Scaled(d, stretch), maximum) <==> maximum < d.requestedNs {
      FailPolicyOverMaximum(d, stretch, maximum);
    }
    if d :| d in demands && d.failPolicy && maximum < d.requestedNs {
      assert d in over && d in WithPolicy(over, true);
      OverloadFallsOn(catalog, demands, (d: IntervalDemand) => d.failPolicy && maximum < d.requestedNs,
                      (d: IntervalDemand) => d.failPolicy && maximum < d.requestedNs, OverloadOf(demands, available, maximum), r);
    } else if over != [] {
      assert over[0] in over;
      forall i | 0 <= i < |over| ensures !over[i].failPolicy { assert over[i] in over; }
      OverloadFallsOn(catalog, demands, (d: IntervalDemand) => !d.failPolicy,
                      (d: IntervalDemand) => !d.failPolicy && OverMaximum(Scaled(d, stretch), maximum),
                      OverloadOf(demands, available, maximum), r);
    }
  }

  /** The stretch is the exact overload of the flexible demands, and one when there is none. */
  lemma StretchIsOverload(demands: seq<IntervalDemand>, available: Fraction)
    requires ValidDemandsAt(demands) && available.Valid() && RateSuffices(demands, available)
    ensures var left := available.Value() - RateOf(demands, true);
            HasFlexible(demands) ==>
              && 0.0 < left
              && StretchOf(demands, available).Value() == if left < RateOf(demands, false) then RateOf(demands, false) / left else 1.0
    ensures !HasFlexible(demands) ==> StretchOf(demands, available).Value() == 1.0
  {
    hide RateOf, SumRates;
    if HasFlexible(demands) {
      var remaining := Subtract(available, SumRates(demands, true));
      SignOfValue(remaining);
      var ratio := Divide(SumRates(demands, false), remaining);
      LessIsOrder(FromInt(1), ratio);
      RatioAboveOne(RateOf(demands, false), remaining.Value());
    }
  }

  lemma RatioAboveOne(need: real, have: real)
    requires 0.0 < have
    ensures 1.0 < need / have <==> have < need
  {
    var x := need / have;
    assert x * have == need;
    if have < need { if x <= 1.0 { RealMulMonoLe(x, 1.0, have); } }
    if 1.0 < x { RealMulMono(1.0, x, have); }
  }

  lemma OverloadByMaximum(demands: seq<IntervalDemand>, available: Fraction, maximum: nat, over: seq<IntervalDemand>)
    requires ValidDemandsAt(demands) && available.Valid() && RateSuffices(demands, available)
    requires over == OverMaximumDemands(demands, StretchOf(demands, available), maximum)
    ensures Fits(demands, available, maximum) <==> over == []
    ensures over != [] && WithPolicy(over, true) != [] ==>
              OverloadOf(demands, available, maximum) == Overload(WithPolicy(over, true), WithPolicy(over, true), MaxEffectiveInterval)
    ensures over != [] && WithPolicy(over, true) == [] ==>
              OverloadOf(demands, available, maximum) == Overload(WithPolicy(demands, false), over, MaxEffectiveInterval)
  {
    hide WithPolicy, OverMaximumDemands, RateOf, StretchOf;
    WithPolicyIsEmpty(over);
  }

  lemma NonePicked(failPolicy: bool)
    ensures WithPolicy([], failPolicy) == []
  {
  }

  /** Once the rate suffices, the maximum test alone decides. */
  lemma DecidedByMaximum(catalog: Catalog, demands: seq<IntervalDemand>, available: Fraction, maximum: nat,
                         over: seq<IntervalDemand>, r: EndpointResult)
    requires ValidDemandsAt(demands) && available.Valid() && RateSuffices(demands, available)
    requires over == OverMaximumDemands(demands, StretchOf(demands, available), maximum)
    requires if WithPolicy(over, true) != [] then
               GivesWay(catalog, Overload(WithPolicy(over, true), WithPolicy(over, true), MaxEffectiveInterval), r)
             else if over != [] then GivesWay(catalog, Overload(WithPolicy(demands, false), over, MaxEffectiveInterval), r)
             else r == Intervals(EffectiveIntervals(demands, StretchOf(demands, available)))
    ensures EndpointResultOf(catalog, demands, available, maximum, r)
  {
    hide RateSuffices, StretchOf, EffectiveIntervals, WithPolicy, OverMaximumDemands, Fits, OverloadOf, GivesWay, ValidDemandsAt;
    OverloadByMaximum(demands, available, maximum, over);
    WithPolicyMembers(over, true);
    NonePicked(true);
  }

  /** What is left to the maximum test once the rate suffices. */
  method LimitIntervals(catalog: Catalog, demands: seq<IntervalDemand>, available: Fraction, maximum: nat, stretch: Fraction)
    returns (r: EndpointResult)
    requires ValidDemandsAt(demands) && available.Valid() && RateSuffices(demands, available)
    requires stretch == StretchOf(demands, available)
    ensures EndpointResultOf(catalog, demands, available, maximum, r) && Within(catalog, demands, r)
    ensures r.Intervals? ==> OverMaximumDemands(demands, stretch, maximum) == []
  {
    hide RateSuffices, StretchOf, EffectiveIntervals, WithPolicy, OverMaximumDemands, EndpointResultOf, GivesWay, ValidDemandsAt,
         Within;
    var over := OverMaximumDemands(demands, stretch, maximum);
    var overFail := WithPolicy(over, true);
    OverMaximumMembers(demands, stretch, maximum);
    WithPolicyMembers(over, true);
    WithPolicyMembers(demands, false);
    if overFail != [] {
      r := ReduceRestOrFail(catalog, demands, Overload(overFail, overFail, MaxEffectiveInterval));
    } else if over != [] {
      r := ReduceRestOrFail(catalog, demands, Overload(WithPolicy(demands, false), over, MaxEffectiveInterval));
    } else {
      r := Intervals(EffectiveIntervals(demands, stretch));
      NothingGivesWay(catalog, demands, r);
    }
    DecidedByMaximum(catalog, demands, available, maximum, over, r);
  }

  /** The stretched intervals are a plan exactly when each of them, rounded up, keeps the maximum. */
  lemma StretchedIsPlanExactly(demands: seq<IntervalDemand>, available: Fraction, maximum: nat)
    requires ValidDemandsAt(demands) && available.Valid() && RateSuffices(demands, available)
    ensures var stretch := StretchOf(demands, available);
            EndpointPlan(demands, available, maximum, EffectiveIntervals(demands, stretch))
            <==> forall i :: 0 <= i < |demands| ==> Ceiling(Scaled(demands[i], stretch)) <= maximum
  {
    hide StretchOf, Scaled, Ceiling, RateSuffices;
    var stretch := StretchOf(demands, available);
    EndpointWithinBudget(demands, available, stretch);
    forall i | 0 <= i < |demands|
      ensures demands[i].requestedNs <= Ceiling(Scaled(demands[i], stretch))
      ensures demands[i].failPolicy ==> Ceiling(Scaled(demands[i], stretch)) == demands[i].requestedNs
    {
      ScaledIsAtLeastRequested(demands[i], stretch);
    }
  }

  /** A demand whose stretched interval the maximum test rejects although it would fit. */
  ghost predicate Tight(demands: seq<IntervalDemand>, stretch: Fraction, maximum: nat, i: nat)
    requires stretch.Valid()
  {
    i < |demands| && JustBelow(Scaled(demands[i], stretch), maximum)
  }

  /** The planner refuses demands whose stretched intervals are a plan exactly when all of them, rounded up,
      keep the maximum and one of them lies just below it. */
  lemma RefusesPlanExactly(demands: seq<IntervalDemand>, available: Fraction, maximum: nat)
    requires ValidDemandsAt(demands) && available.Valid() && RateSuffices(demands, available)
    ensures var stretch := StretchOf(demands, available);
            !Fits(demands, available, maximum) && EndpointPlan(demands, available, maximum, EffectiveIntervals(demands, stretch))
            <==> (forall i :: 0 <= i < |demands| ==> Ceiling(Scaled(demands[i], stretch)) <= maximum)
                 && exists i: nat :: Tight(demands, stretch, maximum, i)
  {
    hide StretchOf, Scaled, Ceiling, RateSuffices, EndpointPlan, JustBelow, OverMaximum, OverMaximumDemands, Fits, ValidDemandsAt,
         EffectiveIntervals;
    var stretch := StretchOf(demands, available);
    StretchedIsPlanExactly(demands, available, maximum);
    FitsExactly(demands, available, maximum);
    forall i | 0 <= i < |demands|
      ensures OverMaximum(Scaled(demands[i], stretch), maximum) && Ceiling(Scaled(demands[i], stretch)) <= maximum
         <==> Tight(demands, stretch, maximum, i)
    {
      PreCheckOverRejects(Scaled(demands[i], stretch), maximum);
    }
  }

  lemma FitsExactly(demands: seq<IntervalDemand>, available: Fraction, maximum: nat)
    requires ValidDemandsAt(demands) && available.Valid() && RateSuffices(demands, available)
    ensures Fits(demands, available, maximum) <==>
              forall i :: 0 <= i < |demands| ==> !OverMaximum(Scaled(demands[i], StretchOf(demands, available)), maximum)
  {
    hide StretchOf, Scaled, RateSuffices, OverMaximum, OverMaximumDemands, ValidDemandsAt;
    var over := OverMaximumDemands(demands, StretchOf(demands, available), maximum);
    OverMaximumMembers(demands, StretchOf(demands, available), maximum);
    if over != [] {
      assert over[0] in over;
      var i :| 0 <= i < |demands| && demands[i] == over[0];
    }
    forall i | 0 <= i < |demands| && OverMaximum(Scaled(demands[i], StretchOf(demands, available)), maximum) ensures over != [] {
      assert demands[i] in over;
    }
  }

  /** The rate at which one flexible demand is stretched to 1/d below the maximum. */
  function TightRate(x: IntervalDemand, d: int, maximum: nat): (available: Fraction)
    requires x.Valid() && 3 <= d && 0 < maximum
    ensures available.Valid()
    ensures 0 < maximum * d - 1 && available.Value() == Rate(x).Value() * (x.requestedNs * d) as real / (maximum * d - 1) as real
  {
    MulMono(1, maximum, d);
    Divide(Multiply(Rate(x), FromInt(x.requestedNs * d)), FromInt(maximum * d - 1))
  }

  lemma WeightPositive(x: IntervalDemand)
    requires x.Valid()
    ensures 0.0 < Weight(x) && 0.0 < Rate(x).Value()
  {
    SignOfValue(x.cost);
    assert 1 <= x.Jobs() by { MulMono(1, |x.keys|, x.jobsPerInstrument); }
    RealMulMono(0.0, x.Jobs() as real, x.cost.Value());
  }

  lemma TightRateSuffices(x: IntervalDemand, d: int, maximum: nat)
    requires x.Valid() && !x.failPolicy && 0 < maximum && 3 <= d
    ensures 0.0 < TightRate(x, d, maximum).Value() && RateOf([x], true) == 0.0
    ensures RateSuffices([x], TightRate(x, d, maximum))
  {
    hide Rate, TightRate;
    WeightPositive(x);
    MulMono(1, x.requestedNs, d);
    var available := TightRate(x, d, maximum);
    RealMulMono(0.0, Rate(x).Value(), (x.requestedNs * d) as real);
    assert !x.failPolicy && x == [x][0];
    NoRateNoNumerator([x], true);
  }

  lemma StretchValue(flexibleRequired: Fraction, remaining: Fraction)
    requires flexibleRequired.Valid() && remaining.Valid() && 0 < remaining.numerator
    ensures 0.0 < remaining.Value()
    ensures 1.0 <= flexibleRequired.Value() / remaining.Value() ==>
              Stretch(flexibleRequired, remaining).Value() == flexibleRequired.Value() / remaining.Value()
  {
    SignOfValue(remaining);
    LessIsOrder(FromInt(1), Divide(flexibleRequired, remaining));
  }

  lemma InverseShare(r: real, a: real, b: real)
    requires 0.0 < r && 0.0 < a && 0.0 < b
    ensures 0.0 < r * a / b && r / (r * a / b) == b / a
  {
    var y, z := r * a / b, b / a;
    assert 0.0 < r * a;
    assert y * b == r * a && z * a == b;
    assert (y * z) * a == r * a;
    RealMulCancelLe(y * z, r, a);
    RealMulCancelLe(r, y * z, a);
    RatioIs(r, y, z);
  }

  lemma CancelFactor(q: real, m: real, d: real)
    requires 0.0 < q && 0.0 < d
    ensures 0.0 < q * d && q * (m / (q * d)) == m / d
  {
    var z := m / (q * d);
    assert z * (q * d) == m;
    RatioIs(m, d, q * z);
  }

  lemma OneAtMost(a: real, b: real)
    requires 0.0 < a <= b
    ensures 1.0 <= b / a
  {
  }

  lemma StretchOfFlexible(x: IntervalDemand, available: Fraction)
    requires x.Valid() && !x.failPolicy && available.Valid() && RateSuffices([x], available) && RateOf([x], true) == 0.0
    ensures 0.0 < available.Value()
    ensures 1.0 <= Rate(x).Value() / available.Value() ==>
              StretchOf([x], available).Value() == Rate(x).Value() / available.Value()
  {
    hide Rate, Stretch, Weight, SumRates;
    assert x == [x][0] && HasFlexible([x]);
    OneRate(x);
    var remaining := Subtract(available, SumRates([x], true));
    SignOfValue(remaining);
    StretchValue(SumRates([x], false), remaining);
  }

  lemma TightBounds(q: int, d: int, maximum: int)
    requires 0 < q < maximum && 3 <= d
    ensures 0 < q * d <= maximum * d - 1
  {
    MulMono(1, q, d);
    MulMono(q, maximum - 1, d);
    assert (maximum - 1) * d == maximum * d - d;
  }

  /** At its tight rate the demand is stretched to maximum - 1/d. */
  lemma TightStretch(x: IntervalDemand, d: int, maximum: nat)
    requires x.Valid() && !x.failPolicy && x.requestedNs < maximum && 3 <= d
    requires 0.0 < TightRate(x, d, maximum).Value() && RateOf([x], true) == 0.0 && RateSuffices([x], TightRate(x, d, maximum))
    ensures Scaled(x, StretchOf([x], TightRate(x, d, maximum))).Value() == (maximum * d - 1) as real / d as real
  {
    hide Rate, TightRate, Stretch, Scaled, RateOf, Weight, SumRates, StretchOf, RateSuffices, Fraction.Value;
    var available := TightRate(x, d, maximum);
    WeightPositive(x);
    StretchOfFlexible(x, available);
    TightBounds(x.requestedNs, d, maximum);
    var m, qd := (maximum * d - 1) as real, (x.requestedNs * d) as real;
    TightRatio(Rate(x).Value(), available.Value(), qd, m);
    ScaledCancels(x, StretchOf([x], available), d, m);
  }

  lemma TightRatio(rate: real, available: real, a: real, b: real)
    requires 0.0 < rate && 0.0 < a <= b && available == rate * a / b
    ensures 0.0 < available && rate / available == b / a && 1.0 <= rate / available
  {
    InverseShare(rate, a, b);
    OneAtMost(a, b);
  }

  lemma ScaledCancels(x: IntervalDemand, stretch: Fraction, d: int, m: real)
    requires x.Valid() && !x.failPolicy && stretch.Valid() && 0 < d
    requires 0 < x.requestedNs * d && stretch.Value() == m / (x.requestedNs * d) as real
    ensures Scaled(x, stretch).Value() == m / d as real
  {
    hide Fraction.Value;
    CancelFactor(x.requestedNs as real, m, d as real);
    assert (x.requestedNs * d) as real == x.requestedNs as real * d as real;
  }

  lemma OneRate(x: IntervalDemand)
    requires x.Valid() && !x.failPolicy
    ensures SumRates([x], false).Value() == Rate(x).Value()
  {
    hide Weight;
    assert [x][1..] == [];
  }

  /** Every flexible demand faster than the maximum has such rates: the planner then refuses it although
      its stretched interval is a plan. */
  lemma OverRejectedPlan(x: IntervalDemand, d: int, maximum: nat)
    requires x.Valid() && !x.failPolicy && x.requestedNs < maximum && 3 <= d
    ensures var available := TightRate(x, d, maximum);
            RateSuffices([x], available)
            && OverMaximumDemands([x], StretchOf([x], available), maximum) != []
            && EndpointPlan([x], available, maximum, EffectiveIntervals([x], StretchOf([x], available)))
  {
    hide Rate, StretchOf, TightRate, EndpointPlan, Fits, EffectiveIntervals, Ceiling, OverMaximum, Scaled, Fraction.Valid,
         RateSuffices;
    var available := TightRate(x, d, maximum);
    TightRateSuffices(x, d, maximum);
    TightStretch(x, d, maximum);
    PreCheckOverRejectsSomewhere(d, maximum);
    LowestIsUnique(Scaled(x, StretchOf([x], available)), Fraction(maximum * d - 1, d));
    StretchedIsPlanExactly([x], available, maximum);
    OverMaximumMembers([x], StretchOf([x], available), maximum);
    assert x in [x];
  }

  lemma NothingGivesWay(catalog: Catalog, demands: seq<IntervalDemand>, r: EndpointResult)
    requires r.Intervals?
    ensures Within(catalog, demands, r)
  {
  }

  /** Plans the intervals of one endpoint's demands, or says which instrument or markets give way. */
  method AllocateEndpoint(catalog: Catalog, demands: seq<IntervalDemand>, available: Fraction, maximum: nat)
    returns (r: EndpointResult)
    requires ValidDemandsAt(demands) && demands != []
    requires available.Valid() && 0 <= available.numerator
    ensures EndpointResultOf(catalog, demands, available, maximum, r) && Within(catalog, demands, r)
    ensures r.Intervals? ==> EndpointPlan(demands, available, maximum, r.effective)
  {
    hide EndpointPlan, Within, GivesWay, OverMaximumDemands, EffectiveIntervals, WithPolicy, Stretch, RateOf;
    SignOfValue(available);
    if available.numerator == 0 {
      r := ReduceRestOrFail(catalog, demands, Overload(demands, demands, ZeroRate));
      return;
    }
    var failDemands := WithPolicy(demands, true);
    var flexibleDemands := WithPolicy(demands, false);
    WithPolicyMembers(demands, true);
    WithPolicyMembers(demands, false);
    WithPolicyIsEmpty(demands);
    NoRateNoNumerator(demands, true);
    var failRequired := SumRates(demands, true);
    LessIsOrder(available, failRequired);
    if Less(available, failRequired) {
      r := ReduceRestOrFail(catalog, demands, Overload(failDemands, failDemands, OverloadPolicy));
      return;
    }
    var remaining := Subtract(available, failRequired);
    SignOfValue(remaining);
    if flexibleDemands != [] && remaining.numerator == 0 {
      r := ReduceRestOrFail(catalog, demands, Overload(flexibleDemands, flexibleDemands, ZeroRate));
      return;
    }
    var stretch := if flexibleDemands != [] then Stretch(SumRates(demands, false), remaining) else FromInt(1);
    r := LimitIntervals(catalog, demands, available, maximum, stretch);
    if r.Intervals? { StretchedIsPlan(demands, available, maximum, stretch); }
  }
}
