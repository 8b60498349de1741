/** Which exchange, market, lane, symbol and logical stream an identity index stands for, and
    the event ids derived from it. */
module Identities {
  import opened Arithmetic
  import opened Workload
  import opened Texts
  import opened Allocation
  import Schedule
  import PlanSchedule

  datatype Facts =
    | ControlFacts(exchange: Exchange)
    | ScopedFacts(exchange: Exchange, market: Market, lane: nat, symbol: nat, logical: LogicalStream)

  /** An identity index split into its digits: mixed radix with the lengths of the plan's scope. */
  datatype Digits = Digits(exchange: nat, market: nat, lane: nat, symbol: nat, logical: nat)

  function PerLane(p: StreamPlan): nat { p.symbolsPerMarket * |p.logicalStreams| }

  function PerMarket(p: StreamPlan): nat { p.multiplier * PerLane(p) }

  function PerExchangeOf(p: StreamPlan): nat { |p.markets| * PerMarket(p) }

  ghost predicate Scoped(p: StreamPlan) {
    p.ValidScope() && p.group != Control
  }

  lemma RadixPositive(p: StreamPlan)
    requires Scoped(p)
    ensures 0 < |p.logicalStreams| && 0 < PerLane(p) && 0 < PerMarket(p) && 0 < PerExchangeOf(p)
    ensures p.identityCount == |p.exchanges| * PerExchangeOf(p)
  {
    var e, m, s, l, k := |p.exchanges|, |p.markets|, p.symbolsPerMarket, |p.logicalStreams|, p.multiplier;
    MulMono(1, s, l);
    MulMono(1, k, PerLane(p));
    MulMono(1, m, PerMarket(p));
    assert e * m * s * l * k == e * (m * (k * (s * l)));
    if p.group != Derivative {
      assert p.baseInstanceCount == e * m * s * l;
    }
  }

  function DigitsAt(p: StreamPlan, identity: nat): Digits
    requires Scoped(p)
  {
    RadixPositive(p);
    var exchange := identity / PerExchangeOf(p);
    var inExchange := identity % PerExchangeOf(p);
    var inMarket := inExchange % PerMarket(p);
    var inLane := inMarket % PerLane(p);
    Digits(exchange, inExchange / PerMarket(p), inMarket / PerLane(p),
           inLane / |p.logicalStreams|, inLane % |p.logicalStreams|)
  }

  ghost predicate InRange(p: StreamPlan, d: Digits) {
    && d.exchange < |p.exchanges| && d.market < |p.markets| && d.lane < p.multiplier
    && d.symbol < p.symbolsPerMarket && d.logical < |p.logicalStreams|
  }

  function IndexOfDigits(p: StreamPlan, d: Digits): nat {
    d.exchange * PerExchangeOf(p) + d.market * PerMarket(p) + d.lane * PerLane(p)
    + d.symbol * |p.logicalStreams| + d.logical
  }

  lemma DigitBelow(a: nat, b: nat, n: nat)
    requires 0 < b && a < n * b
    ensures a / b < n
    ensures a == (a / b) * b + a % b
  {
    FloorBrackets(a, b);
    MulCancel(a / b, n, b);
  }

  /** Every identity index has its digits in range, and they give the index back. */
  lemma DigitsRoundTrip(p: StreamPlan, identity: nat)
    requires Scoped(p) && identity < p.identityCount
    ensures InRange(p, DigitsAt(p, identity))
    ensures IndexOfDigits(p, DigitsAt(p, identity)) == identity
  {
    RadixPositive(p);
    var inExchange := identity % PerExchangeOf(p);
    var inMarket := inExchange % PerMarket(p);
    var inLane := inMarket % PerLane(p);
    DigitBelow(identity, PerExchangeOf(p), |p.exchanges|);
    DigitBelow(inExchange, PerMarket(p), |p.markets|);
    DigitBelow(inMarket, PerLane(p), p.multiplier);
    DigitBelow(inLane, |p.logicalStreams|, p.symbolsPerMarket);
  }

  lemma BelowNext(d: nat, n: nat, b: nat, rest: nat)
    requires d < n && rest < b
    ensures d * b + rest < n * b
  {
    MulMono(d + 1, n, b);
  }

  /** Digits in range are the digits of the index they make. */
  lemma IndexRoundTrip(p: StreamPlan, d: Digits)
    requires Scoped(p) && InRange(p, d)
    ensures IndexOfDigits(p, d) < p.identityCount
    ensures DigitsAt(p, IndexOfDigits(p, d)) == d
  {
    RadixPositive(p);
    var inLane := d.symbol * |p.logicalStreams| + d.logical;
    var inMarket := d.lane * PerLane(p) + inLane;
    var inExchange := d.market * PerMarket(p) + inMarket;
    BelowNext(d.symbol, p.symbolsPerMarket, |p.logicalStreams|, d.logical);
    BelowNext(d.lane, p.multiplier, PerLane(p), inLane);
    BelowNext(d.market, |p.markets|, PerMarket(p), inMarket);
    BelowNext(d.exchange, |p.exchanges|, PerExchangeOf(p), inExchange);
    DivModUnique(IndexOfDigits(p, d), PerExchangeOf(p), d.exchange, inExchange);
    DivModUnique(inExchange, PerMarket(p), d.market, inMarket);
    DivModUnique(inMarket, PerLane(p), d.lane, inLane);
    DivModUnique(inLane, |p.logicalStreams|, d.symbol, d.logical);
  }

  function FactsAt(p: StreamPlan, identity: nat): Facts
    requires p.ValidScope() && identity < p.identityCount
  {
    if p.group == Control then ControlFacts(p.exchanges[identity])
    else
      DigitsRoundTrip(p, identity);
      var d := DigitsAt(p, identity);
      ScopedFacts(p.exchanges[d.exchange], p.markets[d.market], d.lane, d.symbol, p.logicalStreams[d.logical])
  }

  /** Place b after a full rounds of n places. */
  function After(a: nat, n: nat, b: nat): nat { a * n + b }

  /** The numbering: logical streams vary fastest, then symbols, lanes, markets and exchanges. */
  lemma FactsAtIndex(p: StreamPlan, exchange: nat, market: nat, lane: nat, symbol: nat, logical: nat)
    requires p.ValidScope() && p.group != Control
    requires exchange < |p.exchanges| && market < |p.markets| && lane < p.multiplier
    requires symbol < p.symbolsPerMarket && logical < |p.logicalStreams|
    ensures var inMarket := After(After(exchange, |p.markets|, market), p.multiplier, lane);
            var index := After(After(inMarket, p.symbolsPerMarket, symbol), |p.logicalStreams|, logical);
            && index < p.identityCount
            && FactsAt(p, index) == ScopedFacts(p.exchanges[exchange], p.markets[market], lane, symbol, p.logicalStreams[logical])
  {
    var d := Digits(exchange, market, lane, symbol, logical);
    IndexRoundTrip(p, d);
    IndexIsHorner(p, d);
    hide DigitsAt, IndexOfDigits, After;
  }

  lemma IndexIsHorner(p: StreamPlan, d: Digits)
    ensures var inMarket := After(After(d.exchange, |p.markets|, d.market), p.multiplier, d.lane);
            IndexOfDigits(p, d) == After(After(inMarket, p.symbolsPerMarket, d.symbol), |p.logicalStreams|, d.logical)
  {
    var markets, lanes, symbols, logicals := |p.markets|, p.multiplier, p.symbolsPerMarket, |p.logicalStreams|;
    var a := After(d.exchange, markets, d.market);
    var b := After(a, lanes, d.lane);
    AfterTwice(b, symbols, d.symbol, logicals);
    AfterTwice(a, lanes, d.lane, symbols * logicals);
    AfterTwice(d.exchange, markets, d.market, lanes * (symbols * logicals));
  }

  lemma AfterTwice(a: nat, n: nat, b: nat, m: nat)
    ensures After(a, n, b) * m == a * (n * m) + b * m
  {
    assert (a * n) * m == a * (n * m);
  }

  /** Different identity indices of a stream stand for different facts. */
  lemma FactsInjective(p: StreamPlan, i: nat, j: nat)
    requires p.ValidScope() && i < p.identityCount && j < p.identityCount
    requires FactsAt(p, i) == FactsAt(p, j)
    ensures i == j
  {
    if p.group != Control {
      DigitsRoundTrip(p, i);
      DigitsRoundTrip(p, j);
      var d, e := DigitsAt(p, i), DigitsAt(p, j);
      assert d.exchange == e.exchange && d.market == e.market;
      assert d.logical == e.logical;
      assert d == e;
    }
  }

  /** The identities of exchange number x are exactly those of its contiguous span: slicing
      the plan by span is slicing it by exchange. */
  lemma SpanIsExchange(p: StreamPlan, identity: nat, x: nat)
    requires p.ValidScope() && identity < p.identityCount && x < |p.exchanges|
    ensures var per := p.identityCount / |p.exchanges|;
            FactsAt(p, identity).exchange == p.exchanges[x] <==> x * per <= identity < (x + 1) * per
  {
    var n := |p.exchanges|;
    if p.group == Control {
      DivModUnique(p.identityCount, n, 1, 0);
    } else {
      RadixPositive(p);
      DivModUnique(p.identityCount, n, PerExchangeOf(p), 0);
      DigitsRoundTrip(p, identity);
      var exchange := identity / PerExchangeOf(p);
      FloorBrackets(identity, PerExchangeOf(p));
      if x * PerExchangeOf(p) <= identity < (x + 1) * PerExchangeOf(p) {
        FloorUnique(identity, PerExchangeOf(p), x);
      }
    }
  }

  // ----- Texts --------------------------------------------------------------------------

  const IDENTITY_ALGORITHM := "gate-identity-v1"
  const EVENT_ALGORITHM := "gate-event-v1"

  ghost predicate FourDigitFacts(f: Facts) {
    f.ScopedFacts? ==>
      f.lane <= MAX_LANE_OR_SYMBOL && f.symbol <= MAX_LANE_OR_SYMBOL && f.logical != ControlStream
  }

  lemma FactsFitFourDigits(p: StreamPlan, identity: nat)
    requires p.ValidScope() && identity < p.identityCount
    ensures FourDigitFacts(FactsAt(p, identity))
  {
    if p.group != Control { DigitsRoundTrip(p, identity); }
  }

  function InstrumentKey(f: Facts): string
    requires f.ScopedFacts? && f.lane <= MAX_LANE_OR_SYMBOL && f.symbol <= MAX_LANE_OR_SYMBOL
  {
    "GATE-" + ExchangeUpper(f.exchange) + "-" + MarketUpper(f.market)
    + "-L" + FourDigits(f.lane) + "-S" + FourDigits(f.symbol)
  }

  /** The colon-separated fields of a canonical identity. */
  function IdentityFields(f: Facts): seq<string>
    requires FourDigitFacts(f)
  {
    match f
    case ControlFacts(x) => [IDENTITY_ALGORITHM, ExchangeText(x), "-", "-", "_control"]
    case ScopedFacts(x, m, _, _, l) =>
      [IDENTITY_ALGORITHM, ExchangeText(x), MarketText(m), InstrumentKey(f), LogicalText(l)]
  }

  function CanonicalIdentity(f: Facts): string
    requires FourDigitFacts(f)
  {
    Join(IdentityFields(f))
  }

  lemma SuffixUnique(a: string, b: string, b': string)
    requires a + b == a + b'
    ensures b == b'
  {
    assert (a + b)[|a|..] == b && (a + b')[|a|..] == b';
  }

  lemma InstrumentKeyInjective(f: Facts, g: Facts)
    requires f.ScopedFacts? && FourDigitFacts(f) && g.ScopedFacts? && FourDigitFacts(g)
    requires f.exchange == g.exchange && f.market == g.market
    requires InstrumentKey(f) == InstrumentKey(g)
    ensures f.lane == g.lane && f.symbol == g.symbol
  {
    hide ExchangeUpper, MarketUpper;
    var prefix := "GATE-" + ExchangeUpper(f.exchange) + "-" + MarketUpper(f.market) + "-L";
    var a := FourDigits(f.lane) + ("-S" + FourDigits(f.symbol));
    var b := FourDigits(g.lane) + ("-S" + FourDigits(g.symbol));
    assert InstrumentKey(f) == prefix + a && InstrumentKey(g) == prefix + b;
    SuffixUnique(prefix, a, b);
    assert a[..4] == FourDigits(f.lane) && b[..4] == FourDigits(g.lane);
    assert a[6..] == FourDigits(f.symbol) && b[6..] == FourDigits(g.symbol);
    FourDigitsInjective(f.lane, g.lane);
    FourDigitsInjective(f.symbol, g.symbol);
  }

  lemma IdentityFieldsColonFree(f: Facts)
    requires FourDigitFacts(f)
    ensures AllColonFree(IdentityFields(f)) && |IdentityFields(f)| == 5
  {
    ExchangeNames(f.exchange, f.exchange);
    if f.ScopedFacts? {
      MarketNames(f.market, f.market);
      LogicalNames(f.logical, f.logical);
      assert ColonFree(FourDigits(f.lane)) && ColonFree(FourDigits(f.symbol));
    }
  }

  lemma IdentityFieldsInjective(f: Facts, g: Facts)
    requires FourDigitFacts(f) && FourDigitFacts(g)
    requires IdentityFields(f) == IdentityFields(g)
    ensures f == g
  {
    var a, b := IdentityFields(f), IdentityFields(g);
    assert a[1] == b[1] && a[2] == b[2] && a[3] == b[3] && a[4] == b[4];
    ExchangeNames(f.exchange, g.exchange);
    if f.ScopedFacts? { MarketNames(f.market, f.market); }
    if g.ScopedFacts? { MarketNames(g.market, g.market); }
    if f.ScopedFacts? && g.ScopedFacts? {
      MarketNames(f.market, g.market);
      LogicalNames(f.logical, g.logical);
      InstrumentKeyInjective(f, g);
    }
  }

  /** Under the four-digit limit, a canonical identity text stands for one set of facts. */
  lemma CanonicalIdentityInjective(f: Facts, g: Facts)
    requires FourDigitFacts(f) && FourDigitFacts(g)
    requires CanonicalIdentity(f) == CanonicalIdentity(g)
    ensures f == g
  {
    IdentityFieldsColonFree(f);
    IdentityFieldsColonFree(g);
    JoinInjective(IdentityFields(f), IdentityFields(g));
    IdentityFieldsInjective(f, g);
  }

  // ----- Event ids ----------------------------------------------------------------------

  /** The text that is digested into an event id. */
  function EventRecord(seed: nat, group: StreamGroup, f: Facts, sequence: nat): string
    requires FourDigitFacts(f)
  {
    Join([EVENT_ALGORITHM, Decimal(seed), GroupText(group)]) + [COLON]
    + CanonicalIdentity(f) + [COLON] + Decimal(sequence)
  }

  function EventFields(seed: nat, group: StreamGroup, f: Facts, sequence: nat): seq<string>
    requires FourDigitFacts(f)
  {
    [EVENT_ALGORITHM, Decimal(seed), GroupText(group)] + (IdentityFields(f) + [Decimal(sequence)])
  }

  lemma EventRecordIsJoin(seed: nat, group: StreamGroup, f: Facts, sequence: nat)
    requires FourDigitFacts(f)
    ensures EventRecord(seed, group, f, sequence) == Join(EventFields(seed, group, f, sequence))
  {
    var head := [EVENT_ALGORITHM, Decimal(seed), GroupText(group)];
    var identity := IdentityFields(f);
    IdentityFieldsColonFree(f);
    JoinConcat(identity, [Decimal(sequence)]);
    JoinConcat(head, identity + [Decimal(sequence)]);
    assert Join(head) + [COLON] + (Join(identity) + [COLON] + Decimal(sequence))
        == Join(head) + [COLON] + Join(identity) + [COLON] + Decimal(sequence);
  }

  lemma EventFieldsColonFree(seed: nat, group: StreamGroup, f: Facts, sequence: nat)
    requires FourDigitFacts(f)
    ensures AllColonFree(EventFields(seed, group, f, sequence))
    ensures |EventFields(seed, group, f, sequence)| == 9
  {
    DecimalShape(seed);
    DecimalShape(sequence);
    GroupNames(group, group);
    IdentityFieldsColonFree(f);
    var head := [EVENT_ALGORITHM, Decimal(seed), GroupText(group)];
    assert AllColonFree(head);
  }

  /** The digested text determines the stream group, the identity and the local sequence. */
  lemma EventRecordInjective(seed: nat, g: StreamGroup, f: Facts, n: nat, g': StreamGroup, f': Facts, n': nat)
    requires FourDigitFacts(f) && FourDigitFacts(f')
    requires EventRecord(seed, g, f, n) == EventRecord(seed, g', f', n')
    ensures g == g' && f == f' && n == n'
  {
    EventRecordIsJoin(seed, g, f, n);
    EventRecordIsJoin(seed, g', f', n');
    EventFieldsColonFree(seed, g, f, n);
    EventFieldsColonFree(seed, g', f', n');
    var a, b := EventFields(seed, g, f, n), EventFields(seed, g', f', n');
    JoinInjective(a, b);
    IdentityFieldsColonFree(f);
    IdentityFieldsColonFree(f');
    assert a[2] == b[2] && a[8] == b[8];
    assert a[3..8] == IdentityFields(f) && b[3..8] == IdentityFields(f');
    GroupNames(g, g');
    IdentityFieldsInjective(f, f');
    DecimalInjective(n, n');
  }

  /** The digest, as far as the oracle relies on it: different texts get different ids. */
  ghost predicate Injective(digest: string -> nat) {
    forall a, b :: digest(a) == digest(b) ==> a == b
  }

  function EventRecordAt(seed: nat, p: StreamPlan, ordinal: nat): string
    requires p.ValidScope() && 0 < p.identityCount && ordinal < p.expectedRecordCount
  {
    OrdinalHasOwner(SpreadOf(p), ordinal);
    var (identity, sequence) := IdentityAndSequence(SpreadOf(p), ordinal);
    FactsFitFourDigits(p, identity);
    EventRecord(seed, p.group, FactsAt(p, identity), sequence)
  }

  /** The event ids of the first ordinals of a stream. */
  function EventIds(digest: string -> nat, seed: nat, p: StreamPlan, count: nat): (ids: seq<nat>)
    requires p.ValidScope() && 0 < p.identityCount && count <= p.expectedRecordCount
    ensures |ids| == count
    ensures forall o :: 0 <= o < count ==> ids[o] == digest(EventRecordAt(seed, p, o))
  {
    if count == 0 then []
    else EventIds(digest, seed, p, count - 1) + [digest(EventRecordAt(seed, p, count - 1))]
  }

  lemma SameRecordSameOrdinal(seed: nat, p: StreamPlan, o: nat, p': StreamPlan, o': nat)
    requires p.ValidScope() && 0 < p.identityCount && o < p.expectedRecordCount
    requires p'.ValidScope() && 0 < p'.identityCount && o' < p'.expectedRecordCount
    requires EventRecordAt(seed, p, o) == EventRecordAt(seed, p', o')
    ensures p.group == p'.group
    ensures p == p' ==> o == o'
  {
    OrdinalHasOwner(SpreadOf(p), o);
    OrdinalHasOwner(SpreadOf(p'), o');
    var (i, n) := IdentityAndSequence(SpreadOf(p), o);
    var (i', n') := IdentityAndSequence(SpreadOf(p'), o');
    FactsFitFourDigits(p, i);
    FactsFitFourDigits(p', i');
    EventRecordInjective(seed, p.group, FactsAt(p, i), n, p'.group, FactsAt(p', i'), n');
    if p == p' { FactsInjective(p, i, i'); }
  }

  /** The stream plans of one workload plan: validated, one per group, over the same exchanges and the same duration. */
  ghost predicate ValidWorkload(plans: seq<StreamPlan>) {
    && plans != []
    && (forall k :: 0 <= k < |plans| ==> plans[k].Valid() && plans[k].exchanges == plans[0].exchanges)
    && (forall k :: 0 <= k < |plans| ==> plans[k].durationNs == plans[0].durationNs)
    && (forall j, k :: 0 <= j < k < |plans| ==> plans[j].group != plans[k].group)
  }

  ghost predicate StreamsOf(digest: string -> nat, seed: nat, plans: seq<StreamPlan>, streams: seq<Schedule.Stream>)
    requires ValidWorkload(plans)
  {
    && |streams| == |plans|
    && forall k :: 0 <= k < |plans| ==> streams[k] == Schedule.StreamOf(plans[k], EventIds(digest, seed, plans[k], plans[k].expectedRecordCount))
  }

  lemma WorkloadIsShaped(digest: string -> nat, seed: nat, plans: seq<StreamPlan>, streams: seq<Schedule.Stream>)
    requires ValidWorkload(plans) && StreamsOf(digest, seed, plans, streams)
    ensures PlanSchedule.Shaped(streams)
  {
    hide EventIds;
    forall k | 0 <= k < |streams| ensures streams[k].Valid() && streams[k].exchanges == streams[0].exchanges {
      Schedule.PlanGivesStream(plans[k], EventIds(digest, seed, plans[k], plans[k].expectedRecordCount));
    }
  }

  lemma SameIdSameOrdinal(digest: string -> nat, seed: nat, plans: seq<StreamPlan>, k: nat, o: nat, k': nat, o': nat)
    requires ValidWorkload(plans) && Injective(digest) && k < |plans| && k' < |plans|
    requires o < plans[k].expectedRecordCount && o' < plans[k'].expectedRecordCount
    requires EventIds(digest, seed, plans[k], plans[k].expectedRecordCount)[o]
          == EventIds(digest, seed, plans[k'], plans[k'].expectedRecordCount)[o']
    ensures k == k' && o == o'
  {
    hide EventIds;
    SameRecordSameOrdinal(seed, plans[k], o, plans[k'], o');
  }

  /** Every validated workload gives a plan whose event ids are all different, so the schedule
      theorems apply to it. */
  lemma WorkloadGivesValidPlan(digest: string -> nat, seed: nat, plans: seq<StreamPlan>, streams: seq<Schedule.Stream>)
    requires ValidWorkload(plans) && StreamsOf(digest, seed, plans, streams) && Injective(digest)
    ensures PlanSchedule.ValidPlan(streams)
  {
    WorkloadIsShaped(digest, seed, plans, streams);
    hide EventIds, Injective;
    forall k, o, k', o' |
      && 0 <= k < |streams| && 0 <= o < |streams[k].ids| && 0 <= k' < |streams| && 0 <= o' < |streams[k'].ids|
      && streams[k].ids[o] == streams[k'].ids[o'] ensures k == k' && o == o'
    {
      SameIdSameOrdinal(digest, seed, plans, k, o, k', o');
    }
  }
}
