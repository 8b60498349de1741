/** The value types of a workload plan and the facts a stream plan's validator enforces. */
module Workload {
  import opened Arithmetic

  const ONE_SECOND_NS := 1_000_000_000
  const MAX_LANE_OR_SYMBOL := 9_999

  datatype Option<+T> = None | Some(value: T)

  datatype Exchange = Binance | Okx | Bybit | Bitget | Kraken

  datatype Market = Spot | Perpetual

  datatype StreamGroup =
    | Trade | BookLive | Ticker | Bbo | Derivative | Candle1m | BookDeepSnapshot | Control

  /** Ordinary groups carry one logical stream named after them. */
  datatype LogicalStream = Ordinary(group: StreamGroup) | Funding | OpenInterest | ControlStream

  /** Position in the canonical exchange order. */
  function ExchangeRank(x: Exchange): nat {
    match x
    case Binance => 0
    case Okx => 1
    case Bybit => 2
    case Bitget => 3
    case Kraken => 4
  }

  function MarketRank(m: Market): nat {
    match m
    case Spot => 0
    case Perpetual => 1
  }

  /** The mean rate is the exact ratio rateNumerator / rateDenominator. */
  datatype StreamPlan = StreamPlan(
    group: StreamGroup,
    logicalStreams: seq<LogicalStream>,
    exchanges: seq<Exchange>,
    markets: seq<Market>,
    symbolsPerMarket: nat,
    multiplier: nat,
    durationNs: nat,
    baseInstanceCount: nat,
    identityCount: nat,
    rateNumerator: nat,
    rateDenominator: nat,
    burstRecordsIn1s: nat,
    expectedRecordCount: nat,
    requiredBurstCount: nat,
    scheduledBurstCount: nat,
    burstSecond: nat,
    burstStartNs: nat)
  {
    predicate ValidScope() {
      && 0 < symbolsPerMarket <= MAX_LANE_OR_SYMBOL + 1
      && 0 < multiplier <= MAX_LANE_OR_SYMBOL + 1
      && (forall i, j :: 0 <= i < j < |exchanges| ==> ExchangeRank(exchanges[i]) < ExchangeRank(exchanges[j]))
      && (forall i, j :: 0 <= i < j < |markets| ==> MarketRank(markets[i]) < MarketRank(markets[j]))
      && match group
         case Control =>
           && logicalStreams == [ControlStream]
           && markets == []
           && baseInstanceCount == |exchanges|
           && identityCount == baseInstanceCount
         case Derivative =>
           && logicalStreams == [Funding, OpenInterest]
           && markets == [Perpetual]
           && baseInstanceCount == |exchanges| * |markets| * symbolsPerMarket * 2
           && identityCount == baseInstanceCount * multiplier
         case _ =>
           && logicalStreams == [Ordinary(group)]
           && markets != []
           && baseInstanceCount == |exchanges| * |markets| * symbolsPerMarket
           && identityCount == baseInstanceCount * multiplier
    }

    predicate ValidCounts() {
      && 0 < baseInstanceCount && 0 < identityCount && 0 < rateDenominator && 0 < burstRecordsIn1s
      && expectedRecordCount == CeilRecords(baseInstanceCount, rateNumerator, rateDenominator, multiplier, durationNs)
      && 0 < expectedRecordCount
      && requiredBurstCount == baseInstanceCount * burstRecordsIn1s * multiplier
      && scheduledBurstCount == Min(expectedRecordCount, requiredBurstCount)
    }

    predicate ValidTiming() {
      && 10 * ONE_SECOND_NS <= durationNs
      && durationNs % ONE_SECOND_NS == 0
      && burstStartNs == burstSecond * ONE_SECOND_NS
      && burstSecond < durationNs / ONE_SECOND_NS - 1
    }

    /** What the stream plan's validator accepts. */
    predicate Valid() {
      ValidScope() && ValidCounts() && ValidTiming()
    }
  }

  function CeilRecords(base: nat, rateNumerator: nat, rateDenominator: nat, multiplier: nat, durationNs: nat): int
    requires 0 < rateDenominator
  {
    CeilDiv(base * multiplier * durationNs * rateNumerator, ONE_SECOND_NS * rateDenominator)
  }

  /** The record count is the least integer that reaches the mean rate over the whole
      duration: one record fewer would fall short of it. */
  lemma CeilRecordsIsLeast(base: nat, rateNumerator: nat, rateDenominator: nat, multiplier: nat, durationNs: nat)
    requires 0 < rateDenominator
    ensures var records := CeilRecords(base, rateNumerator, rateDenominator, multiplier, durationNs);
            var wanted := base * multiplier * durationNs * rateNumerator;
            && wanted <= records * (ONE_SECOND_NS * rateDenominator)
            && (records - 1) * (ONE_SECOND_NS * rateDenominator) < wanted
  {
    CeilBrackets(base * multiplier * durationNs * rateNumerator, ONE_SECOND_NS * rateDenominator);
  }
}
