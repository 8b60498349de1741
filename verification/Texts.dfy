/** The texts that identities and event ids are made of, and why they can be read back. */
module Texts {
  import opened Workload

  const COLON := ':'

  /** Colon-free fields written with a colon between neighbours. */
  function Join(fields: seq<string>): string
    requires fields != []
  {
    if |fields| == 1 then fields[0] else fields[0] + [COLON] + Join(fields[1..])
  }

  ghost predicate ColonFree(text: string) {
    COLON !in text
  }

  ghost predicate AllColonFree(fields: seq<string>) {
    forall k :: 0 <= k < |fields| ==> ColonFree(fields[k])
  }

  lemma LongerFieldHoldsColon(a: string, b: string, a': string, b': string)
    requires a + [COLON] + b == a' + [COLON] + b'
    requires |a| < |a'|
    ensures COLON in a'
  {
    assert (a + [COLON] + b)[|a|] == COLON;
    assert (a' + [COLON] + b')[|a|] == a'[|a|];
  }

  /** The first colon decides where the first field ends. */
  lemma SplitUnique(a: string, b: string, a': string, b': string)
    requires ColonFree(a) && ColonFree(a')
    requires a + [COLON] + b == a' + [COLON] + b'
    ensures a == a' && b == b'
  {
    if |a| < |a'| {
      LongerFieldHoldsColon(a, b, a', b');
    } else if |a'| < |a| {
      LongerFieldHoldsColon(a', b', a, b);
    } else {
      var whole := a + [COLON] + b;
      assert whole[..|a|] == a && whole[|a| + 1..] == b;
      assert whole == a' + [COLON] + b';
      assert whole[..|a|] == a' && whole[|a| + 1..] == b';
    }
  }

  /** Joined colon-free fields can be told apart: the joined text determines the fields. */
  lemma {:induction false} JoinInjective(f: seq<string>, g: seq<string>)
    requires |f| == |g| && f != [] && AllColonFree(f) && AllColonFree(g)
    requires Join(f) == Join(g)
    ensures f == g
  {
    if |f| > 1 {
      SplitUnique(f[0], Join(f[1..]), g[0], Join(g[1..]));
      JoinInjective(f[1..], g[1..]);
      assert f == [f[0]] + f[1..] && g == [g[0]] + g[1..];
    }
  }

  lemma {:induction false} JoinConcat(f: seq<string>, g: seq<string>)
    requires f != [] && g != []
    ensures Join(f + g) == Join(f) + [COLON] + Join(g)
  {
    if |f| == 1 {
      assert (f + g)[1..] == g;
    } else {
      assert (f + g)[1..] == f[1..] + g;
      JoinConcat(f[1..], g);
      assert f[0] + [COLON] + (Join(f[1..]) + [COLON] + Join(g)) == Join(f) + [COLON] + Join(g);
    }
  }

  // ----- Numbers ----------------------------------------------------------------------

  function Digit(d: nat): char
    requires d < 10
  {
    '0' + d as char
  }

  /** The decimal text of a number. */
  function Decimal(n: nat): string {
    if n < 10 then [Digit(n)] else Decimal(n / 10) + [Digit(n % 10)]
  }

  lemma {:induction false} DecimalShape(n: nat)
    ensures Decimal(n) != [] && ColonFree(Decimal(n))
    ensures n >= 10 ==> |Decimal(n)| >= 2
  {
    if n >= 10 { DecimalShape(n / 10); }
  }

  lemma {:induction false} DecimalInjective(a: nat, b: nat)
    requires Decimal(a) == Decimal(b)
    ensures a == b
  {
    DecimalShape(a);
    DecimalShape(b);
    if a >= 10 && b >= 10 {
      var t, u := Decimal(a), Decimal(b);
      assert t[|t| - 1] == Digit(a % 10) && u[|u| - 1] == Digit(b % 10);
      assert t[..|t| - 1] == Decimal(a / 10) && u[..|u| - 1] == Decimal(b / 10);
      DecimalInjective(a / 10, b / 10);
    }
  }

  /** A number below ten thousand written with exactly four digits. */
  function FourDigits(n: nat): string
    requires n <= MAX_LANE_OR_SYMBOL
  {
    [Digit(n / 1000), Digit(n / 100 % 10), Digit(n / 10 % 10), Digit(n % 10)]
  }

  lemma DigitInjective(a: nat, b: nat)
    requires a < 10 && b < 10 && Digit(a) == Digit(b)
    ensures a == b
  {
  }

  lemma DigitsOf(n: nat)
    ensures n == 1000 * (n / 1000) + 100 * (n / 100 % 10) + 10 * (n / 10 % 10) + n % 10
  {
    var tens := n / 10;
    var hundreds := tens / 10;
    assert n / 100 == hundreds && n / 1000 == hundreds / 10;
  }

  lemma FourDigitsInjective(a: nat, b: nat)
    requires a <= MAX_LANE_OR_SYMBOL && b <= MAX_LANE_OR_SYMBOL
    requires FourDigits(a) == FourDigits(b)
    ensures a == b
  {
    var f, g := FourDigits(a), FourDigits(b);
    assert f[0] == g[0] && f[1] == g[1] && f[2] == g[2] && f[3] == g[3];
    DigitInjective(a / 1000, b / 1000);
    DigitInjective(a / 100 % 10, b / 100 % 10);
    DigitInjective(a / 10 % 10, b / 10 % 10);
    DigitInjective(a % 10, b % 10);
    DigitsOf(a);
    DigitsOf(b);
  }

  // ----- Names ------------------------------------------------------------------------

  function ExchangeText(x: Exchange): string {
    match x
    case Binance => "binance"
    case Okx => "okx"
    case Bybit => "bybit"
    case Bitget => "bitget"
    case Kraken => "kraken"
  }

  function ExchangeUpper(x: Exchange): string {
    match x
    case Binance => "BINANCE"
    case Okx => "OKX"
    case Bybit => "BYBIT"
    case Bitget => "BITGET"
    case Kraken => "KRAKEN"
  }

  function MarketText(m: Market): string {
    match m
    case Spot => "spot"
    case Perpetual => "perpetual"
  }

  function MarketUpper(m: Market): string {
    match m
    case Spot => "SPOT"
    case Perpetual => "PERPETUAL"
  }

  function GroupText(g: StreamGroup): string {
    match g
    case Trade => "trade"
    case BookLive => "book_live"
    case Ticker => "ticker"
    case Bbo => "bbo"
    case Derivative => "derivative"
    case Candle1m => "candle_1m"
    case BookDeepSnapshot => "book_deep_snapshot"
    case Control => "control"
  }

  function LogicalText(l: LogicalStream): string {
    match l
    case Ordinary(g) => GroupText(g)
    case Funding => "funding"
    case OpenInterest => "open_interest"
    case ControlStream => "_control"
  }

  lemma ExchangeNames(x: Exchange, y: Exchange)
    ensures ColonFree(ExchangeText(x)) && ColonFree(ExchangeUpper(x))
    ensures ExchangeText(x) == ExchangeText(y) ==> x == y
  {
    assert ExchangeText(x)[0] != ExchangeText(y)[0] || |ExchangeText(x)| != |ExchangeText(y)| || x == y;
  }

  lemma MarketNames(m: Market, n: Market)
    ensures ColonFree(MarketText(m)) && ColonFree(MarketUpper(m)) && MarketText(m) != "-"
    ensures MarketText(m) == MarketText(n) ==> m == n
  {
    assert |MarketText(m)| != |MarketText(n)| || m == n;
    assert |MarketText(m)| != |"-"|;
  }

  lemma GroupNames(g: StreamGroup, h: StreamGroup)
    ensures ColonFree(GroupText(g))
    ensures GroupText(g) == GroupText(h) ==> g == h
  {
    assert |GroupText(g)| != |GroupText(h)| || GroupText(g)[0] != GroupText(h)[0] || g == h;
  }

  lemma LogicalNames(l: LogicalStream, k: LogicalStream)
    ensures ColonFree(LogicalText(l))
    ensures LogicalText(l) == LogicalText(k) ==> l == k
  {
    if l.Ordinary? && k.Ordinary? {
      GroupNames(l.group, k.group);
    } else {
      if l.Ordinary? { GroupNames(l.group, l.group); }
      assert |LogicalText(l)| != |LogicalText(k)| || LogicalText(l)[0] != LogicalText(k)[0] || l == k;
    }
  }
}
