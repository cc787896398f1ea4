/** One aggregation tick of the sidecar as a function on values: provider prices are normalised by
    the previous tick's index prices, and each market takes the median. */
module IndexPrices {
  import opened Wrappers
  import opened Permutations
  import opened RealMedian

  /** A currency pair in the form it keys maps with. */
  datatype Ticker = Ticker(text: string)

  datatype Provider = Provider(name: string)

  datatype OffChainTicker = OffChainTicker(text: string)

  datatype ProviderConfig = ProviderConfig(provider: Provider, offChainTicker: OffChainTicker,
                                           normalizeBy: Option<Ticker>, invert: bool)

  datatype Market = Market(ticker: Ticker, decimals: nat, minProviderCount: nat, enabled: bool,
                           providers: seq<ProviderConfig>)

  type MarketMap = map<Ticker, Market>

  /** Prices by provider and off-chain ticker; nil entries do not appear. */
  type ProviderValues = map<Provider, map<OffChainTicker, real>>

  type IndexValues = map<Ticker, real>

  ghost predicate KeyedByTicker(markets: MarketMap) {
    forall t | t in markets :: markets[t].ticker == t
  }

  /** What the validation of a market map guarantees. */
  ghost predicate WellFormed(markets: MarketMap) {
    KeyedByTicker(markets) && forall t | t in markets :: markets[t].minProviderCount >= 1
  }

  // ---------------------------------------------------------------- one market

  function ProviderValue(pv: ProviderValues, cfg: ProviderConfig): Option<real> {
    if cfg.provider !in pv || cfg.offChainTicker !in pv[cfg.provider] then None
    else
      var price := pv[cfg.provider][cfg.offChainTicker];
      Some(if cfg.invert && price != 0.0 then 1.0 / price else price)
  }

  function Product(x: real, y: real): real {
    x * y
  }

  function AdjustedPrice(pv: ProviderValues, iv: IndexValues, cfg: ProviderConfig): Option<real> {
    var price := ProviderValue(pv, cfg);
    if price.None? || cfg.normalizeBy.None? then price
    else if cfg.normalizeBy.value in iv then Some(Product(price.value, iv[cfg.normalizeBy.value]))
    else None
  }

  function ConvertedPrices(pv: ProviderValues, iv: IndexValues, cfgs: seq<ProviderConfig>): seq<real> {
    if cfgs == [] then []
    else
      var rest := ConvertedPrices(pv, iv, cfgs[1..]);
      var price := AdjustedPrice(pv, iv, cfgs[0]);
      if price.None? then rest else [price.value] + rest
  }

  function MarketPrice(pv: ProviderValues, iv: IndexValues, market: Market): Option<real> {
    var converted := ConvertedPrices(pv, iv, market.providers);
    if !market.enabled || |converted| < market.minProviderCount || converted == [] then None
    else Some(MedianOf(converted))
  }

  // ---------------------------------------------------------------- one tick

  ghost function NextIndex(markets: MarketMap, pv: ProviderValues, iv: IndexValues): IndexValues {
    map t | t in markets && MarketPrice(pv, iv, markets[t]).Some? :: MarketPrice(pv, iv, markets[t]).value
  }

  function Pow10(n: nat): real {
    if n == 0 then 1.0 else 10.0 * Pow10(n - 1)
  }

  ghost function Scaled(markets: MarketMap, iv: IndexValues): IndexValues {
    map t | t in iv && t in markets :: Product(iv[t], Pow10(markets[t].decimals))
  }

  /** Each index price lies in every interval that holds a strict majority of its market's converted
      prices, and its scaled price is the index price times 10^decimals. */
  lemma TickPrices(markets: MarketMap, pv: ProviderValues, iv: IndexValues, t: Ticker, lo: real, hi: real)
    requires t in NextIndex(markets, pv, iv)
    requires var converted := ConvertedPrices(pv, iv, markets[t].providers);
             2 * CountIn(converted, lo, hi) > |converted|
    ensures lo <= NextIndex(markets, pv, iv)[t] <= hi
    ensures var index := NextIndex(markets, pv, iv);
            Scaled(markets, index).Keys == index.Keys
              && Scaled(markets, index)[t] == index[t] * Pow10(markets[t].decimals)
  {
    hide MedianOf, ConvertedPrices, Pow10;
    MedianWithinMajority(ConvertedPrices(pv, iv, markets[t].providers), lo, hi);
  }

  /** Prices enter a market's median whatever the order of its provider configs. */
  lemma {:induction false} ConvertedConcat(pv: ProviderValues, iv: IndexValues, a: seq<ProviderConfig>,
                                           b: seq<ProviderConfig>)
    ensures ConvertedPrices(pv, iv, a + b) == ConvertedPrices(pv, iv, a) + ConvertedPrices(pv, iv, b)
  {
    if a == [] {
      assert a + b == b;
    } else {
      assert (a + b)[1..] == a[1..] + b;
      ConvertedConcat(pv, iv, a[1..], b);
    }
  }

  lemma {:induction false} ConvertedPermutation(pv: ProviderValues, iv: IndexValues, a: seq<ProviderConfig>,
                                                b: seq<ProviderConfig>)
    requires multiset(a) == multiset(b)
    ensures multiset(ConvertedPrices(pv, iv, a)) == multiset(ConvertedPrices(pv, iv, b))
  {
    hide AdjustedPrice;
    if a == [] {
      assert |multiset(b)| == 0;
    } else {
      var k := RemoveFirst(a, b);
      ConvertedPermutation(pv, iv, a[1..], b[..k] + b[k + 1..]);
      ConvertedSplit(pv, iv, a, 0);
      ConvertedSplit(pv, iv, b, k);
    }
  }

  /** Taking one config out takes its price (if any) out of the multiset of converted prices. */
  lemma ConvertedSplit(pv: ProviderValues, iv: IndexValues, s: seq<ProviderConfig>, k: nat)
    requires k < |s|
    ensures multiset(ConvertedPrices(pv, iv, s)) ==
            multiset(ConvertedPrices(pv, iv, s[..k] + s[k + 1..])) + multiset(ConvertedPrices(pv, iv, [s[k]]))
    ensures s[..0] + s[1..] == s[1..]
  {
    hide AdjustedPrice, ConvertedPrices;
    assert s == s[..k] + ([s[k]] + s[k + 1..]);
    ConvertedConcat(pv, iv, s[..k], [s[k]] + s[k + 1..]);
    ConvertedConcat(pv, iv, [s[k]], s[k + 1..]);
    ConvertedConcat(pv, iv, s[..k], s[k + 1..]);
  }

  lemma ProviderOrderIrrelevant(pv: ProviderValues, iv: IndexValues, m: Market, m': Market)
    requires m' == m.(providers := m'.providers) && multiset(m.providers) == multiset(m'.providers)
    ensures MarketPrice(pv, iv, m) == MarketPrice(pv, iv, m')
  {
    ConvertedPermutation(pv, iv, m.providers, m'.providers);
    var s, t := ConvertedPrices(pv, iv, m.providers), ConvertedPrices(pv, iv, m'.providers);
    assert |multiset(s)| == |s| && |multiset(t)| == |t|;
    if s != [] {
      MedianPermutation(s, t);
    }
  }

  // ---------------------------------------------------------------- convergence

  /** The index prices after n ticks with unchanged provider prices. */
  ghost function IndexAfter(markets: MarketMap, pv: ProviderValues, start: IndexValues, n: nat): IndexValues {
    if n == 0 then start else NextIndex(markets, pv, IndexAfter(markets, pv, start, n - 1))
  }

  /** The normalisation references of enabled markets descend in rank, so they are acyclic; the rank
      of a market bounds the length of the reference chains below it. */
  ghost predicate Ranked(markets: MarketMap, rank: Ticker -> nat) {
    forall t, i | t in markets && markets[t].enabled && 0 <= i < |markets[t].providers| &&
      markets[t].providers[i].normalizeBy.Some? :: rank(markets[t].providers[i].normalizeBy.value) < rank(t)
  }

  ghost function References(market: Market): set<Ticker> {
    set i | 0 <= i < |market.providers| && market.providers[i].normalizeBy.Some? ::
      market.providers[i].normalizeBy.value
  }

  /** The direct recursive evaluation of a market: its own providers, normalised by the evaluated
      prices of the markets it refers to. */
  ghost function Eval(markets: MarketMap, pv: ProviderValues, rank: Ticker -> nat, t: Ticker): Option<real>
    requires Ranked(markets, rank)
    decreases rank(t)
  {
    if t !in markets || !markets[t].enabled then None
    else
      var refs := References(markets[t]);
      var evaluated := map q | q in refs && Eval(markets, pv, rank, q).Some? :: Eval(markets, pv, rank, q).value;
      MarketPrice(pv, evaluated, markets[t])
  }

  /** iv holds the evaluated price of every ticker of rank below the bound. */
  ghost predicate Settled(markets: MarketMap, pv: ProviderValues, rank: Ticker -> nat, iv: IndexValues, bound: nat)
    requires Ranked(markets, rank)
  {
    forall t | rank(t) < bound ::
      if t in iv then Eval(markets, pv, rank, t) == Some(iv[t]) else Eval(markets, pv, rank, t) == None
  }

  ghost predicate AgreeOn(iv: IndexValues, iv': IndexValues, cfgs: seq<ProviderConfig>) {
    forall i :: 0 <= i < |cfgs| && cfgs[i].normalizeBy.Some? ==>
      var q := cfgs[i].normalizeBy.value;
      (q in iv <==> q in iv') && (q in iv ==> iv[q] == iv'[q])
  }

  lemma AdjustedAgree(pv: ProviderValues, iv: IndexValues, iv': IndexValues, cfg: ProviderConfig)
    requires AgreeOn(iv, iv', [cfg])
    ensures AdjustedPrice(pv, iv, cfg) == AdjustedPrice(pv, iv', cfg)
  {
    hide ProviderValue, Product;
    assert [cfg][0] == cfg;
  }

  lemma {:induction false} ConvertedAgree(pv: ProviderValues, iv: IndexValues, iv': IndexValues,
                                          cfgs: seq<ProviderConfig>)
    requires AgreeOn(iv, iv', cfgs)
    ensures ConvertedPrices(pv, iv, cfgs) == ConvertedPrices(pv, iv', cfgs)
  {
    if cfgs != [] {
      assert forall i :: 0 <= i < |cfgs[1..]| ==> cfgs[1..][i] == cfgs[i + 1];
      ConvertedAgree(pv, iv, iv', cfgs[1..]);
      AdjustedAgree(pv, iv, iv', cfgs[0]);
    }
  }

  /** Each tick settles one more rank. */
  lemma TickSettles(markets: MarketMap, pv: ProviderValues, rank: Ticker -> nat, iv: IndexValues, bound: nat)
    requires Ranked(markets, rank) && Settled(markets, pv, rank, iv, bound)
    ensures Settled(markets, pv, rank, NextIndex(markets, pv, iv), bound + 1)
  {
    var next := NextIndex(markets, pv, iv);
    forall t | rank(t) < bound + 1
      ensures if t in next then Eval(markets, pv, rank, t) == Some(next[t]) else Eval(markets, pv, rank, t) == None
    {
      if t in markets && markets[t].enabled {
        var market := markets[t];
        var evaluated := map q | q in References(market) && Eval(markets, pv, rank, q).Some? ::
          Eval(markets, pv, rank, q).value;
        forall i | 0 <= i < |market.providers| && market.providers[i].normalizeBy.Some?
          ensures var q := market.providers[i].normalizeBy.value;
                  (q in iv <==> q in evaluated) && (q in iv ==> iv[q] == evaluated[q])
        {
          var q := market.providers[i].normalizeBy.value;
          assert rank(q) < rank(t) && q in References(market);
        }
        ConvertedAgree(pv, iv, evaluated, market.providers);
        assert Eval(markets, pv, rank, t) == MarketPrice(pv, evaluated, market);
      }
    }
  }

  lemma NothingSettledYet(markets: MarketMap, pv: ProviderValues, rank: Ticker -> nat, iv: IndexValues)
    requires Ranked(markets, rank)
    ensures Settled(markets, pv, rank, iv, 0)
  {
  }

  lemma {:induction false} RanksSettle(markets: MarketMap, pv: ProviderValues, rank: Ticker -> nat,
                                       start: IndexValues, n: nat)
    requires Ranked(markets, rank)
    ensures Settled(markets, pv, rank, IndexAfter(markets, pv, start, n), n)
  {
    hide Settled, NextIndex, Ranked;
    if n > 0 {
      RanksSettle(markets, pv, rank, start, n - 1);
      TickSettles(markets, pv, rank, IndexAfter(markets, pv, start, n - 1), n - 1);
    } else {
      NothingSettledYet(markets, pv, rank, start);
    }
  }

  ghost function Evaluated(markets: MarketMap, pv: ProviderValues, rank: Ticker -> nat): IndexValues
    requires Ranked(markets, rank)
  {
    map t | t in markets && Eval(markets, pv, rank, t).Some? :: Eval(markets, pv, rank, t).value
  }

  /** Index convergence: when reference chains are at most `depth` long, depth + 1 ticks reach the
      direct recursive evaluation of every market, from any stale index, and further ticks stay there. */
  lemma IndexConverges(markets: MarketMap, pv: ProviderValues, rank: Ticker -> nat, depth: nat, start: IndexValues,
                       n: nat)
    requires Ranked(markets, rank) && n >= depth + 1
    requires forall t | t in markets :: rank(t) <= depth
    ensures IndexAfter(markets, pv, start, n) == Evaluated(markets, pv, rank)
    ensures NextIndex(markets, pv, Evaluated(markets, pv, rank)) == Evaluated(markets, pv, rank)
  {
    hide MedianOf, MarketPrice, Eval, Ranked;
    forall k | k == n || k == n + 1
      ensures IndexAfter(markets, pv, start, k) == Evaluated(markets, pv, rank)
    {
      RanksSettle(markets, pv, rank, start, k);
      var iv := IndexAfter(markets, pv, start, k);
      assert forall t | t in iv :: t in markets by {
        assert iv == NextIndex(markets, pv, IndexAfter(markets, pv, start, k - 1));
      }
      assert forall t | t in markets :: t in iv <==> Eval(markets, pv, rank, t).Some?;
      assert iv == Evaluated(markets, pv, rank);
    }
    assert IndexAfter(markets, pv, start, n + 1) == NextIndex(markets, pv, IndexAfter(markets, pv, start, n));
  }
}
