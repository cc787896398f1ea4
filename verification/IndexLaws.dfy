/** Index prices in terms of the raw inputs: what a provider's quote is, when a market is priced, and what a
    chain of references evaluates to. */
module IndexLaws {
  import opened Wrappers
  import opened RealMedian
  import opened IndexPrices

  // ---------------------------------------------------------------- quotes

  /** The provider has a price for its off-chain ticker, and the pair it is normalised by, if any, an index
      price. */
  ghost predicate HasQuote(pv: ProviderValues, iv: IndexValues, cfg: ProviderConfig) {
    && cfg.provider in pv && cfg.offChainTicker in pv[cfg.provider]
    && (cfg.normalizeBy.Some? ==> cfg.normalizeBy.value in iv)
  }

  /** The cached price, inverted if configured, times the index price of the reference. */
  ghost function Quote(pv: ProviderValues, iv: IndexValues, cfg: ProviderConfig): real
    requires HasQuote(pv, iv, cfg) && (cfg.invert ==> pv[cfg.provider][cfg.offChainTicker] != 0.0)
  {
    var raw := pv[cfg.provider][cfg.offChainTicker];
    var price := if cfg.invert then 1.0 / raw else raw;
    if cfg.normalizeBy.None? then price else price * iv[cfg.normalizeBy.value]
  }

  ghost predicate Invertible(pv: ProviderValues, cfg: ProviderConfig) {
    cfg.invert && cfg.provider in pv && cfg.offChainTicker in pv[cfg.provider] ==>
      pv[cfg.provider][cfg.offChainTicker] != 0.0
  }

  lemma AdjustedIsQuote(pv: ProviderValues, iv: IndexValues, cfg: ProviderConfig)
    requires Invertible(pv, cfg)
    ensures AdjustedPrice(pv, iv, cfg) == if HasQuote(pv, iv, cfg) then Some(Quote(pv, iv, cfg)) else None
  {
    if HasQuote(pv, iv, cfg) {
      var raw := pv[cfg.provider][cfg.offChainTicker];
      var price := if cfg.invert then 1.0 / raw else raw;
      assert ProviderValue(pv, cfg) == Some(price);
      if cfg.normalizeBy.Some? {
        var y := iv[cfg.normalizeBy.value];
        assert AdjustedPrice(pv, iv, cfg) == Some(Product(price, y));
        assert Product(price, y) == price * y;
        assert Quote(pv, iv, cfg) == price * y;
      }
    }
  }

  ghost predicate AllInvertible(pv: ProviderValues, cfgs: seq<ProviderConfig>) {
    forall i :: 0 <= i < |cfgs| ==> Invertible(pv, cfgs[i])
  }

  /** How many of the providers quote, and how many of them within [lo, hi]. */
  ghost function Quoting(pv: ProviderValues, iv: IndexValues, cfgs: seq<ProviderConfig>): nat {
    if cfgs == [] then 0 else Quoting(pv, iv, cfgs[1..]) + if HasQuote(pv, iv, cfgs[0]) then 1 else 0
  }

  ghost function QuotingWithin(pv: ProviderValues, iv: IndexValues, cfgs: seq<ProviderConfig>, lo: real, hi: real): nat
    requires AllInvertible(pv, cfgs)
  {
    if cfgs == [] then 0
    else
      assert AllInvertible(pv, cfgs[1..]) && Invertible(pv, cfgs[0]);
      QuotingWithin(pv, iv, cfgs[1..], lo, hi)
      + if HasQuote(pv, iv, cfgs[0]) && lo <= Quote(pv, iv, cfgs[0]) <= hi then 1 else 0
  }

  lemma {:induction false} ConvertedCounts(pv: ProviderValues, iv: IndexValues, cfgs: seq<ProviderConfig>, lo: real,
                                           hi: real)
    requires AllInvertible(pv, cfgs)
    ensures |ConvertedPrices(pv, iv, cfgs)| == Quoting(pv, iv, cfgs)
    ensures CountIn(ConvertedPrices(pv, iv, cfgs), lo, hi) == QuotingWithin(pv, iv, cfgs, lo, hi)
  {
    if cfgs != [] {
      assert AllInvertible(pv, cfgs[1..]) && Invertible(pv, cfgs[0]);
      ConvertedCounts(pv, iv, cfgs[1..], lo, hi);
      AdjustedIsQuote(pv, iv, cfgs[0]);
      var rest := ConvertedPrices(pv, iv, cfgs[1..]);
      if HasQuote(pv, iv, cfgs[0]) {
        assert ([Quote(pv, iv, cfgs[0])] + rest)[1..] == rest;
      }
    }
  }

  // ---------------------------------------------------------------- markets

  /** A market has a new index price exactly when it is enabled and at least its minimum, and at least one, of
      its providers quote. */
  lemma PricedExactly(markets: MarketMap, pv: ProviderValues, iv: IndexValues, t: Ticker)
    requires t in markets && AllInvertible(pv, markets[t].providers)
    ensures t in NextIndex(markets, pv, iv) <==>
            && markets[t].enabled
            && Quoting(pv, iv, markets[t].providers) >= markets[t].minProviderCount
            && Quoting(pv, iv, markets[t].providers) >= 1
  {
    hide MedianOf, AdjustedPrice;
    ConvertedCounts(pv, iv, markets[t].providers, 0.0, 0.0);
  }

  /** The index price lies in every interval that holds a strict majority of the quotes. */
  lemma WithinQuotes(markets: MarketMap, pv: ProviderValues, iv: IndexValues, t: Ticker, lo: real, hi: real)
    requires t in NextIndex(markets, pv, iv) && AllInvertible(pv, markets[t].providers)
    requires 2 * QuotingWithin(pv, iv, markets[t].providers, lo, hi) > Quoting(pv, iv, markets[t].providers)
    ensures lo <= NextIndex(markets, pv, iv)[t] <= hi
  {
    ConvertedCounts(pv, iv, markets[t].providers, lo, hi);
    TickPrices(markets, pv, iv, t, lo, hi);
  }

  /** A market with one provider takes its quote: the cached price, or its inverse, times the index price of
      the reference, if any. */
  lemma SingleProvider(markets: MarketMap, pv: ProviderValues, iv: IndexValues, t: Ticker, p: ProviderConfig)
    requires t in markets && markets[t].enabled && markets[t].minProviderCount <= 1 && markets[t].providers == [p]
    requires HasQuote(pv, iv, p) && Invertible(pv, p)
    ensures t in NextIndex(markets, pv, iv)
    ensures var raw := pv[p.provider][p.offChainTicker];
            var reference := if p.normalizeBy.Some? then iv[p.normalizeBy.value] else 1.0;
            NextIndex(markets, pv, iv)[t] == if p.invert then (1.0 / raw) * reference else raw * reference
  {
    AdjustedIsQuote(pv, iv, p);
    var q := Quote(pv, iv, p);
    assert ConvertedPrices(pv, iv, [p][1..]) == [];
    assert ConvertedPrices(pv, iv, [p]) == [q];
    MedianOfOne(q);
  }

  /** A market with two quoting providers takes the average of their quotes. */
  lemma TwoProviders(markets: MarketMap, pv: ProviderValues, iv: IndexValues, t: Ticker, p: ProviderConfig,
                     q: ProviderConfig)
    requires t in markets && markets[t].enabled && markets[t].minProviderCount <= 2 && markets[t].providers == [p, q]
    requires HasQuote(pv, iv, p) && Invertible(pv, p) && HasQuote(pv, iv, q) && Invertible(pv, q)
    ensures t in NextIndex(markets, pv, iv)
    ensures NextIndex(markets, pv, iv)[t] == (Quote(pv, iv, p) + Quote(pv, iv, q)) / 2.0
  {
    hide AdjustedPrice, MedianOf;
    AdjustedIsQuote(pv, iv, p);
    AdjustedIsQuote(pv, iv, q);
    assert [p, q][1..] == [q] && [q][1..] == [];
    assert ConvertedPrices(pv, iv, [q]) == [Quote(pv, iv, q)] + [];
    assert ConvertedPrices(pv, iv, [p, q]) == [Quote(pv, iv, p)] + [Quote(pv, iv, q)];
    assert [Quote(pv, iv, p)] + [Quote(pv, iv, q)] == [Quote(pv, iv, p), Quote(pv, iv, q)];
    MedianOfTwo(Quote(pv, iv, p), Quote(pv, iv, q));
  }

  // ---------------------------------------------------------------- scaling

  lemma {:induction false} Pow10Adds(m: nat, n: nat)
    ensures Pow10(m + n) == Pow10(m) * Pow10(n)
  {
    if m > 0 {
      Pow10Adds(m - 1, n);
    }
  }

  /** A scaled price is the index price moved by the market's decimals: 8 of them are a factor of 100000000. */
  lemma ScaledBy(markets: MarketMap, iv: IndexValues, t: Ticker)
    requires t in markets && t in iv
    ensures t in Scaled(markets, iv) && Scaled(markets, iv)[t] == iv[t] * Pow10(markets[t].decimals)
    ensures markets[t].decimals == 0 ==> Scaled(markets, iv)[t] == iv[t]
    ensures markets[t].decimals == 8 ==> Scaled(markets, iv)[t] == iv[t] * 100_000_000.0
    ensures markets[t].decimals == 18 ==> Scaled(markets, iv)[t] == iv[t] * 1_000_000_000_000_000_000.0
  {
    assert Pow10(2) == 100.0;
    Pow10Adds(2, 2);
    Pow10Adds(4, 4);
    Pow10Adds(8, 8);
    Pow10Adds(16, 2);
  }

  // ---------------------------------------------------------------- chains of references

  /** chain[0] is normalised by chain[1], that by chain[2], and so on; the last one has no reference. Every
      market of the chain is enabled with a single provider that has a price. */
  ghost predicate IsChain(markets: MarketMap, pv: ProviderValues, chain: seq<Ticker>) {
    && chain != []
    && forall i :: 0 <= i < |chain| ==> Linked(markets, pv, chain, i)
  }

  ghost predicate Linked(markets: MarketMap, pv: ProviderValues, chain: seq<Ticker>, i: nat)
    requires i < |chain|
  {
    && chain[i] in markets && Link(markets[chain[i]], pv)
    && markets[chain[i]].providers[0].normalizeBy == if i + 1 < |chain| then Some(chain[i + 1]) else None
  }

  ghost predicate Link(market: Market, pv: ProviderValues) {
    && market.enabled && market.minProviderCount <= 1 && |market.providers| == 1
    && var p := market.providers[0];
       p.provider in pv && p.offChainTicker in pv[p.provider] && Invertible(pv, p)
  }

  /** The product of the provider prices along the chain, inverted where configured. */
  ghost function ChainProduct(markets: MarketMap, pv: ProviderValues, chain: seq<Ticker>): real
    requires IsChain(markets, pv, chain)
  {
    assert Linked(markets, pv, chain, 0);
    var p := markets[chain[0]].providers[0];
    var raw := pv[p.provider][p.offChainTicker];
    var price := if p.invert then 1.0 / raw else raw;
    if |chain| == 1 then price
    else
      assert IsChain(markets, pv, chain[1..]) by { ChainTail(markets, pv, chain); }
      price * ChainProduct(markets, pv, chain[1..])
  }

  lemma ChainTail(markets: MarketMap, pv: ProviderValues, chain: seq<Ticker>)
    requires IsChain(markets, pv, chain) && |chain| > 1
    ensures IsChain(markets, pv, chain[1..])
  {
    hide Link;
    var tail := chain[1..];
    forall i | 0 <= i < |tail|
      ensures tail[i] in markets && Linked(markets, pv, tail, i)
    {
      assert tail[i] == chain[i + 1] && Linked(markets, pv, chain, i + 1);
      if i + 1 < |tail| {
        assert tail[i + 1] == chain[i + 2];
      }
    }
  }

  lemma LinkHasProvider(market: Market, pv: ProviderValues)
    requires Link(market, pv)
    ensures |market.providers| == 1 && market.enabled && market.minProviderCount <= 1
    ensures var p := market.providers[0];
            p.provider in pv && p.offChainTicker in pv[p.provider] && Invertible(pv, p) && market.providers == [p]
  {
  }

  /** After as many ticks as the chain is long, from any stale index and whatever the other markets do, its
      first market has the product of the provider prices along the chain, and keeps it. */
  lemma {:induction false} ChainConverges(markets: MarketMap, pv: ProviderValues, chain: seq<Ticker>,
                                          start: IndexValues, n: nat)
    requires IsChain(markets, pv, chain) && n >= |chain|
    ensures var index := IndexAfter(markets, pv, start, n);
            chain[0] in index && index[chain[0]] == ChainProduct(markets, pv, chain)
    decreases |chain|
  {
    hide NextIndex, Link;
    assert Linked(markets, pv, chain, 0);
    LinkHasProvider(markets[chain[0]], pv);
    var t, p := chain[0], markets[chain[0]].providers[0];
    var before := IndexAfter(markets, pv, start, n - 1);
    assert IndexAfter(markets, pv, start, n) == NextIndex(markets, pv, before);
    if |chain| > 1 {
      ChainTail(markets, pv, chain);
      ChainConverges(markets, pv, chain[1..], start, n - 1);
      assert p.normalizeBy == Some(chain[1..][0]);
    }
    SingleProvider(markets, pv, before, t, p);
  }
}
