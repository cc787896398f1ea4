/** The index price aggregator over *big.Float objects. Medians alias provider prices, so the model
    keeps the objects: a tick may only write objects it allocated itself. */
module IndexAggregator {
  import opened Wrappers
  import opened Permutations
  import opened RealMedian
  import opened IndexPrices

  class BigFloat {
    var value: real

    constructor (value: real)
      ensures this.value == value
    {
      this.value := value;
    }
  }

  datatype PriceError = MissingProvider | MissingPrice | NilPrice | MissingIndexPrice

  ghost function ValuesOf(s: seq<BigFloat>): (values: seq<real>)
    reads s
    ensures |values| == |s|
  {
    seq(|s|, i requires 0 <= i < |s| reads s => s[i].value)
  }

  ghost function IndexView(m: map<Ticker, BigFloat?>): IndexValues
    reads set t | t in m :: m[t]
  {
    map t | t in m && m[t] != null :: m[t].value
  }

  ghost function CacheView(m: map<OffChainTicker, BigFloat?>): map<OffChainTicker, real>
    reads set t | t in m :: m[t]
  {
    map t | t in m && m[t] != null :: m[t].value
  }

  ghost function ProviderView(m: map<Provider, map<OffChainTicker, BigFloat?>>): ProviderValues
    reads set p, t | p in m && t in m[p] :: m[p][t]
  {
    map p | p in m :: CacheView(m[p])
  }

  // ---------------------------------------------------------------- sorting and median

  lemma {:induction false} ValuesPermutation(s: seq<BigFloat>, t: seq<BigFloat>)
    requires multiset(s) == multiset(t)
    ensures multiset(ValuesOf(s)) == multiset(ValuesOf(t))
  {
    if s == [] {
      assert |multiset(t)| == 0;
      assert ValuesOf(s) == ValuesOf(t);
    } else {
      var k := RemoveFirst(s, t);
      ValuesPermutation(s[1..], t[..k] + t[k + 1..]);
      ValuesDrop(s, 0);
      ValuesDrop(t, k);
      assert s[..0] + s[1..] == s[1..];
    }
  }

  lemma ValuesDrop(s: seq<BigFloat>, k: nat)
    requires k < |s|
    ensures multiset(ValuesOf(s)) == multiset(ValuesOf(s[..k] + s[k + 1..])) + multiset{s[k].value}
  {
    var values := ValuesOf(s);
    DropOne(values, k);
    assert ValuesOf(s[..k] + s[k + 1..]) == values[..k] + values[k + 1..];
  }

  method InsertLeft(values: array<BigFloat>, i: nat)
    requires i < values.Length && forall p, q :: 0 <= p < q < i ==> values[p].value <= values[q].value
    modifies values
    ensures forall p, q :: 0 <= p < q <= i ==> values[p].value <= values[q].value
    ensures multiset(values[..]) == multiset(old(values[..]))
  {
    var j := i;
    while j > 0 && values[j].value <= values[j - 1].value
      invariant j <= i
      invariant multiset(values[..]) == multiset(old(values[..]))
      invariant forall p, q :: 0 <= p < q <= i && q != j ==> values[p].value <= values[q].value
    {
      Swap(values, j);
      j := j - 1;
    }
  }

  /** Sorts the slice of references; no number is written. The comparator answers true on ties. */
  method SortBigFloats(values: array<BigFloat>)
    modifies values
    ensures multiset(values[..]) == multiset(old(values[..]))
    ensures Sorted(ValuesOf(values[..]))
  {
    var i := 0;
    while i < values.Length
      invariant i <= values.Length
      invariant forall p, q :: 0 <= p < q < i ==> values[p].value <= values[q].value
      invariant multiset(values[..]) == multiset(old(values[..]))
    {
      InsertLeft(values, i);
      i := i + 1;
    }
  }

  /** For an odd count the result is one of the given objects, otherwise a new one. */
  method CalculateMedian(values: array<BigFloat>) returns (median: BigFloat?)
    modifies values
    ensures median == null <==> values.Length == 0
    ensures median != null ==> median.value == MedianOf(old(ValuesOf(values[..])))
    ensures median != null ==> fresh(median) || median in old(values[..])
  {
    if values.Length == 0 {
      return null;
    }
    ghost var given := values[..];
    SortBigFloats(values);
    ghost var sorted := values[..];
    ValuesPermutation(given, sorted);
    AnySortGivesMedian(ValuesOf(sorted), ValuesOf(given));
    var middleIndex := values.Length / 2;
    if values.Length % 2 == 0 {
      median := new BigFloat((values[middleIndex - 1].value + values[middleIndex].value) / 2.0);
    } else {
      median := values[middleIndex];
      assert median in multiset(sorted);
    }
  }

  method PowerOfTen(n: nat) returns (p: real)
    ensures p == Pow10(n)
  {
    p := 1.0;
    for i := 0 to n
      invariant p == Pow10(i)
    {
      p := 10.0 * p;
    }
  }

  /** Multiplies its argument in place and returns it. */
  method ScaleBigFloat(f: BigFloat, decimals: nat) returns (scaled: BigFloat)
    modifies f
    ensures scaled == f && f.value == old(f.value) * Pow10(decimals)
  {
    var factor := PowerOfTen(decimals);
    f.value := f.value * factor;
    return f;
  }

  // ---------------------------------------------------------------- the aggregator

  /** An inverted price is never zero: big.Float would answer an infinity, which reals do not have. */
  ghost predicate InvertedNonZero(markets: MarketMap, pv: ProviderValues) {
    forall t, i | t in markets && 0 <= i < |markets[t].providers| :: InvertibleConfig(markets[t].providers[i], pv)
  }

  ghost predicate InvertibleConfig(cfg: ProviderConfig, pv: ProviderValues) {
    cfg.invert && cfg.provider in pv && cfg.offChainTicker in pv[cfg.provider] ==>
      pv[cfg.provider][cfg.offChainTicker] != 0.0
  }

  /** With a provider minimum of zero an enabled market needs a price all the same: there is no median of
      no prices, and copying the nil one panics. */
  ghost predicate HasMedian(market: Market, pv: ProviderValues, iv: IndexValues) {
    market.enabled && market.minProviderCount == 0 ==> ConvertedPrices(pv, iv, market.providers) != []
  }

  /** The result maps hold the prices of exactly the markets in `done` that have one. */
  ghost predicate Computed(index: map<Ticker, BigFloat>, scaled: map<Ticker, BigFloat>, done: set<Ticker>,
                           markets: MarketMap, pv: ProviderValues, iv: IndexValues)
    reads set t | t in index :: index[t], set t | t in scaled :: scaled[t]
  {
    && done <= markets.Keys
    && index.Keys == scaled.Keys
    && (forall t :: t in index <==> t in done && MarketPrice(pv, iv, markets[t]).Some?)
    && (forall t | t in index :: index[t].value == MarketPrice(pv, iv, markets[t]).value)
    && forall t | t in scaled ::
         scaled[t].value == Product(MarketPrice(pv, iv, markets[t]).value, Pow10(markets[t].decimals))
  }

  lemma NothingComputed(markets: MarketMap, pv: ProviderValues, iv: IndexValues)
    ensures Computed(map[], map[], {}, markets, pv, iv)
  {
  }

  lemma ComputedGrows(index: map<Ticker, BigFloat>, scaled: map<Ticker, BigFloat>, done: set<Ticker>, t: Ticker,
                      i: BigFloat?, s: BigFloat?, markets: MarketMap, pv: ProviderValues, iv: IndexValues)
    requires Computed(index, scaled, done, markets, pv, iv) && t in markets && t !in done
    requires var want := MarketPrice(pv, iv, markets[t]);
             && (i != null <==> want.Some?) && (s != null <==> want.Some?)
             && (want.Some? ==> i.value == want.value && s.value == Product(want.value, Pow10(markets[t].decimals)))
    ensures i == null ==> Computed(index, scaled, done + {t}, markets, pv, iv)
    ensures i != null ==> Computed(index[t := i], scaled[t := s], done + {t}, markets, pv, iv)
  {
    hide MarketPrice, Pow10, Product;
  }

  /** The result maps of a tick, seen as values. */
  lemma TickViews(index: map<Ticker, BigFloat>, scaled: map<Ticker, BigFloat>, markets: MarketMap, pv: ProviderValues,
                  iv: IndexValues)
    requires Computed(index, scaled, markets.Keys, markets, pv, iv)
    ensures IndexView(index) == NextIndex(markets, pv, iv)
    ensures IndexView(scaled) == Scaled(markets, IndexView(index))
  {
    hide MarketPrice, Pow10, Product;
    var next := NextIndex(markets, pv, iv);
    assert IndexView(index).Keys == next.Keys;
    assert IndexView(index) == next;
    assert IndexView(scaled).Keys == Scaled(markets, next).Keys;
  }

  class IndexPriceAggregator {
    var cfg: MarketMap
    var indexPrices: map<Ticker, BigFloat?>
    var scaledPrices: map<Ticker, BigFloat?>
    var providerPrices: map<Provider, map<OffChainTicker, BigFloat?>>

    constructor (cfg: MarketMap)
      ensures this.cfg == cfg && indexPrices == map[] && scaledPrices == map[] && providerPrices == map[]
    {
      this.cfg, indexPrices, scaledPrices, providerPrices := cfg, map[], map[], map[];
    }

    method SetProviderPrices(provider: Provider, data: map<OffChainTicker, BigFloat?>)
      modifies this`providerPrices
      ensures providerPrices == old(providerPrices)[provider := data]
    {
      providerPrices := providerPrices[provider := data];
    }

    method Reset()
      modifies this`providerPrices
      ensures providerPrices == map[]
    {
      providerPrices := map[];
    }

    /** A cached object itself, or a new one holding the inverse. */
    method GetProviderPrice(pc: ProviderConfig) returns (r: Result<BigFloat, PriceError>)
      requires InvertibleConfig(pc, ProviderView(providerPrices))
      ensures r.Ok? == ProviderValue(ProviderView(providerPrices), pc).Some?
      ensures r.Ok? ==> r.value.value == ProviderValue(ProviderView(providerPrices), pc).value
    {
      if pc.provider !in providerPrices {
        return Err(MissingProvider);
      }
      var cache := providerPrices[pc.provider];
      if pc.offChainTicker !in cache {
        return Err(MissingPrice);
      }
      var price := cache[pc.offChainTicker];
      if price == null {
        return Err(NilPrice);
      }
      if pc.invert {
        var inverse := new BigFloat(1.0 / price.value);
        return Ok(inverse);
      }
      return Ok(price);
    }

    method GetIndexPrice(cp: Ticker) returns (r: Result<BigFloat, PriceError>)
      ensures r.Ok? == (cp in IndexView(indexPrices))
      ensures r.Ok? ==> r.value.value == IndexView(indexPrices)[cp]
    {
      if cp !in indexPrices {
        return Err(MissingIndexPrice);
      }
      var price := indexPrices[cp];
      if price == null {
        return Err(NilPrice);
      }
      return Ok(price);
    }

    method CalculateAdjustedPrice(pc: ProviderConfig) returns (r: Result<BigFloat, PriceError>)
      requires InvertibleConfig(pc, ProviderView(providerPrices))
      ensures var want := AdjustedPrice(ProviderView(providerPrices), IndexView(indexPrices), pc);
              r.Ok? == want.Some? && (r.Ok? ==> r.value.value == want.value)
    {
      var price :- GetProviderPrice(pc);
      if pc.normalizeBy.None? {
        return Ok(price);
      }
      var norm :- GetIndexPrice(pc.normalizeBy.value);
      var adjusted := new BigFloat(Product(price.value, norm.value));
      return Ok(adjusted);
    }

    method CalculateConvertedPrices(market: Market) returns (converted: seq<BigFloat>)
      requires forall i :: 0 <= i < |market.providers| ==>
                 InvertibleConfig(market.providers[i], ProviderView(providerPrices))
      ensures ValuesOf(converted)
              == ConvertedPrices(ProviderView(providerPrices), IndexView(indexPrices), market.providers)
    {
      hide ProviderView, IndexView, AdjustedPrice, InvertibleConfig;
      converted := [];
      var cfgs := market.providers;
      for i := 0 to |cfgs|
        invariant ValuesOf(converted) + ConvertedPrices(ProviderView(providerPrices), IndexView(indexPrices), cfgs[i..])
               == ConvertedPrices(ProviderView(providerPrices), IndexView(indexPrices), cfgs)
      {
        var adjusted := CalculateAdjustedPrice(cfgs[i]);
        assert cfgs[i..][1..] == cfgs[i + 1..];
        if adjusted.Ok? {
          assert ValuesOf(converted + [adjusted.value]) == ValuesOf(converted) + [adjusted.value.value];
          converted := converted + [adjusted.value];
        }
      }
    }

    /** The body of the tick for one market: null when it is disabled or has too few prices. Index and
        scaled price are new objects, so scaling in place touches neither the index nor a provider. */
    method PriceMarket(market: Market) returns (index: BigFloat?, scaled: BigFloat?)
      requires HasMedian(market, ProviderView(providerPrices), IndexView(indexPrices))
      requires forall i :: 0 <= i < |market.providers| ==>
                 InvertibleConfig(market.providers[i], ProviderView(providerPrices))
      ensures var want := MarketPrice(ProviderView(providerPrices), IndexView(indexPrices), market);
              && (index != null <==> want.Some?) && (scaled != null <==> want.Some?)
              && (want.Some? ==>
                    && fresh(index) && fresh(scaled) && index != scaled
                    && index.value == want.value && scaled.value == Product(want.value, Pow10(market.decimals)))
    {
      hide ProviderView, IndexView, ConvertedPrices, MedianOf, Pow10, InvertibleConfig;
      if !market.enabled {
        return null, null;
      }
      var converted := CalculateConvertedPrices(market);
      if |converted| < market.minProviderCount {
        return null, null;
      }
      var slice := new BigFloat[|converted|](i requires 0 <= i < |converted| => converted[i]);
      assert slice[..] == converted;
      var price := CalculateMedian(slice);
      index := new BigFloat(price.value);
      scaled := new BigFloat(price.value);
      scaled := ScaleBigFloat(scaled, market.decimals);
    }

    /** One tick, visiting the market map in an arbitrary order. Only the two result maps of the
        aggregator change, and they hold new objects; no existing BigFloat is written. */
    method AggregatePrices()
      requires KeyedByTicker(cfg) && InvertedNonZero(cfg, ProviderView(providerPrices))
      requires forall t | t in cfg :: HasMedian(cfg[t], ProviderView(providerPrices), IndexView(indexPrices))
      modifies this`indexPrices, this`scaledPrices
      ensures IndexView(indexPrices) == NextIndex(cfg, ProviderView(providerPrices), old(IndexView(indexPrices)))
      ensures IndexView(scaledPrices) == Scaled(cfg, IndexView(indexPrices))
      ensures ProviderView(providerPrices) == old(ProviderView(providerPrices))
      ensures forall t | t in indexPrices :: indexPrices[t] != null && fresh(indexPrices[t])
      ensures forall t | t in scaledPrices :: scaledPrices[t] != null && fresh(scaledPrices[t])
    {
      hide MarketPrice, Pow10, Product, Computed, ProviderView, IndexView, InvertibleConfig, HasMedian, NextIndex,
           Scaled;
      ghost var pv, iv := ProviderView(providerPrices), IndexView(indexPrices);
      var newIndex: map<Ticker, BigFloat> := map[];
      var newScaled: map<Ticker, BigFloat> := map[];
      ghost var done: set<Ticker> := {};
      NothingComputed(cfg, pv, iv);
      var left := cfg.Keys;
      while left != {}
        invariant done !! left && done + left == cfg.Keys
        invariant ProviderView(providerPrices) == pv && IndexView(indexPrices) == iv
        invariant Computed(newIndex, newScaled, done, cfg, pv, iv)
        invariant forall t | t in newIndex :: fresh(newIndex[t])
        invariant forall t | t in newScaled :: fresh(newScaled[t])
      {
        var ticker :| ticker in left;
        left := left - {ticker};
        var market := cfg[ticker];
        var index, scaled := PriceMarket(market);
        ComputedGrows(newIndex, newScaled, done, ticker, index, scaled, cfg, pv, iv);
        done := done + {ticker};
        if index != null {
          newIndex := newIndex[market.ticker := index];
          newScaled := newScaled[market.ticker := scaled];
        }
      }
      assert done == cfg.Keys;
      TickViews(newIndex, newScaled, cfg, pv, iv);
      indexPrices := newIndex;
      scaledPrices := newScaled;
    }
  }
}
