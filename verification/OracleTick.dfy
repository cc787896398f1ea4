/** One tick of the sidecar: the aggregator is reset, filled from the caches of the running providers
    with the entries that are young enough, and asked for new prices. */
module OracleTick {
  import opened IndexPrices
  import opened IndexAggregator
  import ProviderFeed

  type PriceCache = ProviderFeed.Cache<BigFloat>

  type Prices = map<OffChainTicker, BigFloat?>

  /** For each cache entry, the number of the clock reading its age was measured with. */
  type Slots = map<ProviderFeed.ProviderTicker, nat>

  /** The readings of the clock, in the order they are taken. */
  class Clock {
    const reading: nat -> int
    var taken: nat

    constructor (reading: nat -> int)
      ensures this.reading == reading && taken == 0
    {
      this.reading, taken := reading, 0;
    }

    method Now() returns (now: int)
      modifies this
      ensures taken == old(taken) + 1 && now == reading(old(taken))
    {
      now := reading(taken);
      taken := taken + 1;
    }
  }

  class PriceProvider {
    const name: Provider
    var running: bool
    const cache: ProviderFeed.Provider<BigFloat>

    constructor (name: Provider, cache: ProviderFeed.Provider<BigFloat>)
      ensures this.name == name && this.cache == cache && !running
    {
      this.name, this.cache, running := name, cache, false;
    }

    function GetData(): PriceCache
      reads this, cache
    {
      cache.data
    }
  }

  /** Every entry is measured once, with a reading of its own, numbered from `from` up to below `to`. */
  ghost predicate Measured(slots: Slots, data: PriceCache, from: nat, to: nat) {
    && slots.Keys == data.Keys
    && (forall id | id in slots :: from <= slots[id] < to)
    && forall i, j | i in slots && j in slots && slots[i] == slots[j] :: i == j
  }

  ghost predicate Young(data: PriceCache, slots: Slots, reading: nat -> int, maxAge: int,
                        id: ProviderFeed.ProviderTicker) {
    id in data && id in slots && reading(slots[id]) - data[id].timestamp <= maxAge
  }

  ghost predicate Keeps(data: PriceCache, slots: Slots, reading: nat -> int, maxAge: int, off: OffChainTicker,
                        price: BigFloat?) {
    exists id :: Young(data, slots, reading, maxAge, id) && OffChainTicker(id.offChain) == off
      && data[id].value == price
  }

  /** An off-chain ticker has a price exactly when some entry with it was within the maximal age at its own
      reading, and the price is that of such an entry. */
  ghost predicate Filtered(prices: Prices, data: PriceCache, slots: Slots, reading: nat -> int, maxAge: int) {
    && (forall off | off in prices :: Keeps(data, slots, reading, maxAge, off, prices[off]))
    && forall id | Young(data, slots, reading, maxAge, id) :: OffChainTicker(id.offChain) in prices
  }

  /** With distinct off-chain tickers the filtered prices are determined: they are the young entries. */
  lemma FilteredExactly(prices: Prices, data: PriceCache, slots: Slots, reading: nat -> int, maxAge: int,
                        id: ProviderFeed.ProviderTicker)
    requires Filtered(prices, data, slots, reading, maxAge) && slots.Keys == data.Keys && id in data
    requires forall i, j | i in data && j in data && i.offChain == j.offChain :: i == j
    ensures var off := OffChainTicker(id.offChain);
            && (off in prices <==> reading(slots[id]) - data[id].timestamp <= maxAge)
            && (off in prices ==> prices[off] == data[id].value)
  {
    var off := OffChainTicker(id.offChain);
    if off in prices {
      assert Keeps(data, slots, reading, maxAge, off, prices[off]);
    } else {
      assert !Young(data, slots, reading, maxAge, id);
    }
  }

  // ---------------------------------------------------------------- the tick

  ghost predicate Supplies(p: PriceProvider, name: Provider, prices: Prices, reading: nat -> int, from: nat, to: nat,
                           maxAge: int)
    reads p, p.cache
  {
    p.running && p.name == name &&
    exists slots :: Measured(slots, p.GetData(), from, to) && Filtered(prices, p.GetData(), slots, reading, maxAge)
  }

  /** The aggregator's cache after the first n providers were asked: under every name the entries of one
      running provider of that name, filtered with readings of this tick, and no running provider missing. */
  ghost predicate Fetched(fetched: map<Provider, Prices>, providers: seq<PriceProvider>, n: nat,
                          reading: nat -> int, from: nat, to: nat, maxAge: int)
    requires n <= |providers|
    reads set i | 0 <= i < n :: providers[i], set i | 0 <= i < n :: providers[i].cache
  {
    && (forall name | name in fetched ::
          exists i :: 0 <= i < n && Supplies(providers[i], name, fetched[name], reading, from, to, maxAge))
    && forall i | 0 <= i < n && providers[i].running :: providers[i].name in fetched
  }

  /** No cached price that a market inverts is zero. */
  ghost predicate NoZeroInverted(markets: MarketMap, providers: seq<PriceProvider>)
    reads providers, set p | p in providers :: p.cache
    reads set p, id | p in providers && id in p.cache.data :: p.cache.data[id].value
  {
    forall t, i, p, id | t in markets && 0 <= i < |markets[t].providers| && p in providers && id in p.GetData() ::
      var cfg := markets[t].providers[i];
      cfg.invert && cfg.provider == p.name && cfg.offChainTicker == OffChainTicker(id.offChain) ==>
        p.GetData()[id].value.value != 0.0
  }

  class Oracle {
    const providers: seq<PriceProvider>
    const priceAggregator: IndexPriceAggregator
    const clock: Clock
    const maxCacheAge: int
    var lastPriceSync: int

    constructor (providers: seq<PriceProvider>, priceAggregator: IndexPriceAggregator, clock: Clock, maxCacheAge: int)
      ensures this.providers == providers && this.priceAggregator == priceAggregator && this.clock == clock
              && this.maxCacheAge == maxCacheAge
    {
      this.providers, this.priceAggregator, this.clock, this.maxCacheAge :=
        providers, priceAggregator, clock, maxCacheAge;
      lastPriceSync := 0;
    }

    /** The age of each entry is measured when the loop comes to it. */
    method FetchPrices(provider: PriceProvider) returns (ghost slots: Slots)
      modifies priceAggregator`providerPrices, clock
      ensures clock.taken >= old(clock.taken)
      ensures !provider.running ==>
                priceAggregator.providerPrices == old(priceAggregator.providerPrices) && clock.taken == old(clock.taken)
      ensures provider.running ==>
                && provider.name in priceAggregator.providerPrices
                && var prices := priceAggregator.providerPrices[provider.name];
                   && priceAggregator.providerPrices == old(priceAggregator.providerPrices)[provider.name := prices]
                   && Measured(slots, provider.GetData(), old(clock.taken), clock.taken)
                   && Filtered(prices, provider.GetData(), slots, clock.reading, maxCacheAge)
    {
      slots := map[];
      if !provider.running {
        return;
      }
      var data := provider.GetData();
      var timeFilteredPrices: Prices := map[];
      var left := data.Keys;
      while left != {}
        invariant left <= data.Keys && clock.taken >= old(clock.taken)
        invariant priceAggregator.providerPrices == old(priceAggregator.providerPrices)
        invariant var seen := map id | id in data && id !in left :: data[id];
                  Measured(slots, seen, old(clock.taken), clock.taken)
                    && Filtered(timeFilteredPrices, seen, slots, clock.reading, maxCacheAge)
      {
        ghost var seen := map id | id in data && id !in left :: data[id];
        var id :| id in left;
        left := left - {id};
        assert seen[id := data[id]] == map i | i in data && i !in left :: data[i];
        FilterOne(timeFilteredPrices, seen, slots, clock.reading, maxCacheAge, id, data[id], clock.taken);
        slots := slots[id := clock.taken];
        var now := clock.Now();
        if now - data[id].timestamp <= maxCacheAge {
          timeFilteredPrices := timeFilteredPrices[OffChainTicker(id.offChain) := data[id].value];
        }
      }
      assert (map id | id in data && id !in left :: data[id]) == data;
      priceAggregator.SetProviderPrices(provider.name, timeFilteredPrices);
    }

    /** The second half of the tick: new prices from what was fetched, and the time of the update. */
    method UpdatePrices()
      requires WellFormed(priceAggregator.cfg)
      requires InvertedNonZero(priceAggregator.cfg, ProviderView(priceAggregator.providerPrices))
      modifies this`lastPriceSync, clock, priceAggregator`indexPrices, priceAggregator`scaledPrices
      ensures clock.taken == old(clock.taken) + 1 && lastPriceSync == clock.reading(old(clock.taken))
      ensures IndexView(priceAggregator.indexPrices)
           == NextIndex(priceAggregator.cfg, ProviderView(priceAggregator.providerPrices),
                        old(IndexView(priceAggregator.indexPrices)))
      ensures IndexView(priceAggregator.scaledPrices)
              == Scaled(priceAggregator.cfg, IndexView(priceAggregator.indexPrices))
    {
      hide NextIndex, Scaled, ProviderView, IndexView, InvertedNonZero, ConvertedPrices;
      priceAggregator.AggregatePrices();
      lastPriceSync := clock.Now();
    }

    /** After the tick the aggregator knows only what it fetched in it, young enough when it was fetched,
        and its index prices are those of that cache and the previous index prices. */
    method Tick()
      requires WellFormed(priceAggregator.cfg) && NoZeroInverted(priceAggregator.cfg, providers)
      modifies this`lastPriceSync, clock
      modifies priceAggregator`providerPrices, priceAggregator`indexPrices, priceAggregator`scaledPrices
      ensures clock.taken > old(clock.taken) && lastPriceSync == clock.reading(clock.taken - 1)
      ensures Fetched(priceAggregator.providerPrices, providers, |providers|, clock.reading, old(clock.taken),
                      clock.taken - 1, maxCacheAge)
      ensures IndexView(priceAggregator.indexPrices)
           == NextIndex(priceAggregator.cfg, ProviderView(priceAggregator.providerPrices),
                        old(IndexView(priceAggregator.indexPrices)))
      ensures IndexView(priceAggregator.scaledPrices)
              == Scaled(priceAggregator.cfg, IndexView(priceAggregator.indexPrices))
    {
      hide Measured, Filtered, NextIndex, Scaled, ProviderView, IndexView, WellFormed, InvertedNonZero, Fetched;
      priceAggregator.Reset();
      FetchAll();
      FetchedInvertible(priceAggregator.cfg, priceAggregator.providerPrices, providers, clock.reading,
                        old(clock.taken), clock.taken, maxCacheAge);
      UpdatePrices();
    }

    /** The loop over the providers, from an empty cache. */
    method FetchAll()
      requires priceAggregator.providerPrices == map[]
      modifies priceAggregator`providerPrices, clock
      ensures clock.taken >= old(clock.taken)
      ensures Fetched(priceAggregator.providerPrices, providers, |providers|, clock.reading, old(clock.taken),
                      clock.taken, maxCacheAge)
    {
      hide Measured, Filtered, Fetched;
      NothingFetched(providers, clock.reading, clock.taken, maxCacheAge);
      for i := 0 to |providers|
        invariant clock.taken >= old(clock.taken)
        invariant Fetched(priceAggregator.providerPrices, providers, i, clock.reading, old(clock.taken), clock.taken,
                          maxCacheAge)
      {
        ghost var middle, before := clock.taken, priceAggregator.providerPrices;
        ghost var slots := FetchPrices(providers[i]);
        FetchOne(before, priceAggregator.providerPrices, providers, i, slots, clock.reading, old(clock.taken), middle,
                 clock.taken, maxCacheAge);
      }
    }
  }

  lemma FilterOne(prices: Prices, seen: PriceCache, slots: Slots, reading: nat -> int, maxAge: int,
                  id: ProviderFeed.ProviderTicker, entry: ProviderFeed.ResolvedResult<BigFloat>, slot: nat)
    requires Filtered(prices, seen, slots, reading, maxAge) && slots.Keys == seen.Keys && id !in seen
    ensures var grown, measured := seen[id := entry], slots[id := slot];
            if reading(slot) - entry.timestamp <= maxAge then
              Filtered(prices[OffChainTicker(id.offChain) := entry.value], grown, measured, reading, maxAge)
            else Filtered(prices, grown, measured, reading, maxAge)
  {
    var grown, measured := seen[id := entry], slots[id := slot];
    forall off, price | Keeps(seen, slots, reading, maxAge, off, price)
      ensures Keeps(grown, measured, reading, maxAge, off, price)
    {
      var i :| Young(seen, slots, reading, maxAge, i) && OffChainTicker(i.offChain) == off && seen[i].value == price;
      assert Young(grown, measured, reading, maxAge, i);
    }
    forall i | Young(grown, measured, reading, maxAge, i) && i != id
      ensures OffChainTicker(i.offChain) in prices
    {
      assert Young(seen, slots, reading, maxAge, i);
    }
    if reading(slot) - entry.timestamp <= maxAge {
      assert Young(grown, measured, reading, maxAge, id);
      assert Keeps(grown, measured, reading, maxAge, OffChainTicker(id.offChain), entry.value);
    }
  }

  lemma NothingFetched(providers: seq<PriceProvider>, reading: nat -> int, from: nat, maxAge: int)
    ensures Fetched(map[], providers, 0, reading, from, from, maxAge)
  {
  }

  lemma LaterReadings(p: PriceProvider, name: Provider, prices: Prices, reading: nat -> int, from: nat, to: nat,
                      later: nat, maxAge: int)
    requires Supplies(p, name, prices, reading, from, to, maxAge) && to <= later
    ensures Supplies(p, name, prices, reading, from, later, maxAge)
  {
    hide Filtered;
    var slots :| Measured(slots, p.GetData(), from, to) && Filtered(prices, p.GetData(), slots, reading, maxAge);
    assert Measured(slots, p.GetData(), from, later);
  }

  lemma FetchOne(before: map<Provider, Prices>, after: map<Provider, Prices>, providers: seq<PriceProvider>, i: nat,
                 slots: Slots, reading: nat -> int, from: nat, middle: nat, to: nat, maxAge: int)
    requires i < |providers| && Fetched(before, providers, i, reading, from, middle, maxAge) && from <= middle <= to
    requires var p := providers[i];
             if p.running then
               && p.name in after && after == before[p.name := after[p.name]]
               && Measured(slots, p.GetData(), middle, to)
                 && Filtered(after[p.name], p.GetData(), slots, reading, maxAge)
             else after == before
    ensures Fetched(after, providers, i + 1, reading, from, to, maxAge)
  {
    hide Filtered;
    var p := providers[i];
    forall name | name in after
      ensures exists j :: 0 <= j < i + 1 && Supplies(providers[j], name, after[name], reading, from, to, maxAge)
    {
      if p.running && name == p.name {
        assert Measured(slots, p.GetData(), from, to);
        assert Supplies(providers[i], name, after[name], reading, from, to, maxAge);
      } else {
        var j :| 0 <= j < i && Supplies(providers[j], name, before[name], reading, from, middle, maxAge);
        LaterReadings(providers[j], name, after[name], reading, from, middle, to, maxAge);
      }
    }
  }

  // ---------------------------------------------------------------- what a fetched price is

  /** A fetched price is a cache entry of a running provider, within the maximal age at a reading of the tick. */
  lemma FetchedEntry(fetched: map<Provider, Prices>, providers: seq<PriceProvider>, reading: nat -> int, from: nat,
                     to: nat, maxAge: int, name: Provider, off: OffChainTicker)
    requires Fetched(fetched, providers, |providers|, reading, from, to, maxAge)
    requires name in fetched && off in fetched[name]
    ensures exists p, id, k | p in providers && id in p.GetData() && from <= k < to ::
              && p.running && p.name == name && OffChainTicker(id.offChain) == off
              && p.GetData()[id].value == fetched[name][off] && reading(k) - p.GetData()[id].timestamp <= maxAge
  {
    var j :| 0 <= j < |providers| && Supplies(providers[j], name, fetched[name], reading, from, to, maxAge);
    var p := providers[j];
    var slots :| Measured(slots, p.GetData(), from, to) && Filtered(fetched[name], p.GetData(), slots, reading, maxAge);
    assert Keeps(p.GetData(), slots, reading, maxAge, off, fetched[name][off]);
    var id :| Young(p.GetData(), slots, reading, maxAge, id) && OffChainTicker(id.offChain) == off
           && p.GetData()[id].value == fetched[name][off];
    assert p in providers && from <= slots[id] < to;
  }

  lemma FetchedInvertible(markets: MarketMap, fetched: map<Provider, Prices>, providers: seq<PriceProvider>,
                          reading: nat -> int, from: nat, to: nat, maxAge: int)
    requires NoZeroInverted(markets, providers) && Fetched(fetched, providers, |providers|, reading, from, to, maxAge)
    ensures InvertedNonZero(markets, ProviderView(fetched))
  {
    hide Fetched;
    forall t, i | t in markets && 0 <= i < |markets[t].providers|
      ensures InvertibleConfig(markets[t].providers[i], ProviderView(fetched))
    {
      var cfg := markets[t].providers[i];
      if cfg.invert && cfg.provider in fetched && cfg.offChainTicker in CacheView(fetched[cfg.provider]) {
        FetchedEntry(fetched, providers, reading, from, to, maxAge, cfg.provider, cfg.offChainTicker);
      }
    }
  }

  // ---------------------------------------------------------------- silent feeds

  /** Every entry the config could use was too old before the tick took its first reading. */
  ghost predicate Silent(cfg: ProviderConfig, providers: seq<PriceProvider>, start: int, maxAge: int)
    reads providers, set p | p in providers :: p.cache
  {
    forall p, id | p in providers && id in p.GetData() && p.name == cfg.provider
      && OffChainTicker(id.offChain) == cfg.offChainTicker ::
      start - p.GetData()[id].timestamp > maxAge
  }

  lemma SilentIsUnpriced(cfg: ProviderConfig, fetched: map<Provider, Prices>, providers: seq<PriceProvider>,
                         reading: nat -> int, from: nat, to: nat, maxAge: int, iv: IndexValues)
    requires Fetched(fetched, providers, |providers|, reading, from, to, maxAge)
             && Silent(cfg, providers, reading(from), maxAge)
    requires forall k :: from <= k < to ==> reading(from) <= reading(k)
    ensures AdjustedPrice(ProviderView(fetched), iv, cfg).None?
  {
    hide Fetched;
    if cfg.provider in fetched && cfg.offChainTicker in fetched[cfg.provider] {
      FetchedEntry(fetched, providers, reading, from, to, maxAge, cfg.provider, cfg.offChainTicker);
    }
  }

  lemma {:induction false} NoConvertedPrices(pv: ProviderValues, iv: IndexValues, cfgs: seq<ProviderConfig>)
    requires forall i :: 0 <= i < |cfgs| ==> AdjustedPrice(pv, iv, cfgs[i]).None?
    ensures ConvertedPrices(pv, iv, cfgs) == []
  {
    if cfgs != [] {
      NoConvertedPrices(pv, iv, cfgs[1..]);
    }
  }

  /** With a clock that does not go back, a market whose feeds have all been silent for longer than the
      maximal age has no price after the tick, whatever its index price was before. */
  lemma SilentMarketIsUnpriced(markets: MarketMap, fetched: map<Provider, Prices>, providers: seq<PriceProvider>,
                               reading: nat -> int, from: nat, to: nat, maxAge: int, iv: IndexValues, t: Ticker)
    requires Fetched(fetched, providers, |providers|, reading, from, to, maxAge) && t in markets
    requires forall k :: from <= k < to ==> reading(from) <= reading(k)
    requires forall i :: 0 <= i < |markets[t].providers| ==>
               Silent(markets[t].providers[i], providers, reading(from), maxAge)
    ensures t !in NextIndex(markets, ProviderView(fetched), iv)
  {
    hide Fetched, Silent, ProviderView, AdjustedPrice;
    var cfgs := markets[t].providers;
    forall i | 0 <= i < |cfgs|
      ensures AdjustedPrice(ProviderView(fetched), iv, cfgs[i]).None?
    {
      SilentIsUnpriced(cfgs[i], fetched, providers, reading, from, to, maxAge, iv);
    }
    NoConvertedPrices(ProviderView(fetched), iv, cfgs);
  }
}
