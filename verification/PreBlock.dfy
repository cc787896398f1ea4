/** From a decided proposal to on-chain prices: decode the injected commit, collect every validator's
    prices, aggregate them, and write the result for the pairs in the store. */
module PreBlock {
  import opened Wrappers
  import opened StakeMedian
  import opened OracleKeeper
  import opened ExtendedCommits
  import opened Varint
  import Strategies
  import HashStrategy
  import Proposals

  type Tx = Proposals.Tx

  datatype Vote = Vote(consAddress: Address, prices: Proposals.Prices)

  // ---------------------------------------------------------------- GetOracleVotes

  ghost predicate Decodable(h: Proposals.Config, proposal: seq<Tx>) {
    && |proposal| >= Proposals.NUM_INJECTED_TXS
    && var ec := h.decodeCommit(proposal[Proposals.ORACLE_INFO_INDEX]);
       ec.Ok? && forall i :: 0 <= i < |ec.value.votes| ==> h.decodeExtension(ec.value.votes[i].extension.Contents()).Ok?
  }

  ghost function OracleVotes(h: Proposals.Config, proposal: seq<Tx>): seq<Vote>
    requires Decodable(h, proposal)
  {
    var votes := h.decodeCommit(proposal[Proposals.ORACLE_INFO_INDEX]).value.votes;
    seq(|votes|, i requires 0 <= i < |votes| =>
      Vote(Address(votes[i].validator.address), h.decodeExtension(votes[i].extension.Contents()).value))
  }

  method GetOracleVotes(h: Proposals.Config, proposal: seq<Tx>) returns (r: Result<seq<Vote>, Proposals.ProposalError>)
    ensures r.Ok? <==> Decodable(h, proposal)
    ensures r.Ok? ==> r.value == OracleVotes(h, proposal)
  {
    if |proposal| < Proposals.NUM_INJECTED_TXS {
      return Err(Proposals.MissingCommitInfo);
    }
    var ec :- h.decodeCommit(proposal[Proposals.ORACLE_INFO_INDEX]);
    var votes: seq<Vote> := [];
    for i := 0 to |ec.votes|
      invariant |votes| == i
      invariant forall j :: 0 <= j < i ==>
                  var ve := h.decodeExtension(ec.votes[j].extension.Contents());
                  ve.Ok? && votes[j] == Vote(Address(ec.votes[j].validator.address), ve.value)
    {
      var voteExtension :- h.decodeExtension(ec.votes[i].extension.Contents());
      votes := votes + [Vote(Address(ec.votes[i].validator.address), voteExtension)];
    }
    return Ok(votes);
  }

  // ---------------------------------------------------------------- decoding one vote

  /** What the strategy answers in the current state; None is an error, and skips the entry. */
  datatype Decoder = Decoder(fromID: nat -> Option<CurrencyPair>, decode: (CurrencyPair, bytes) -> Option<int>)

  ghost predicate Injective(d: Decoder) {
    forall i: nat, j: nat :: d.fromID(i).Some? && d.fromID(i) == d.fromID(j) ==> i == j
  }

  predicate Usable(d: Decoder, id: nat, bs: bytes) {
    d.fromID(id).Some? && d.decode(d.fromID(id).value, bs).Some?
  }

  /** The prices of one vote by currency pair; unknown pairs and undecodable prices are left out. */
  ghost function DecodedPrices(d: Decoder, prices: Proposals.Prices): StakeMedian.Prices
    requires Injective(d)
  {
    map id | id in prices && Usable(d, id, prices[id]) :: d.fromID(id).value := d.decode(d.fromID(id).value, prices[id])
  }

  ghost predicate Short(prices: Proposals.Prices) {
    forall id | id in prices :: |prices[id]| <= Proposals.MAXIMUM_PRICE_SIZE
  }

  ghost predicate DecodesTo(d: Decoder, prices: Proposals.Prices, cp: CurrencyPair, price: Option<int>) {
    exists id :: id in prices && Usable(d, id, prices[id]) && d.fromID(id) == Some(cp)
      && d.decode(cp, prices[id]) == price
  }

  lemma DecodedPricesAre(d: Decoder, prices: Proposals.Prices, cp: CurrencyPair)
    requires Injective(d)
    ensures cp in DecodedPrices(d, prices) ==> DecodesTo(d, prices, cp, DecodedPrices(d, prices)[cp])
    ensures forall price :: DecodesTo(d, prices, cp, price) ==>
              cp in DecodedPrices(d, prices) && DecodedPrices(d, prices)[cp] == price
  {
  }

  lemma DecodesToGrows(d: Decoder, prices: Proposals.Prices, id: uint64, bs: bytes, cp: CurrencyPair,
                       price: Option<int>)
    requires Injective(d) && id !in prices
    ensures DecodesTo(d, prices[id := bs], cp, price) <==>
            if Usable(d, id, bs) && d.fromID(id) == Some(cp) then d.decode(cp, bs) == price
            else DecodesTo(d, prices, cp, price)
  {
    var grown := prices[id := bs];
    if DecodesTo(d, prices, cp, price) {
      var j :| j in prices && Usable(d, j, prices[j]) && d.fromID(j) == Some(cp) && d.decode(cp, prices[j]) == price;
      assert grown[j] == prices[j];
    }
    assert grown[id] == bs;
  }

  lemma DecodedPricesGrow(d: Decoder, prices: Proposals.Prices, id: uint64, bs: bytes)
    requires Injective(d) && id !in prices
    ensures DecodedPrices(d, prices[id := bs]) ==
            if Usable(d, id, bs) then DecodedPrices(d, prices)[d.fromID(id).value := d.decode(d.fromID(id).value, bs)]
            else DecodedPrices(d, prices)
  {
    hide DecodedPrices, Injective, DecodesTo;
    var grown := DecodedPrices(d, prices[id := bs]);
    var base := DecodedPrices(d, prices);
    var want := if Usable(d, id, bs) then base[d.fromID(id).value := d.decode(d.fromID(id).value, bs)] else base;
    forall cp
      ensures cp in grown <==> cp in want
      ensures cp in grown ==> grown[cp] == want[cp]
    {
      DecodedPricesAre(d, prices, cp);
      DecodedPricesAre(d, prices[id := bs], cp);
      if cp in grown {
        DecodesToGrows(d, prices, id, bs, cp, grown[cp]);
      }
      if cp in want {
        DecodesToGrows(d, prices, id, bs, cp, want[cp]);
      }
    }
    assert grown == want;
  }

  method DecodeVote(d: Decoder, oracleData: Proposals.Prices)
      returns (r: Result<StakeMedian.Prices, Proposals.ProposalError>)
    requires Injective(d)
    ensures r.Ok? <==> Short(oracleData)
    ensures r.Err? ==> r.error == Proposals.PriceTooLong
    ensures r.Ok? ==> r.value == DecodedPrices(d, oracleData)
  {
    hide DecodedPrices, Injective;
    var prices: StakeMedian.Prices := map[];
    ghost var visited: Proposals.Prices := map[];
    DecodedPricesOfNone(d);
    var left := oracleData.Keys;
    while left != {}
      invariant left <= oracleData.Keys
      invariant visited == map id | id in oracleData && id !in left :: oracleData[id]
      invariant Short(visited)
      invariant prices == DecodedPrices(d, visited)
    {
      var id :| id in left;
      var priceBz := oracleData[id];
      if |priceBz| > Proposals.MAXIMUM_PRICE_SIZE {
        return Err(Proposals.PriceTooLong);
      }
      left := left - {id};
      DecodedPricesGrow(d, visited, id, priceBz);
      visited := visited[id := priceBz];
      var cp := d.fromID(id);
      if cp.None? {
        continue;
      }
      var price := d.decode(cp.value, priceBz);
      if price.None? {
        continue;
      }
      prices := prices[cp.value := price];
    }
    assert visited == oracleData;
    return Ok(prices);
  }

  lemma DecodedPricesOfNone(d: Decoder)
    requires Injective(d)
    ensures DecodedPrices(d, map[]) == map[]
  {
  }

  // ---------------------------------------------------------------- the aggregators

  class DataAggregator {
    var providerData: Reports
    var aggregatedData: map<CurrencyPair, int>

    constructor ()
      ensures providerData == map[] && aggregatedData == map[]
    {
      providerData, aggregatedData := map[], map[];
    }

    method SetProviderData(provider: Address, data: StakeMedian.Prices)
      modifies this`providerData
      ensures providerData == old(providerData)[provider := data]
    {
      providerData := providerData[provider := data];
    }

    method ResetProviderData()
      modifies this`providerData
      ensures providerData == map[]
    {
      providerData := map[];
    }

    /** AggregateDataFromContext, with the stake-weighted median as the aggregate function; not ok is its
        panic. */
    method AggregateData(store: ValidatorStore, threshold: int, quo: Division) returns (ok: bool)
      modifies this`aggregatedData
      ensures ok <==> Divides(providerData, store)
      ensures ok ==> AreMedianPrices(providerData, store, threshold, quo, aggregatedData)
      ensures !ok ==> aggregatedData == old(aggregatedData)
    {
      var median := Median(providerData, store, threshold, quo);
      if median.None? {
        return false;
      }
      aggregatedData := median.value;
      return true;
    }
  }

  /** A vote without prices adds nothing; of two votes of one validator the later one counts. */
  ghost function ReportsOf(d: Decoder, votes: seq<Vote>): Reports
    requires Injective(d)
  {
    if votes == [] then map[]
    else
      var n := |votes| - 1;
      var earlier := ReportsOf(d, votes[..n]);
      if votes[n].prices == map[] then earlier
      else earlier[votes[n].consAddress := DecodedPrices(d, votes[n].prices)]
  }

  ghost predicate AllShort(votes: seq<Vote>) {
    forall i :: 0 <= i < |votes| ==> Short(votes[i].prices)
  }

  class VoteAggregator {
    const priceAggregator: DataAggregator

    constructor (priceAggregator: DataAggregator)
      ensures this.priceAggregator == priceAggregator
    {
      this.priceAggregator := priceAggregator;
    }

    method AddVoteToAggregator(d: Decoder, address: Address, oracleData: Proposals.Prices)
        returns (r: Result<(), Proposals.ProposalError>)
      requires Injective(d)
      modifies priceAggregator`providerData
      ensures r.Ok? <==> Short(oracleData)
      ensures r.Err? ==> r.error == Proposals.PriceTooLong
      ensures priceAggregator.providerData ==
              if r.Err? || oracleData == map[] then old(priceAggregator.providerData)
              else old(priceAggregator.providerData)[address := DecodedPrices(d, oracleData)]
    {
      if |oracleData| == 0 {
        return Ok(());
      }
      var prices :- DecodeVote(d, oracleData);
      priceAggregator.SetProviderData(address, prices);
      return Ok(());
    }

    method AggregateOracleVotes(d: Decoder, store: ValidatorStore, threshold: int, quo: Division, votes: seq<Vote>)
        returns (r: Result<map<CurrencyPair, int>, Proposals.ProposalError>)
      requires Injective(d)
      modifies priceAggregator
      ensures r.Ok? <==> AllShort(votes) && Divides(ReportsOf(d, votes), store)
      ensures r.Ok? ==> priceAggregator.providerData == ReportsOf(d, votes)
      ensures r.Ok? ==> r.value == priceAggregator.aggregatedData
      ensures r.Ok? ==> AreMedianPrices(ReportsOf(d, votes), store, threshold, quo, r.value)
      ensures r.Err? ==>
                !r.error.PriceOverflow? && priceAggregator.aggregatedData == old(priceAggregator.aggregatedData)
    {
      hide DecodedPrices, Injective, AreMedianPrices, Short, Divides;
      priceAggregator.ResetProviderData();
      for i := 0 to |votes|
        invariant AllShort(votes[..i])
        invariant priceAggregator.providerData == ReportsOf(d, votes[..i])
        invariant priceAggregator.aggregatedData == old(priceAggregator.aggregatedData)
      {
        var added := AddVoteToAggregator(d, votes[i].consAddress, votes[i].prices);
        if added.Err? {
          return Err(added.error);
        }
        assert votes[..i + 1][..i] == votes[..i];
      }
      assert votes[..|votes|] == votes;
      var ok := priceAggregator.AggregateData(store, threshold, quo);
      if !ok {
        return Err(Proposals.DivisionByZero);
      }
      return Ok(priceAggregator.aggregatedData);
    }
  }

  // ---------------------------------------------------------------- PreBlocker

  /** The medians of the pairs in the store are small enough to be stored. */
  ghost predicate MediansFit(reports: Reports, store: ValidatorStore, threshold: int, quo: Division,
                             stored: set<CurrencyPair>) {
    forall prices, cp | AreMedianPrices(reports, store, threshold, quo, prices) && cp in stored && cp in prices ::
      Fits(prices[cp])
  }

  /** Exactly when the pre-block step gets through: everything decodes, no price is too long, and neither
      the division by the bonded stake nor the conversion of a median panics. */
  ghost predicate Succeeds(h: Proposals.Config, ctx: Context, d: Decoder, store: ValidatorStore, threshold: int,
                           quo: Division, txs: seq<Tx>, stored: set<CurrencyPair>)
    requires Injective(d)
  {
    VoteExtensionsEnabled(ctx) ==>
      && Decodable(h, txs) && AllShort(OracleVotes(h, txs))
      && var reports := ReportsOf(d, OracleVotes(h, txs));
         Divides(reports, store) && MediansFit(reports, store, threshold, quo, stored)
  }

  /** Every pair of the store holds its stake median of the reports, stamped and with its nonce raised, or
      is unchanged because it has none. */
  ghost predicate StoresMedians(was: map<CurrencyPair, PairState>, now: map<CurrencyPair, PairState>, reports: Reports,
                                store: ValidatorStore, threshold: int, quo: Division, timestamp: int, height: int)
  {
    && now.Keys == was.Keys
    && forall cp | cp in now ::
         if Priced(reports, store, threshold, quo, cp) then
           && now[cp].id == was[cp].id && now[cp].nonce == was[cp].nonce + 1 && now[cp].price.Some?
           && now[cp].price.value.timestamp == timestamp && now[cp].price.value.height == height
           && IsStakeMedian(BallotOf(reports, store, cp), store.bonded, now[cp].price.value.price)
           && Fits(now[cp].price.value.price)
         else now[cp] == was[cp]
  }

  lemma WrittenStoresMedians(s: OracleState, reports: Reports, store: ValidatorStore, threshold: int, quo: Division,
                             prices: map<CurrencyPair, int>, timestamp: int, height: int)
    requires AreMedianPrices(reports, store, threshold, quo, prices)
    requires forall cp | cp in s.pairs && cp in prices :: Fits(prices[cp])
    ensures StoresMedians(s.pairs, Written(s, prices, timestamp, height).pairs, reports, store, threshold, quo,
                          timestamp, height)
  {
    hide Priced, BallotOf, IsStakeMedian;
    assert forall cp | cp in s.pairs :: cp in prices <==> Priced(reports, store, threshold, quo, cp);
  }

  lemma FitsExactly(reports: Reports, store: ValidatorStore, threshold: int, quo: Division,
                    prices: map<CurrencyPair, int>, stored: set<CurrencyPair>)
    requires AreMedianPrices(reports, store, threshold, quo, prices)
    ensures MediansFit(reports, store, threshold, quo, stored) <==>
            forall cp | cp in stored && cp in prices :: Fits(prices[cp])
  {
    hide AreMedianPrices, Fits;
    forall p | AreMedianPrices(reports, store, threshold, quo, p)
      ensures p == prices
    {
      MedianPricesUnique(reports, store, threshold, quo, p, prices);
    }
  }

  class PreBlockHandler {
    const keeper: Keeper
    const voteAggregator: VoteAggregator

    constructor (keeper: Keeper, voteAggregator: VoteAggregator)
      ensures this.keeper == keeper && this.voteAggregator == voteAggregator
    {
      this.keeper, this.voteAggregator := keeper, voteAggregator;
    }

    /** On success the store holds the stake medians of the collected reports; no pair appears or
        disappears. On an error nothing is written, except before a conversion that panics. */
    method PreBlocker(h: Proposals.Config, ctx: Context, d: Decoder, store: ValidatorStore, threshold: int,
                      quo: Division, timestamp: int, txs: seq<Tx>)
        returns (r: Result<(), Proposals.ProposalError>)
      requires Injective(d)
      modifies keeper, voteAggregator.priceAggregator
      ensures r.Ok? <==> Succeeds(h, ctx, d, store, threshold, quo, txs, old(keeper.currencyPairs.Keys))
      ensures keeper.State() == old(keeper.State()).(pairs := keeper.currencyPairs)
      ensures keeper.currencyPairs.Keys == old(keeper.currencyPairs.Keys)
      ensures (r.Err? && !r.error.PriceOverflow?) || !VoteExtensionsEnabled(ctx) ==>
              keeper.State() == old(keeper.State())
      ensures r.Ok? && VoteExtensionsEnabled(ctx) ==>
                StoresMedians(old(keeper.currencyPairs), keeper.currencyPairs, ReportsOf(d, OracleVotes(h, txs)),
                              store, threshold, quo, timestamp, ctx.blockHeight)
    {
      hide Injective, AreMedianPrices, StoresMedians, ReportsOf, AllShort, Divides, MediansFit;
      if !VoteExtensionsEnabled(ctx) {
        return Ok(());
      }
      var votes :- GetOracleVotes(h, txs);
      var aggregated := voteAggregator.AggregateOracleVotes(d, store, threshold, quo, votes);
      if aggregated.Err? {
        return Err(aggregated.error);
      }
      ghost var before := keeper.State();
      FitsExactly(ReportsOf(d, votes), store, threshold, quo, aggregated.value, before.pairs.Keys);
      var written := keeper.WritePrices(aggregated.value, timestamp, ctx.blockHeight);
      if !written {
        return Err(Proposals.PriceOverflow);
      }
      WrittenStoresMedians(before, ReportsOf(d, votes), store, threshold, quo, aggregated.value, timestamp,
                           ctx.blockHeight);
      return Ok(());
    }
  }

  // ---------------------------------------------------------------- accepted means usable

  /** Whatever ProcessProposal lets through, PreBlock can decode, and as long as any stake is bonded also
      aggregate without an error. */
  lemma AcceptedIsUsable(h: Proposals.Config, ctx: Context, d: Decoder, store: ValidatorStore, txs: seq<Tx>)
    requires Proposals.Lawful(h) && VoteExtensionsEnabled(ctx) && Injective(d)
    requires Proposals.Verified(h, ctx, txs).Some?
    ensures Decodable(h, txs) && AllShort(OracleVotes(h, txs))
    ensures store.totalBonded > 0 ==> Divides(ReportsOf(d, OracleVotes(h, txs)), store)
  {
    var votes := h.decodeCommit(txs[0]).value.votes;
    forall i | 0 <= i < |votes|
      ensures h.decodeExtension(votes[i].extension.Contents()).Ok?
      ensures Short(h.decodeExtension(votes[i].extension.Contents()).value)
    {
      assert Proposals.VoteUsable(h, votes[i]);
    }
  }

  lemma {:induction false} ReportsKeepDistinctVotes(d: Decoder, votes: seq<Vote>, i: nat)
    requires Injective(d) && i < |votes|
    requires forall j, k :: 0 <= j < k < |votes| ==> votes[j].consAddress != votes[k].consAddress
    ensures votes[i].prices != map[] ==>
              votes[i].consAddress in ReportsOf(d, votes)
              && ReportsOf(d, votes)[votes[i].consAddress] == DecodedPrices(d, votes[i].prices)
  {
    var n := |votes| - 1;
    if i < n {
      ReportsKeepDistinctVotes(d, votes[..n], i);
      assert votes[..n][i] == votes[i];
    }
  }

  /** In an accepted proposal no validator's prices are overwritten by another vote. */
  lemma AcceptedVotesAllCount(h: Proposals.Config, ctx: Context, d: Decoder, txs: seq<Tx>, i: nat)
    requires Proposals.Lawful(h) && VoteExtensionsEnabled(ctx) && Injective(d)
    requires Proposals.Verified(h, ctx, txs).Some? && Decodable(h, txs) && i < |OracleVotes(h, txs)|
    ensures var vote := OracleVotes(h, txs)[i];
            vote.prices != map[] ==>
              vote.consAddress in ReportsOf(d, OracleVotes(h, txs))
              && ReportsOf(d, OracleVotes(h, txs))[vote.consAddress] == DecodedPrices(d, vote.prices)
  {
    var votes := OracleVotes(h, txs);
    assert DistinctAddresses(h.decodeCommit(txs[0]).value.votes);
    ReportsKeepDistinctVotes(d, votes, i);
  }

  // ---------------------------------------------------------------- the strategies as decoders

  function ToOption<T, E>(r: Result<T, E>): Option<T> {
    if r.Ok? then Some(r.value) else None
  }

  /** The strategies' FromID and GetDecodedPrice in a given store: the default and the hash strategy
      decode prices as they are, the delta strategy relative to the stored price. */
  ghost function StrategyDecoder(pairs: Strategies.Pairs, hash: Option<HashStrategy.Hash>, relative: bool): Decoder {
    Decoder(
      (id: nat) => ToOption(if hash.Some? then HashStrategy.HashedFromID(pairs, hash.value, id)
                            else Strategies.DirectFromID(pairs, id)),
      (cp, bs) => ToOption(if relative then Strategies.DecodeAgainst(Strategies.DirectPrice(pairs, cp), bs)
                           else Strategies.DecodedDelta(0, bs)))
  }

  /** The strategies refuse to decode a negative price. */
  ghost predicate NonNegative(d: Decoder) {
    forall cp, bs | d.decode(cp, bs).Some? :: d.decode(cp, bs).value >= 0
  }

  lemma StrategyDecoderIsNonNegative(pairs: Strategies.Pairs, hash: Option<HashStrategy.Hash>, relative: bool)
    ensures NonNegative(StrategyDecoder(pairs, hash, relative))
  {
    var d := StrategyDecoder(pairs, hash, relative);
    forall cp, bs | d.decode(cp, bs).Some?
      ensures d.decode(cp, bs).value >= 0
    {
      assert d.decode(cp, bs) == ToOption(if relative
                                          then Strategies.DecodeAgainst(Strategies.DirectPrice(pairs, cp), bs)
                                          else Strategies.DecodedDelta(0, bs));
    }
  }

  /** Two ids never name one pair, in any store. */
  lemma StrategyDecoderIsInjective(pairs: Strategies.Pairs, hash: Option<HashStrategy.Hash>, relative: bool)
    ensures Injective(StrategyDecoder(pairs, hash, relative))
  {
    var d := StrategyDecoder(pairs, hash, relative);
    forall i: nat, j: nat | d.fromID(i).Some? && d.fromID(i) == d.fromID(j)
      ensures i == j
    {
      var cp := d.fromID(i).value;
      assert if hash.Some? then hash.value(cp) == i && hash.value(cp) == j else pairs[cp].id == i && pairs[cp].id == j;
    }
  }
}
