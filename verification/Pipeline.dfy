/** The whole path of a price: from the votes a proposer holds, through its proposal and every
    validator's checks, to the price written on chain. */
module Pipeline {
  import opened Wrappers
  import opened StakeMedian
  import opened ExtendedCommits
  import opened OracleKeeper
  import opened PreBlock
  import opened ExtensionCodec
  import opened VoteExtensions
  import opened HonestPrices
  import BigIntGob
  import HashStrategy
  import Proposals

  /** Vote i of the proposal's commit reports `price` for cp, its validator committed to the last
      block, and its signature covers exactly the extension the price was decoded from. */
  ghost predicate SignedReport(h: Proposals.Config, ctx: Context, d: Decoder, txs: seq<Tx>, i: nat, cp: CurrencyPair,
                               price: int)
    requires Injective(d) && Decodable(h, txs)
  {
    var votes := h.decodeCommit(txs[Proposals.ORACLE_INFO_INDEX]).value.votes;
    && i < |votes| && i < |ctx.lastCommit.votes|
    && ctx.lastCommit.votes[i].flag == FlagCommit && ctx.lastCommit.votes[i].validator == votes[i].validator
    && votes[i].validator.address in ctx.pubKeys
    && h.check(ctx.pubKeys[votes[i].validator.address],
               CanonicalVoteExtension(votes[i].extension.Contents(), ctx.headerHeight - 1, ctx.lastCommit.round,
                                      ctx.chainID),
               votes[i].signature.Contents())
    && var prices := DecodedPrices(d, h.decodeExtension(votes[i].extension.Contents()).value);
       cp in prices && prices[cp] == Some(price)
  }

  ghost function Reporting(h: Proposals.Config, txs: seq<Tx>, i: nat): Address
    requires Decodable(h, txs) && i < |OracleVotes(h, txs)|
  {
    OracleVotes(h, txs)[i].consAddress
  }

  /** Every collected report comes from a vote with prices. */
  lemma {:induction false} ReportsComeFromVotes(d: Decoder, votes: seq<Vote>, v: Address)
    requires Injective(d) && v in ReportsOf(d, votes)
    ensures exists i :: 0 <= i < |votes| && votes[i].consAddress == v && votes[i].prices != map[]
                     && ReportsOf(d, votes)[v] == DecodedPrices(d, votes[i].prices)
  {
    hide DecodedPrices, Injective;
    var n := |votes| - 1;
    if votes[n].prices == map[] || votes[n].consAddress != v {
      ReportsComeFromVotes(d, votes[..n], v);
      var i :| 0 <= i < n && votes[..n][i].consAddress == v && votes[..n][i].prices != map[]
            && ReportsOf(d, votes[..n])[v] == DecodedPrices(d, votes[..n][i].prices);
      assert votes[i] == votes[..n][i];
    }
  }

  /** In an accepted proposal a validator's report of a price is a signed one. */
  lemma ReportIsSigned(h: Proposals.Config, ctx: Context, d: Decoder, store: ValidatorStore, txs: seq<Tx>,
                       cp: CurrencyPair, v: Address)
    requires Proposals.Lawful(h) && VoteExtensionsEnabled(ctx) && Injective(d)
    requires Proposals.Verified(h, ctx, txs).Some? && Decodable(h, txs)
    requires Reporter(ReportsOf(d, OracleVotes(h, txs)), store, cp, v)
    ensures var price := ReportsOf(d, OracleVotes(h, txs))[v][cp].value;
            exists i :: 0 <= i < |OracleVotes(h, txs)| && SignedReport(h, ctx, d, txs, i, cp, price)
              && Reporting(h, txs, i) == v
  {
    hide DecodedPrices, Injective;
    var votes, price := OracleVotes(h, txs), ReportsOf(d, OracleVotes(h, txs))[v][cp].value;
    ReportsComeFromVotes(d, votes, v);
    var i :| 0 <= i < |votes| && votes[i].consAddress == v && votes[i].prices != map[]
          && ReportsOf(d, votes)[v] == DecodedPrices(d, votes[i].prices);
    var ec := h.decodeCommit(txs[Proposals.ORACLE_INFO_INDEX]).value;
    assert ec.votes[i].extension.Contents() != [];
    AcceptedDataIsSigned(ctx, h.check, ec, i);
    assert SignedReport(h, ctx, d, txs, i, cp, price);
  }

  /** Some validator outside the faulty ones signed, for this block, a price at least (at most) this one. */
  ghost predicate SignedAbove(h: Proposals.Config, ctx: Context, d: Decoder, txs: seq<Tx>, faulty: set<Address>,
                              cp: CurrencyPair, price: int)
    requires Injective(d) && Decodable(h, txs)
  {
    exists i, p :: 0 <= i < |OracleVotes(h, txs)| && SignedReport(h, ctx, d, txs, i, cp, p)
      && Reporting(h, txs, i) !in faulty && price <= p
  }

  ghost predicate SignedBelow(h: Proposals.Config, ctx: Context, d: Decoder, txs: seq<Tx>, faulty: set<Address>,
                              cp: CurrencyPair, price: int)
    requires Injective(d) && Decodable(h, txs)
  {
    exists i, p :: 0 <= i < |OracleVotes(h, txs)| && SignedReport(h, ctx, d, txs, i, cp, p)
      && Reporting(h, txs, i) !in faulty && p <= price
  }

  /** Safety of the path: with less than a third of the bonded stake faulty, every median of the reports of
      an accepted proposal is at most a price some validator outside the faulty ones signed for this block,
      and with more than 1000 units bonded also at least one. */
  lemma AcceptedPricesAreHonest(h: Proposals.Config, ctx: Context, d: Decoder, store: ValidatorStore, quo: Division,
                                faulty: set<Address>, txs: seq<Tx>, cp: CurrencyPair, price: int)
    requires Proposals.Lawful(h) && VoteExtensionsEnabled(ctx) && Injective(d)
    requires Proposals.Verified(h, ctx, txs).Some? && Decodable(h, txs) && FaultyBelowThird(store, faulty)
    requires var reports := ReportsOf(d, OracleVotes(h, txs));
             Priced(reports, store, DEFAULT_POWER_THRESHOLD, quo, cp)
               && IsStakeMedian(BallotOf(reports, store, cp), store.bonded, price)
    ensures SignedAbove(h, ctx, d, txs, faulty, cp, price)
    ensures store.totalBonded > 1000 ==> SignedBelow(h, ctx, d, txs, faulty, cp, price)
  {
    hide Injective, Decodable, OracleVotes, ReportsOf, SignedReport, Reporting, Priced, IsStakeMedian;
    var reports := ReportsOf(d, OracleVotes(h, txs));
    HonestRange(reports, store, quo, faulty, cp, price);
    var v :| Reporter(reports, store, cp, v) && v !in faulty && price <= reports[v][cp].value;
    ReportIsSigned(h, ctx, d, store, txs, cp, v);
    if store.totalBonded > 1000 {
      var w :| Reporter(reports, store, cp, w) && w !in faulty && reports[w][cp].value <= price;
      ReportIsSigned(h, ctx, d, store, txs, cp, w);
    }
  }

  /** Honest reports fit into the store's integers. */
  ghost predicate HonestReportsFit(reports: Reports, store: ValidatorStore, faulty: set<Address>) {
    forall v, cp | Reporter(reports, store, cp, v) && v !in faulty :: Fits(reports[v][cp].value)
  }

  lemma {:induction false} ReportsAreNonNegative(d: Decoder, votes: seq<Vote>, v: Address, cp: CurrencyPair)
    requires Injective(d) && NonNegative(d) && v in ReportsOf(d, votes) && cp in ReportsOf(d, votes)[v]
    ensures ReportsOf(d, votes)[v][cp].Some? && ReportsOf(d, votes)[v][cp].value >= 0
  {
    ReportsComeFromVotes(d, votes, v);
    var i :| 0 <= i < |votes| && votes[i].consAddress == v && votes[i].prices != map[]
          && ReportsOf(d, votes)[v] == DecodedPrices(d, votes[i].prices);
    DecodedPricesAre(d, votes[i].prices, cp);
  }

  lemma MedianIsReported(reports: Reports, store: ValidatorStore, cp: CurrencyPair, price: int) returns (v: Address)
    requires BallotOf(reports, store, cp).Keys <= store.bonded.Keys
             && IsStakeMedian(BallotOf(reports, store, cp), store.bonded, price)
    ensures Reporter(reports, store, cp, v) && reports[v][cp].value == price
  {
    v :| v in BallotOf(reports, store, cp) && BallotOf(reports, store, cp)[v] == price;
  }

  lemma HonestMedianFits(d: Decoder, votes: seq<Vote>, store: ValidatorStore, quo: Division, faulty: set<Address>,
                         cp: CurrencyPair, price: int)
    requires Injective(d) && NonNegative(d) && FaultyBelowThird(store, faulty)
    requires HonestReportsFit(ReportsOf(d, votes), store, faulty)
    requires var reports := ReportsOf(d, votes);
             Priced(reports, store, DEFAULT_POWER_THRESHOLD, quo, cp)
               && IsStakeMedian(BallotOf(reports, store, cp), store.bonded, price)
    ensures Fits(price)
  {
    hide Injective, NonNegative, ReportsOf, BallotOf, IsStakeMedian, Priced, FaultyBelowThird;
    var reports := ReportsOf(d, votes);
    HonestRange(reports, store, quo, faulty, cp, price);
    var v :| Reporter(reports, store, cp, v) && v !in faulty && price <= reports[v][cp].value;
    BallotIsBonded(reports, store, cp);
    var u := MedianIsReported(reports, store, cp, price);
    ReportsAreNonNegative(d, votes, u, cp);
  }

  /** Then no median overflows either, whatever the faulty validators reported. */
  lemma HonestMediansFit(d: Decoder, votes: seq<Vote>, store: ValidatorStore, quo: Division, faulty: set<Address>,
                         stored: set<CurrencyPair>)
    requires Injective(d) && NonNegative(d) && FaultyBelowThird(store, faulty)
    requires HonestReportsFit(ReportsOf(d, votes), store, faulty)
    ensures MediansFit(ReportsOf(d, votes), store, DEFAULT_POWER_THRESHOLD, quo, stored)
  {
    hide Injective, NonNegative, ReportsOf, BallotOf, IsStakeMedian, Priced, FaultyBelowThird, HonestReportsFit, Fits;
    var reports := ReportsOf(d, votes);
    forall prices, cp |
        AreMedianPrices(reports, store, DEFAULT_POWER_THRESHOLD, quo, prices) && cp in stored && cp in prices
      ensures Fits(prices[cp])
    {
      BallotIsBonded(reports, store, cp);
      HonestMedianFits(d, votes, store, quo, faulty, cp, prices[cp]);
    }
  }

  /** The store after the pre-block step of an accepted proposal: each price it wrote is bracketed. */
  lemma StoredPricesAreHonest(h: Proposals.Config, ctx: Context, d: Decoder, store: ValidatorStore, quo: Division,
                              faulty: set<Address>,
                              txs: seq<Tx>, was: map<CurrencyPair, PairState>, now: map<CurrencyPair, PairState>,
                              timestamp: int, cp: CurrencyPair)
    requires Proposals.Lawful(h) && VoteExtensionsEnabled(ctx) && Injective(d)
    requires Proposals.Verified(h, ctx, txs).Some? && Decodable(h, txs) && FaultyBelowThird(store, faulty)
    requires StoresMedians(was, now, ReportsOf(d, OracleVotes(h, txs)), store, DEFAULT_POWER_THRESHOLD, quo,
                           timestamp, ctx.blockHeight)
    requires cp in now
    ensures now[cp] != was[cp] ==>
              && now[cp].price.Some?
              && SignedAbove(h, ctx, d, txs, faulty, cp, now[cp].price.value.price)
              && (store.totalBonded > 1000 ==> SignedBelow(h, ctx, d, txs, faulty, cp, now[cp].price.value.price))
  {
    hide Injective, Decodable, OracleVotes, ReportsOf, SignedAbove, SignedBelow, Priced, IsStakeMedian, BallotOf,
         Proposals.Verified, FaultyBelowThird;
    if now[cp] != was[cp] {
      AcceptedPricesAreHonest(h, ctx, d, store, quo, faulty, txs, cp, now[cp].price.value.price);
    }
  }

  /** A block as a validator handles it: the proposal is checked, and once decided its prices are written.
      With less than a third of the bonded stake faulty, nothing accepted fails in the pre-block step, and
      every price the store then holds is an old one or lies between prices honest validators signed. */
  method HandleBlock(handler: PreBlockHandler, h: Proposals.Config, ctx: Context, d: Decoder, store: ValidatorStore,
                     quo: Division, timestamp: int, txs: seq<Tx>, ghost faulty: set<Address>)
      returns (accepted: bool, r: Result<(), Proposals.ProposalError>)
    requires Proposals.Lawful(h) && VoteExtensionsEnabled(ctx) && Injective(d) && NonNegative(d)
             && FaultyBelowThird(store, faulty)
    modifies handler.keeper, handler.voteAggregator.priceAggregator
    ensures accepted <==>
            && Proposals.Verified(h, ctx, txs).Some?
            && h.processWrapped(Proposals.Verified(h, ctx, txs).value) == Ok(true)
    ensures !accepted ==> handler.keeper.State() == old(handler.keeper.State())
    ensures handler.keeper.State() == old(handler.keeper.State()).(pairs := handler.keeper.currencyPairs)
    ensures accepted ==>
              && Decodable(h, txs)
              && (HonestReportsFit(ReportsOf(d, OracleVotes(h, txs)), store, faulty) ==> r.Ok?)
              && handler.keeper.currencyPairs.Keys == old(handler.keeper.currencyPairs.Keys)
              && (r.Ok? ==> forall cp | cp in handler.keeper.currencyPairs
                              && handler.keeper.currencyPairs[cp] != old(handler.keeper.currencyPairs)[cp] ::
                    && handler.keeper.currencyPairs[cp].price.Some?
                    && var price := handler.keeper.currencyPairs[cp].price.value.price;
                       && SignedAbove(h, ctx, d, txs, faulty, cp, price)
                       && (store.totalBonded > 1000 ==> SignedBelow(h, ctx, d, txs, faulty, cp, price)))
  {
    hide Injective, NonNegative, Decodable, OracleVotes, ReportsOf, SignedAbove, SignedBelow, StoresMedians,
         Proposals.Verified, HonestReportsFit, MediansFit, AllShort;
    var status := Proposals.ProcessProposal(h, ctx, txs);
    accepted, r := status == Ok(true), Ok(());
    if accepted {
      AcceptedIsUsable(h, ctx, d, store, txs);
      if HonestReportsFit(ReportsOf(d, OracleVotes(h, txs)), store, faulty) {
        HonestMediansFit(d, OracleVotes(h, txs), store, quo, faulty, handler.keeper.currencyPairs.Keys);
      }
      r := handler.PreBlocker(h, ctx, d, store, DEFAULT_POWER_THRESHOLD, quo, timestamp, txs);
      if r.Ok? {
        forall cp | cp in handler.keeper.currencyPairs
          && handler.keeper.currencyPairs[cp] != old(handler.keeper.currencyPairs)[cp]
          ensures && handler.keeper.currencyPairs[cp].price.Some?
                  && var price := handler.keeper.currencyPairs[cp].price.value.price;
                     && SignedAbove(h, ctx, d, txs, faulty, cp, price)
                     && (store.totalBonded > 1000 ==> SignedBelow(h, ctx, d, txs, faulty, cp, price))
        {
          StoredPricesAreHonest(h, ctx, d, store, quo, faulty, txs, old(handler.keeper.currencyPairs),
                                handler.keeper.currencyPairs, timestamp, cp);
        }
      }
    }
  }

  /** Liveness of the path: what PrepareProposal returns, ProcessProposal accepts, and the pre-block step
      decodes and, as long as any stake is bonded, aggregates without an error. A vote the proposer held that
      needs no pruning and carries prices is among the collected reports with exactly those prices. */
  lemma ProposalReachesStore(h: Proposals.Config, ctx: Context, d: Decoder, store: ValidatorStore, ec: ExtendedCommit,
                             txs: seq<Tx>, maxTxBytes: int, i: nat)
    requires Proposals.Lawful(h) && VoteExtensionsEnabled(ctx) && Injective(d)
    requires Proposals.Proposal(h, ctx, ec, txs, maxTxBytes).Some? && i < |ec.votes|
    ensures var out := Proposals.Proposal(h, ctx, ec, txs, maxTxBytes).value;
            && Proposals.Verified(h, ctx, out).Some?
            && Decodable(h, out) && AllShort(OracleVotes(h, out))
            && (store.totalBonded > 0 ==> Divides(ReportsOf(d, OracleVotes(h, out)), store))
    ensures var out, vote := Proposals.Proposal(h, ctx, ec, txs, maxTxBytes).value, ec.votes[i];
            var decoded := h.decodeExtension(vote.extension.Contents());
            Proposals.VoteUsable(h, vote) && decoded.Ok? && decoded.value != map[] ==>
              var reports := ReportsOf(d, OracleVotes(h, out));
              Address(vote.validator.address) in reports
              && reports[Address(vote.validator.address)] == DecodedPrices(d, decoded.value)
  {
    hide Divides;
    var out := Proposals.Proposal(h, ctx, ec, txs, maxTxBytes).value;
    Proposals.PreparedProposalIsAccepted(h, ctx, ec, txs, maxTxBytes);
    AcceptedIsUsable(h, ctx, d, store, out);
    ProposedVotes(h, ctx, ec, txs, maxTxBytes, i);
    AcceptedVotesAllCount(h, ctx, d, out, i);
  }

  /** The votes read back from the proposal are the pruned votes the proposer held. */
  lemma ProposedVotes(h: Proposals.Config, ctx: Context, ec: ExtendedCommit, txs: seq<Tx>, maxTxBytes: int, i: nat)
    requires Proposals.Lawful(h) && VoteExtensionsEnabled(ctx)
    requires Proposals.Proposal(h, ctx, ec, txs, maxTxBytes).Some? && i < |ec.votes|
    ensures var out := Proposals.Proposal(h, ctx, ec, txs, maxTxBytes).value;
            Decodable(h, out) ==>
              var votes, pruned := OracleVotes(h, out), Proposals.PrunedVote(h, ec.votes[i]);
              && |votes| == |ec.votes| && votes[i].consAddress == Address(ec.votes[i].validator.address)
              && h.decodeExtension(pruned.extension.Contents()) == Ok(votes[i].prices)
  {
    Proposals.PreparedProposalIsAccepted(h, ctx, ec, txs, maxTxBytes);
    var pruned := Proposals.Pruned(h, ec);
    assert Proposals.Normalize(pruned).votes[i] == Proposals.NormalizeVote(pruned.votes[i]);
  }

  // ---------------------------------------------------------------- an honest vote

  /** The whole way of an honest vote: the bytes ExtendVote returned in state s, carried by a vote of the
      commit a proposer holds at the next height, after any block of creations, removals and prices. The
      vote is not pruned; if it holds any entry its validator is among the reports of the accepted proposal,
      with the prices decoded from it; and each of those is the price the sidecar reported exactly when its
      pair can still be read. */
  lemma HonestVoteReachesReports(h: Proposals.Config, ctx: Context, codec: Codec, p: Parser, s: OracleState,
                                 hash: Option<HashStrategy.Hash>, relative: bool, preBlocked: bool,
                                 response: Option<map<string, string>>, extension: bytes, ops: seq<Op>,
                                 ec: ExtendedCommit, txs: seq<Tx>, maxTxBytes: int, i: nat)
    requires Lossless(codec) && Uses(h, codec) && Proposals.Lawful(h) && VoteExtensionsEnabled(ctx)
    requires Consistent(s) && PricesInRange(s.pairs) && ReportedInRange(p, response)
    requires Extends(codec, p, StrategyEncoder(s.pairs, hash, relative), preBlocked, response, extension)
    requires h.maxNumCP == Ok(MaxNumCP(ModeProcessProposal, Later(s, ops)))
    requires hash.Some? ==> HashStrategy.CollisionFree(Later(s, ops).pairs, hash.value)
    requires Proposals.Proposal(h, ctx, ec, txs, maxTxBytes).Some?
    requires i < |ec.votes| && ec.votes[i].extension.Contents() == extension
    ensures Proposals.PrunedVote(h, ec.votes[i]) == ec.votes[i]
    ensures var out := Proposals.Proposal(h, ctx, ec, txs, maxTxBytes).value;
            var d := StrategyDecoder(Later(s, ops).pairs, hash, relative);
            && Proposals.Verified(h, ctx, out).Some? && Decodable(h, out) && Injective(d)
            && Decoded(codec, extension).Ok?
            && var ve, reports := Decoded(codec, extension).value, ReportsOf(d, OracleVotes(h, out));
               var v := Address(ec.votes[i].validator.address);
               && (ve != map[] ==>
                     response.Some? && v in reports
                       && reports[v] == StrategyPrices(Later(s, ops).pairs, hash, relative, ve))
               && forall id | id in ve ::
                    ArrivesExactly(p, response.value, ve, s.pairs, Later(s, ops).pairs, hash, relative, id)
  {
    hide Consistent, Lossless, Extends, ArrivesExactly, Decodable, OracleVotes, ReportsOf, DecodedPrices, Injective,
         Decoded, PricesInRange, ReportedInRange, BelowBound, Proposals.Lawful, Proposals.VoteUsable,
         Proposals.Proposal, Proposals.Verified;
    var d := StrategyDecoder(Later(s, ops).pairs, hash, relative);
    StrategyDecoderIsInjective(Later(s, ops).pairs, hash, relative);
    InRangeIsBelowBound(p, response, s.pairs, relative);
    StrategyEncoderIsHonest(s.pairs, hash, relative);
    HonestExtensionSurvives(codec, p, StrategyEncoder(s.pairs, hash, relative), BaseOf(s.pairs, relative), s,
                            preBlocked, response, extension, ops, h, ec.votes[i], ModeProcessProposal);
    HonestPricesArriveExactly(codec, p, s, hash, relative, preBlocked, response, extension, ops);
    ProposalReachesStore(h, ctx, d, ValidatorStore(map[], 0), ec, txs, maxTxBytes, i);
    assert h.decodeExtension(extension) == Decoded(codec, extension);
  }

  lemma SeenInRange(d: Decoder, votes: seq<Vote>, store: ValidatorStore, threshold: int, quo: Division,
                    was: map<CurrencyPair, PairState>, seen: map<CurrencyPair, PairState>, timestamp: int, height: int)
    requires Injective(d) && NonNegative(d) && PricesInRange(was)
    requires StoresMedians(was, seen, ReportsOf(d, votes), store, threshold, quo, timestamp, height)
    ensures PricesInRange(seen)
  {
    hide Injective, NonNegative, ReportsOf, Priced, BallotOf, IsStakeMedian;
    var reports := ReportsOf(d, votes);
    forall cp | cp in seen && seen[cp].price.Some?
      ensures 0 <= seen[cp].price.value.price < BigIntGob.TWO_256
    {
      if Priced(reports, store, threshold, quo, cp) {
        BallotIsBonded(reports, store, cp);
        var v := MedianIsReported(reports, store, cp, seen[cp].price.value.price);
        ReportsAreNonNegative(d, votes, v, cp);
      }
    }
  }

  lemma SeenIsConsistent(was: OracleState, seen: OracleState)
    requires Consistent(was) && seen == was.(pairs := seen.pairs) && seen.pairs.Keys == was.pairs.Keys
    requires forall cp | cp in was.pairs :: seen.pairs[cp].id == was.pairs[cp].id
    ensures Consistent(seen)
  {
    assert |seen.pairs.Keys| == |was.pairs.Keys|;
  }

  /** One node extends its vote, another one verifies the extension in the same state: from a consistent
      store and prices below 2^256 it is always accepted, whatever the proposal holds and whichever step of
      the extension fails. */
  method ExtendAndVerify(handler: PreBlockHandler, h: Proposals.Config, ctx: Context, d: Decoder, store: ValidatorStore,
                         threshold: int, quo: Division, timestamp: int, txs: seq<Tx>, codec: Codec, p: Parser,
                         hash: Option<HashStrategy.Hash>, relative: bool, response: Option<map<string, string>>)
      returns (extension: bytes, accept: bool)
    requires Injective(d) && NonNegative(d) && Lossless(codec) && Uses(h, codec)
    requires Consistent(handler.keeper.State()) && h.maxNumCP == Ok(MaxNumCP(ModeOther, handler.keeper.State()))
    requires PricesInRange(handler.keeper.currencyPairs) && ReportedInRange(p, response)
    modifies handler.voteAggregator.priceAggregator
    ensures accept
  {
    hide Injective, NonNegative, Lossless, Consistent, PricesInRange, ReportedInRange, Succeeds, StoresMedians,
         Extends, BelowBound, StoreEncoder;
    ghost var was := handler.keeper.State();
    ghost var seen;
    extension, seen := ExtendVote(handler, h, ctx, d, store, threshold, quo, timestamp, txs, codec, p,
                                  (s: OracleState) => StrategyEncoder(s.pairs, hash, relative), response);
    ExtendedIsAccepted(h, ctx, d, store, threshold, quo, timestamp, txs, codec, p, hash, relative, response, was,
                       seen, extension);
    accept := VerifyVoteExtension(h, extension);
  }

  lemma ExtendedIsAccepted(h: Proposals.Config, ctx: Context, d: Decoder, store: ValidatorStore, threshold: int,
                           quo: Division,
                           timestamp: int, txs: seq<Tx>, codec: Codec, p: Parser, hash: Option<HashStrategy.Hash>,
                           relative: bool, response: Option<map<string, string>>, was: OracleState, seen: OracleState,
                           extension: bytes)
    requires Injective(d) && NonNegative(d) && Lossless(codec) && Uses(h, codec)
    requires Consistent(was) && h.maxNumCP == Ok(MaxNumCP(ModeOther, was)) && PricesInRange(was.pairs)
             && ReportedInRange(p, response)
    requires seen == was.(pairs := seen.pairs) && seen.pairs.Keys == was.pairs.Keys
    requires !VoteExtensionsEnabled(ctx) ==> seen == was
    requires var succeeds := Succeeds(h, ctx, d, store, threshold, quo, txs, was.pairs.Keys);
             && Extends(codec, p, StrategyEncoder(seen.pairs, hash, relative), succeeds, response, extension)
             && (succeeds && VoteExtensionsEnabled(ctx) ==>
                   StoresMedians(was.pairs, seen.pairs, ReportsOf(d, OracleVotes(h, txs)), store, threshold, quo,
                                 timestamp, ctx.blockHeight))
    ensures VerifyAccepts(h, extension)
  {
    hide Injective, NonNegative, Lossless, Consistent, PricesInRange, ReportedInRange, BelowBound, StoreEncoder,
         Transformed, IsEncoding,
         OracleVotes, ReportsOf, Proposals.ExtensionAllowed, Priced, IsStakeMedian, BallotOf, Fits;
    if Succeeds(h, ctx, d, store, threshold, quo, txs, was.pairs.Keys) {
      if VoteExtensionsEnabled(ctx) {
        SeenInRange(d, OracleVotes(h, txs), store, threshold, quo, was.pairs, seen.pairs, timestamp, ctx.blockHeight);
      }
      SeenIsConsistent(was, seen);
      InRangeIsBelowBound(p, response, seen.pairs, relative);
      StrategyEncoderIsHonest(seen.pairs, hash, relative);
      HonestExtensionIsVerified(codec, p, StrategyEncoder(seen.pairs, hash, relative), BaseOf(seen.pairs, relative),
                                seen, true, response, extension, h);
    }
  }
}
