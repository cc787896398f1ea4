/** Building a vote extension from the sidecar's prices, verifying one, and why an honest extension
    passes the checks of this height and of the next one. */
module VoteExtensions {
  import opened Wrappers
  import opened Varint
  import opened StakeMedian
  import opened OracleKeeper
  import opened BigIntGob
  import opened ExtensionCodec
  import ExtendedCommits
  import Proposals
  import PreBlock
  import Strategies

  type Prices = Proposals.Prices

  datatype ExtensionError = BadPairString | BadPriceString

  /** The strategy at extension time: ids of the pairs in the store, and price encoding. None is an
      error, and skips the pair. */
  datatype Encoder = Encoder(idOf: CurrencyPair -> Option<uint64>, encode: (CurrencyPair, int) -> Option<bytes>)

  /** CurrencyPairFromString and big.Int.SetString. */
  datatype Parser = Parser(pair: string -> Option<CurrencyPair>, price: string -> Option<int>)

  // ---------------------------------------------------------------- extending

  ghost predicate Parses(p: Parser, prices: map<string, string>, s: string) {
    s in prices && p.pair(s).Some? && p.price(prices[s]).Some?
  }

  /** The entry that s contributes, if its pair is known and its price can be encoded. */
  ghost predicate Contributes(p: Parser, e: Encoder, prices: map<string, string>, s: string, id: uint64, bs: bytes) {
    Parses(p, prices, s) && e.idOf(p.pair(s).value) == Some(id)
      && e.encode(p.pair(s).value, p.price(prices[s]).value) == Some(bs)
  }

  ghost predicate AllParse(p: Parser, prices: map<string, string>) {
    forall s | s in prices :: Parses(p, prices, s)
  }

  /** The extension holds an entry for every id that some price contributes to, and nothing else. */
  ghost predicate Transformed(p: Parser, e: Encoder, prices: map<string, string>, ve: Prices) {
    && (forall id | id in ve :: exists s :: Contributes(p, e, prices, s, id, ve[id]))
    && forall s, id, bs :: Contributes(p, e, prices, s, id, bs) ==> id in ve
  }

  method TransformOracleServicePrices(p: Parser, e: Encoder, prices: map<string, string>)
      returns (r: Result<Prices, ExtensionError>)
    ensures r.Ok? <==> AllParse(p, prices)
    ensures r.Ok? ==> Transformed(p, e, prices, r.value)
  {
    var strategyPrices: Prices := map[];
    var left := prices.Keys;
    while left != {}
      invariant left <= prices.Keys
      invariant forall s | s in prices && s !in left :: Parses(p, prices, s)
      invariant forall id | id in strategyPrices :: exists s :: Contributes(p, e, prices, s, id, strategyPrices[id])
      invariant forall s, id, bs :: Contributes(p, e, prices, s, id, bs) && s !in left ==> id in strategyPrices
    {
      var s :| s in left;
      left := left - {s};
      var cp := p.pair(s);
      if cp.None? {
        return Err(BadPairString);
      }
      var rawPrice := p.price(prices[s]);
      if rawPrice.None? {
        return Err(BadPriceString);
      }
      var cpID := e.idOf(cp.value);
      if cpID.None? {
        continue;
      }
      var encodedPrice := e.encode(cp.value, rawPrice.value);
      if encodedPrice.None? {
        continue;
      }
      assert Contributes(p, e, prices, s, cpID.value, encodedPrice.value);
      strategyPrices := strategyPrices[cpID.value := encodedPrice.value];
    }
    return Ok(strategyPrices);
  }

  /** The encoded extension of the prices, or the empty one when any step on the way failed. */
  ghost predicate Extends(codec: Codec, p: Parser, e: Encoder, preBlocked: bool,
                          response: Option<map<string, string>>, extension: bytes) {
    if preBlocked && response.Some? && AllParse(p, response.value) then
      exists ve, r :: Transformed(p, e, response.value, ve) && IsEncoding(codec, ve, r)
        && extension == if r.Ok? then r.value else []
    else extension == []
  }

  /** ExtendVote always answers. It first writes the prices of the current proposal into a branch of the
      state, which is dropped afterwards, and encodes the sidecar's prices with what the strategy sees
      there. `seen` is that state. */
  method ExtendVote(handler: PreBlock.PreBlockHandler, h: Proposals.Config, ctx: ExtendedCommits.Context,
                    d: PreBlock.Decoder, store: ValidatorStore, threshold: int, quo: Division, timestamp: int,
                    txs: seq<PreBlock.Tx>, codec: Codec, p: Parser, strategy: OracleState -> Encoder,
                    response: Option<map<string, string>>)
      returns (extension: bytes, ghost seen: OracleState)
    requires PreBlock.Injective(d)
    modifies handler.voteAggregator.priceAggregator
    ensures seen == handler.keeper.State().(pairs := seen.pairs)
    ensures seen.pairs.Keys == handler.keeper.currencyPairs.Keys
    ensures !ExtendedCommits.VoteExtensionsEnabled(ctx) ==> seen == handler.keeper.State()
    ensures var succeeds := PreBlock.Succeeds(h, ctx, d, store, threshold, quo, txs, handler.keeper.currencyPairs.Keys);
            && Extends(codec, p, strategy(seen), succeeds, response, extension)
            && (succeeds && ExtendedCommits.VoteExtensionsEnabled(ctx) ==>
                  PreBlock.StoresMedians(handler.keeper.currencyPairs, seen.pairs,
                                         PreBlock.ReportsOf(d, PreBlock.OracleVotes(h, txs)),
                                         store, threshold, quo, timestamp, ctx.blockHeight))
  {
    hide PreBlock.Succeeds, PreBlock.StoresMedians, Transformed, IsEncoding;
    var branch := handler.keeper.Branch();
    var preBlocker := new PreBlock.PreBlockHandler(branch, handler.voteAggregator);
    var preBlocked := preBlocker.PreBlocker(h, ctx, d, store, threshold, quo, timestamp, txs);
    extension, seen := [], branch.State();
    if preBlocked.Err? || response.None? {
      return;
    }
    var voteExt := TransformOracleServicePrices(p, strategy(branch.State()), response.value);
    if voteExt.Err? {
      return;
    }
    var bz := Encode(codec, voteExt.value);
    if bz.Ok? {
      extension := bz.value;
    }
  }

  // ---------------------------------------------------------------- verifying

  datatype ExecMode = ModePrepareProposal | ModeProcessProposal | ModeOther

  /** GetMaxNumCP: pairs removed in the previous block still count while proposals are handled. */
  function MaxNumCP(mode: ExecMode, s: OracleState): nat {
    if mode == ModePrepareProposal || mode == ModeProcessProposal then s.numCPs + s.numRemoves else s.numCPs
  }

  ghost predicate VerifyAccepts(h: Proposals.Config, extension: bytes) {
    extension == [] || Proposals.ExtensionAllowed(h, extension)
  }

  method VerifyVoteExtension(h: Proposals.Config, extension: bytes) returns (accept: bool)
    ensures accept <==> VerifyAccepts(h, extension)
  {
    if |extension| == 0 {
      return true;
    }
    var voteExtension := h.decodeExtension(extension);
    if voteExtension.Err? {
      return false;
    }
    var valid := Proposals.ValidateOracleVoteExtension(voteExtension.value, h.maxNumCP);
    return valid.Ok?;
  }

  // ---------------------------------------------------------------- honest extensions

  /** Every entry is the gob of a number, under the id of a pair in the store. `deltas` holds the raw
      prices (default strategy) or the differences to the on-chain prices (delta strategy). */
  ghost predicate HonestlyBuilt(ve: Prices, deltas: map<uint64, int>, pairs: Strategies.Pairs, e: Encoder) {
    && ve.Keys == deltas.Keys
    && (forall id | id in ve :: ve[id] == GobEncode(deltas[id]))
    && forall id | id in ve :: exists cp :: cp in pairs && e.idOf(cp) == Some(id)
  }

  ghost predicate InRange(deltas: map<uint64, int>) {
    forall id | id in deltas :: -TWO_256 < deltas[id] < TWO_256
  }

  /** No more entries than pairs, because different ids come from different pairs. */
  lemma {:induction false} EntriesBoundedByPairs(ids: set<uint64>, cps: set<CurrencyPair>, e: Encoder)
    requires forall id | id in ids :: exists cp :: cp in cps && e.idOf(cp) == Some(id)
    ensures |ids| <= |cps|
    decreases |ids|
  {
    if ids != {} {
      var id :| id in ids;
      var cp :| cp in cps && e.idOf(cp) == Some(id);
      forall other | other in ids - {id}
        ensures exists c :: c in cps - {cp} && e.idOf(c) == Some(other)
      {
        var c :| c in cps && e.idOf(c) == Some(other);
        assert c != cp;
      }
      EntriesBoundedByPairs(ids - {id}, cps - {cp}, e);
    }
  }

  lemma HonestSizes(ve: Prices, deltas: map<uint64, int>, pairs: Strategies.Pairs, e: Encoder, max: nat)
    requires HonestlyBuilt(ve, deltas, pairs, e) && |pairs| <= max
    ensures Proposals.PricesAllowed(ve, max) <==> InRange(deltas)
  {
    EntriesBoundedByPairs(ve.Keys, pairs.Keys, e);
    assert |ve.Keys| <= |pairs.Keys|;
    forall id | id in ve
      ensures |ve[id]| <= Proposals.MAXIMUM_PRICE_SIZE <==> -TWO_256 < deltas[id] < TWO_256
    {
      GobLength(deltas[id]);
    }
  }

  /** An honest extension passes verification exactly when its numbers are below 2^256. */
  lemma HonestIsVerified(s: OracleState, ve: Prices, deltas: map<uint64, int>, e: Encoder)
    requires Consistent(s) && HonestlyBuilt(ve, deltas, s.pairs, e)
    ensures Proposals.PricesAllowed(ve, MaxNumCP(ModeOther, s)) <==> InRange(deltas)
  {
    HonestSizes(ve, deltas, s.pairs, e, s.numCPs);
  }

  /** ... and then no block in between can get it pruned: whatever pairs the block creates, removes or
      prices, the limit used at the next height covers the pairs of the height it was built at. */
  lemma HonestIsNeverPruned(s: OracleState, ops: seq<Op>, ve: Prices, deltas: map<uint64, int>, e: Encoder,
                            h: Proposals.Config, vote: ExtendedCommits.ExtendedVote, mode: ExecMode)
    requires Consistent(s) && HonestlyBuilt(ve, deltas, s.pairs, e) && InRange(deltas)
    requires mode == ModePrepareProposal || mode == ModeProcessProposal
    requires h.maxNumCP == Ok(MaxNumCP(mode, Run(s.(numRemoves := 0), ops)))
    requires h.decodeExtension(vote.extension.Contents()) == Ok(ve)
    ensures Proposals.VoteUsable(h, vote) && Proposals.PrunedVote(h, vote) == vote
  {
    var begun := s.(numRemoves := 0);
    BlockBoundsOldPairs(begun, ops);
    HonestSizes(ve, deltas, s.pairs, e, h.maxNumCP.value);
  }

  /** The encoder of the strategies over a consistent store; `onChain` is 0 for the default strategy
      and the stored price for the delta strategy. */
  ghost predicate StoreEncoder(e: Encoder, pairs: Strategies.Pairs, onChain: CurrencyPair -> int) {
    && (forall cp | e.idOf(cp).Some? :: cp in pairs)
    && (forall cp, price | e.encode(cp, price).Some? ::
          Strategies.EncodedDelta(onChain(cp), price) == Ok(e.encode(cp, price).value))
  }

  /** Reported and on-chain prices are below 2^256. */
  ghost predicate BelowBound(p: Parser, prices: map<string, string>, pairs: Strategies.Pairs,
                             onChain: CurrencyPair -> int) {
    && (forall cp | cp in pairs :: 0 <= onChain(cp) < TWO_256)
    && forall s | Parses(p, prices, s) :: p.price(prices[s]).value < TWO_256
  }

  /** What the handler builds is honest, and in range when prices and on-chain prices are below 2^256. */
  lemma TransformedIsHonest(p: Parser, e: Encoder, prices: map<string, string>, ve: Prices,
                            pairs: Strategies.Pairs, onChain: CurrencyPair -> int) returns (deltas: map<uint64, int>)
    requires StoreEncoder(e, pairs, onChain)
    requires Transformed(p, e, prices, ve)
    requires BelowBound(p, prices, pairs, onChain)
    ensures HonestlyBuilt(ve, deltas, pairs, e) && InRange(deltas)
  {
    deltas := map id | id in ve :: Delta(p, e, prices, onChain, id, ve[id]);
    forall id | id in ve
      ensures ve[id] == GobEncode(deltas[id]) && -TWO_256 < deltas[id] < TWO_256
      ensures exists cp :: cp in pairs && e.idOf(cp) == Some(id)
    {
      var s := Source(p, e, prices, id, ve[id]);
      var cp := p.pair(s).value;
      assert cp in pairs;
      assert Strategies.EncodedDelta(onChain(cp), p.price(prices[s]).value) == Ok(ve[id]);
    }
  }

  ghost function Source(p: Parser, e: Encoder, prices: map<string, string>, id: uint64, bs: bytes): (s: string)
    requires exists s :: Contributes(p, e, prices, s, id, bs)
    ensures Contributes(p, e, prices, s, id, bs)
  {
    var s :| Contributes(p, e, prices, s, id, bs);
    s
  }

  ghost function Delta(p: Parser, e: Encoder, prices: map<string, string>, onChain: CurrencyPair -> int, id: uint64,
                       bs: bytes): int
    requires exists s :: Contributes(p, e, prices, s, id, bs)
  {
    var s := Source(p, e, prices, id, bs);
    p.price(prices[s]).value - onChain(p.pair(s).value)
  }

  // ---------------------------------------------------------------- honest bytes

  /** What ExtendVote returns for prices below 2^256 in store s, VerifyVoteExtension accepts in s. */
  lemma HonestExtensionIsVerified(codec: Codec, p: Parser, e: Encoder, onChain: CurrencyPair -> int, s: OracleState,
                                  preBlocked: bool, response: Option<map<string, string>>, extension: bytes,
                                  h: Proposals.Config)
    requires Lossless(codec) && Uses(h, codec) && h.maxNumCP == Ok(MaxNumCP(ModeOther, s))
    requires Consistent(s) && StoreEncoder(e, s.pairs, onChain)
    requires response.Some? ==> BelowBound(p, response.value, s.pairs, onChain)
    requires Extends(codec, p, e, preBlocked, response, extension)
    ensures VerifyAccepts(h, extension)
  {
    hide Transformed, IsEncoding, StoreEncoder, BelowBound, Lossless;
    if extension != [] {
      var ve, r :| Transformed(p, e, response.value, ve) && IsEncoding(codec, ve, r)
        && extension == if r.Ok? then r.value else [];
      DecodeUndoesEncode(codec, ve, r);
      var deltas := TransformedIsHonest(p, e, response.value, ve, s.pairs, onChain);
      HonestIsVerified(s, ve, deltas, e);
    }
  }

  /** A vote that carries it is usable and not pruned at the next height, whatever pairs the block in
      between created, removed or priced. */
  lemma HonestExtensionSurvives(codec: Codec, p: Parser, e: Encoder, onChain: CurrencyPair -> int, s: OracleState,
                                preBlocked: bool, response: Option<map<string, string>>, extension: bytes, ops: seq<Op>,
                                h: Proposals.Config, vote: ExtendedCommits.ExtendedVote, mode: ExecMode)
    requires Lossless(codec) && Uses(h, codec)
    requires mode == ModePrepareProposal || mode == ModeProcessProposal
    requires h.maxNumCP == Ok(MaxNumCP(mode, Run(s.(numRemoves := 0), ops)))
    requires Consistent(s) && StoreEncoder(e, s.pairs, onChain)
    requires response.Some? ==> BelowBound(p, response.value, s.pairs, onChain)
    requires Extends(codec, p, e, preBlocked, response, extension) && vote.extension.Contents() == extension
    ensures Proposals.VoteUsable(h, vote) && Proposals.PrunedVote(h, vote) == vote
  {
    hide Transformed, IsEncoding, StoreEncoder, BelowBound, Lossless, Consistent, Run;
    if extension == [] {
      EmptyDecodes(codec);
      assert Proposals.PricesAllowed(map[], h.maxNumCP.value);
    } else {
      var ve, r :| Transformed(p, e, response.value, ve) && IsEncoding(codec, ve, r)
        && extension == if r.Ok? then r.value else [];
      DecodeUndoesEncode(codec, ve, r);
      var deltas := TransformedIsHonest(p, e, response.value, ve, s.pairs, onChain);
      HonestIsNeverPruned(s, ops, ve, deltas, e, h, vote, mode);
    }
  }
}
