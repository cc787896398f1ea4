/** What becomes of an honest node's prices: its extension is accepted, and in a later store each entry
    decodes to the reported price exactly when its pair can still be read there. */
module HonestPrices {
  import opened Wrappers
  import opened Varint
  import opened StakeMedian
  import opened OracleKeeper
  import opened BigIntGob
  import opened ExtensionCodec
  import opened VoteExtensions
  import opened Strategies
  import HashStrategy
  import PreBlock

  // ---------------------------------------------------------------- the strategies as encoders

  function StrategyID(pairs: Pairs, hash: Option<HashStrategy.Hash>, cp: CurrencyPair): Option<uint64> {
    var id := if hash.Some? then HashStrategy.HashedID(pairs, hash.value, cp) else DirectID(pairs, cp);
    if id.Ok? && id.value < TWO_64 then Some(id.value) else None
  }

  /** What a price is encoded against: nothing, or the on-chain price. */
  function StrategyBase(pairs: Pairs, relative: bool, cp: CurrencyPair): Result<int, StrategyError> {
    if relative then DirectPrice(pairs, cp) else Ok(0)
  }

  /** The strategies' ID and GetEncodedPrice in a given store. */
  function StrategyEncoder(pairs: Pairs, hash: Option<HashStrategy.Hash>, relative: bool): Encoder {
    Encoder(
      cp => StrategyID(pairs, hash, cp),
      (cp, price) => PreBlock.ToOption(EncodeAgainst(StrategyBase(pairs, relative, cp), price)))
  }

  ghost function BaseOf(pairs: Pairs, relative: bool): CurrencyPair -> int {
    cp => if StrategyBase(pairs, relative, cp).Ok? then StrategyBase(pairs, relative, cp).value else 0
  }

  lemma StrategyEncoderIsHonest(pairs: Pairs, hash: Option<HashStrategy.Hash>, relative: bool)
    ensures StoreEncoder(StrategyEncoder(pairs, hash, relative), pairs, BaseOf(pairs, relative))
  {
    var e, onChain := StrategyEncoder(pairs, hash, relative), BaseOf(pairs, relative);
    forall cp, price | e.encode(cp, price).Some?
      ensures EncodedDelta(onChain(cp), price) == Ok(e.encode(cp, price).value)
    {
      assert StrategyBase(pairs, relative, cp).Ok?;
    }
    forall cp | e.idOf(cp).Some?
      ensures cp in pairs
    {
      assert StrategyID(pairs, hash, cp).Some?;
    }
  }

  // ---------------------------------------------------------------- one entry

  /** The pair is still stored under the id the entry was built with; hashes need no stored id. */
  predicate Named(built: Pairs, later: Pairs, hash: Option<HashStrategy.Hash>, cp: CurrencyPair) {
    cp in built && cp in later && (hash.None? ==> later[cp].id == built[cp].id)
  }

  /** ... and, for the delta strategy, at the on-chain price it was built against. */
  predicate Readable(built: Pairs, later: Pairs, hash: Option<HashStrategy.Hash>, relative: bool, cp: CurrencyPair) {
    Named(built, later, hash, cp) && (relative ==> DirectPrice(later, cp) == DirectPrice(built, cp))
  }

  ghost predicate Unambiguous(later: Pairs, hash: Option<HashStrategy.Hash>) {
    if hash.Some? then HashStrategy.CollisionFree(later, hash.value) else UniqueIds(later)
  }

  /** The prices the strategy decodes from an extension in a store. */
  ghost function StrategyPrices(later: Pairs, hash: Option<HashStrategy.Hash>, relative: bool,
                                ve: VoteExtensions.Prices): StakeMedian.Prices {
    PreBlock.StrategyDecoderIsInjective(later, hash, relative);
    PreBlock.DecodedPrices(PreBlock.StrategyDecoder(later, hash, relative), ve)
  }

  lemma EntryBytes(built: Pairs, hash: Option<HashStrategy.Hash>, relative: bool, cp: CurrencyPair, price: int,
                   id: uint64, bs: bytes)
    requires var e := StrategyEncoder(built, hash, relative); e.idOf(cp) == Some(id) && e.encode(cp, price) == Some(bs)
    ensures cp in built && id == (if hash.Some? then hash.value(cp) else built[cp].id)
    ensures price >= 0 && StrategyBase(built, relative, cp).Ok?
    ensures GobDecode(bs) == Ok(price - StrategyBase(built, relative, cp).value)
  {
    assert StrategyID(built, hash, cp) == Some(id);
    assert EncodeAgainst(StrategyBase(built, relative, cp), price) == Ok(bs);
    GobRoundTrip(price - StrategyBase(built, relative, cp).value);
  }

  /** A named entry decodes to the reported price exactly when it is readable. */
  lemma EntryDecodes(built: Pairs, later: Pairs, hash: Option<HashStrategy.Hash>, relative: bool,
                     cp: CurrencyPair, price: int, id: uint64, bs: bytes)
    requires var e := StrategyEncoder(built, hash, relative); e.idOf(cp) == Some(id) && e.encode(cp, price) == Some(bs)
    requires Unambiguous(later, hash) && Named(built, later, hash, cp)
    ensures var d := PreBlock.StrategyDecoder(later, hash, relative);
            d.fromID(id) == Some(cp)
              && (d.decode(cp, bs) == Some(price) <==> Readable(built, later, hash, relative, cp))
  {
    EntryBytes(built, hash, relative, cp, price, id, bs);
    if hash.Some? {
      HashStrategy.HashedFromIDUndoesID(later, hash.value);
    } else {
      FromIDUndoesID(later);
    }
    var base := StrategyBase(later, relative, cp).value;
    assert PreBlock.StrategyDecoder(later, hash, relative).decode(cp, bs) == PreBlock.ToOption(DecodedDelta(base, bs));
  }

  /** Every entry of an honest extension whose pairs are readable in the later store, whatever happened to
      the other pairs, decodes there to exactly a price the sidecar reported for the pair. */
  lemma HonestPriceArrives(p: Parser, prices: map<string, string>, ve: VoteExtensions.Prices, built: Pairs,
                           later: Pairs, hash: Option<HashStrategy.Hash>, relative: bool, name: string, id: uint64)
    requires id in ve && Contributes(p, StrategyEncoder(built, hash, relative), prices, name, id, ve[id])
    requires Unambiguous(later, hash) && Readable(built, later, hash, relative, p.pair(name).value)
    ensures var cp, decoded := p.pair(name).value, StrategyPrices(later, hash, relative, ve);
            cp in decoded && decoded[cp] == Some(p.price(prices[name]).value)
  {
    var cp, price := p.pair(name).value, p.price(prices[name]).value;
    EntryDecodes(built, later, hash, relative, cp, price, id, ve[id]);
    PreBlock.StrategyDecoderIsInjective(later, hash, relative);
    PreBlock.DecodedPricesAre(PreBlock.StrategyDecoder(later, hash, relative), ve, cp);
    assert PreBlock.DecodesTo(PreBlock.StrategyDecoder(later, hash, relative), ve, cp, Some(price));
  }

  // ---------------------------------------------------------------- across a block

  ghost function Later(s: OracleState, ops: seq<Op>): OracleState {
    Run(s.(numRemoves := 0), ops)
  }

  /** Ids are not reused, so an entry can only be read as the pair it was built for. */
  lemma DecodedPairWasNamed(p: Parser, prices: map<string, string>, ve: VoteExtensions.Prices, s: OracleState,
                            ops: seq<Op>,
                            hash: Option<HashStrategy.Hash>, relative: bool, cp: CurrencyPair, price: Option<int>)
    requires Consistent(s) && Transformed(p, StrategyEncoder(s.pairs, hash, relative), prices, ve) && cp in s.pairs
    requires PreBlock.DecodesTo(PreBlock.StrategyDecoder(Later(s, ops).pairs, hash, relative), ve, cp, price)
    ensures Named(s.pairs, Later(s, ops).pairs, hash, cp)
  {
    hide Run;
    var e, later := StrategyEncoder(s.pairs, hash, relative), Later(s, ops).pairs;
    var d := PreBlock.StrategyDecoder(later, hash, relative);
    var j :| j in ve && PreBlock.Usable(d, j, ve[j]) && d.fromID(j) == Some(cp) && d.decode(cp, ve[j]) == price;
    assert cp in later && j == if hash.Some? then hash.value(cp) else later[cp].id;
    if hash.None? {
      var name :| Contributes(p, e, prices, name, j, ve[j]);
      EntryBytes(s.pairs, hash, relative, p.pair(name).value, p.price(prices[name]).value, j, ve[j]);
      BlockKeepsOldIds(s.(numRemoves := 0), ops, s.nextId, cp);
    }
  }

  lemma LaterIsUnambiguous(s: OracleState, ops: seq<Op>)
    requires Consistent(s)
    ensures UniqueIds(Later(s, ops).pairs)
  {
    BlockBoundsOldPairs(s.(numRemoves := 0), ops);
  }

  /** Some price reported for a pair is behind entry id, and the pair's decoded price in the later store is
      that price if and only if the pair is readable there; if it is not even named, it has no price. */
  ghost predicate ArrivesExactly(p: Parser, prices: map<string, string>, ve: VoteExtensions.Prices, built: Pairs,
                                 later: Pairs, hash: Option<HashStrategy.Hash>, relative: bool, id: uint64)
    requires id in ve
  {
    exists name :: Contributes(p, StrategyEncoder(built, hash, relative), prices, name, id, ve[id]) &&
      ReadExactly(StrategyPrices(later, hash, relative, ve), built, later, hash, relative, p.pair(name).value,
                  p.price(prices[name]).value)
  }

  ghost predicate ReadExactly(decoded: StakeMedian.Prices, built: Pairs, later: Pairs,
                              hash: Option<HashStrategy.Hash>, relative: bool, cp: CurrencyPair, price: int)
  {
    && (cp in decoded && decoded[cp] == Some(price) <==> Readable(built, later, hash, relative, cp))
    && (!Named(built, later, hash, cp) ==> cp !in decoded)
  }

  lemma EntryArrivesExactly(p: Parser, prices: map<string, string>, ve: VoteExtensions.Prices, s: OracleState,
                            ops: seq<Op>, hash: Option<HashStrategy.Hash>, relative: bool, id: uint64)
    requires Consistent(s) && Transformed(p, StrategyEncoder(s.pairs, hash, relative), prices, ve) && id in ve
    requires hash.Some? ==> HashStrategy.CollisionFree(Later(s, ops).pairs, hash.value)
    ensures ArrivesExactly(p, prices, ve, s.pairs, Later(s, ops).pairs, hash, relative, id)
  {
    hide Run, Later;
    var e, later := StrategyEncoder(s.pairs, hash, relative), Later(s, ops).pairs;
    var name :| Contributes(p, e, prices, name, id, ve[id]);
    var cp, price := p.pair(name).value, p.price(prices[name]).value;
    LaterIsUnambiguous(s, ops);
    PairReadExactly(p, prices, ve, s, ops, hash, relative, name, id);
  }

  lemma PairReadExactly(p: Parser, prices: map<string, string>, ve: VoteExtensions.Prices, s: OracleState, ops: seq<Op>,
                        hash: Option<HashStrategy.Hash>, relative: bool, name: string, id: uint64)
    requires Consistent(s) && Transformed(p, StrategyEncoder(s.pairs, hash, relative), prices, ve) && id in ve
    requires Contributes(p, StrategyEncoder(s.pairs, hash, relative), prices, name, id, ve[id])
    requires Unambiguous(Later(s, ops).pairs, hash)
    ensures var later := Later(s, ops).pairs;
            ReadExactly(StrategyPrices(later, hash, relative, ve), s.pairs, later, hash, relative, p.pair(name).value,
                        p.price(prices[name]).value)
  {
    hide Run, Later, Transformed, Consistent, PreBlock.DecodedPrices, PreBlock.Injective;
    var later := Later(s, ops).pairs;
    var cp, price, d := p.pair(name).value, p.price(prices[name]).value,
      PreBlock.StrategyDecoder(later, hash, relative);
    var decoded := StrategyPrices(later, hash, relative, ve);
    PreBlock.StrategyDecoderIsInjective(later, hash, relative);
    PreBlock.DecodedPricesAre(d, ve, cp);
    EntryBytes(s.pairs, hash, relative, cp, price, id, ve[id]);
    if cp in decoded {
      DecodedPairWasNamed(p, prices, ve, s, ops, hash, relative, cp, decoded[cp]);
    }
    if Named(s.pairs, later, hash, cp) {
      EntryDecodes(s.pairs, later, hash, relative, cp, price, id, ve[id]);
      NamedEntryDecides(d, ve, cp, id, price);
    }
  }

  /** The entry under the pair's own id decides its decoded price. */
  lemma NamedEntryDecides(d: PreBlock.Decoder, ve: VoteExtensions.Prices, cp: CurrencyPair, id: uint64, price: int)
    requires PreBlock.Injective(d) && id in ve && d.fromID(id) == Some(cp)
    ensures var decoded := PreBlock.DecodedPrices(d, ve);
            cp in decoded && decoded[cp] == Some(price) <==> d.decode(cp, ve[id]) == Some(price)
  {
    PreBlock.DecodedPricesAre(d, ve, cp);
    if d.decode(cp, ve[id]) == Some(price) {
      assert PreBlock.DecodesTo(d, ve, cp, Some(price));
    }
  }

  /** From the bytes: whatever ExtendVote returned in state s, every entry decodes at the next height, after
      any block of creations, removals and prices, to the reported price exactly when its pair is readable. */
  lemma HonestPricesArriveExactly(codec: Codec, p: Parser, s: OracleState, hash: Option<HashStrategy.Hash>,
                                  relative: bool,
                                  preBlocked: bool, response: Option<map<string, string>>, extension: bytes,
                                  ops: seq<Op>)
    requires Lossless(codec) && Consistent(s)
    requires Extends(codec, p, StrategyEncoder(s.pairs, hash, relative), preBlocked, response, extension)
    requires hash.Some? ==> HashStrategy.CollisionFree(Later(s, ops).pairs, hash.value)
    ensures Decoded(codec, extension).Ok?
    ensures var ve := Decoded(codec, extension).value;
            && (ve != map[] ==> response.Some?)
            && forall id | id in ve ::
                 ArrivesExactly(p, response.value, ve, s.pairs, Later(s, ops).pairs, hash, relative, id)
  {
    hide Transformed, IsEncoding, Lossless, Consistent, Later, ArrivesExactly, Decoded;
    EmptyDecodes(codec);
    if extension != [] {
      var e := StrategyEncoder(s.pairs, hash, relative);
      var ve, r :| Transformed(p, e, response.value, ve) && IsEncoding(codec, ve, r)
        && extension == if r.Ok? then r.value else [];
      DecodeUndoesEncode(codec, ve, r);
      forall id | id in ve
        ensures ArrivesExactly(p, response.value, ve, s.pairs, Later(s, ops).pairs, hash, relative, id)
      {
        EntryArrivesExactly(p, response.value, ve, s, ops, hash, relative, id);
      }
    }
  }

  /** A block that only creates and removes pairs: every pair it did not remove, or remove and create anew,
      is readable. */
  lemma KeptPairsAreReadable(s: OracleState, ops: seq<Op>, hash: Option<HashStrategy.Hash>, relative: bool,
                             cp: CurrencyPair)
    requires Consistent(s) && cp in s.pairs && forall i :: 0 <= i < |ops| ==> !ops[i].Write?
    requires cp in Later(s, ops).pairs && Later(s, ops).pairs[cp].id == s.pairs[cp].id
    ensures Readable(s.pairs, Later(s, ops).pairs, hash, relative, cp)
  {
    BlockKeepsOldIds(s.(numRemoves := 0), ops, s.nextId, cp);
  }

  /** With stored ids an entry whose pair is no longer named is skipped: no other pair has taken its id. */
  lemma UnnamedEntryIsSkipped(s: OracleState, ops: seq<Op>, cp: CurrencyPair)
    requires Consistent(s) && cp in s.pairs && !Named(s.pairs, Later(s, ops).pairs, None, cp)
    ensures DirectFromID(Later(s, ops).pairs, s.pairs[cp].id) == Err(UnknownId)
  {
    var later := Later(s, ops).pairs;
    if other :| other in later && later[other].id == s.pairs[cp].id {
      BlockKeepsOldIds(s.(numRemoves := 0), ops, s.nextId, other);
      assert other == cp;
    }
  }

  // ---------------------------------------------------------------- on-chain prices below 2^256

  ghost predicate PricesInRange(pairs: Pairs) {
    forall cp | cp in pairs && pairs[cp].price.Some? :: 0 <= pairs[cp].price.value.price < TWO_256
  }

  ghost predicate ReportedInRange(p: Parser, response: Option<map<string, string>>) {
    response.Some? ==> forall s | Parses(p, response.value, s) :: p.price(response.value[s]).value < TWO_256
  }

  lemma InRangeIsBelowBound(p: Parser, response: Option<map<string, string>>, pairs: Pairs, relative: bool)
    requires PricesInRange(pairs) && ReportedInRange(p, response)
    ensures response.Some? ==> BelowBound(p, response.value, pairs, BaseOf(pairs, relative))
  {
    forall cp | cp in pairs
      ensures 0 <= BaseOf(pairs, relative)(cp) < TWO_256
    {
      assert StrategyBase(pairs, relative, cp).Ok?;
    }
  }
}
