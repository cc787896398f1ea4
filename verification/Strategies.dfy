/** The currency-pair strategies: ids and prices answered from per-height caches. Every cache is
    specified by a step function on its value; runs of steps are compared with the uncached keeper. */
module Strategies {
  import opened Wrappers
  import opened StakeMedian
  import opened OracleKeeper
  import opened BigIntGob

  datatype StrategyError = UnknownPair | UnknownId | NegativePrice | BadEncoding

  /** The keeper content a call sees. */
  type Pairs = map<CurrencyPair, PairState>

  ghost predicate UniqueIds(pairs: Pairs) {
    forall cp, cp' | cp in pairs && cp' in pairs && pairs[cp].id == pairs[cp'].id :: cp == cp'
  }

  // ---------------------------------------------------------------- uncached answers

  function DirectID(pairs: Pairs, cp: CurrencyPair): Result<nat, StrategyError> {
    if cp in pairs then Ok(pairs[cp].id) else Err(UnknownPair)
  }

  ghost function DirectFromID(pairs: Pairs, id: nat): Result<CurrencyPair, StrategyError> {
    if exists cp :: cp in pairs && pairs[cp].id == id then
      var cp :| cp in pairs && pairs[cp].id == id;
      Ok(cp)
    else Err(UnknownId)
  }

  /** The on-chain price, 0 for a pair without one. */
  function DirectPrice(pairs: Pairs, cp: CurrencyPair): Result<int, StrategyError> {
    if cp !in pairs then Err(UnknownPair)
    else if pairs[cp].price.None? then Ok(0)
    else Ok(pairs[cp].price.value.price)
  }

  /** FromID undoes ID on every pair of the store exactly when the ids are unique. */
  lemma FromIDUndoesID(pairs: Pairs)
    ensures UniqueIds(pairs) <==> forall cp | cp in pairs :: DirectFromID(pairs, pairs[cp].id) == Ok(cp)
  {
    if forall cp | cp in pairs :: DirectFromID(pairs, pairs[cp].id) == Ok(cp) {
      forall cp, cp' | cp in pairs && cp' in pairs && pairs[cp].id == pairs[cp'].id
        ensures cp == cp'
      {
        assert DirectFromID(pairs, pairs[cp].id) == Ok(cp) && DirectFromID(pairs, pairs[cp'].id) == Ok(cp');
      }
    }
  }

  // ---------------------------------------------------------------- the id cache

  datatype IdCache = IdCache(entries: map<nat, CurrencyPair>, height: int)

  /** A new height clears the cache. */
  function Refreshed(c: IdCache, height: int): IdCache {
    if height != c.height then IdCache(map[], height) else c
  }

  function IDStep(c: IdCache, height: int, pairs: Pairs, cp: CurrencyPair): (Result<nat, StrategyError>, IdCache) {
    var c := Refreshed(c, height);
    if cp !in pairs then (Err(UnknownPair), c)
    else (Ok(pairs[cp].id), c.(entries := c.entries[pairs[cp].id := cp]))
  }

  ghost function FromIDStep(c: IdCache, height: int, pairs: Pairs, id: nat)
    : (Result<CurrencyPair, StrategyError>, IdCache)
  {
    var c := Refreshed(c, height);
    if id in c.entries then (Ok(c.entries[id]), c)
    else
      var r := DirectFromID(pairs, id);
      (r, if r.Ok? then c.(entries := c.entries[id := r.value]) else c)
  }

  // ---------------------------------------------------------------- the price cache

  datatype PriceCache = PriceCache(entries: map<CurrencyPair, int>, height: int)

  function PriceStep(c: PriceCache, height: int, pairs: Pairs, cp: CurrencyPair)
    : (Result<int, StrategyError>, PriceCache)
  {
    var c := if height != c.height then PriceCache(map[], height) else c;
    if cp in c.entries then (Ok(c.entries[cp]), c)
    else
      var r := DirectPrice(pairs, cp);
      (r, if r.Ok? then c.(entries := c.entries[cp := r.value]) else c)
  }

  function EncodedDelta(onChain: int, price: int): Result<bytes, StrategyError> {
    if price < 0 then Err(NegativePrice) else Ok(GobEncode(price - onChain))
  }

  function DecodedDelta(onChain: int, bs: bytes): Result<int, StrategyError> {
    var delta := GobDecode(bs);
    if delta.Err? then Err(BadEncoding)
    else if delta.value + onChain < 0 then Err(NegativePrice)
    else Ok(delta.value + onChain)
  }

  /** A non-negative price survives encoding and decoding against the same on-chain price. */
  lemma DeltaRoundTrip(onChain: int, price: int)
    requires price >= 0
    ensures EncodedDelta(onChain, price).Ok? && DecodedDelta(onChain, EncodedDelta(onChain, price).value) == Ok(price)
  {
    GobRoundTrip(price - onChain);
  }

  /** For a pair that has no price yet the delta strategy encodes the price itself, in the same bytes as the
      default strategy, and reads it back. */
  lemma FirstPriceIsPlain(pairs: Pairs, cp: CurrencyPair, price: int)
    requires cp in pairs && pairs[cp].price.None? && price >= 0
    ensures EncodeAgainst(DirectPrice(pairs, cp), price) == EncodedDelta(0, price) == Ok(GobEncode(price))
    ensures DecodeAgainst(DirectPrice(pairs, cp), GobEncode(price)) == Ok(price)
  {
    GobRoundTrip(price);
  }

  /** A pair with a price is encoded as the difference to it; an unknown pair is an error. */
  lemma LaterPriceIsDifference(pairs: Pairs, cp: CurrencyPair, price: int)
    requires price >= 0
    ensures cp in pairs && pairs[cp].price.Some? ==>
              EncodeAgainst(DirectPrice(pairs, cp), price) == Ok(GobEncode(price - pairs[cp].price.value.price))
    ensures cp !in pairs ==> EncodeAgainst(DirectPrice(pairs, cp), price) == Err(UnknownPair)
  {
  }

  // ---------------------------------------------------------------- runs of the delta strategy

  /** The delta strategy embeds the default one: two caches, each with its own height. */
  datatype DeltaCaches = DeltaCaches(ids: IdCache, prices: PriceCache)

  datatype Query =
    | AskID(cp: CurrencyPair)
    | AskPair(id: nat)
    | Encode(cp: CurrencyPair, price: int)
    | Decode(cp: CurrencyPair, bs: bytes)

  datatype Call = Call(height: int, pairs: Pairs, query: Query)

  datatype Answer =
    | IDAnswer(id: Result<nat, StrategyError>)
    | PairAnswer(pair: Result<CurrencyPair, StrategyError>)
    | BytesAnswer(bs: Result<bytes, StrategyError>)
    | PriceAnswer(price: Result<int, StrategyError>)

  ghost function DirectAnswer(call: Call): Answer {
    match call.query
    case AskID(cp) => IDAnswer(DirectID(call.pairs, cp))
    case AskPair(id) => PairAnswer(DirectFromID(call.pairs, id))
    case Encode(cp, price) => BytesAnswer(EncodeAgainst(DirectPrice(call.pairs, cp), price))
    case Decode(cp, bs) => PriceAnswer(DecodeAgainst(DirectPrice(call.pairs, cp), bs))
  }

  /** The sign is looked at before the on-chain price is looked up. */
  function EncodeAgainst(onChain: Result<int, StrategyError>, price: int): Result<bytes, StrategyError> {
    if price < 0 then Err(NegativePrice)
    else if onChain.Err? then Err(onChain.error)
    else EncodedDelta(onChain.value, price)
  }

  function DecodeAgainst(onChain: Result<int, StrategyError>, bs: bytes): Result<int, StrategyError> {
    if onChain.Err? then Err(onChain.error) else DecodedDelta(onChain.value, bs)
  }

  ghost function CachedStep(c: DeltaCaches, call: Call): (Answer, DeltaCaches) {
    match call.query
    case AskID(cp) =>
      var (r, ids) := IDStep(c.ids, call.height, call.pairs, cp);
      (IDAnswer(r), c.(ids := ids))
    case AskPair(id) =>
      var (r, ids) := FromIDStep(c.ids, call.height, call.pairs, id);
      (PairAnswer(r), c.(ids := ids))
    case Encode(cp, price) =>
      if price < 0 then (BytesAnswer(Err(NegativePrice)), c)
      else
        var (r, prices) := PriceStep(c.prices, call.height, call.pairs, cp);
        (BytesAnswer(EncodeAgainst(r, price)), c.(prices := prices))
    case Decode(cp, bs) =>
      var (r, prices) := PriceStep(c.prices, call.height, call.pairs, cp);
      (PriceAnswer(DecodeAgainst(r, bs)), c.(prices := prices))
  }

  const NEW_CACHES := DeltaCaches(IdCache(map[], 0), PriceCache(map[], 0))

  /** The caches of a newly created strategy after the calls. */
  ghost function CachesAfter(calls: seq<Call>): DeltaCaches
    decreases |calls|
  {
    if calls == [] then NEW_CACHES else CachedStep(CachesAfter(calls[..|calls| - 1]), calls[|calls| - 1]).1
  }

  /** What the strategy answers to call i. */
  ghost function CachedAnswer(calls: seq<Call>, i: nat): Answer
    requires i < |calls|
  {
    CachedStep(CachesAfter(calls[..i]), calls[i]).0
  }

  predicate UsesIds(call: Call) {
    call.query.AskID? || call.query.AskPair?
  }

  predicate UsesPrices(call: Call) {
    call.query.Decode? || (call.query.Encode? && call.query.price >= 0)
  }

  // ---------------------------------------------------------------- what the caches remember

  /** The price recorded for cp when the next price lookup is at `height`: that of the first lookup of
      cp in the stretch of price lookups at this height. */
  function PriceRecord(calls: seq<Call>, height: int, cp: CurrencyPair): Option<int> {
    if calls == [] then None
    else
      var last, earlier := calls[|calls| - 1], calls[..|calls| - 1];
      if !UsesPrices(last) then PriceRecord(earlier, height, cp)
      else if last.height != height then None
      else
        var record := PriceRecord(earlier, height, cp);
        if record.Some? || last.query.cp != cp || DirectPrice(last.pairs, cp).Err? then record
        else Some(DirectPrice(last.pairs, cp).value)
  }

  /** The pair recorded for id when the next id lookup is at `height`: ID always records, FromID only
      what it had to look up. */
  ghost function IdRecord(calls: seq<Call>, height: int, id: nat): Option<CurrencyPair> {
    if calls == [] then None
    else
      var last, earlier := calls[|calls| - 1], calls[..|calls| - 1];
      if !UsesIds(last) then IdRecord(earlier, height, id)
      else if last.height != height then None
      else
        var record := IdRecord(earlier, height, id);
        match last.query
        case AskID(cp) => if cp in last.pairs && last.pairs[cp].id == id then Some(cp) else record
        case AskPair(asked) =>
          if record.Some? || asked != id || DirectFromID(last.pairs, id).Err? then record
          else Some(DirectFromID(last.pairs, id).value)
        case _ => record
  }

  lemma {:induction false} PriceCacheHoldsRecord(calls: seq<Call>, height: int, cp: CurrencyPair)
    ensures var c := CachesAfter(calls).prices;
            PriceRecord(calls, height, cp)
            == if c.height == height && cp in c.entries then Some(c.entries[cp]) else None
    decreases |calls|
  {
    if calls != [] {
      hide DirectFromID, FromIDStep, IDStep, EncodeAgainst, DecodeAgainst;
      PriceCacheHoldsRecord(calls[..|calls| - 1], height, cp);
    }
  }

  lemma {:induction false} IdCacheHoldsRecord(calls: seq<Call>, height: int, id: nat)
    ensures var c := CachesAfter(calls).ids;
            IdRecord(calls, height, id) == if c.height == height && id in c.entries then Some(c.entries[id]) else None
    decreases |calls|
  {
    if calls != [] {
      hide DirectFromID, PriceStep, EncodeAgainst, DecodeAgainst;
      IdCacheHoldsRecord(calls[..|calls| - 1], height, id);
    }
  }

  // ---------------------------------------------------------------- exactly when an answer is right

  /** The bytes decode to the same failure against both prices. */
  predicate Indistinct(bs: bytes, p: int, q: int) {
    GobDecode(bs).Err? || (GobDecode(bs).value + p < 0 && GobDecode(bs).value + q < 0)
  }

  /** What the cache recorded in the current stretch is still what the keeper says (or, for a price that
      cannot be decoded against either, does not matter). */
  ghost predicate StillTrue(history: seq<Call>, call: Call) {
    match call.query
    case AskID(_) => true
    case AskPair(id) =>
      var record := IdRecord(history, call.height, id);
      record.Some? ==> record.value in call.pairs && call.pairs[record.value].id == id
    case Encode(cp, price) =>
      var record := PriceRecord(history, call.height, cp);
      price >= 0 && record.Some? ==> DirectPrice(call.pairs, cp) == Ok(record.value)
    case Decode(cp, bs) =>
      var record, direct := PriceRecord(history, call.height, cp), DirectPrice(call.pairs, cp);
      record.Some? ==> direct.Ok? && (record.value == direct.value || Indistinct(bs, record.value, direct.value))
  }

  /** FromID answers as the keeper would exactly when its cached entry, if any, is still the keeper's. */
  lemma FromIDExact(c: IdCache, height: int, pairs: Pairs, id: nat)
    requires UniqueIds(pairs)
    ensures FromIDStep(c, height, pairs, id).0 == DirectFromID(pairs, id) <==>
            (c.height == height && id in c.entries ==> c.entries[id] in pairs && pairs[c.entries[id]].id == id)
  {
    FromIDUndoesID(pairs);
  }

  /** Encoding tells any two on-chain prices apart. */
  lemma EncodingExact(p: int, direct: Result<int, StrategyError>, price: int)
    ensures EncodeAgainst(Ok(p), price) == EncodeAgainst(direct, price) <==> price < 0 || direct == Ok(p)
  {
    if price >= 0 && direct.Ok? {
      GobRoundTrip(price - p);
      GobRoundTrip(price - direct.value);
    }
  }

  lemma DecodingExact(p: int, direct: Result<int, StrategyError>, bs: bytes)
    requires direct.Err? ==> direct.error == UnknownPair
    ensures DecodeAgainst(Ok(p), bs) == DecodeAgainst(direct, bs) <==>
            direct.Ok? && (p == direct.value || Indistinct(bs, p, direct.value))
  {
  }

  /** Every run of calls of one strategy: answer i is the keeper's if and only if what the caches recorded
      for it in the current stretch is still true. Heights may go anywhere, and the keeper may change
      between any two calls. */
  lemma AnswerExact(calls: seq<Call>, i: nat)
    requires i < |calls| && UniqueIds(calls[i].pairs)
    ensures CachedAnswer(calls, i) == DirectAnswer(calls[i]) <==> StillTrue(calls[..i], calls[i])
  {
    hide IdRecord, PriceRecord, DirectFromID, EncodeAgainst, DecodeAgainst, CachesAfter, Indistinct;
    var call, c := calls[i], CachesAfter(calls[..i]);
    match call.query
    case AskID(_) =>
    case AskPair(id) =>
      IdCacheHoldsRecord(calls[..i], call.height, id);
      FromIDExact(c.ids, call.height, call.pairs, id);
    case Encode(cp, price) =>
      PriceCacheHoldsRecord(calls[..i], call.height, cp);
      if price >= 0 && PriceRecord(calls[..i], call.height, cp).Some? {
        EncodingExact(c.prices.entries[cp], DirectPrice(call.pairs, cp), price);
      } else if price < 0 {
        EncodingExact(0, DirectPrice(call.pairs, cp), price);
        NegativeIsRefused(call);
      }
    case Decode(cp, bs) =>
      PriceCacheHoldsRecord(calls[..i], call.height, cp);
      if PriceRecord(calls[..i], call.height, cp).Some? {
        DecodingExact(c.prices.entries[cp], DirectPrice(call.pairs, cp), bs);
      }
  }

  lemma NegativeIsRefused(call: Call)
    requires call.query.Encode? && call.query.price < 0
    ensures DirectAnswer(call) == BytesAnswer(Err(NegativePrice))
  {
  }

  // ---------------------------------------------------------------- a second round at one height

  /** A vote may be extended once per round, each time after writing the prices of that round's proposal.
      Two rounds of a height whose proposals leave on-chain prices q and then q' for a pair: the second
      extension is encoded against q, so decoding it against q' shifts the price by q' - q, or refuses it
      when that is negative. It gives back the reported price exactly when q and q' are equal. */
  lemma SecondRoundShiftsPrice(cp: CurrencyPair, height: int, first: Pairs, second: Pairs, x: int, price: int)
    requires x >= 0 && price >= 0 && DirectPrice(first, cp).Ok? && DirectPrice(second, cp).Ok?
    ensures var calls := [Call(height, first, Encode(cp, x)), Call(height, second, Encode(cp, price))];
            var answer, q, q' := CachedAnswer(calls, 1), DirectPrice(first, cp).value, DirectPrice(second, cp).value;
            && answer.BytesAnswer? && answer.bs.Ok?
            && (DecodedDelta(q', answer.bs.value) == Ok(price) <==> q == q')
            && DecodedDelta(q', answer.bs.value)
               == if price + q' - q >= 0 then Ok(price + q' - q) else Err(NegativePrice)
  {
    var calls := [Call(height, first, Encode(cp, x)), Call(height, second, Encode(cp, price))];
    assert calls[..1] == [calls[0]] && [calls[0]][..0] == [];
    PriceCacheHoldsRecord(calls[..1], height, cp);
    assert PriceRecord(calls[..1], height, cp) == Some(DirectPrice(first, cp).value);
    GobRoundTrip(price - DirectPrice(first, cp).value);
  }

  /** Such a run: on-chain price 100 in the first round and 200 in the second; the price 300 is encoded
      as a difference of 200 where the keeper's answer is a difference of 100, and decodes to 400. */
  lemma SecondRoundIsStale(cp: CurrencyPair)
    ensures var first, second := map[cp := PairState(0, 1, Some(QuotePrice(100, 0, 5)))],
                                 map[cp := PairState(0, 1, Some(QuotePrice(200, 0, 5)))];
            var calls := [Call(5, first, Encode(cp, 300)), Call(5, second, Encode(cp, 300))];
            && DirectAnswer(calls[1]) == BytesAnswer(Ok(GobEncode(100)))
            && CachedAnswer(calls, 1) == BytesAnswer(Ok(GobEncode(200)))
            && DecodedDelta(200, GobEncode(200)) == Ok(400)
  {
    var first, second := map[cp := PairState(0, 1, Some(QuotePrice(100, 0, 5)))],
                         map[cp := PairState(0, 1, Some(QuotePrice(200, 0, 5)))];
    var calls := [Call(5, first, Encode(cp, 300)), Call(5, second, Encode(cp, 300))];
    assert calls[..1] == [calls[0]] && [calls[0]][..0] == [];
    PriceCacheHoldsRecord(calls[..1], 5, cp);
    assert PriceRecord(calls[..1], 5, cp) == Some(100);
    GobRoundTrip(200);
  }

  // ---------------------------------------------------------------- equal content within a stretch

  ghost predicate SameIds(p: Pairs, q: Pairs) {
    p.Keys == q.Keys && forall cp | cp in p :: p[cp].id == q[cp].id
  }

  ghost predicate SamePrices(p: Pairs, q: Pairs) {
    forall cp :: DirectPrice(p, cp) == DirectPrice(q, cp)
  }

  /** Calls i and j belong to one stretch: every call from i to j that uses the cache is at j's height. */
  ghost predicate Stretch(calls: seq<Call>, uses: Call -> bool, i: nat, j: nat)
    requires i <= j < |calls|
  {
    uses(calls[i]) && forall k :: i <= k <= j && uses(calls[k]) ==> calls[k].height == calls[j].height
  }

  ghost predicate SteadyIds(calls: seq<Call>) {
    forall i, j :: 0 <= i < j < |calls| && Stretch(calls, UsesIds, i, j) ==> SameIds(calls[i].pairs, calls[j].pairs)
  }

  ghost predicate SteadyPrices(calls: seq<Call>) {
    forall i, j :: 0 <= i < j < |calls| && Stretch(calls, UsesPrices, i, j) ==>
      SamePrices(calls[i].pairs, calls[j].pairs)
  }

  /** Within every stretch of a cache the keeper keeps giving the same ids (id cache) or prices (price cache). */
  ghost predicate EqualContent(calls: seq<Call>) {
    (forall i :: 0 <= i < |calls| ==> UniqueIds(calls[i].pairs)) && SteadyIds(calls) && SteadyPrices(calls)
  }

  lemma StretchOfHistory(calls: seq<Call>, uses: Call -> bool, j: nat, i: nat)
    requires j < i < |calls| && uses(calls[..i][j])
    requires forall k :: j <= k < i && uses(calls[..i][k]) ==> calls[..i][k].height == calls[i].height
    ensures Stretch(calls, uses, j, i)
  {
    assert forall k :: 0 <= k < i ==> calls[..i][k] == calls[k];
  }

  /** A recorded price was the keeper's at some call of the stretch. */
  lemma {:induction false} PriceRecordSource(calls: seq<Call>, height: int, cp: CurrencyPair)
    requires PriceRecord(calls, height, cp).Some?
    ensures exists i :: 0 <= i < |calls| && UsesPrices(calls[i])
              && DirectPrice(calls[i].pairs, cp) == Ok(PriceRecord(calls, height, cp).value)
                     && forall k :: i <= k < |calls| && UsesPrices(calls[k]) ==> calls[k].height == height
  {
    var n := |calls| - 1;
    if PriceRecord(calls[..n], height, cp).Some? {
      PriceRecordSource(calls[..n], height, cp);
      var i :| 0 <= i < n && UsesPrices(calls[..n][i])
            && DirectPrice(calls[..n][i].pairs, cp) == Ok(PriceRecord(calls[..n], height, cp).value)
            && forall k :: i <= k < n && UsesPrices(calls[..n][k]) ==> calls[..n][k].height == height;
      assert forall k :: 0 <= k < n ==> calls[..n][k] == calls[k];
    } else {
      assert UsesPrices(calls[n]) && DirectPrice(calls[n].pairs, cp) == Ok(PriceRecord(calls, height, cp).value);
    }
  }

  /** A recorded pair had its id in the keeper at some call of the stretch. */
  lemma {:induction false} IdRecordSource(calls: seq<Call>, height: int, id: nat)
    requires IdRecord(calls, height, id).Some?
    ensures exists i :: 0 <= i < |calls| && UsesIds(calls[i])
                     && IdRecord(calls, height, id).value in calls[i].pairs
                       && calls[i].pairs[IdRecord(calls, height, id).value].id == id
                     && forall k :: i <= k < |calls| && UsesIds(calls[k]) ==> calls[k].height == height
  {
    var n, cp := |calls| - 1, IdRecord(calls, height, id).value;
    if IdRecord(calls[..n], height, id) == Some(cp) {
      IdRecordSource(calls[..n], height, id);
      var i :| 0 <= i < n && UsesIds(calls[..n][i]) && cp in calls[..n][i].pairs && calls[..n][i].pairs[cp].id == id
            && forall k :: i <= k < n && UsesIds(calls[..n][k]) ==> calls[..n][k].height == height;
      assert forall k :: 0 <= k < n ==> calls[..n][k] == calls[k];
    } else {
      assert UsesIds(calls[n]) && cp in calls[n].pairs && calls[n].pairs[cp].id == id;
    }
  }

  lemma RecordedPairStays(calls: seq<Call>, i: nat, id: nat)
    requires SteadyIds(calls) && i < |calls|
    requires IdRecord(calls[..i], calls[i].height, id).Some?
    ensures var cp := IdRecord(calls[..i], calls[i].height, id).value;
            cp in calls[i].pairs && calls[i].pairs[cp].id == id
  {
    hide IdRecord, Stretch, UsesIds;
    var call, history := calls[i], calls[..i];
    IdRecordSource(history, call.height, id);
    var cp := IdRecord(history, call.height, id).value;
    var j :| 0 <= j < i && UsesIds(history[j]) && cp in history[j].pairs && history[j].pairs[cp].id == id
          && forall k :: j <= k < i && UsesIds(history[k]) ==> history[k].height == call.height;
    StretchOfHistory(calls, UsesIds, j, i);
    assert history[j] == calls[j];
    assert SameIds(calls[j].pairs, call.pairs);
  }

  lemma RecordedPriceStays(calls: seq<Call>, i: nat, cp: CurrencyPair)
    requires SteadyPrices(calls) && i < |calls|
    requires PriceRecord(calls[..i], calls[i].height, cp).Some?
    ensures DirectPrice(calls[i].pairs, cp) == Ok(PriceRecord(calls[..i], calls[i].height, cp).value)
  {
    hide PriceRecord, Stretch, UsesPrices, DirectPrice;
    var call, history := calls[i], calls[..i];
    PriceRecordSource(history, call.height, cp);
    var j :| 0 <= j < i && UsesPrices(history[j])
          && DirectPrice(history[j].pairs, cp) == Ok(PriceRecord(history, call.height, cp).value)
          && forall k :: j <= k < i && UsesPrices(history[k]) ==> history[k].height == call.height;
    StretchOfHistory(calls, UsesPrices, j, i);
    assert history[j] == calls[j];
    assert SamePrices(calls[j].pairs, call.pairs);
  }

  /** With equal content within each stretch, every answer of every interleaving is the keeper's. */
  lemma CachesAreTransparent(calls: seq<Call>, i: nat)
    requires EqualContent(calls) && i < |calls|
    ensures CachedAnswer(calls, i) == DirectAnswer(calls[i])
  {
    AnswerExact(calls, i);
    hide CachedAnswer, DirectAnswer, IdRecord, PriceRecord, DirectPrice, Indistinct, SteadyIds, SteadyPrices;
    var call, history := calls[i], calls[..i];
    if call.query.AskPair? && IdRecord(history, call.height, call.query.id).Some? {
      RecordedPairStays(calls, i, call.query.id);
    }
    if UsesPrices(call) && PriceRecord(history, call.height, call.query.cp).Some? {
      RecordedPriceStays(calls, i, call.query.cp);
    }
  }

  /** Heights never decrease, and two calls in a row at one height see the same ids and prices. */
  ghost predicate ForwardAndEqual(calls: seq<Call>) {
    && (forall i :: 0 <= i < |calls| ==> UniqueIds(calls[i].pairs))
    && forall i :: 0 < i < |calls| ==>
         && calls[i - 1].height <= calls[i].height
         && (calls[i - 1].height == calls[i].height ==>
               SameIds(calls[i - 1].pairs, calls[i].pairs) && SamePrices(calls[i - 1].pairs, calls[i].pairs))
  }

  lemma {:induction false} ForwardReaches(calls: seq<Call>, i: nat, j: nat)
    requires ForwardAndEqual(calls) && i <= j < |calls|
    ensures calls[i].height <= calls[j].height
    ensures calls[i].height == calls[j].height ==>
              SameIds(calls[i].pairs, calls[j].pairs) && SamePrices(calls[i].pairs, calls[j].pairs)
    decreases j - i
  {
    if i < j {
      ForwardReaches(calls, i, j - 1);
    }
  }

  /** On a chain that only moves forward it is enough that neighbouring calls of one height agree. */
  lemma ForwardIsEqualContent(calls: seq<Call>)
    requires ForwardAndEqual(calls)
    ensures EqualContent(calls)
  {
    hide SameIds, SamePrices;
    forall i, j | 0 <= i < j < |calls| && (Stretch(calls, UsesIds, i, j) || Stretch(calls, UsesPrices, i, j))
      ensures SameIds(calls[i].pairs, calls[j].pairs) && SamePrices(calls[i].pairs, calls[j].pairs)
    {
      ForwardReaches(calls, i, j);
      ForwardUsed(calls, i, j);
    }
  }

  lemma ForwardUsed(calls: seq<Call>, i: nat, j: nat)
    requires ForwardAndEqual(calls) && i < j < |calls|
    requires Stretch(calls, UsesIds, i, j) || Stretch(calls, UsesPrices, i, j)
    ensures calls[i].height == calls[j].height
  {
  }

  // ---------------------------------------------------------------- the strategies as objects

  class DefaultStrategy {
    var idCache: map<nat, CurrencyPair>
    var previousHeight: int

    ghost function Cache(): IdCache
      reads this
    {
      IdCache(idCache, previousHeight)
    }

    constructor ()
      ensures Cache() == NEW_CACHES.ids
    {
      idCache, previousHeight := map[], 0;
    }

    method Refresh(height: int)
      modifies this
      ensures Cache() == Refreshed(old(Cache()), height)
    {
      if height != previousHeight {
        idCache := map[];
        previousHeight := height;
      }
    }

    method ID(height: int, pairs: Pairs, cp: CurrencyPair) returns (r: Result<nat, StrategyError>)
      modifies this
      ensures (r, Cache()) == IDStep(old(Cache()), height, pairs, cp)
    {
      Refresh(height);
      if cp !in pairs {
        return Err(UnknownPair);
      }
      var id := pairs[cp].id;
      idCache := idCache[id := cp];
      return Ok(id);
    }

    method FromID(height: int, pairs: Pairs, id: nat) returns (r: Result<CurrencyPair, StrategyError>)
      modifies this
      ensures var c := Refreshed(old(Cache()), height);
              if id in c.entries then r == Ok(c.entries[id]) && Cache() == c
              else IsPairOf(pairs, id, r) && Cache() == if r.Ok? then c.(entries := c.entries[id := r.value]) else c
      ensures UniqueIds(pairs) ==> (r, Cache()) == FromIDStep(old(Cache()), height, pairs, id)
    {
      Refresh(height);
      if id in idCache {
        return Ok(idCache[id]);
      }
      r := FindByID(pairs, id);
      if r.Ok? {
        idCache := idCache[id := r.value];
      }
    }
  }

  /** r is a pair with this id, or an error when there is none. */
  ghost predicate IsPairOf(pairs: Pairs, id: nat, r: Result<CurrencyPair, StrategyError>) {
    match r
    case Ok(cp) => cp in pairs && pairs[cp].id == id
    case Err(error) => error == UnknownId && forall cp | cp in pairs :: pairs[cp].id != id
  }

  /** The keeper's id index. */
  method FindByID(pairs: Pairs, id: nat) returns (r: Result<CurrencyPair, StrategyError>)
    ensures IsPairOf(pairs, id, r)
    ensures UniqueIds(pairs) ==> r == DirectFromID(pairs, id)
  {
    var left := pairs.Keys;
    while left != {}
      invariant left <= pairs.Keys
      invariant forall cp | cp in pairs && cp !in left :: pairs[cp].id != id
    {
      var cp :| cp in left;
      left := left - {cp};
      if pairs[cp].id == id {
        return Ok(cp);
      }
    }
    return Err(UnknownId);
  }

  class DeltaStrategy {
    const embedded: DefaultStrategy
    var cache: map<CurrencyPair, int>
    var previousHeight: int

    ghost function Cache(): PriceCache
      reads this
    {
      PriceCache(cache, previousHeight)
    }

    constructor (embedded: DefaultStrategy)
      ensures this.embedded == embedded && Cache() == NEW_CACHES.prices
    {
      this.embedded := embedded;
      cache, previousHeight := map[], 0;
    }

    method GetOnChainPrice(height: int, pairs: Pairs, cp: CurrencyPair) returns (r: Result<int, StrategyError>)
      modifies this
      ensures (r, Cache()) == PriceStep(old(Cache()), height, pairs, cp)
    {
      if height != previousHeight {
        cache := map[];
        previousHeight := height;
      }
      if cp in cache {
        return Ok(cache[cp]);
      }
      r := DirectPrice(pairs, cp);
      if r.Ok? {
        cache := cache[cp := r.value];
      }
    }

    method GetEncodedPrice(height: int, pairs: Pairs, cp: CurrencyPair, price: int)
        returns (r: Result<bytes, StrategyError>)
      modifies this
      ensures price < 0 ==> r == Err(NegativePrice) && Cache() == old(Cache())
      ensures price >= 0 ==>
                var (onChain, c) := PriceStep(old(Cache()), height, pairs, cp);
                r == EncodeAgainst(onChain, price) && Cache() == c
    {
      if price < 0 {
        return Err(NegativePrice);
      }
      var onChain :- GetOnChainPrice(height, pairs, cp);
      return EncodedDelta(onChain, price);
    }

    method GetDecodedPrice(height: int, pairs: Pairs, cp: CurrencyPair, bs: bytes)
        returns (r: Result<int, StrategyError>)
      modifies this
      ensures var (onChain, c) := PriceStep(old(Cache()), height, pairs, cp);
              r == DecodeAgainst(onChain, bs) && Cache() == c
    {
      var onChain :- GetOnChainPrice(height, pairs, cp);
      return DecodedDelta(onChain, bs);
    }
  }
}
