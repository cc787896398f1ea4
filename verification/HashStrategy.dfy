/** The strategy whose ids are hashes of the pairs: it embeds the cache of the default strategy, and a
    miss of FromID fills the cache with every pair of the store. */
module HashStrategy {
  import opened Wrappers
  import opened StakeMedian
  import opened OracleKeeper
  import opened Strategies

  type Hash = CurrencyPair -> nat

  ghost predicate CollisionFree(pairs: Pairs, hash: Hash) {
    forall cp, cp' | cp in pairs && cp' in pairs && hash(cp) == hash(cp') :: cp == cp'
  }

  // ---------------------------------------------------------------- uncached answers

  function HashedID(pairs: Pairs, hash: Hash, cp: CurrencyPair): Result<nat, StrategyError> {
    if cp in pairs then Ok(hash(cp)) else Err(UnknownPair)
  }

  ghost function HashedFromID(pairs: Pairs, hash: Hash, id: nat): Result<CurrencyPair, StrategyError> {
    if exists cp :: cp in pairs && hash(cp) == id then
      var cp :| cp in pairs && hash(cp) == id;
      Ok(cp)
    else Err(UnknownId)
  }

  /** FromID undoes ID on every pair of the store exactly when no two of them share a hash. */
  lemma HashedFromIDUndoesID(pairs: Pairs, hash: Hash)
    ensures CollisionFree(pairs, hash) <==> forall cp | cp in pairs :: HashedFromID(pairs, hash, hash(cp)) == Ok(cp)
  {
    if forall cp | cp in pairs :: HashedFromID(pairs, hash, hash(cp)) == Ok(cp) {
      forall cp, cp' | cp in pairs && cp' in pairs && hash(cp) == hash(cp')
        ensures cp == cp'
      {
        assert HashedFromID(pairs, hash, hash(cp)) == Ok(cp) && HashedFromID(pairs, hash, hash(cp')) == Ok(cp');
      }
    }
  }

  // ---------------------------------------------------------------- cached answers

  function HashIDStep(c: IdCache, height: int, pairs: Pairs, hash: Hash, cp: CurrencyPair)
    : (Result<nat, StrategyError>, IdCache)
  {
    var c := Refreshed(c, height);
    if cp !in pairs then (Err(UnknownPair), c) else (Ok(hash(cp)), c.(entries := c.entries[hash(cp) := cp]))
  }

  /** Every pair of the store under its hash. */
  ghost function Index(pairs: Pairs, hash: Hash): map<nat, CurrencyPair>
    requires CollisionFree(pairs, hash)
  {
    map cp | cp in pairs :: hash(cp) := cp
  }

  ghost function HashFromIDStep(c: IdCache, height: int, pairs: Pairs, hash: Hash, id: nat)
    : (Result<CurrencyPair, StrategyError>, IdCache)
    requires CollisionFree(pairs, hash)
  {
    var c := Refreshed(c, height);
    if id in c.entries then (Ok(c.entries[id]), c)
    else
      var filled := c.(entries := c.entries + Index(pairs, hash));
      (if id in filled.entries then Ok(filled.entries[id]) else Err(UnknownId), filled)
  }

  class HashStrategy {
    const embedded: DefaultStrategy
    const hash: Hash

    ghost function Cache(): IdCache
      reads embedded
    {
      embedded.Cache()
    }

    constructor (embedded: DefaultStrategy, hash: Hash)
      ensures this.embedded == embedded && this.hash == hash
    {
      this.embedded, this.hash := embedded, hash;
    }

    /** The stored id only witnesses that the pair exists. */
    method ID(height: int, pairs: Pairs, cp: CurrencyPair) returns (r: Result<nat, StrategyError>)
      modifies embedded
      ensures (r, Cache()) == HashIDStep(old(Cache()), height, pairs, hash, cp)
    {
      embedded.Refresh(height);
      if cp !in pairs {
        return Err(UnknownPair);
      }
      embedded.idCache := embedded.idCache[hash(cp) := cp];
      return Ok(hash(cp));
    }

    /** The loop over all pairs of the store. */
    method Fill(pairs: Pairs)
      modifies embedded`idCache
      ensures Filled(old(embedded.idCache), embedded.idCache, pairs, hash)
    {
      var left := pairs.Keys;
      ghost var before, seen: Pairs := embedded.idCache, map[];
      while left != {}
        invariant left <= pairs.Keys && seen == (map cp | cp in pairs && cp !in left :: pairs[cp])
        invariant Filled(before, embedded.idCache, seen, hash)
      {
        var cp :| cp in left;
        left := left - {cp};
        FilledGrows(before, embedded.idCache, seen, hash, cp, pairs[cp]);
        embedded.idCache := embedded.idCache[hash(cp) := cp];
        seen := seen[cp := pairs[cp]];
      }
      assert seen == pairs;
    }

    /** Of several pairs with one hash the last one visited is cached. */
    method FromID(height: int, pairs: Pairs, id: nat) returns (r: Result<CurrencyPair, StrategyError>)
      modifies embedded
      ensures var c := Refreshed(old(Cache()), height);
              if id in c.entries then r == Ok(c.entries[id]) && Cache() == c
              else
                && Filled(c.entries, embedded.idCache, pairs, hash) && embedded.previousHeight == height
                && r == if id in embedded.idCache then Ok(embedded.idCache[id]) else Err(UnknownId)
      ensures CollisionFree(pairs, hash) ==> (r, Cache()) == HashFromIDStep(old(Cache()), height, pairs, hash, id)
    {
      embedded.Refresh(height);
      if id in embedded.idCache {
        return Ok(embedded.idCache[id]);
      }
      ghost var before := embedded.idCache;
      Fill(pairs);
      if CollisionFree(pairs, hash) {
        FilledIsIndexed(before, embedded.idCache, pairs, hash);
      }
      if id !in embedded.idCache {
        return Err(UnknownId);
      }
      return Ok(embedded.idCache[id]);
    }
  }

  /** After the fill every hash of a stored pair leads to such a pair, and nothing else changed. */
  ghost predicate Filled(before: map<nat, CurrencyPair>, after: map<nat, CurrencyPair>, pairs: Pairs, hash: Hash) {
    && (forall cp | cp in pairs :: hash(cp) in after)
    && (forall id | id in before :: id in after)
    && forall id | id in after ::
         || (after[id] in pairs && hash(after[id]) == id)
         || (id in before && after[id] == before[id] && forall cp | cp in pairs :: hash(cp) != id)
  }

  lemma FilledGrows(before: map<nat, CurrencyPair>, after: map<nat, CurrencyPair>, seen: Pairs, hash: Hash,
                    cp: CurrencyPair, s: PairState)
    requires Filled(before, after, seen, hash)
    ensures Filled(before, after[hash(cp) := cp], seen[cp := s], hash)
  {
  }

  lemma FilledIsIndexed(before: map<nat, CurrencyPair>, after: map<nat, CurrencyPair>, pairs: Pairs, hash: Hash)
    requires CollisionFree(pairs, hash) && Filled(before, after, pairs, hash)
    ensures after == before + Index(pairs, hash)
  {
    var want := before + Index(pairs, hash);
    forall id
      ensures id in after <==> id in want
      ensures id in after ==> after[id] == want[id]
    {
      if cp :| cp in pairs && hash(cp) == id {
        assert after[id] == cp;
      }
    }
  }

  // ---------------------------------------------------------------- runs

  /** A call of ID or FromID, with the store it sees. */
  datatype HashQuery = AskHash(cp: CurrencyPair) | AskPairOf(id: nat)

  datatype HashCall = HashCall(height: int, pairs: Pairs, query: HashQuery)

  datatype HashAnswer = HashIs(id: Result<nat, StrategyError>) | PairIs(pair: Result<CurrencyPair, StrategyError>)

  ghost function Uncached(hash: Hash, call: HashCall): HashAnswer {
    match call.query
    case AskHash(cp) => HashIs(HashedID(call.pairs, hash, cp))
    case AskPairOf(id) => PairIs(HashedFromID(call.pairs, hash, id))
  }

  ghost function HashStep(c: IdCache, hash: Hash, call: HashCall): (HashAnswer, IdCache)
    requires CollisionFree(call.pairs, hash)
  {
    match call.query
    case AskHash(cp) =>
      var (r, c') := HashIDStep(c, call.height, call.pairs, hash, cp);
      (HashIs(r), c')
    case AskPairOf(id) =>
      var (r, c') := HashFromIDStep(c, call.height, call.pairs, hash, id);
      (PairIs(r), c')
  }

  ghost predicate NoCollisions(calls: seq<HashCall>, hash: Hash) {
    forall i :: 0 <= i < |calls| ==> CollisionFree(calls[i].pairs, hash)
  }

  /** The cache of a newly created strategy after the calls. */
  ghost function HashCacheAfter(calls: seq<HashCall>, hash: Hash): IdCache
    requires NoCollisions(calls, hash)
  {
    if calls == [] then NEW_CACHES.ids
    else HashStep(HashCacheAfter(calls[..|calls| - 1], hash), hash, calls[|calls| - 1]).1
  }

  ghost function HashCachedAnswer(calls: seq<HashCall>, hash: Hash, i: nat): HashAnswer
    requires NoCollisions(calls, hash) && i < |calls|
  {
    HashStep(HashCacheAfter(calls[..i], hash), hash, calls[i]).0
  }

  /** The pair recorded for id when the next call is at `height`: ID records its own hash, and a FromID
      that misses records every pair of the store. */
  ghost function HashRecord(calls: seq<HashCall>, hash: Hash, height: int, id: nat): Option<CurrencyPair> {
    if calls == [] then None
    else
      var last, earlier := calls[|calls| - 1], calls[..|calls| - 1];
      if last.height != height then None
      else
        var record := HashRecord(earlier, hash, height, id);
        match last.query
        case AskHash(cp) => if cp in last.pairs && hash(cp) == id then Some(cp) else record
        case AskPairOf(asked) =>
          if HashRecord(earlier, hash, height, asked).Some? || HashedFromID(last.pairs, hash, id).Err? then record
          else Some(HashedFromID(last.pairs, hash, id).value)
  }

  lemma IndexIsHashedFromID(pairs: Pairs, hash: Hash, id: nat)
    requires CollisionFree(pairs, hash)
    ensures HashedFromID(pairs, hash, id)
         == if id in Index(pairs, hash) then Ok(Index(pairs, hash)[id]) else Err(UnknownId)
  {
    HashedFromIDUndoesID(pairs, hash);
  }

  lemma {:induction false} HashCacheHoldsRecord(calls: seq<HashCall>, hash: Hash, height: int, id: nat)
    requires NoCollisions(calls, hash)
    ensures var c := HashCacheAfter(calls, hash);
            HashRecord(calls, hash, height, id)
            == if c.height == height && id in c.entries then Some(c.entries[id]) else None
    decreases |calls|
  {
    if calls != [] {
      hide HashedFromID, Index, CollisionFree;
      var last, earlier := calls[|calls| - 1], calls[..|calls| - 1];
      HashCacheHoldsRecord(earlier, hash, height, id);
      if last.query.AskPairOf? {
        HashCacheHoldsRecord(earlier, hash, height, last.query.id);
        IndexIsHashedFromID(last.pairs, hash, id);
      }
    }
  }

  /** Every run without collisions: answer i is the store's if and only if the pair recorded for the asked
      hash in the current stretch is still in the store. */
  lemma HashAnswerExact(calls: seq<HashCall>, hash: Hash, i: nat)
    requires NoCollisions(calls, hash) && i < |calls|
    ensures HashCachedAnswer(calls, hash, i) == Uncached(hash, calls[i]) <==>
            (calls[i].query.AskPairOf? ==>
               var record := HashRecord(calls[..i], hash, calls[i].height, calls[i].query.id);
               record.Some? ==> record.value in calls[i].pairs && hash(record.value) == calls[i].query.id)
  {
    hide HashRecord, HashCacheAfter;
    var call := calls[i];
    if call.query.AskPairOf? {
      HashCacheHoldsRecord(calls[..i], hash, call.height, call.query.id);
      HashedFromIDUndoesID(call.pairs, hash);
      IndexIsHashedFromID(call.pairs, hash, call.query.id);
    }
  }

  lemma {:induction false} HashRecordSource(calls: seq<HashCall>, hash: Hash, height: int, id: nat)
    requires HashRecord(calls, hash, height, id).Some?
    ensures exists i :: 0 <= i < |calls| && HashRecord(calls, hash, height, id).value in calls[i].pairs
                     && forall k :: i <= k < |calls| ==> calls[k].height == height
    ensures hash(HashRecord(calls, hash, height, id).value) == id
  {
    var n, cp := |calls| - 1, HashRecord(calls, hash, height, id).value;
    if HashRecord(calls[..n], hash, height, id) == Some(cp) {
      HashRecordSource(calls[..n], hash, height, id);
      var i :| 0 <= i < n && cp in calls[..n][i].pairs && forall k :: i <= k < n ==> calls[..n][k].height == height;
      assert forall k :: 0 <= k < n ==> calls[..n][k] == calls[k];
    } else {
      assert cp in calls[n].pairs;
    }
  }

  /** When the store keeps its pairs within each stretch of equal heights, every answer of every
      interleaving of ID and FromID is the store's. */
  lemma HashCacheIsTransparent(calls: seq<HashCall>, hash: Hash, i: nat)
    requires NoCollisions(calls, hash) && i < |calls|
    requires forall j :: 0 <= j < i && (forall k :: j <= k <= i ==> calls[k].height == calls[i].height) ==>
               calls[j].pairs.Keys == calls[i].pairs.Keys
    ensures HashCachedAnswer(calls, hash, i) == Uncached(hash, calls[i])
  {
    HashAnswerExact(calls, hash, i);
    hide HashRecord, HashCachedAnswer, Uncached;
    var call := calls[i];
    if call.query.AskPairOf? && HashRecord(calls[..i], hash, call.height, call.query.id).Some? {
      HashRecordSource(calls[..i], hash, call.height, call.query.id);
      var cp := HashRecord(calls[..i], hash, call.height, call.query.id).value;
      var j :| 0 <= j < i && cp in calls[..i][j].pairs
            && forall k :: j <= k < i ==> calls[..i][k].height == call.height;
      assert forall k :: 0 <= k < i ==> calls[..i][k] == calls[k];
      assert cp in calls[j].pairs.Keys;
    }
  }
}
