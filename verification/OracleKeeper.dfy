/** The x/oracle store as the price pipeline uses it: currency pairs with ids, nonces and prices, the
    pair counter, and the counter of pairs removed in the current block. */
module OracleKeeper {
  import opened Wrappers
  import opened StakeMedian
  import BigIntGob
  import Varint

  datatype QuotePrice = QuotePrice(price: int, timestamp: int, height: int)

  datatype PairState = PairState(id: nat, nonce: nat, price: Option<QuotePrice>)

  datatype OracleState = OracleState(pairs: map<CurrencyPair, PairState>, nextId: nat, numRemoves: nat, numCPs: nat)

  datatype KeeperError = PairNotFound | PairAlreadyExists | QuotePriceNotExist

  // ---------------------------------------------------------------- state transitions

  function Created(s: OracleState, cp: CurrencyPair): OracleState {
    if cp in s.pairs then s
    else s.(pairs := s.pairs[cp := PairState(s.nextId, 0, None)], nextId := s.nextId + 1, numCPs := s.numCPs + 1)
  }

  /** A uint64 counter wraps below zero. */
  function Decremented(n: nat): nat {
    if n > 0 then n - 1 else Varint.TWO_64 - 1
  }

  function Removed(s: OracleState, cp: CurrencyPair): OracleState {
    if cp !in s.pairs then s
    else s.(pairs := s.pairs - {cp}, numRemoves := s.numRemoves + 1, numCPs := Decremented(s.numCPs))
  }

  /** A price for an unknown pair creates the pair, without counting it. */
  function PriceSet(s: OracleState, cp: CurrencyPair, qp: QuotePrice): OracleState {
    if cp in s.pairs then
      s.(pairs := s.pairs[cp := s.pairs[cp].(nonce := s.pairs[cp].nonce + 1, price := Some(qp))])
    else
      s.(pairs := s.pairs[cp := PairState(s.nextId, 0, Some(qp))], nextId := s.nextId + 1)
  }

  /** The counter counts, and ids identify. */
  ghost predicate Consistent(s: OracleState) {
    && s.numCPs == |s.pairs|
    && (forall cp | cp in s.pairs :: s.pairs[cp].id < s.nextId)
    && forall cp, cp' | cp in s.pairs && cp' in s.pairs && s.pairs[cp].id == s.pairs[cp'].id :: cp == cp'
  }

  class Keeper {
    var currencyPairs: map<CurrencyPair, PairState>
    var nextCurrencyPairID: nat
    var numRemoves: nat
    var numCPs: nat

    function State(): OracleState
      reads this
    {
      OracleState(currencyPairs, nextCurrencyPairID, numRemoves, numCPs)
    }

    constructor ()
      ensures State() == OracleState(map[], 0, 0, 0) && Consistent(State())
    {
      currencyPairs, nextCurrencyPairID, numRemoves, numCPs := map[], 0, 0, 0;
    }

    /** The keeper over a branch of the state, whose writes do not reach this one. */
    method Branch() returns (branch: Keeper)
      ensures fresh(branch) && branch.State() == State()
    {
      branch := new Keeper();
      branch.currencyPairs, branch.nextCurrencyPairID := currencyPairs, nextCurrencyPairID;
      branch.numRemoves, branch.numCPs := numRemoves, numCPs;
    }

    method BeginBlocker()
      modifies this
      ensures State() == old(State()).(numRemoves := 0)
    {
      numRemoves := 0;
    }

    method CreateCurrencyPair(cp: CurrencyPair) returns (r: Result<(), KeeperError>)
      modifies this
      ensures State() == Created(old(State()), cp)
      ensures r == if cp in old(currencyPairs) then Err(PairAlreadyExists) else Ok(())
    {
      if cp in currencyPairs {
        return Err(PairAlreadyExists);
      }
      var id := nextCurrencyPairID;
      nextCurrencyPairID := nextCurrencyPairID + 1;
      currencyPairs := currencyPairs[cp := PairState(id, 0, None)];
      numCPs := numCPs + 1;
      return Ok(());
    }

    method RemoveCurrencyPair(cp: CurrencyPair) returns (r: Result<(), KeeperError>)
      modifies this
      ensures State() == Removed(old(State()), cp)
      ensures r == if cp in old(currencyPairs) then Ok(()) else Err(PairNotFound)
    {
      if cp !in currencyPairs {
        return Err(PairNotFound);
      }
      currencyPairs := currencyPairs - {cp};
      numRemoves := numRemoves + 1;
      numCPs := Decremented(numCPs);
      return Ok(());
    }

    method SetPriceForCurrencyPair(cp: CurrencyPair, qp: QuotePrice)
      modifies this
      ensures State() == PriceSet(old(State()), cp, qp)
    {
      if cp in currencyPairs {
        var cps := currencyPairs[cp];
        currencyPairs := currencyPairs[cp := cps.(nonce := cps.nonce + 1, price := Some(qp))];
      } else {
        currencyPairs := currencyPairs[cp := PairState(nextCurrencyPairID, 0, Some(qp))];
        nextCurrencyPairID := nextCurrencyPairID + 1;
      }
    }

    /** WritePrices of the pre-block handler: only pairs already in the store are written. The conversion
        to the store's integers panics (not ok) at the first price above 256 bits. */
    method WritePrices(prices: map<CurrencyPair, int>, timestamp: int, height: int) returns (ok: bool)
      modifies this
      ensures ok <==> forall cp | cp in old(currencyPairs) && cp in prices :: Fits(prices[cp])
      ensures ok ==> State() == Written(old(State()), prices, timestamp, height)
      ensures !ok ==> exists done :: State() == Written(old(State()), Restricted(prices, done), timestamp, height)
    {
      var all := currencyPairs.Keys;
      var left := all;
      ghost var before := State();
      while left != {}
        invariant left <= all == before.pairs.Keys == currencyPairs.Keys
        invariant forall cp | cp in all - left && cp in prices :: Fits(prices[cp])
        invariant State() == Written(before, Restricted(prices, all - left), timestamp, height)
      {
        ghost var done := all - left;
        var cp :| cp in left;
        left := left - {cp};
        if cp in prices {
          if !Fits(prices[cp]) {
            return false;
          }
          SetPriceForCurrencyPair(cp, QuotePrice(prices[cp], timestamp, height));
        }
        WrittenOneMore(before, prices, done, cp, timestamp, height);
        assert all - left == done + {cp};
      }
      WrittenAll(before, prices, timestamp, height);
      assert all - left == before.pairs.Keys;
      return true;
    }
  }

  /** What sdk.Int can hold. */
  predicate Fits(price: int) {
    -BigIntGob.TWO_256 < price < BigIntGob.TWO_256
  }

  ghost function Restricted(prices: map<CurrencyPair, int>, done: set<CurrencyPair>): map<CurrencyPair, int> {
    map cp | cp in prices && cp in done :: prices[cp]
  }

  lemma WrittenOneMore(s: OracleState, prices: map<CurrencyPair, int>, done: set<CurrencyPair>, cp: CurrencyPair,
                       timestamp: int, height: int)
    requires cp in s.pairs && cp !in done
    ensures var before, after := Written(s, Restricted(prices, done), timestamp, height),
                                 Written(s, Restricted(prices, done + {cp}), timestamp, height);
            after == if cp in prices then PriceSet(before, cp, QuotePrice(prices[cp], timestamp, height)) else before
  {
    var before, after := Written(s, Restricted(prices, done), timestamp, height),
                         Written(s, Restricted(prices, done + {cp}), timestamp, height);
    if cp in prices {
      assert after.pairs == PriceSet(before, cp, QuotePrice(prices[cp], timestamp, height)).pairs;
    } else {
      assert after.pairs == before.pairs;
    }
  }

  lemma WrittenAll(s: OracleState, prices: map<CurrencyPair, int>, timestamp: int, height: int)
    ensures Written(s, Restricted(prices, s.pairs.Keys), timestamp, height) == Written(s, prices, timestamp, height)
  {
    assert Written(s, Restricted(prices, s.pairs.Keys), timestamp, height).pairs
           == Written(s, prices, timestamp, height).pairs;
  }

  ghost function Written(s: OracleState, prices: map<CurrencyPair, int>, timestamp: int, height: int): OracleState {
    s.(pairs := map cp | cp in s.pairs ::
      if cp in prices then PairState(s.pairs[cp].id, s.pairs[cp].nonce + 1,
                                     Some(QuotePrice(prices[cp], timestamp, height)))
      else s.pairs[cp])
  }

  // ---------------------------------------------------------------- runs of one block

  datatype Op =
    | Create(cp: CurrencyPair)
    | Remove(cp: CurrencyPair)
    | Write(prices: map<CurrencyPair, int>, timestamp: int, height: int)

  ghost function Step(s: OracleState, op: Op): OracleState {
    match op
    case Create(cp) => Created(s, cp)
    case Remove(cp) => Removed(s, cp)
    case Write(prices, timestamp, height) => Written(s, prices, timestamp, height)
  }

  ghost function Run(s: OracleState, ops: seq<Op>): OracleState
    decreases |ops|
  {
    if ops == [] then s else Run(Step(s, ops[0]), ops[1..])
  }

  lemma CreatedConsistent(s: OracleState, cp: CurrencyPair)
    requires Consistent(s)
    ensures Consistent(Created(s, cp))
  {
    if cp !in s.pairs {
      assert Created(s, cp).pairs.Keys == s.pairs.Keys + {cp};
      assert |s.pairs.Keys + {cp}| == |s.pairs.Keys| + 1;
    }
  }

  lemma RemovedConsistent(s: OracleState, cp: CurrencyPair)
    requires Consistent(s)
    ensures Consistent(Removed(s, cp))
    ensures cp in s.pairs ==> s.numCPs > 0
  {
    if cp in s.pairs {
      assert s.pairs.Keys == (s.pairs - {cp}).Keys + {cp};
      assert |s.pairs.Keys| == |(s.pairs - {cp}).Keys| + 1;
    }
  }

  lemma WrittenConsistent(s: OracleState, prices: map<CurrencyPair, int>, timestamp: int, height: int)
    requires Consistent(s)
    ensures Consistent(Written(s, prices, timestamp, height))
  {
    var t := Written(s, prices, timestamp, height);
    assert t.pairs.Keys == s.pairs.Keys;
    assert |t.pairs.Keys| == |s.pairs.Keys|;
  }

  lemma StepConsistent(s: OracleState, op: Op)
    requires Consistent(s)
    ensures Consistent(Step(s, op))
    ensures Step(s, op).numCPs + Step(s, op).numRemoves >= s.numCPs + s.numRemoves
  {
    hide Consistent;
    match op
    case Create(cp) => CreatedConsistent(s, cp);
    case Remove(cp) => RemovedConsistent(s, cp);
    case Write(prices, timestamp, height) => WrittenConsistent(s, prices, timestamp, height);
  }

  /** Over every block: the current plus the removed pairs never fall below the pairs at its start. */
  lemma {:induction false} BlockBoundsOldPairs(s: OracleState, ops: seq<Op>)
    requires Consistent(s)
    ensures Consistent(Run(s, ops))
    ensures Run(s, ops).numCPs + Run(s, ops).numRemoves >= s.numCPs + s.numRemoves
    decreases |ops|
  {
    hide Consistent, Step;
    if ops != [] {
      StepConsistent(s, ops[0]);
      BlockBoundsOldPairs(Step(s, ops[0]), ops[1..]);
    }
  }

  /** Ids are never given twice: a pair that after the block has an id from before it, already had it then,
      and unless the block wrote prices its record is untouched. */
  lemma {:induction false} BlockKeepsOldIds(s: OracleState, ops: seq<Op>, bound: nat, cp: CurrencyPair)
    requires bound <= s.nextId && cp in Run(s, ops).pairs && Run(s, ops).pairs[cp].id < bound
    ensures cp in s.pairs && s.pairs[cp].id == Run(s, ops).pairs[cp].id
    ensures (forall i :: 0 <= i < |ops| ==> !ops[i].Write?) ==> s.pairs[cp] == Run(s, ops).pairs[cp]
    decreases |ops|
  {
    if ops != [] {
      BlockKeepsOldIds(Step(s, ops[0]), ops[1..], bound, cp);
    }
  }

  /** Setting a price keeps the pair counter right exactly when the pair already exists. */
  lemma PriceSetCounts(s: OracleState, cp: CurrencyPair, qp: QuotePrice)
    requires Consistent(s)
    ensures Consistent(PriceSet(s, cp, qp)) <==> cp in s.pairs
  {
    if cp in s.pairs {
      KnownPairPriced(s, cp, qp);
    } else {
      var t := PriceSet(s, cp, qp);
      assert t.pairs.Keys == s.pairs.Keys + {cp};
      assert |t.pairs.Keys| == |s.pairs.Keys| + 1;
    }
  }

  lemma KnownPairPriced(s: OracleState, cp: CurrencyPair, qp: QuotePrice)
    requires Consistent(s) && cp in s.pairs
    ensures Consistent(PriceSet(s, cp, qp))
  {
    var t := PriceSet(s, cp, qp);
    assert t.pairs.Keys == s.pairs.Keys;
    assert |t.pairs.Keys| == |s.pairs.Keys|;
    assert forall other | other in t.pairs :: t.pairs[other].id == s.pairs[other].id;
  }
}
