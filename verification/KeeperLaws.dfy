/** What the store's counters and records mean over a run of operations. */
module KeeperLaws {
  import opened Wrappers
  import opened StakeMedian
  import opened OracleKeeper

  /** Over every block: the pair counter is the number of pairs, and pairs plus removals grow by exactly one
      for every pair created, that is for every id given out. */
  lemma {:induction false} BlockCounts(s: OracleState, ops: seq<Op>)
    requires Consistent(s)
    ensures var t := Run(s, ops);
            && t.numCPs == |t.pairs|
            && t.numCPs + t.numRemoves - t.nextId == s.numCPs + s.numRemoves - s.nextId
    decreases |ops|
  {
    hide Consistent, Step;
    ConsistentCounts(s);
    if ops != [] {
      StepConsistent(s, ops[0]);
      StepCounts(s, ops[0]);
      BlockCounts(Step(s, ops[0]), ops[1..]);
    }
  }

  lemma ConsistentCounts(s: OracleState)
    requires Consistent(s)
    ensures s.numCPs == |s.pairs|
  {
  }

  lemma StepCounts(s: OracleState, op: Op)
    requires Consistent(s)
    ensures var t := Step(s, op);
            t.numCPs + t.numRemoves - t.nextId == s.numCPs + s.numRemoves - s.nextId
  {
    if op.Remove? {
      RemovedConsistent(s, op.cp);
    }
  }

  /** A new pair starts with the next id, nonce 0 and no price; creating it again changes nothing. */
  lemma NewPairIsBlank(s: OracleState, cp: CurrencyPair)
    requires Consistent(s) && cp !in s.pairs
    ensures var t := Created(s, cp);
            && cp in t.pairs && t.pairs[cp] == PairState(s.nextId, 0, None)
            && (forall other | other in s.pairs :: other in t.pairs && t.pairs[other] == s.pairs[other])
            && (forall other | other in s.pairs :: s.pairs[other].id != t.pairs[cp].id)
            && Created(t, cp) == t
  {
  }

  /** A price for an unknown pair creates it, with the next id and nonce 0, and is stored; the pair counter
      stays behind. */
  lemma PriceCreatesPair(s: OracleState, cp: CurrencyPair, qp: QuotePrice)
    requires Consistent(s) && cp !in s.pairs
    ensures var t := PriceSet(s, cp, qp);
            && cp in t.pairs && t.pairs[cp] == PairState(s.nextId, 0, Some(qp)) && t.nextId == s.nextId + 1
            && (forall other | other in s.pairs :: other in t.pairs && t.pairs[other] == s.pairs[other])
            && t.numCPs == |t.pairs| - 1
  {
    assert PriceSet(s, cp, qp).pairs.Keys == s.pairs.Keys + {cp};
    assert |s.pairs.Keys + {cp}| == |s.pairs.Keys| + 1;
  }

  /** How many of the operations write a price for cp. */
  function WritesOf(ops: seq<Op>, cp: CurrencyPair): nat {
    if ops == [] then 0
    else (if ops[0].Write? && cp in ops[0].prices then 1 else 0) + WritesOf(ops[1..], cp)
  }

  /** The price the last of them wrote. */
  function LastWrite(ops: seq<Op>, cp: CurrencyPair): Option<QuotePrice> {
    if ops == [] then None
    else
      var rest := LastWrite(ops[1..], cp);
      if rest.Some? then rest
      else if ops[0].Write? && cp in ops[0].prices then
        Some(QuotePrice(ops[0].prices[cp], ops[0].timestamp, ops[0].height))
      else None
  }

  predicate LeavesAlone(ops: seq<Op>, cp: CurrencyPair) {
    forall i :: 0 <= i < |ops| ==> ops[i] != Remove(cp)
  }

  /** While a pair is not removed its id stays, its nonce counts the prices written for it, and its price is
      the last one written, with the time and height of that write. */
  lemma {:induction false} NonceCountsWrites(s: OracleState, ops: seq<Op>, cp: CurrencyPair)
    requires cp in s.pairs && LeavesAlone(ops, cp)
    ensures var t := Run(s, ops);
            && cp in t.pairs && t.pairs[cp].id == s.pairs[cp].id
            && t.pairs[cp].nonce == s.pairs[cp].nonce + WritesOf(ops, cp)
            && t.pairs[cp].price == if LastWrite(ops, cp).Some? then LastWrite(ops, cp) else s.pairs[cp].price
    decreases |ops|
  {
    if ops != [] {
      assert forall i :: 0 <= i < |ops[1..]| ==> ops[1..][i] == ops[i + 1];
      assert ops[0] != Remove(cp);
      NonceCountsWrites(Step(s, ops[0]), ops[1..], cp);
    }
  }

  /** A pair outside the store stays outside however many prices are written: only creation adds it. */
  lemma {:induction false} OnlyCreationAdds(s: OracleState, ops: seq<Op>, cp: CurrencyPair)
    requires cp !in s.pairs && forall i :: 0 <= i < |ops| ==> ops[i] != Create(cp)
    ensures cp !in Run(s, ops).pairs
    decreases |ops|
  {
    if ops != [] {
      assert forall i :: 0 <= i < |ops[1..]| ==> ops[1..][i] == ops[i + 1];
      assert ops[0] != Create(cp);
      OnlyCreationAdds(Step(s, ops[0]), ops[1..], cp);
    }
  }
}
