/** What the pre-block step never lets through. */
module PreBlockLaws {
  import opened Wrappers
  import opened StakeMedian
  import opened OracleKeeper
  import opened ExtendedCommits
  import opened PreBlock
  import Proposals

  /** 2^256. */
  const LIMIT: int := 0x1_0000_0000_0000_0000_0000_0000_0000_0000_0000_0000_0000_0000_0000_0000_0000_0000

  /** When the pre-block step succeeds, the proposal held a decodable commit, and no vote in it, whoever cast
      it, holds a price of more than 33 bytes. */
  lemma LongPricesStopTheBlock(h: Proposals.Config, ctx: Context, d: Decoder, store: ValidatorStore, threshold: int,
                               quo: Division, txs: seq<Tx>, stored: set<CurrencyPair>)
    requires Injective(d) && VoteExtensionsEnabled(ctx) && Succeeds(h, ctx, d, store, threshold, quo, txs, stored)
    ensures |txs| > 0 && h.decodeCommit(txs[0]).Ok?
    ensures forall i :: 0 <= i < |h.decodeCommit(txs[0]).value.votes| ==>
              var ve := h.decodeExtension(h.decodeCommit(txs[0]).value.votes[i].extension.Contents());
              ve.Ok? && forall id | id in ve.value :: |ve.value[id]| <= 33
  {
    var votes := h.decodeCommit(txs[0]).value.votes;
    assert |OracleVotes(h, txs)| == |votes|;
    forall i | 0 <= i < |votes|
      ensures h.decodeExtension(votes[i].extension.Contents()).Ok?
      ensures Short(h.decodeExtension(votes[i].extension.Contents()).value)
    {
      assert Short(OracleVotes(h, txs)[i].prices);
    }
  }

  /** Of several votes of one validator the last one with prices counts, and only that. */
  lemma {:induction false} LastVoteCounts(d: Decoder, votes: seq<Vote>, i: nat)
    requires Injective(d) && i < |votes| && votes[i].prices != map[]
    requires forall j :: i < j < |votes| && votes[j].consAddress == votes[i].consAddress ==> votes[j].prices == map[]
    ensures votes[i].consAddress in ReportsOf(d, votes)
    ensures ReportsOf(d, votes)[votes[i].consAddress] == DecodedPrices(d, votes[i].prices)
    decreases |votes|
  {
    hide DecodedPrices, Injective;
    var n := |votes| - 1;
    if i < n {
      assert forall j :: 0 <= j < n ==> votes[..n][j] == votes[j];
      LastVoteCounts(d, votes[..n], i);
    }
  }

  /** Written prices lie strictly within 2^256 of zero, and exactly those can be written. */
  lemma WrittenPricesFit(was: map<CurrencyPair, PairState>, now: map<CurrencyPair, PairState>, reports: Reports,
                         store: ValidatorStore, threshold: int, quo: Division, timestamp: int, height: int,
                         cp: CurrencyPair)
    requires StoresMedians(was, now, reports, store, threshold, quo, timestamp, height) && cp in now
    ensures now[cp] != was[cp] ==> now[cp].price.Some? && -LIMIT < now[cp].price.value.price < LIMIT
    ensures forall price :: Fits(price) <==> -LIMIT < price < LIMIT
  {
    hide Priced, IsStakeMedian, BallotOf;
  }
}
