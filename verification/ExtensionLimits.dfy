/** What an accepted vote extension can hold at most. */
module ExtensionLimits {
  import opened Wrappers
  import opened Varint
  import opened FiniteSums
  import opened OracleKeeper
  import opened VoteExtensionWire
  import opened ExtensionCodec
  import opened VoteExtensions
  import ExtendedCommits
  import ParserLaws
  import Proposals

  lemma {:induction false} SumAtMost(keys: set<uint64>, weights: map<uint64, nat>, bound: nat)
    requires keys <= weights.Keys && forall k | k in keys :: weights[k] <= bound
    ensures Sum(keys, weights) <= bound * |keys|
    decreases |keys|
  {
    if keys != {} {
      var k :| k in keys;
      SumRemove(keys, weights, k);
      SumAtMost(keys - {k}, weights, bound);
      OneMore(bound, |keys - {k}|, |keys|);
    }
  }

  lemma OneMore(bound: nat, m: nat, n: nat)
    requires n == m + 1
    ensures bound * n == bound * m + bound
  {
  }

  /** An entry whose value has at most 33 bytes takes at most 48. */
  lemma EntryAtMost(k: uint64, v: bytes)
    requires |v| <= 33
    ensures |Entry(k, v)| <= 48
  {
    ParserLaws.VarintLength(k);
    assert |v| < 128 ==> VarintBytes(|v|) == [|v|];
    assert |ValueField(v)| <= 35;
    assert |EntryBody(k, v)| <= 46;
    assert VarintBytes(|EntryBody(k, v)|) == [|EntryBody(k, v)|];
  }

  /** Within the limits the marshalled extension takes at most 48 bytes for every pair allowed. */
  lemma AllowedIsSmall(ve: VoteExtensionWire.Prices, max: nat)
    requires Proposals.PricesAllowed(ve, max)
    ensures |ve| <= max && (forall id | id in ve :: |ve[id]| <= 33) && Sum(ve.Keys, Sizes(ve)) <= 48 * max
  {
    forall id | id in ve
      ensures Sizes(ve)[id] <= 48
    {
      EntryAtMost(id, ve[id]);
    }
    SumAtMost(ve.Keys, Sizes(ve), 48);
    assert |ve.Keys| == |ve|;
  }

  /** Verification never lets an extension through that has more entries than the store has pairs or does not
      fit into 48 bytes for each of them. */
  lemma VerifiedIsSmall(h: Proposals.Config, s: OracleState, extension: bytes)
    requires Consistent(s) && h.maxNumCP == Ok(MaxNumCP(ModeOther, s))
    requires VerifyAccepts(h, extension) && extension != []
    ensures var ve := h.decodeExtension(extension);
            && ve.Ok? && |ve.value| <= |s.pairs| && Sum(ve.value.Keys, Sizes(ve.value)) <= 48 * |s.pairs|
  {
    AllowedIsSmall(h.decodeExtension(extension).value, |s.pairs|);
  }

  /** A vote with more entries than the current and the just removed pairs together is struck from a
      proposal. */
  lemma OverfullIsPruned(h: Proposals.Config, s: OracleState, mode: ExecMode, vote: ExtendedCommits.ExtendedVote)
    requires mode == ModePrepareProposal || mode == ModeProcessProposal
    requires h.maxNumCP == Ok(MaxNumCP(mode, s)) && h.decodeExtension(vote.extension.Contents()).Ok?
    requires |h.decodeExtension(vote.extension.Contents()).value| > s.numCPs + s.numRemoves
             && vote.extension != ExtendedCommits.Nil
    ensures Proposals.PrunedVote(h, vote) == vote.(flag := ExtendedCommits.FlagAbsent, extension := ExtendedCommits.Nil,
                                                   signature := ExtendedCommits.Nil)
  {
  }
}
