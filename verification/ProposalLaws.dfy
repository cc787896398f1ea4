/** When pruning lets a commit through, exactly when a proposal is built, and what the wrapped handlers see. */
module ProposalLaws {
  import opened Wrappers
  import opened ExtendedCommits
  import opened CommitLaws
  import opened Proposals

  // ---------------------------------------------------------------- usable votes

  /** With lawful codecs and a readable pair counter a vote is usable exactly when its extension decodes and is
      within the limits; the shortcut for votes without data only matters when the counter cannot be read. */
  lemma UsableExactly(h: Config, vote: ExtendedVote)
    requires Lawful(h)
    ensures h.maxNumCP.Ok? ==>
              (VoteUsable(h, vote) <==>
                var ve := h.decodeExtension(vote.extension.Contents());
                && ve.Ok? && |ve.value| <= h.maxNumCP.value
                && forall id | id in ve.value :: |ve.value[id]| <= 33)
    ensures h.maxNumCP.Err? ==> (VoteUsable(h, vote) <==> vote.extension == Nil && vote.signature == Nil)
  {
  }

  /** The power of the commit votes that need no pruning. */
  ghost function UsablePower(h: Config, votes: seq<ExtendedVote>): int {
    if votes == [] then 0
    else
      var last := votes[|votes| - 1];
      UsablePower(h, votes[..|votes| - 1])
      + if last.flag == FlagCommit && VoteUsable(h, last) then last.validator.power else 0
  }

  lemma {:induction false} PrunedPowers(h: Config, ec: ExtendedCommit)
    ensures CommitPower(Pruned(h, ec).votes) == UsablePower(h, ec.votes)
    ensures TotalPower(Pruned(h, ec).votes) == TotalPower(ec.votes)
    decreases |ec.votes|
  {
    hide VoteUsable;
    if ec.votes != [] {
      var n := |ec.votes| - 1;
      PrunedPowers(h, ec.(votes := ec.votes[..n]));
      assert Pruned(h, ec).votes[..n] == Pruned(h, ec.(votes := ec.votes[..n])).votes;
    }
  }

  lemma PrunedOrder(h: Config, ec: ExtendedCommit)
    ensures DescendingPower(Pruned(h, ec).votes) <==> DescendingPower(ec.votes)
    ensures DistinctAddresses(Pruned(h, ec).votes) <==> DistinctAddresses(ec.votes)
  {
    hide VoteUsable, NotAfter;
    var pruned := Pruned(h, ec).votes;
    assert |pruned| == |ec.votes|;
    assert forall i :: 0 <= i < |pruned| ==> pruned[i].validator == ec.votes[i].validator;
  }

  /** Pruning an accepted commit passes exactly when the commit votes left usable still hold more than two
      thirds of the power: votes that cannot be read never stop the others. */
  lemma PruningPassesExactly(h: Config, ctx: Context, ec: ExtendedCommit)
    requires VoteExtensionsEnabled(ctx) && Accepted(ctx, h.check, ec)
    ensures Accepted(ctx, h.check, Pruned(h, ec)) <==> UsablePower(h, ec.votes) >= TotalPower(ec.votes) * 2 / 3 + 1
    ensures Accepted(ctx, h.check, Pruned(h, ec)) <==> 3 * UsablePower(h, ec.votes) > 2 * TotalPower(ec.votes)
  {
    hide VoteUsable, DescendingPower, DistinctAddresses, Accepted, TotalPower, CommitPower, UsablePower;
    var pruned := Pruned(h, ec);
    AcceptedExactly(ctx, h.check, ec);
    AcceptedExactly(ctx, h.check, pruned);
    PrunedPowers(h, ec);
    PrunedOrder(h, ec);
    forall i | 0 <= i < |pruned.votes|
      ensures SameOrStruck(pruned.votes[i], ctx.lastCommit.votes[i]) && SignedOrEmpty(ctx, h.check, pruned.votes[i])
    {
      assert SameOrStruck(ec.votes[i], ctx.lastCommit.votes[i]) && SignedOrEmpty(ctx, h.check, ec.votes[i]);
    }
  }

  // ---------------------------------------------------------------- when a proposal is built

  /** From an accepted commit a proposal is built exactly when the usable commit votes hold more than two
      thirds of the power, the pruned commit can be encoded in less than the block limit, and the wrapped
      handler builds a list in what that leaves. */
  lemma ProposalExactly(h: Config, ctx: Context, ec: ExtendedCommit, txs: seq<Tx>, maxTxBytes: int)
    requires VoteExtensionsEnabled(ctx) && Accepted(ctx, h.check, ec)
    ensures Proposal(h, ctx, ec, txs, maxTxBytes).Some? <==>
            var bz := h.encodeCommit(Pruned(h, ec));
            && 3 * UsablePower(h, ec.votes) > 2 * TotalPower(ec.votes)
            && bz.Ok? && |bz.value| < maxTxBytes
            && h.prepareWrapped(if h.retain then [bz.value] + txs else txs, maxTxBytes - |bz.value|).Ok?
  {
    hide Accepted, UsablePower, TotalPower;
    PruningPassesExactly(h, ctx, ec);
  }

  /** The wrapped handler keeps within the limit it is given. */
  ghost predicate KeepsLimit(h: Config) {
    forall txs, limit :: h.prepareWrapped(txs, limit).Ok? ==> Size(h.prepareWrapped(txs, limit).value) <= limit
  }

  lemma EncodedIsNotEmpty(h: Config, ctx: Context, ec: ExtendedCommit)
    requires Lawful(h) && Accepted(ctx, h.check, ec) && h.encodeCommit(ec).Ok?
    ensures h.encodeCommit(ec).value != []
  {
    AcceptedHasVotes(ctx, h.check, ec);
    assert |Normalize(ec).votes| == |ec.votes|;
  }

  /** A wrapped handler that keeps within the reduced limit finds its whole list in the proposal, behind the
      encoded commit. */
  lemma WrappedListIsKept(h: Config, ctx: Context, ec: ExtendedCommit, txs: seq<Tx>, maxTxBytes: int)
    requires Lawful(h) && KeepsLimit(h) && VoteExtensionsEnabled(ctx)
    requires Proposal(h, ctx, ec, txs, maxTxBytes).Some?
    ensures h.encodeCommit(Pruned(h, ec)).Ok?
    ensures var bz := h.encodeCommit(Pruned(h, ec)).value;
            var built := h.prepareWrapped(if h.retain then [bz] + txs else txs, maxTxBytes - |bz|);
            && built.Ok?
            && Proposal(h, ctx, ec, txs, maxTxBytes).value
               == if StartsWith(built.value, bz) then built.value else [bz] + built.value
  {
    hide Accepted, Injected, Size;
    EncodedIsNotEmpty(h, ctx, Pruned(h, ec));
    var bz := h.encodeCommit(Pruned(h, ec)).value;
    var built := h.prepareWrapped(if h.retain then [bz] + txs else txs, maxTxBytes - |bz|);
    NothingDropped(built.value, bz, maxTxBytes - |bz|);
  }

  /** The wrapped handler returns what it is given, as long as it fits. */
  ghost predicate PassesThrough(h: Config) {
    forall txs, limit :: h.prepareWrapped(txs, limit) == if Size(txs) <= limit then Ok(txs)
      else Err(WrappedHandlerFailure)
  }

  /** With a wrapped handler that passes transactions through, the proposal is the commit and the request's
      transactions, whether or not oracle data is retained, and the wrapped handler of ProcessProposal is
      given exactly the list the one of PrepareProposal was given. */
  lemma PassedThrough(h: Config, ctx: Context, ec: ExtendedCommit, txs: seq<Tx>, maxTxBytes: int)
    requires Lawful(h) && PassesThrough(h) && VoteExtensionsEnabled(ctx)
    requires Proposal(h, ctx, ec, txs, maxTxBytes).Some?
    requires !StartsWith(txs, h.encodeCommit(Pruned(h, ec)).value) || h.retain
    ensures var bz, out := h.encodeCommit(Pruned(h, ec)).value, Proposal(h, ctx, ec, txs, maxTxBytes).value;
            && out == [bz] + txs
            && Verified(h, ctx, out) == Some(if h.retain then [bz] + txs else txs)
  {
    WrappedListIsKept(h, ctx, ec, txs, maxTxBytes);
    PreparedProposalIsAccepted(h, ctx, ec, txs, maxTxBytes);
  }

  /** Without vote extensions a wrapped handler within the limit has its list proposed and verified as it is. */
  lemma DisabledPassesThrough(h: Config, ctx: Context, ec: ExtendedCommit, txs: seq<Tx>, maxTxBytes: int)
    requires KeepsLimit(h) && !VoteExtensionsEnabled(ctx)
    ensures var built := h.prepareWrapped(txs, maxTxBytes);
            Proposal(h, ctx, ec, txs, maxTxBytes) == if built.Ok? then Some(built.value) else None
    ensures Verified(h, ctx, txs) == Some(txs)
  {
    if h.prepareWrapped(txs, maxTxBytes).Ok? {
      FittingProperties(h.prepareWrapped(txs, maxTxBytes).value, maxTxBytes);
    }
  }
}
