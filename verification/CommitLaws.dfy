/** The checks on extended commits in plain terms: the order of the votes without the comparator, and the
    exact condition under which a commit is accepted. */
module CommitLaws {
  import opened Wrappers
  import opened ExtendedCommits

  // ---------------------------------------------------------------- when extensions are enabled

  /** A positive enable height e switches extensions on from height e + 1 on, and for good; no enable height,
      or 0, never does. */
  lemma EnabledHeights(ctx: Context)
    ensures ctx.enableHeight.Some? && ctx.enableHeight.value >= 1 ==>
              (VoteExtensionsEnabled(ctx) <==> ctx.blockHeight >= ctx.enableHeight.value + 1)
    ensures ctx.enableHeight == None || ctx.enableHeight == Some(0) ==> !VoteExtensionsEnabled(ctx)
    ensures VoteExtensionsEnabled(ctx) ==>
              forall later: Context | later.enableHeight == ctx.enableHeight && later.blockHeight >= ctx.blockHeight ::
                VoteExtensionsEnabled(later)
  {
  }

  // ---------------------------------------------------------------- the order of the votes

  /** a comes before b at the first byte that differs, or is a prefix of b. */
  ghost predicate NotAfter(a: bytes, b: bytes) {
    exists k :: 0 <= k <= |a| && k <= |b| && a[..k] == b[..k] && (k == |a| || (k < |b| && a[k] < b[k]))
  }

  lemma NotAfterHead(a: bytes, b: bytes)
    requires a != [] && b != [] && NotAfter(a, b)
    ensures a[0] <= b[0]
    ensures a[0] == b[0] ==> NotAfter(a[1..], b[1..])
  {
    var k :| 0 <= k <= |a| && k <= |b| && a[..k] == b[..k] && (k == |a| || (k < |b| && a[k] < b[k]));
    if k > 0 {
      assert a[0] == a[..k][0] && b[0] == b[..k][0];
      assert a[1..][..k - 1] == a[..k][1..] && b[1..][..k - 1] == b[..k][1..];
    }
  }

  lemma NotAfterTail(a: bytes, b: bytes)
    requires a != [] && b != []
    ensures a[0] < b[0] ==> NotAfter(a, b)
    ensures a[0] == b[0] && NotAfter(a[1..], b[1..]) ==> NotAfter(a, b)
  {
    assert a[..0] == b[..0];
    if a[0] == b[0] && NotAfter(a[1..], b[1..]) {
      var k :| 0 <= k <= |a[1..]| && k <= |b[1..]| && a[1..][..k] == b[1..][..k]
            && (k == |a[1..]| || (k < |b[1..]| && a[1..][k] < b[1..][k]));
      assert a[..k + 1] == [a[0]] + a[1..][..k] && b[..k + 1] == [b[0]] + b[1..][..k];
    }
  }

  lemma {:induction false} CompareBytesExact(a: bytes, b: bytes)
    ensures CompareBytes(a, b) <= 0 <==> NotAfter(a, b)
    ensures CompareBytes(a, b) == 0 <==> a == b
  {
    if a == [] {
      assert a[..0] == b[..0];
    } else if b != [] {
      NotAfterTail(a, b);
      if NotAfter(a, b) {
        NotAfterHead(a, b);
      }
      hide NotAfter;
      if a[0] == b[0] {
        CompareBytesExact(a[1..], b[1..]);
        assert a == [a[0]] + a[1..] && b == [b[0]] + b[1..];
      }
    }
  }

  lemma {:induction false} CompareBytesFlips(a: bytes, b: bytes)
    ensures CompareBytes(a, b) == -CompareBytes(b, a)
  {
    if a != [] && b != [] && a[0] == b[0] {
      CompareBytesFlips(a[1..], b[1..]);
    }
  }

  /** Voting power never increases along the votes, and among equal powers the addresses ascend. */
  ghost predicate DescendingPower(votes: seq<ExtendedVote>) {
    forall i :: 1 <= i < |votes| ==>
      && votes[i].validator.power <= votes[i - 1].validator.power
      && (votes[i].validator.power == votes[i - 1].validator.power ==>
            NotAfter(votes[i - 1].validator.address, votes[i].validator.address))
  }

  lemma SortedExactly(votes: seq<ExtendedVote>)
    ensures Sorted(votes) <==> DescendingPower(votes)
  {
    hide NotAfter, CompareBytes;
    forall i | 1 <= i < |votes|
      ensures CompareValidators(votes[i].validator, votes[i - 1].validator) >= 0 <==>
              && votes[i].validator.power <= votes[i - 1].validator.power
              && (votes[i].validator.power == votes[i - 1].validator.power ==>
                    NotAfter(votes[i - 1].validator.address, votes[i].validator.address))
    {
      CompareBytesExact(votes[i - 1].validator.address, votes[i].validator.address);
      CompareBytesFlips(votes[i - 1].validator.address, votes[i].validator.address);
    }
  }

  // ---------------------------------------------------------------- acceptance

  /** The vote is the last commit's vote of the same validator, or was struck from it: absent, without data. */
  ghost predicate SameOrStruck(vote: ExtendedVote, last: CommitVote) {
    && vote.validator.address == last.validator.address && vote.validator.power == last.validator.power
    && (vote.flag == last.flag
        || (vote.flag == FlagAbsent && |vote.extension.Contents()| == 0 && |vote.signature.Contents()| == 0))
  }

  /** Exactly the commits that agree with the last commit. */
  lemma MatchesExactly(ec: ExtendedCommit, lc: LastCommit)
    ensures MatchesLastCommit(ec, lc) <==>
            && ec.round == lc.round && |ec.votes| == |lc.votes|
            && DescendingPower(ec.votes) && DistinctAddresses(ec.votes)
            && forall i :: 0 <= i < |ec.votes| ==> SameOrStruck(ec.votes[i], lc.votes[i])
  {
    hide DescendingPower, Sorted, DistinctAddresses;
    SortedExactly(ec.votes);
  }

  /** A commit vote carries its validator's signature of the extension, at the previous height and the round of
      the last commit; other votes carry nothing. */
  ghost predicate SignedOrEmpty(ctx: Context, check: SignatureCheck, vote: ExtendedVote) {
    var extension, signature := vote.extension.Contents(), vote.signature.Contents();
    if vote.flag == FlagCommit then
      && |signature| > 0 && vote.validator.address in ctx.pubKeys
      && check(ctx.pubKeys[vote.validator.address],
               CanonicalVoteExtension(extension, ctx.headerHeight - 1, ctx.lastCommit.round, ctx.chainID), signature)
    else |extension| == 0 && |signature| == 0
  }

  /** Exactly the commits that are accepted while extensions are enabled: in order, without repeated
      addresses, vote by vote those of the last commit or struck, signed, and committed to by more than two
      thirds of a positive power. */
  lemma AcceptedExactly(ctx: Context, check: SignatureCheck, ec: ExtendedCommit)
    requires VoteExtensionsEnabled(ctx)
    ensures Accepted(ctx, check, ec) <==>
            && ec.round == ctx.lastCommit.round && |ec.votes| == |ctx.lastCommit.votes|
            && DescendingPower(ec.votes) && DistinctAddresses(ec.votes)
            && (forall i :: 0 <= i < |ec.votes| ==> SameOrStruck(ec.votes[i], ctx.lastCommit.votes[i]))
            && (forall i :: 0 <= i < |ec.votes| ==> SignedOrEmpty(ctx, check, ec.votes[i]))
            && TotalPower(ec.votes) > 0 && 3 * CommitPower(ec.votes) > 2 * TotalPower(ec.votes)
  {
    hide DescendingPower, MatchesLastCommit, DistinctAddresses, SameOrStruck, TotalPower, CommitPower;
    MatchesExactly(ec, ctx.lastCommit);
  }
}
