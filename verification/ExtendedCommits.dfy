/** Extended commits and the checks of abci/ve/utils.go: agreement with the last commit, signed
    commit votes, and more than two thirds of the voting power. */
module ExtendedCommits {
  import opened Wrappers

  /** A Go byte slice; nil and empty differ for `== nil` tests only. */
  datatype Slice = Nil | Bytes(data: bytes) {
    function Contents(): bytes {
      if Nil? then [] else data
    }
  }

  datatype BlockIDFlag = FlagUnknown | FlagAbsent | FlagCommit | FlagNil

  datatype Validator = Validator(address: bytes, power: int)

  datatype ExtendedVote = ExtendedVote(validator: Validator, flag: BlockIDFlag, extension: Slice, signature: Slice)

  datatype ExtendedCommit = ExtendedCommit(round: int, votes: seq<ExtendedVote>)

  datatype CommitVote = CommitVote(validator: Validator, flag: BlockIDFlag)

  datatype LastCommit = LastCommit(round: int, votes: seq<CommitVote>)

  /** What the handlers read from the SDK context and the staking module. A key that is missing or
      cannot be converted is absent from `pubKeys`. */
  datatype Context = Context(
    blockHeight: int,
    headerHeight: int,
    chainID: string,
    enableHeight: Option<int>,
    lastCommit: LastCommit,
    pubKeys: map<bytes, bytes>)

  datatype CanonicalVoteExtension = CanonicalVoteExtension(extension: bytes, height: int, round: int, chainID: string)

  /** Public key, signed message, signature. */
  type SignatureCheck = (bytes, CanonicalVoteExtension, bytes) -> bool

  datatype CommitError =
    | RoundMismatch
    | LengthMismatch
    | NotSorted
    | DuplicateAddress
    | AddressMismatch
    | PowerMismatch
    | FlagMismatch
    | MissingSignature
    | UnexpectedExtension
    | UnexpectedSignature
    | UnknownPublicKey
    | BadSignature
    | NonPositivePower
    | InsufficientPower

  predicate VoteExtensionsEnabled(ctx: Context) {
    match ctx.enableHeight
    case None => false
    case Some(h) => h != 0 && ctx.blockHeight > 1 && h < ctx.blockHeight
  }

  // ---------------------------------------------------------------- against the last commit

  /** bytes.Compare. */
  function CompareBytes(a: bytes, b: bytes): int {
    if a == [] && b == [] then 0
    else if a == [] then -1
    else if b == [] then 1
    else if a[0] != b[0] then (if a[0] < b[0] then -1 else 1)
    else CompareBytes(a[1..], b[1..])
  }

  /** Descending power, then ascending address. */
  function CompareValidators(v: Validator, w: Validator): int {
    if v.power == w.power then CompareBytes(v.address, w.address) else -(v.power - w.power)
  }

  ghost predicate Sorted(votes: seq<ExtendedVote>) {
    forall i :: 1 <= i < |votes| ==> CompareValidators(votes[i].validator, votes[i - 1].validator) >= 0
  }

  ghost predicate DistinctAddresses(votes: seq<ExtendedVote>) {
    forall i, j :: 0 <= i < j < |votes| ==> votes[i].validator.address != votes[j].validator.address
  }

  /** A vote without data marked absent, as pruning leaves it. */
  predicate IsAbsent(vote: ExtendedVote) {
    vote.flag == FlagAbsent && vote.extension.Contents() == [] && vote.signature.Contents() == []
  }

  predicate MatchesVote(vote: ExtendedVote, last: CommitVote) {
    vote.validator == last.validator && (IsAbsent(vote) || vote.flag == last.flag)
  }

  ghost predicate MatchesLastCommit(ec: ExtendedCommit, lc: LastCommit) {
    && ec.round == lc.round
    && |ec.votes| == |lc.votes|
    && Sorted(ec.votes)
    && DistinctAddresses(ec.votes)
    && forall i :: 0 <= i < |ec.votes| ==> MatchesVote(ec.votes[i], lc.votes[i])
  }

  /** slices.IsSortedFunc, which walks from the end. */
  method IsSorted(votes: seq<ExtendedVote>) returns (sorted: bool)
    ensures sorted <==> Sorted(votes)
  {
    var i := |votes| - 1;
    while i > 0
      invariant i < |votes|
      invariant forall j :: i < j < |votes| && 1 <= j ==>
                  CompareValidators(votes[j].validator, votes[j - 1].validator) >= 0
    {
      if CompareValidators(votes[i].validator, votes[i - 1].validator) < 0 {
        return false;
      }
      i := i - 1;
    }
    return true;
  }

  method ValidateExtendedCommitAgainstLastCommit(ec: ExtendedCommit, lc: LastCommit)
      returns (r: Result<(), CommitError>)
    ensures r.Ok? <==> MatchesLastCommit(ec, lc)
  {
    if ec.round != lc.round {
      return Err(RoundMismatch);
    }
    if |ec.votes| != |lc.votes| {
      return Err(LengthMismatch);
    }
    var sorted := IsSorted(ec.votes);
    if !sorted {
      return Err(NotSorted);
    }
    var addressCache := {};
    for i := 0 to |ec.votes|
      invariant addressCache == set j | 0 <= j < i :: ec.votes[j].validator.address
      invariant forall j, k :: 0 <= j < k < i ==> ec.votes[j].validator.address != ec.votes[k].validator.address
      invariant forall j :: 0 <= j < i ==> MatchesVote(ec.votes[j], lc.votes[j])
    {
      var vote, last := ec.votes[i], lc.votes[i];
      if vote.validator.address in addressCache {
        return Err(DuplicateAddress);
      }
      addressCache := addressCache + {vote.validator.address};
      if vote.validator.address != last.validator.address {
        return Err(AddressMismatch);
      }
      if vote.validator.power != last.validator.power {
        return Err(PowerMismatch);
      }
      if !(vote.flag == FlagAbsent && |vote.extension.Contents()| == 0 && |vote.signature.Contents()| == 0) {
        if vote.flag != last.flag {
          return Err(FlagMismatch);
        }
      }
    }
    return Ok(());
  }

  // ---------------------------------------------------------------- signatures and power

  function TotalPower(votes: seq<ExtendedVote>): int {
    if votes == [] then 0 else TotalPower(votes[..|votes| - 1]) + votes[|votes| - 1].validator.power
  }

  function CommitPower(votes: seq<ExtendedVote>): int {
    if votes == [] then 0
    else
      var last := votes[|votes| - 1];
      CommitPower(votes[..|votes| - 1]) + if last.flag == FlagCommit then last.validator.power else 0
  }

  function SignedMessage(ctx: Context, round: int, vote: ExtendedVote): CanonicalVoteExtension {
    CanonicalVoteExtension(vote.extension.Contents(), ctx.headerHeight - 1, round, ctx.chainID)
  }

  /** With extensions enabled, exactly the commit votes carry data, and they carry a signature of the
      extension for the previous height. */
  predicate VoteAllowed(ctx: Context, check: SignatureCheck, round: int, vote: ExtendedVote) {
    if !VoteExtensionsEnabled(ctx) || vote.flag != FlagCommit then
      vote.extension.Contents() == [] && vote.signature.Contents() == []
    else
      && vote.signature.Contents() != []
      && vote.validator.address in ctx.pubKeys
      && check(ctx.pubKeys[vote.validator.address], SignedMessage(ctx, round, vote), vote.signature.Contents())
  }

  /** Exactly the extended commits ValidateVoteExtensions lets through. */
  ghost predicate Accepted(ctx: Context, check: SignatureCheck, ec: ExtendedCommit) {
    && MatchesLastCommit(ec, ctx.lastCommit)
    && (forall i :: 0 <= i < |ec.votes| ==> VoteAllowed(ctx, check, ec.round, ec.votes[i]))
    && TotalPower(ec.votes) > 0
    && (VoteExtensionsEnabled(ctx) ==> CommitPower(ec.votes) >= TotalPower(ec.votes) * 2 / 3 + 1)
  }

  method ValidateVote(ctx: Context, check: SignatureCheck, round: int, vote: ExtendedVote)
      returns (r: Result<(), CommitError>)
    ensures r.Ok? <==> VoteAllowed(ctx, check, round, vote)
  {
    var enabled := VoteExtensionsEnabled(ctx);
    if enabled {
      if vote.flag == FlagCommit && |vote.signature.Contents()| == 0 {
        return Err(MissingSignature);
      }
      if vote.flag != FlagCommit && |vote.extension.Contents()| != 0 {
        return Err(UnexpectedExtension);
      }
      if vote.flag != FlagCommit && |vote.signature.Contents()| != 0 {
        return Err(UnexpectedSignature);
      }
    } else {
      if |vote.extension.Contents()| != 0 {
        return Err(UnexpectedExtension);
      }
      if |vote.signature.Contents()| != 0 {
        return Err(UnexpectedSignature);
      }
      return Ok(());
    }
    if vote.flag != FlagCommit {
      return Ok(());
    }
    if vote.validator.address !in ctx.pubKeys {
      return Err(UnknownPublicKey);
    }
    if !check(ctx.pubKeys[vote.validator.address], SignedMessage(ctx, round, vote), vote.signature.Contents()) {
      return Err(BadSignature);
    }
    return Ok(());
  }

  method ValidateVoteExtensions(ctx: Context, check: SignatureCheck, ec: ExtendedCommit)
      returns (r: Result<(), CommitError>)
    ensures r.Ok? <==> Accepted(ctx, check, ec)
  {
    var _ :- ValidateExtendedCommitAgainstLastCommit(ec, ctx.lastCommit);
    var enabled := VoteExtensionsEnabled(ctx);
    var totalVP, sumVP := 0, 0;
    for i := 0 to |ec.votes|
      invariant forall j :: 0 <= j < i ==> VoteAllowed(ctx, check, ec.round, ec.votes[j])
      invariant totalVP == TotalPower(ec.votes[..i])
      invariant enabled ==> sumVP == CommitPower(ec.votes[..i])
    {
      var vote := ec.votes[i];
      assert ec.votes[..i + 1][..i] == ec.votes[..i];
      totalVP := totalVP + vote.validator.power;
      var _ :- ValidateVote(ctx, check, ec.round, vote);
      if enabled && vote.flag == FlagCommit {
        sumVP := sumVP + vote.validator.power;
      }
    }
    assert ec.votes[..|ec.votes|] == ec.votes;
    if totalVP <= 0 {
      return Err(NonPositivePower);
    }
    if enabled {
      var requiredVP := totalVP * 2 / 3 + 1;
      if sumVP < requiredVP {
        return Err(InsufficientPower);
      }
    }
    return Ok(());
  }

  /** NewDefaultValidateVoteExtensionsFn: nothing is checked while extensions are disabled. */
  ghost predicate PassesDefaultValidation(ctx: Context, check: SignatureCheck, ec: ExtendedCommit) {
    VoteExtensionsEnabled(ctx) ==> Accepted(ctx, check, ec)
  }

  method DefaultValidateVoteExtensions(ctx: Context, check: SignatureCheck, ec: ExtendedCommit)
      returns (r: Result<(), CommitError>)
    ensures r.Ok? <==> PassesDefaultValidation(ctx, check, ec)
  {
    if VoteExtensionsEnabled(ctx) {
      r := ValidateVoteExtensions(ctx, check, ec);
    } else {
      r := Ok(());
    }
  }

  // ---------------------------------------------------------------- quorums

  function LastCommitPower(votes: seq<CommitVote>): int {
    if votes == [] then 0 else LastCommitPower(votes[..|votes| - 1]) + votes[|votes| - 1].validator.power
  }

  /** Power of the validators whose commit votes both extended commits hold. */
  function SharedPower(a: seq<ExtendedVote>, b: seq<ExtendedVote>): int
    requires |a| == |b|
  {
    if a == [] then 0
    else
      var n := |a| - 1;
      SharedPower(a[..n], b[..n])
      + if a[n].flag == FlagCommit && b[n].flag == FlagCommit then a[n].validator.power else 0
  }

  lemma {:induction false} SamePower(votes: seq<ExtendedVote>, last: seq<CommitVote>)
    requires |votes| == |last|
    requires forall i :: 0 <= i < |votes| ==> votes[i].validator == last[i].validator
    ensures TotalPower(votes) == LastCommitPower(last)
  {
    if votes != [] {
      SamePower(votes[..|votes| - 1], last[..|last| - 1]);
    }
  }

  lemma {:induction false} OverlapBound(a: seq<ExtendedVote>, b: seq<ExtendedVote>)
    requires |a| == |b|
    requires forall i :: 0 <= i < |a| ==> a[i].validator == b[i].validator && a[i].validator.power >= 0
    ensures CommitPower(a) + CommitPower(b) - SharedPower(a, b) <= TotalPower(a)
    ensures TotalPower(a) == TotalPower(b)
  {
    if a != [] {
      var n := |a| - 1;
      OverlapBound(a[..n], b[..n]);
    }
  }

  /** Any two extended commits accepted against one last commit share validators with more than a
      third of the voting power, all of which signed their extension in both. */
  lemma QuorumIntersection(ctx: Context, check: SignatureCheck, a: ExtendedCommit, b: ExtendedCommit)
    requires VoteExtensionsEnabled(ctx)
    requires forall i :: 0 <= i < |ctx.lastCommit.votes| ==> ctx.lastCommit.votes[i].validator.power >= 0
    requires Accepted(ctx, check, a) && Accepted(ctx, check, b)
    ensures |a.votes| == |b.votes| == |ctx.lastCommit.votes|
    ensures 3 * CommitPower(a.votes) > 2 * LastCommitPower(ctx.lastCommit.votes)
    ensures 3 * SharedPower(a.votes, b.votes) > LastCommitPower(ctx.lastCommit.votes)
  {
    var votes := ctx.lastCommit.votes;
    assert forall i :: 0 <= i < |votes| ==> MatchesVote(a.votes[i], votes[i]) && MatchesVote(b.votes[i], votes[i]);
    SamePower(a.votes, votes);
    OverlapBound(a.votes, b.votes);
  }

  /** Data in an accepted commit belongs to a validator that committed to the last block and signed
      exactly this extension; no address appears twice. */
  lemma AcceptedDataIsSigned(ctx: Context, check: SignatureCheck, ec: ExtendedCommit, i: nat)
    requires VoteExtensionsEnabled(ctx) && Accepted(ctx, check, ec) && i < |ec.votes|
    requires ec.votes[i].extension.Contents() != [] || ec.votes[i].signature.Contents() != []
    ensures var vote, last := ec.votes[i], ctx.lastCommit.votes[i];
            && last.flag == FlagCommit && vote.validator == last.validator
            && last.validator.address in ctx.pubKeys
            && check(ctx.pubKeys[last.validator.address],
                     CanonicalVoteExtension(vote.extension.Contents(), ctx.headerHeight - 1, ctx.lastCommit.round,
                                            ctx.chainID),
                     vote.signature.Contents())
    ensures forall j :: 0 <= j < |ec.votes| && ec.votes[j].validator.address == ec.votes[i].validator.address ==> j == i
  {
    assert MatchesVote(ec.votes[i], ctx.lastCommit.votes[i]) && VoteAllowed(ctx, check, ec.round, ec.votes[i]);
  }
}
