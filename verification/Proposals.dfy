/** PrepareProposal and ProcessProposal: pruning, injection of the encoded extended commit as the
    first transaction, the byte budget, and the verification every validator repeats. */
module Proposals {
  import opened Wrappers
  import opened ExtendedCommits
  import VoteExtensionWire

  type Tx = bytes

  datatype ProposalError =
    | InvalidCommit(cause: CommitError)
    | CodecFailure
    | TooManyPairs
    | PriceTooLong
    | StrategyFailure
    | ExtensionsFillBlock
    | WrappedHandlerFailure
    | MissingCommitInfo
    | InvalidExtendedCommitInfo
    | DivisionByZero
    | PriceOverflow

  const MAXIMUM_PRICE_SIZE := 33
  const NUM_INJECTED_TXS := 1
  const ORACLE_INFO_INDEX := 0

  type Prices = VoteExtensionWire.Prices

  /** nil and empty slices encode alike and decode to nil. */
  function NormalizeSlice(s: Slice): Slice {
    if s.Contents() == [] then Nil else s
  }

  function NormalizeVote(vote: ExtendedVote): ExtendedVote {
    vote.(extension := NormalizeSlice(vote.extension), signature := NormalizeSlice(vote.signature))
  }

  function Normalize(ec: ExtendedCommit): ExtendedCommit {
    ec.(votes := seq(|ec.votes|, i requires 0 <= i < |ec.votes| => NormalizeVote(ec.votes[i])))
  }

  /** The parts of the handler and of the state it runs in. `maxNumCP` is the answer of GetMaxNumCP,
      the same in both proposal modes. */
  datatype Config = Config(
    decodeExtension: bytes -> Result<Prices, ProposalError>,
    encodeCommit: ExtendedCommit -> Result<bytes, ProposalError>,
    decodeCommit: bytes -> Result<ExtendedCommit, ProposalError>,
    maxNumCP: Result<nat, ProposalError>,
    check: SignatureCheck,
    prepareWrapped: (seq<Tx>, int) -> Result<seq<Tx>, ProposalError>,
    processWrapped: seq<Tx> -> Result<bool, ProposalError>,
    retain: bool)

  /** The codecs round-trip, and empty bytes decode to the empty message. */
  ghost predicate Lawful(h: Config) {
    && (forall ec :: h.encodeCommit(ec).Ok? ==> h.decodeCommit(h.encodeCommit(ec).value) == Ok(Normalize(ec)))
    && h.decodeCommit([]) == Ok(ExtendedCommit(0, []))
    && h.decodeExtension([]) == Ok(map[])
  }

  // ---------------------------------------------------------------- vote extensions

  ghost predicate PricesAllowed(prices: Prices, max: nat) {
    |prices| <= max && forall id | id in prices :: |prices[id]| <= MAXIMUM_PRICE_SIZE
  }

  method ValidateOracleVoteExtension(prices: Prices, maxNumCP: Result<nat, ProposalError>)
      returns (r: Result<(), ProposalError>)
    ensures r.Ok? <==> maxNumCP.Ok? && PricesAllowed(prices, maxNumCP.value)
  {
    var max :- maxNumCP;
    if |prices| > max {
      return Err(TooManyPairs);
    }
    var left := prices.Keys;
    while left != {}
      invariant left <= prices.Keys
      invariant forall id | id in prices && id !in left :: |prices[id]| <= MAXIMUM_PRICE_SIZE
    {
      var id :| id in left;
      left := left - {id};
      if |prices[id]| > MAXIMUM_PRICE_SIZE {
        return Err(PriceTooLong);
      }
    }
    return Ok(());
  }

  ghost predicate ExtensionAllowed(h: Config, extension: bytes) {
    var ve := h.decodeExtension(extension);
    ve.Ok? && h.maxNumCP.Ok? && PricesAllowed(ve.value, h.maxNumCP.value)
  }

  /** A vote without extension and signature counts as absent and is not looked into. */
  ghost predicate VoteUsable(h: Config, vote: ExtendedVote) {
    (vote.extension.Nil? && vote.signature.Nil?) || ExtensionAllowed(h, vote.extension.Contents())
  }

  method ValidateVoteExtension(h: Config, vote: ExtendedVote) returns (r: Result<(), ProposalError>)
    ensures r.Ok? <==> VoteUsable(h, vote)
  {
    if vote.extension.Nil? && vote.signature.Nil? {
      return Ok(());
    }
    var voteExt :- h.decodeExtension(vote.extension.Contents());
    r := ValidateOracleVoteExtension(voteExt, h.maxNumCP);
  }

  /** Exactly the commits that every validator accepts in ProcessProposal. */
  ghost predicate CommitInfoValid(h: Config, ctx: Context, ec: ExtendedCommit) {
    && PassesDefaultValidation(ctx, h.check, ec)
    && forall i :: 0 <= i < |ec.votes| ==> VoteUsable(h, ec.votes[i])
  }

  method ValidateExtendedCommitInfo(h: Config, ctx: Context, ec: ExtendedCommit) returns (r: Result<(), ProposalError>)
    ensures r.Ok? <==> CommitInfoValid(h, ctx, ec)
  {
    var valid := DefaultValidateVoteExtensions(ctx, h.check, ec);
    if valid.Err? {
      return Err(InvalidCommit(valid.error));
    }
    for i := 0 to |ec.votes|
      invariant forall j :: 0 <= j < i ==> VoteUsable(h, ec.votes[j])
    {
      var _ :- ValidateVoteExtension(h, ec.votes[i]);
    }
    return Ok(());
  }

  // ---------------------------------------------------------------- pruning

  function Absent(vote: ExtendedVote): ExtendedVote {
    vote.(flag := FlagAbsent, extension := Nil, signature := Nil)
  }

  ghost function PrunedVote(h: Config, vote: ExtendedVote): ExtendedVote {
    if VoteUsable(h, vote) then vote else Absent(vote)
  }

  ghost function Pruned(h: Config, ec: ExtendedCommit): ExtendedCommit {
    ec.(votes := seq(|ec.votes|, i requires 0 <= i < |ec.votes| => PrunedVote(h, ec.votes[i])))
  }

  /** Prunes the votes of the request in place, then validates what is left. */
  method PruneAndValidateExtendedCommitInfo(h: Config, ctx: Context, round: int, votes: array<ExtendedVote>)
      returns (r: Result<ExtendedCommit, ProposalError>)
    modifies votes
    ensures votes[..] == Pruned(h, ExtendedCommit(round, old(votes[..]))).votes
    ensures r.Ok? <==> PassesDefaultValidation(ctx, h.check, ExtendedCommit(round, votes[..]))
    ensures r.Ok? ==> r.value == ExtendedCommit(round, votes[..])
  {
    for i := 0 to votes.Length
      invariant forall j :: 0 <= j < i ==> votes[j] == PrunedVote(h, old(votes[j]))
      invariant forall j :: i <= j < votes.Length ==> votes[j] == old(votes[j])
    {
      var valid := ValidateVoteExtension(h, votes[i]);
      if valid.Err? {
        var vote := votes[i];
        vote := vote.(flag := FlagAbsent);
        vote := vote.(signature := Nil);
        vote := vote.(extension := Nil);
        votes[i] := vote;
      }
    }
    assert votes[..] == Pruned(h, ExtendedCommit(round, old(votes[..]))).votes;
    var pruned := ExtendedCommit(round, votes[..]);
    var valid := DefaultValidateVoteExtensions(ctx, h.check, pruned);
    if valid.Err? {
      return Err(InvalidCommit(valid.error));
    }
    return Ok(pruned);
  }

  // ---------------------------------------------------------------- the byte budget

  function Size(txs: seq<Tx>): nat {
    if txs == [] then 0 else |txs[0]| + Size(txs[1..])
  }

  /** The longest prefix of txs whose total size is within the budget. */
  function Fitting(txs: seq<Tx>, budget: int): seq<Tx> {
    if txs == [] || |txs[0]| > budget then []
    else [txs[0]] + Fitting(txs[1..], budget - |txs[0]|)
  }

  predicate StartsWith(txs: seq<Tx>, tx: Tx) {
    txs != [] && txs[0] == tx
  }

  /** injectTx unless it is empty, already in front, or too large for the whole budget. */
  function Front(appTxs: seq<Tx>, injectTx: Tx, maxSizeBytes: int): seq<Tx> {
    if injectTx != [] && !StartsWith(appTxs, injectTx) && |injectTx| <= maxSizeBytes then [injectTx] else []
  }

  function Injected(appTxs: seq<Tx>, injectTx: Tx, maxSizeBytes: int): seq<Tx> {
    var front := Front(appTxs, injectTx, maxSizeBytes);
    front + Fitting(appTxs, maxSizeBytes - Size(front))
  }

  lemma SizeOne(tx: Tx)
    ensures Size([tx]) == |tx|
  {
    assert [tx][1..] == [];
  }

  method InjectAndResize(appTxs: seq<Tx>, injectTx: Tx, maxSizeBytes: int) returns (returnedTxs: seq<Tx>)
    ensures returnedTxs == Injected(appTxs, injectTx, maxSizeBytes)
  {
    returnedTxs := [];
    var consumedBytes := 0;
    SizeOne(injectTx);
    if |injectTx| != 0 && (|appTxs| < 1 || appTxs[0] != injectTx) {
      var injectBytes := |injectTx|;
      if injectBytes <= maxSizeBytes {
        consumedBytes := consumedBytes + injectBytes;
        returnedTxs := returnedTxs + [injectTx];
      }
    }
    assert appTxs[0..] == appTxs;
    for i := 0 to |appTxs|
      invariant returnedTxs + Fitting(appTxs[i..], maxSizeBytes - consumedBytes)
             == Injected(appTxs, injectTx, maxSizeBytes)
    {
      consumedBytes := consumedBytes + |appTxs[i]|;
      assert appTxs[i..][1..] == appTxs[i + 1..];
      if consumedBytes > maxSizeBytes {
        return;
      }
      returnedTxs := returnedTxs + [appTxs[i]];
    }
  }

  lemma {:induction false} FittingProperties(txs: seq<Tx>, budget: int)
    ensures var out := Fitting(txs, budget);
            && out <= txs
            && (budget >= 0 || txs == [] ==> Size(out) <= budget || out == [])
            && (budget < 0 ==> out == [])
            && (out != txs ==> Size(txs[..|out| + 1]) > budget)
            && (Size(txs) <= budget ==> out == txs)
            && Fitting(out, budget) == out
  {
    if txs != [] && |txs[0]| <= budget {
      var rest := budget - |txs[0]|;
      FittingProperties(txs[1..], rest);
      var tail := Fitting(txs[1..], rest);
      assert ([txs[0]] + tail)[1..] == tail;
      if tail != txs[1..] {
        assert txs[..|tail| + 2][1..] == txs[1..][..|tail| + 1];
      }
    } else if txs != [] {
      assert txs[..1][1..] == [];
    }
  }

  lemma FittingWithFront(tx: Tx, tail: seq<Tx>, budget: int)
    requires |tx| <= budget
    ensures Fitting([tx] + tail, budget) == [tx] + Fitting(tail, budget - |tx|)
    ensures Size([tx] + tail) == |tx| + Size(tail)
  {
    assert ([tx] + tail)[1..] == tail;
  }

  /** Injecting twice is injecting once. */
  lemma InjectionIdempotent(appTxs: seq<Tx>, injectTx: Tx, maxSizeBytes: int)
    ensures var out := Injected(appTxs, injectTx, maxSizeBytes);
            Injected(out, injectTx, maxSizeBytes) == out
  {
    hide Fitting, Size;
    var front := Front(appTxs, injectTx, maxSizeBytes);
    var tail := Fitting(appTxs, maxSizeBytes - Size(front));
    SizeOne(injectTx);
    assert Size([]) == 0 by { SizeNone(); }
    FittingProperties(appTxs, maxSizeBytes - Size(front));
    if front != [] {
      FittingWithFront(injectTx, tail, maxSizeBytes);
      assert StartsWith([injectTx] + tail, injectTx);
    } else {
      assert [] + tail == tail;
      assert Front(tail, injectTx, maxSizeBytes) == [] by {
        assert StartsWith(appTxs, injectTx) && tail != [] ==> StartsWith(tail, injectTx);
        if tail == [] && StartsWith(appTxs, injectTx) {
          FirstTooLarge(appTxs, maxSizeBytes);
        }
      }
    }
  }

  lemma SizeNone()
    ensures Size([]) == 0
  {
  }

  lemma FirstTooLarge(txs: seq<Tx>, budget: int)
    requires txs != [] && Fitting(txs, budget) == []
    ensures |txs[0]| > budget
  {
  }

  /** The result respects every non-negative budget, and the transactions behind the injected one are
      the longest prefix that fits. */
  lemma InjectionFillsBudget(appTxs: seq<Tx>, injectTx: Tx, maxSizeBytes: int)
    ensures var out, front := Injected(appTxs, injectTx, maxSizeBytes), Front(appTxs, injectTx, maxSizeBytes);
            && (maxSizeBytes >= 0 ==> Size(out) <= maxSizeBytes)
            && front <= out && out[|front|..] <= appTxs
            && (out[|front|..] != appTxs ==> Size(front) + Size(appTxs[..|out| - |front| + 1]) > maxSizeBytes)
  {
    hide Fitting, Size;
    var front := Front(appTxs, injectTx, maxSizeBytes);
    var tail := Fitting(appTxs, maxSizeBytes - Size(front));
    SizeOne(injectTx);
    assert Size([]) == 0 by { SizeNone(); }
    FittingProperties(appTxs, maxSizeBytes - Size(front));
    assert (front + tail)[|front|..] == tail;
    if front != [] {
      FittingWithFront(injectTx, tail, maxSizeBytes);
    } else {
      assert [] + tail == tail;
    }
  }

  /** When the wrapped handler kept within the reduced budget nothing is dropped. */
  lemma NothingDropped(appTxs: seq<Tx>, injectTx: Tx, reduced: int)
    requires injectTx != [] && reduced > 0 && Size(appTxs) <= reduced
    ensures Injected(appTxs, injectTx, reduced + |injectTx|)
         == if StartsWith(appTxs, injectTx) then appTxs else [injectTx] + appTxs
  {
    hide Fitting, Size;
    SizeOne(injectTx);
    assert Size([]) == 0 by { SizeNone(); }
    FittingProperties(appTxs, reduced);
    FittingProperties(appTxs, reduced + |injectTx|);
    assert [] + appTxs == appTxs;
  }

  /** Stripping the first transaction recovers the wrapped handler's list exactly when that list does
      not itself start with the injected transaction. */
  lemma StrippingRecovers(appTxs: seq<Tx>, injectTx: Tx, reduced: int)
    requires injectTx != [] && reduced > 0 && Size(appTxs) <= reduced
    ensures var out := Injected(appTxs, injectTx, reduced + |injectTx|);
            out != [] && out[0] == injectTx && (out[NUM_INJECTED_TXS..] == appTxs <==> !StartsWith(appTxs, injectTx))
  {
    NothingDropped(appTxs, injectTx, reduced);
  }

  // ---------------------------------------------------------------- PrepareProposal

  class PrepareRequest {
    var txs: seq<Tx>
    var maxTxBytes: int
    var round: int
    var votes: array<ExtendedVote>

    constructor (txs: seq<Tx>, maxTxBytes: int, round: int, votes: array<ExtendedVote>)
      ensures this.txs == txs && this.maxTxBytes == maxTxBytes && this.round == round && this.votes == votes
    {
      this.txs, this.maxTxBytes, this.round, this.votes := txs, maxTxBytes, round, votes;
    }
  }

  /** The transactions of a successful proposal, given what the request held on entry; None when the
      handler fails. */
  ghost function Proposal(h: Config, ctx: Context, ec: ExtendedCommit, txs: seq<Tx>, maxTxBytes: int): Option<seq<Tx>> {
    if !VoteExtensionsEnabled(ctx) then
      var built := h.prepareWrapped(txs, maxTxBytes);
      if built.Err? then None else Some(Fitting(built.value, maxTxBytes))
    else
      var pruned := Pruned(h, ec);
      var bz := h.encodeCommit(pruned);
      if !Accepted(ctx, h.check, pruned) || bz.Err? || |bz.value| >= maxTxBytes then None
      else
        var built := h.prepareWrapped(if h.retain then [bz.value] + txs else txs, maxTxBytes - |bz.value|);
        if built.Err? then None else Some(Injected(built.value, bz.value, maxTxBytes))
  }

  /** The transaction that makes it into the request: the encoded pruned commit, if extensions are enabled,
      the commit passes, and it leaves room in the block. */
  ghost function InjectedTx(h: Config, ctx: Context, ec: ExtendedCommit, maxTxBytes: int): Option<Tx> {
    var bz := h.encodeCommit(Pruned(h, ec));
    if VoteExtensionsEnabled(ctx) && Accepted(ctx, h.check, Pruned(h, ec)) && bz.Ok? && |bz.value| < maxTxBytes then
      Some(bz.value)
    else None
  }

  method PrepareProposal(h: Config, ctx: Context, req: PrepareRequest) returns (r: Result<seq<Tx>, ProposalError>)
    modifies req, req.votes
    ensures var want := Proposal(h, ctx, old(ExtendedCommit(req.round, req.votes[..])), old(req.txs),
                                 old(req.maxTxBytes));
            r.Ok? == want.Some? && (r.Ok? ==> r.value == want.value)
    ensures req.votes == old(req.votes) && req.round == old(req.round)
    ensures req.votes[..] == if VoteExtensionsEnabled(ctx)
            then Pruned(h, old(ExtendedCommit(req.round, req.votes[..]))).votes
                             else old(req.votes[..])
    ensures var injected := InjectedTx(h, ctx, old(ExtendedCommit(req.round, req.votes[..])), old(req.maxTxBytes));
            var bz := if injected.Some? then injected.value else [];
            && req.maxTxBytes == old(req.maxTxBytes) - |bz|
            && req.txs == if injected.Some? && h.retain then [bz] + old(req.txs) else old(req.txs)
  {
    var extInfoBz: Tx := [];
    if VoteExtensionsEnabled(ctx) {
      var extInfo :- PruneAndValidateExtendedCommitInfo(h, ctx, req.round, req.votes);
      extInfoBz :- h.encodeCommit(extInfo);
      if |extInfoBz| < req.maxTxBytes {
        req.maxTxBytes := req.maxTxBytes - |extInfoBz|;
      } else {
        return Err(ExtensionsFillBlock);
      }
      if h.retain {
        req.txs := [extInfoBz] + req.txs;
      }
    }
    var built :- h.prepareWrapped(req.txs, req.maxTxBytes);
    var out := InjectAndResize(built, extInfoBz, req.maxTxBytes + |extInfoBz|);
    return Ok(out);
  }

  // ---------------------------------------------------------------- ProcessProposal

  /** The transactions handed to the wrapped handler once the injected commit has passed. */
  ghost function Verified(h: Config, ctx: Context, txs: seq<Tx>): Option<seq<Tx>> {
    if !VoteExtensionsEnabled(ctx) then Some(txs)
    else if |txs| < NUM_INJECTED_TXS then None
    else
      var ec := h.decodeCommit(txs[ORACLE_INFO_INDEX]);
      if ec.Err? || !CommitInfoValid(h, ctx, ec.value) then None
      else Some(if h.retain then txs else txs[NUM_INJECTED_TXS..])
  }

  /** Rejects with an error unless the injected commit passes; then the wrapped handler decides. */
  method ProcessProposal(h: Config, ctx: Context, txs: seq<Tx>) returns (r: Result<bool, ProposalError>)
    ensures Verified(h, ctx, txs).None? ==> r.Err? && r.error != WrappedHandlerFailure
    ensures Verified(h, ctx, txs).Some? ==>
              var answer := h.processWrapped(Verified(h, ctx, txs).value);
              r == if answer.Ok? then answer else Err(WrappedHandlerFailure)
  {
    var rest := txs;
    if VoteExtensionsEnabled(ctx) {
      if |txs| < NUM_INJECTED_TXS {
        return Err(MissingCommitInfo);
      }
      var extInfo := h.decodeCommit(txs[ORACLE_INFO_INDEX]);
      if extInfo.Err? {
        return Err(CodecFailure);
      }
      var valid := ValidateExtendedCommitInfo(h, ctx, extInfo.value);
      if valid.Err? {
        return Err(InvalidExtendedCommitInfo);
      }
      if !h.retain {
        rest := rest[NUM_INJECTED_TXS..];
      }
    }
    r := h.processWrapped(rest);
    if r.Err? {
      r := Err(WrappedHandlerFailure);
    }
  }

  // ---------------------------------------------------------------- coherence

  /** Equal but for nil slices turned empty or back. */
  ghost predicate SameContents(a: ExtendedCommit, b: ExtendedCommit) {
    && a.round == b.round
    && |a.votes| == |b.votes|
    && forall i :: 0 <= i < |a.votes| ==> SameVote(a.votes[i], b.votes[i])
  }

  ghost predicate SameVote(v: ExtendedVote, w: ExtendedVote) {
    && v.validator == w.validator && v.flag == w.flag
    && v.extension.Contents() == w.extension.Contents() && v.signature.Contents() == w.signature.Contents()
  }

  lemma {:induction false} SamePowers(a: seq<ExtendedVote>, b: seq<ExtendedVote>)
    requires |a| == |b| && forall i :: 0 <= i < |a| ==> SameVote(a[i], b[i])
    ensures TotalPower(a) == TotalPower(b) && CommitPower(a) == CommitPower(b)
  {
    if a != [] {
      SamePowers(a[..|a| - 1], b[..|b| - 1]);
    }
  }

  /** The checks look at the contents of slices only, so a trip through the codec changes nothing. */
  lemma SameContentsAccepted(ctx: Context, check: SignatureCheck, a: ExtendedCommit, b: ExtendedCommit)
    requires SameContents(a, b) && Accepted(ctx, check, a)
    ensures Accepted(ctx, check, b)
  {
    SamePowers(a.votes, b.votes);
    forall i | 0 <= i < |b.votes|
      ensures VoteAllowed(ctx, check, b.round, b.votes[i])
      ensures MatchesVote(b.votes[i], ctx.lastCommit.votes[i])
    {
      assert SameVote(a.votes[i], b.votes[i]);
      assert VoteAllowed(ctx, check, a.round, a.votes[i]) && MatchesVote(a.votes[i], ctx.lastCommit.votes[i]);
    }
    assert Sorted(b.votes) by {
      forall i | 1 <= i < |b.votes|
        ensures CompareValidators(b.votes[i].validator, b.votes[i - 1].validator) >= 0
      {
        assert SameVote(a.votes[i], b.votes[i]) && SameVote(a.votes[i - 1], b.votes[i - 1]);
      }
    }
    assert DistinctAddresses(b.votes) by {
      assert forall i :: 0 <= i < |a.votes| ==> SameVote(a.votes[i], b.votes[i]);
    }
  }

  /** Pruned votes stay usable after the trip through the codec. */
  lemma PrunedVotesUsable(h: Config, vote: ExtendedVote)
    ensures VoteUsable(h, NormalizeVote(PrunedVote(h, vote)))
  {
  }

  lemma AcceptedHasVotes(ctx: Context, check: SignatureCheck, ec: ExtendedCommit)
    requires Accepted(ctx, check, ec)
    ensures ec.votes != []
  {
  }

  lemma InjectedFirst(appTxs: seq<Tx>, injectTx: Tx, maxSizeBytes: int)
    requires injectTx != [] && |injectTx| <= maxSizeBytes
    ensures var out := Injected(appTxs, injectTx, maxSizeBytes);
            StartsWith(out, injectTx) && Size(out) <= maxSizeBytes
  {
    hide Fitting, Size;
    InjectionFillsBudget(appTxs, injectTx, maxSizeBytes);
    SizeOne(injectTx);
    assert Size([]) == 0 by { SizeNone(); }
    FittingProperties(appTxs, maxSizeBytes);
    if StartsWith(appTxs, injectTx) && Fitting(appTxs, maxSizeBytes) == [] {
      FirstTooLarge(appTxs, maxSizeBytes);
    }
    assert [] + Fitting(appTxs, maxSizeBytes) == Fitting(appTxs, maxSizeBytes);
  }

  /** What the proposer builds, every validator with the same state and last commit accepts: the
      encoded pruned commit stands first, the checks of ProcessProposal pass on it, and the wrapped
      handler sees the remaining transactions (or all of them when oracle data is retained). */
  lemma PreparedProposalIsAccepted(h: Config, ctx: Context, ec: ExtendedCommit, txs: seq<Tx>, maxTxBytes: int)
    requires Lawful(h) && VoteExtensionsEnabled(ctx)
    requires Proposal(h, ctx, ec, txs, maxTxBytes).Some?
    ensures var out, bz := Proposal(h, ctx, ec, txs, maxTxBytes).value, h.encodeCommit(Pruned(h, ec));
            && bz.Ok? && StartsWith(out, bz.value) && Size(out) <= maxTxBytes
            && Verified(h, ctx, out) == Some(if h.retain then out else out[1..])
  {
    var pruned := Pruned(h, ec);
    var bz := h.encodeCommit(pruned).value;
    assert h.decodeCommit(bz) == Ok(Normalize(pruned));
    AcceptedHasVotes(ctx, h.check, pruned);
    SameContentsAccepted(ctx, h.check, pruned, Normalize(pruned));
    hide Accepted, VoteUsable, Fitting, Size, Injected;
    assert bz != [] by {
      // an accepted commit has votes, so its encoding cannot be that of the empty commit
      assert |Normalize(pruned).votes| == |pruned.votes|;
    }
    var built := h.prepareWrapped(if h.retain then [bz] + txs else txs, maxTxBytes - |bz|).value;
    InjectedFirst(built, bz, maxTxBytes);
    forall i | 0 <= i < |pruned.votes|
      ensures VoteUsable(h, Normalize(pruned).votes[i])
    {
      PrunedVotesUsable(h, ec.votes[i]);
    }
  }
}
