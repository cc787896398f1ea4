# Slinky's oracle price pipeline in Dafny

A model of how Slinky turns many price reports into one on-chain price, and proofs of what that path
guarantees. The main results:

- **Consensus path** (`StakeMedian`, `ExtendedCommits`, `Proposals`, `OracleKeeper`, `PreBlock`,
  `ExtensionCodec`, `VoteExtensions`, `HonestPrices`, `Pipeline`). Every node computes the same
  stake-weighted median whatever the iteration order of its maps. What a proposer prepares every validator
  accepts, and what validators accept the pre-block step decodes; it also aggregates and writes it, as long as stake is bonded and
  honest prices are below 2^256. With less than a third of the stake faulty every written price lies
  between prices that honest validators signed for this very block (`Pipeline.HandleBlock`). What an
  honest node puts into its vote is accepted (`Pipeline.ExtendAndVerify`), survives pruning, and decodes
  one block later to the price it reported exactly when its pair is still stored under its id and, for
  the delta strategy, at the same on-chain price (`Pipeline.HonestVoteReachesReports`). For each
  side of the honest range the exact condition is an if-and-only-if over all stake distributions, and
  the minimum of more than 1000 bonded units is shown to be tight.
- **Wire codec** (`Varint`, `VoteExtensionWire`, `VoteExtensionParse`, `VoteExtensionRoundTrip`). The
  marshaller fills its buffer backwards and ends exactly at index 0; the parser is total on every byte
  string; decoding gives back the map for every iteration order, also with unknown fields and nested
  groups in between.
- **Strategies** (`Strategies`, `HashStrategy`, `BigIntGob`). Over every run of calls, an if-and-only-if
  for when a per-height cache answers as the uncached keeper would: exactly when what it recorded in the
  current stretch of one height is still true.
- **Sidecar path** (`ProviderFeed`, `OracleTick`, `RealMedian`, `IndexPrices`, `IndexAggregator`).
  "Unchanged" answers never store their placeholder price, a tick aggregates only fresh entries, and the
  index converges to the recursive evaluation of every market.
- **Alert bonds** (`Alerts`, `AlertEscrow`, `AlertRuns`). Over any run the escrow is one bond per open
  alert, every bond leaves it once, and every bond that moved is accounted for, per account.

Code that updates state in place is modelled by classes, arrays and loops, each proved against a function
on values; the laws are lemmas about those functions. Loops over Go maps take an arbitrary element each
time, so their contracts hold for every iteration order. Byte slices distinguish nil from empty where the
code compares with nil. The 64-bit wrap-around of the codec and of the alert heights is written out.

Where code and comments differ the model follows the code: `SetPriceForCurrencyPair` creates an unknown
pair without counting it (`OracleKeeper.PriceSetCounts`), and the sorts use comparators that answer true
for equal elements, so nothing relies on stability.

A Go panic on the modelled paths (division by a zero bonded stake, a price above 256 bits) is a failure
result, and the contracts say exactly when it happens.

The functions that specify the methods are in turn tied to the plain inputs by laws in modules of their own
(`VarintLaws`, `ParserLaws`, `CommitLaws`, `ProposalLaws`, `KeeperLaws`, `PreBlockLaws`, `ExtensionLimits`,
`IndexLaws`, `FeedLaws`, `AlertLaws`): if-and-only-if conditions for acceptance, exact values, and exact outcomes.

Results about limits of the code: when a height takes a second round whose proposal leaves another on-chain
price, the delta strategy still encodes against the first round's price, and the vote decodes to a price that
is off by the difference (`Strategies.SecondRoundShiftsPrice`, `SecondRoundIsStale`; `AnswerExact` is the exact
condition). The median can be pulled below all honest prices at 1000 bonded units
(`StakeMedian.ThousandUnitsAreNotEnough`). Changing the bond parameter while alerts are open always breaks the
backing of the escrow (`AlertRuns.ChangedBondUnbacks`, with what stays possible in `ChangedBondLimits` and
`ChangedBondPruning`).

## Model

| member | source | states |
|---|---|---|
| `VoteWeighted.ComputeMedian` | pkg/math/voteweighted/voteweighted.go:164-196 | sorts in place (a permutation, ascending) and returns the least listed price whose weight at or below it reaches floor(total/2); none exactly for an empty listing |
| `VoteWeighted.MedianPermutation` | pkg/math/voteweighted/voteweighted.go:164-196 | the median of a listing is the median of every permutation of it, so ties and the non-strict comparator do not matter |
| `VoteWeighted.MedianUnique` | pkg/math/voteweighted/voteweighted.go:164-196 | two runs over permuted listings return the same price |
| `StakeMedian.RecordValidator` | pkg/math/voteweighted/voteweighted.go:96-125 | appends one validator's non-nil prices, with its weight, to every pair it reported, in any order of its pairs |
| `StakeMedian.Tally` | pkg/math/voteweighted/voteweighted.go:66-126 | after the accumulation loops each pair lists every bonded reporter once with its stake and price, and the total weight is their stake; other validators do not count |
| `StakeMedian.ListingSums` | pkg/math/voteweighted/voteweighted.go:96-125 | weights summed over a listing are stake summed over the set of validators behind it |
| `StakeMedian.MedianOfListing` | pkg/math/voteweighted/voteweighted.go:164-196 | the median of the listing is the stake median of the ballot it represents |
| `StakeMedian.Median` | pkg/math/voteweighted/voteweighted.go:59-161 | prices exactly the pairs whose reporting stake meets the threshold, each with its stake median; panics exactly when a reported pair meets a total bonded stake of zero |
| `StakeMedian.StakeMedianUnique` | pkg/math/voteweighted/voteweighted.go:164-196 | a ballot has at most one stake median |
| `StakeMedian.MedianPricesUnique` | pkg/math/voteweighted/voteweighted.go:59-161 | the whole price map is determined by reports and staking state: every node gets the same one |
| `StakeMedian.ThresholdExact` | pkg/math/voteweighted/voteweighted.go:136-157 | a reported pair is priced as soon as its stake share reaches the threshold plus one unit of the last decimal, and a priced pair has at least the threshold minus that unit, for any rounding |
| `StakeMedian.DefaultThreshold` | pkg/math/voteweighted/voteweighted.go:136-157 | at 0.667: 66.8 percent of the bonded stake is always enough, 66.6 percent never |
| `StakeMedian.LowerSideExact` | pkg/math/voteweighted/voteweighted.go:136-196 | faulty reporters can pull the median below all honest prices if and only if they hold at least the floored half of the reporting stake |
| `StakeMedian.UpperSideExact` | pkg/math/voteweighted/voteweighted.go:136-196 | they cannot push it above all honest prices if and only if some honest validator reports and honest stake reaches the floored half |
| `StakeMedian.ThresholdMargin` | pkg/math/voteweighted/voteweighted.go:136-157 | at 0.667 with less than a third faulty, honest reporters hold the floored half; above 1000 units the faulty ones hold less than it, for any rounding of the quotient |
| `StakeMedian.HonestRange` | pkg/math/voteweighted/voteweighted.go:136-196 | with less than a third of the bonded stake faulty, the median of a priced pair is at most some honest report and, above 1000 bonded units, at least some honest report |
| `StakeMedian.ThousandUnitsAreNotEnough` | pkg/math/voteweighted/voteweighted.go:164-196 | at exactly 1000 units the threshold can be met with a faulty lower median |
| `Varint.EncodeVarint` | abci/ve/types/vote_extensions.pb.go:143-153 | writes the base-128 digits just before the given offset and leaves the bytes behind it alone |
| `Varint.SovIsLength` | abci/ve/types/vote_extensions.pb.go:175-177 | the bit-length formula is the number of varint bytes, for every value |
| `Varint.DecodeVarint` | abci/ve/types/vote_extensions.pb.go:186-200 | the shift-and-or loop with its 64-bit cut-off, overflow and end-of-buffer errors |
| `Varint.ReadBack` | abci/ve/types/vote_extensions.pb.go:143-200 | reading at a written varint gives back any uint64 and the index behind it |
| `VarintLaws.ReadVarintExactly` | abci/ve/types/vote_extensions.pb.go:186-200 | the value of up to ten digits modulo 2^64, overflow after ten bytes that all continue, end of buffer before a last byte |
| `VarintLaws.VarintOutcomes` | abci/ve/types/vote_extensions.pb.go:186-200 | one of these three outcomes applies to every buffer and index |
| `VoteExtensionWire.EntrySizeIsLength` | abci/ve/types/vote_extensions.pb.go:154-177 | the size computed per entry is the length of its bytes, empty values included |
| `VoteExtensionWire.Size` | abci/ve/types/vote_extensions.pb.go:154-173 | the sum of the entry sizes in any order |
| `VoteExtensionWire.WriteEntry` | abci/ve/types/vote_extensions.pb.go:121-138 | one map entry written backwards: exactly its bytes in front of what was there |
| `VoteExtensionWire.MarshalToSizedBuffer` | abci/ve/types/vote_extensions.pb.go:116-141 | writes exactly Size bytes at the end of the buffer: the entries of every key once, in some order |
| `VoteExtensionWire.Marshal` | abci/ve/types/vote_extensions.pb.go:101-109 | the buffer of Size bytes is filled completely |
| `VoteExtensionParse.SkipOne` | abci/ve/types/vote_extensions.pb.go:349-416 | one turn of the skip loop: all wire types, group depth, negative and overflowing lengths |
| `VoteExtensionParse.SkipVoteExtensions` | abci/ve/types/vote_extensions.pb.go:345-422 | terminates on every buffer, never reads outside it, skips at least one byte on success and agrees with the recursive definition over nested groups |
| `VoteExtensionParse.UnmarshalEntry` | abci/ve/types/vote_extensions.pb.go:242-322 | the loop over one map entry equals the recursive parse, where repeated keys are or-ed together, the last value wins and unknown fields are skipped |
| `VoteExtensionParse.Unmarshal` | abci/ve/types/vote_extensions.pb.go:181-344 | total on every buffer; the loop equals the recursive parse with all its error cases |
| `VoteExtensionRoundTrip.SkipsField` | abci/ve/types/vote_extensions.pb.go:345-422 | every well-formed field, groups nested to any depth included, is skipped to its end |
| `VoteExtensionRoundTrip.SkipsUnknown` | abci/ve/types/vote_extensions.pb.go:324-337 | an unknown field does not change what the rest of the message parses to |
| `VoteExtensionRoundTrip.DecodesMessage` | abci/ve/types/vote_extensions.pb.go:181-344 | any sequence of price entries and unknown fields decodes to the bindings of its entries, later ones winning |
| `VoteExtensionRoundTrip.RoundTrip` | abci/ve/types/vote_extensions.pb.go:101-344 | decoding the bytes of a map, listed in any order, gives the map |
| `VoteExtensionRoundTrip.EncodeThenDecode` | abci/ve/types/vote_extensions.pb.go:101-344 | Unmarshal of Marshal returns the same map |
| `ParserLaws.BadTagsAreRefused` | abci/ve/types/vote_extensions.pb.go:201-213 | group ends, field numbers that are not positive, price fields that are not length-delimited and unknown wire types are errors, whatever follows |
| `ParserLaws.LongEntriesAreRefused` | abci/ve/types/vote_extensions.pb.go:229-238 | an entry whose unsigned 64-bit length leads past the buffer is an error |
| `ParserLaws.CutEntriesAreRefused` | abci/ve/types/vote_extensions.pb.go:181-344 | a message cut off anywhere inside an entry is an error |
| `ParserLaws.SkipRefuses` | abci/ve/types/vote_extensions.pb.go:366-416 | skipping refuses a group end without a start and a negative length |
| `ParserLaws.RepeatedKeysAreOred` | abci/ve/types/vote_extensions.pb.go:262-276 | a key given twice in one entry is the bitwise or of both |
| `ParserLaws.ValueMayPassItsEntry` | abci/ve/types/vote_extensions.pb.go:297-306 | a value may run past its entry within the buffer, and its bytes are read again |
| `ParserLaws.UnknownFieldMustEndInItsEntry` | abci/ve/types/vote_extensions.pb.go:307-320 | an unknown field may not run past its entry |
| `ParserLaws.EntryBytesExample` | abci/ve/types/vote_extensions.pb.go:121-138 | the exact bytes of two entries, one with an empty value |
| `ExtendedCommits.IsSorted` | abci/ve/utils.go:248-256 | true exactly for descending power, then ascending address |
| `ExtendedCommits.ValidateExtendedCommitAgainstLastCommit` | abci/ve/utils.go:237-284 | accepts exactly the commits with the last commit's round and validators in order, distinct addresses, and the same flags except for votes marked absent without data |
| `ExtendedCommits.ValidateVote` | abci/ve/utils.go:145-213 | exactly commit votes carry data, with a valid signature of this extension at the previous height |
| `ExtendedCommits.ValidateVoteExtensions` | abci/ve/utils.go:111-231 | accepts exactly the matching, signed commits with positive total power and at least floor(2/3 total)+1 committing |
| `ExtendedCommits.DefaultValidateVoteExtensions` | abci/ve/utils.go:81-89 | no check while extensions are disabled, the full one otherwise |
| `ExtendedCommits.QuorumIntersection` | abci/ve/utils.go:111-284 | accepted commits hold more than 2/3 of the last commit's power, and any two share committing power above 1/3 |
| `ExtendedCommits.AcceptedDataIsSigned` | abci/ve/utils.go:145-213 | data in an accepted commit is signed by a validator that committed to the last block, and its address appears once |
| `CommitLaws.EnabledHeights` | abci/ve/utils.go:53-68 | a positive enable height e switches extensions on from height e + 1 on, for good; none or 0 never does |
| `CommitLaws.CompareBytesExact` | abci/ve/utils.go:248-256 | the address order is decided by the first differing byte, a prefix coming first |
| `CommitLaws.SortedExactly` | abci/ve/utils.go:248-256 | sorted if and only if power never increases and addresses do not descend among equal powers |
| `CommitLaws.MatchesExactly` | abci/ve/utils.go:237-284 | a commit agrees with the last commit if and only if round, count, order and distinctness hold and each vote is the last commit's or struck without data |
| `CommitLaws.AcceptedExactly` | abci/ve/utils.go:111-284 | a commit is accepted if and only if it agrees with the last commit, exactly its commit votes carry data, signed for the previous height and that round, and more than two thirds of a positive power committed |
| `Proposals.ValidateOracleVoteExtension` | abci/ve/utils.go:24-47 | accepts exactly at most the maximal number of entries of at most 33 bytes |
| `Proposals.ValidateVoteExtension` | abci/proposals/validate.go:88-110 | accepts exactly votes without data, and votes whose extension decodes and is allowed |
| `Proposals.ValidateExtendedCommitInfo` | abci/proposals/validate.go:17-49 | accepts exactly the valid commits all of whose votes are usable |
| `Proposals.PruneAndValidateExtendedCommitInfo` | abci/proposals/validate.go:54-86 | overwrites exactly the unusable votes in place as absent, keeps every other one, and then succeeds exactly when the pruned commit passes |
| `ProposalLaws.UsableExactly` | abci/proposals/validate.go:88-110 | a vote is usable if and only if its extension decodes to at most the allowed entries of at most 33 bytes; if the limit cannot be read, if and only if it has neither extension nor signature |
| `ProposalLaws.PruningPassesExactly` | abci/proposals/validate.go:54-86 | pruning an accepted commit passes if and only if its usable commit votes hold more than two thirds of the power |
| `Proposals.InjectAndResize` | abci/proposals/proposals.go:222-249 | the loop returns the injected transaction, unless empty, present or too large, and then the fitting prefix |
| `Proposals.FittingProperties` | abci/proposals/proposals.go:240-247 | the kept transactions are the longest prefix within the budget, all of them if they fit |
| `Proposals.InjectionIdempotent` | abci/proposals/proposals.go:222-249 | injecting twice is injecting once, for every list, transaction and budget |
| `Proposals.InjectionFillsBudget` | abci/proposals/proposals.go:222-249 | never above a non-negative budget, and one more transaction would be |
| `Proposals.NothingDropped` | abci/proposals/proposals.go:171-206 | nothing is dropped when the wrapped handler kept to the reduced budget |
| `Proposals.StrippingRecovers` | abci/proposals/proposals.go:332-335 | dropping the first transaction gives back the wrapped handler's list if and only if that list does not start with the injected one |
| `Proposals.PrepareProposal` | abci/proposals/proposals.go:99-216 | the outcome, and every field of the request afterwards, also after a failure: votes pruned, byte limit reduced and transaction prepended exactly when the commit passed, encoded and left room |
| `Proposals.ProcessProposal` | abci/proposals/proposals.go:255-351 | an error unless the first transaction decodes to a valid commit; then exactly the wrapped handler's answer on the remaining (or, retained, all) transactions |
| `Proposals.SameContentsAccepted` | abci/ve/utils.go:111-284 | the checks see nil and empty slices alike, so a trip through the codec changes no verdict |
| `Proposals.PreparedProposalIsAccepted` | abci/proposals/proposals.go:131-206 | a prepared proposal starts with the encoded pruned commit, is within the limit and passes ProcessProposal in the same state, with or without the retain option |
| `ProposalLaws.ProposalExactly` | abci/proposals/proposals.go:131-206 | from an accepted commit a proposal is built if and only if the usable power suffices, the commit encodes to less than the limit, and the wrapped handler builds a list from the given transactions in the reduced limit |
| `ProposalLaws.WrappedListIsKept` | abci/proposals/proposals.go:131-206 | a wrapped handler that keeps to the reduced limit finds its whole list in the proposal, behind the commit |
| `ProposalLaws.PassedThrough` | abci/proposals/proposals.go:131-206 | with a wrapped handler that passes transactions through, the proposal is the commit and the request's transactions, and both wrapped handlers are given the same list, with or without the retain option |
| `ProposalLaws.DisabledPassesThrough` | abci/proposals/proposals.go:99-216 | without vote extensions the wrapped handler's list is proposed and verified as it is |
| `OracleKeeper.Keeper.CreateCurrencyPair` | x/oracle/keeper/keeper.go:219-237 | a new pair gets the next id and is counted; an existing one is an error and changes nothing |
| `OracleKeeper.Keeper.RemoveCurrencyPair` | x/oracle/keeper/keeper.go:114-128 | removes the pair, counts the removal and lowers the pair counter, which wraps below zero; an unknown pair is an error and changes nothing |
| `OracleKeeper.Keeper.SetPriceForCurrencyPair` | x/oracle/keeper/keeper.go:196-215 | a known pair gets the price and a higher nonce, an unknown one is created without being counted |
| `OracleKeeper.Keeper.WritePrices` | abci/preblock/oracle/utils.go:27-66 | exactly the pairs in the store that have a price get it, with nonce plus one; no pair appears; panics exactly when a price to be stored exceeds 256 bits |
| `OracleKeeper.Keeper.BeginBlocker` | x/oracle/keeper/abci.go:11-15 | a new block starts with no removed pairs and changes nothing else |
| `OracleKeeper.StepConsistent` | x/oracle/keeper/keeper.go:114-237 | creating, removing and pricing keep ids unique and the counter right, and never lower current plus removed pairs |
| `OracleKeeper.BlockBoundsOldPairs` | x/oracle/keeper/keeper.go:114-237 | over any block, current plus removed pairs bound the pairs at its start |
| `OracleKeeper.BlockKeepsOldIds` | x/oracle/keeper/keeper.go:114-237 | ids are never given twice: a pair that has an old id after a block had it before, with its record untouched unless prices were written |
| `OracleKeeper.PriceSetCounts` | x/oracle/keeper/keeper.go:196-215 | setting a price keeps the counter right if and only if the pair exists |
| `KeeperLaws.BlockCounts` | x/oracle/keeper/keeper.go:114-237 | over any block the counter is the number of pairs, and pairs plus removals grow by exactly one for every id given out |
| `KeeperLaws.NewPairIsBlank` | x/oracle/keeper/keeper.go:219-237 | a new pair has a new id, nonce 0 and no price, and creating it again changes nothing |
| `KeeperLaws.PriceCreatesPair` | x/oracle/keeper/keeper.go:196-215 | a price for an unknown pair creates it with the next id and nonce 0, and leaves the counter one short |
| `KeeperLaws.NonceCountsWrites` | x/oracle/keeper/keeper.go:196-215 | over any block that does not remove a pair, its nonce counts the prices written for it, and its price is the last of them with its time and height |
| `KeeperLaws.OnlyCreationAdds` | abci/preblock/oracle/utils.go:27-66 | writing prices never adds a pair to the store |
| `PreBlock.GetOracleVotes` | abci/strategies/aggregator/vote_aggregator.go:29-61 | succeeds exactly when commit and all extensions decode, with one vote per commit vote in order |
| `PreBlock.DecodeVote` | abci/strategies/aggregator/vote_aggregator.go:152-203 | fails exactly for a price above 33 bytes; otherwise the decoded price of every known pair, whatever the order of the ids |
| `PreBlock.VoteAggregator.AddVoteToAggregator` | abci/strategies/aggregator/vote_aggregator.go:152-205 | an empty vote adds nothing; otherwise the validator's decoded prices are stored under its address |
| `PreBlock.VoteAggregator.AggregateOracleVotes` | abci/strategies/aggregator/vote_aggregator.go:116-146 | succeeds exactly when no price is too long and the division by the bonded stake is defined, and returns the stake medians of the collected reports |
| `PreBlock.DataAggregator.AggregateData` | aggregator/aggregator.go:127-135 | the aggregate of the provider data is its stake-median price map; it panics exactly on a division by zero, and then keeps the old aggregate |
| `PreBlock.PreBlockHandler.PreBlocker` | abci/preblock/oracle/preblock.go:79-177 | exactly when it succeeds; each stored pair then holds its stake median, stamped and with its nonce raised, or is unchanged; errors before the writes change nothing, and no pair ever appears or disappears |
| `PreBlockLaws.LongPricesStopTheBlock` | abci/strategies/aggregator/vote_aggregator.go:152-161 | the step only succeeds when no vote, whoever cast it, holds a price of more than 33 bytes |
| `PreBlockLaws.LastVoteCounts` | abci/strategies/aggregator/vote_aggregator.go:116-205 | of several votes of one validator the last one with prices counts |
| `PreBlockLaws.WrittenPricesFit` | abci/preblock/oracle/utils.go:27-66 | written prices lie strictly within 2^256 of zero, and exactly such prices can be written |
| `PreBlock.AcceptedIsUsable` | abci/strategies/aggregator/vote_aggregator.go:29-61 | every proposal that passes ProcessProposal decodes with short prices and, as long as any stake is bonded, aggregates without an error |
| `PreBlock.AcceptedVotesAllCount` | abci/strategies/aggregator/vote_aggregator.go:116-205 | in an accepted proposal no validator's prices are overwritten by another vote |
| `PreBlock.StrategyDecoderIsInjective` | abci/strategies/currencypair/default.go:59-114 | in any store the strategies never name one pair by two ids |
| `PreBlock.StrategyDecoderIsNonNegative` | abci/strategies/currencypair/delta.go:62-84 | no strategy decodes to a negative price |
| `Pipeline.ReportsComeFromVotes` | abci/strategies/aggregator/vote_aggregator.go:116-205 | every collected report is the decoded content of a vote of that validator |
| `Pipeline.ReportIsSigned` | abci/strategies/aggregator/vote_aggregator.go:29-61 | in an accepted proposal each reported price comes from an extension its validator signed for this block |
| `Pipeline.AcceptedPricesAreHonest` | abci/preblock/oracle/preblock.go:79-177 | with under a third of stake faulty, each stake median of an accepted proposal's reports is bracketed by prices validators outside the faulty ones signed for this block (the lower side above 1000 units) |
| `Pipeline.HonestMediansFit` | abci/preblock/oracle/utils.go:27-66 | when honest reports are below 2^256 and less than a third is faulty, no median overflows the store's integers, whatever the faulty ones reported |
| `Pipeline.StoredPricesAreHonest` | abci/preblock/oracle/preblock.go:79-177 | every price the pre-block step of an accepted proposal changed in the store is bracketed by honest signed prices |
| `Pipeline.HandleBlock` | abci/preblock/oracle/preblock.go:79-177 | ProcessProposal and then PreBlocker on the keeper: nothing accepted fails afterwards while honest prices fit, and each price the keeper then holds is the old one or bracketed by honest signed prices |
| `Pipeline.ProposalReachesStore` | abci/proposals/proposals.go:131-206 | a prepared proposal is accepted, decodes and, as long as any stake is bonded, aggregates; every usable vote the proposer held is among the reports with exactly its prices |
| `Pipeline.HonestVoteReachesReports` | abci/proposals/proposals.go:131-206 | the bytes of ExtendVote in a vote of the proposer's commit one block later: the vote is not pruned, its validator is among the reports of the accepted proposal, and each decoded price is the reported one if and only if its pair is still readable |
| `Pipeline.ExtendAndVerify` | abci/ve/vote_extension.go:77-285 | ExtendVote and then VerifyVoteExtension from a consistent store with prices below 2^256: always accepted, whatever the proposal holds and whichever step fails |
| `VoteExtensions.TransformOracleServicePrices` | abci/ve/vote_extension.go:290-343 | fails exactly on an unparsable pair or price; otherwise an entry for each id a price contributes to, and nothing else |
| `VoteExtensions.ExtendVote` | abci/ve/vote_extension.go:77-207 | the encoding, in some map order, of the sidecar's prices under the state the pre-block step just wrote into a branch, or the empty extension exactly when a step fails; the branch has the same pairs, ids and counters, and without vote extensions nothing changed in it |
| `VoteExtensions.VerifyVoteExtension` | abci/ve/vote_extension.go:213-285 | accepts exactly empty extensions and those that decode and are allowed |
| `VoteExtensions.EntriesBoundedByPairs` | abci/ve/utils.go:24-47 | entries whose ids belong to pairs are at most as many as the pairs |
| `ExtensionLimits.VerifiedIsSmall` | abci/ve/utils.go:24-47 | an extension that passes verification has at most as many entries as the store has pairs, and marshals to at most 48 bytes for each of them |
| `ExtensionLimits.OverfullIsPruned` | abci/strategies/currencypair/default.go:116-138 | a vote with more entries than current and just removed pairs together is struck from a proposal |
| `VoteExtensions.HonestIsVerified` | abci/ve/utils.go:24-47 | the entries of an honest extension are within the limits if and only if its numbers are below 2^256 in magnitude |
| `VoteExtensions.HonestIsNeverPruned` | abci/strategies/currencypair/default.go:116-138 | the proposal-time limit after any block of creations, removals and prices covers the entries an honest node built in the state before it |
| `VoteExtensions.TransformedIsHonest` | abci/ve/vote_extension.go:290-343 | what the handler builds from prices below 2^256 is an honest extension in range |
| `VoteExtensions.HonestExtensionIsVerified` | abci/ve/vote_extension.go:213-285 | whatever bytes ExtendVote returns for prices below 2^256, through the wire codec with or without compression, VerifyVoteExtension accepts in the same state |
| `VoteExtensions.HonestExtensionSurvives` | abci/proposals/validate.go:54-110 | a vote that carries those bytes is usable and left unpruned at the next height, whatever pairs the block in between created, removed or priced |
| `HonestPrices.StrategyEncoderIsHonest` | abci/strategies/currencypair/delta.go:33-56 | each strategy gives ids to stored pairs only and encodes the difference to zero or to the on-chain price |
| `HonestPrices.EntryDecodes` | abci/strategies/currencypair/delta.go:33-84 | an entry whose pair is still stored under its id decodes to the reported price if and only if, for the delta strategy, the on-chain price is the one it was built against |
| `HonestPrices.HonestPriceArrives` | abci/strategies/aggregator/vote_aggregator.go:152-205 | an entry whose own pair is still readable in a later store decodes to the price the sidecar reported, whatever happened to all other pairs, for the default, delta and hash strategies |
| `HonestPrices.HonestPricesArriveExactly` | abci/strategies/aggregator/vote_aggregator.go:152-205 | from the bytes ExtendVote returned and across any block of creations, removals and prices: each entry decodes to the reported price if and only if its pair is readable, and a pair no longer named gets no price |
| `HonestPrices.UnnamedEntryIsSkipped` | abci/strategies/aggregator/vote_aggregator.go:163-177 | with stored ids, the entry of a removed (or removed and re-created) pair is read as no pair at all |
| `HonestPrices.KeptPairsAreReadable` | x/oracle/keeper/keeper.go:114-237 | after a block that only creates and removes pairs, every pair that kept its id is readable by every strategy |
| `ExtensionCodec.Encode` | abci/strategies/codec/codec.go:51-147 | the marshalled map in some order, compressed if configured, or an error |
| `ExtensionCodec.Decode` | abci/strategies/codec/codec.go:55-158 | decompression and then the parser, with their errors |
| `ExtensionCodec.DecodeUndoesEncode` | abci/strategies/codec/codec.go:51-158 | decoding gives back the extension for every map order, with or without a lossless compressor |
| `BigIntGob.GobRoundTrip` | abci/strategies/currencypair/default.go:85-114 | gob decoding undoes gob encoding for every integer |
| `BigIntGob.GobLength` | abci/strategies/currencypair/default.go:85-114 | an encoded integer takes at most 33 bytes if and only if its magnitude is below 2^256 |
| `BigIntGob.GobForm` | abci/strategies/currencypair/default.go:85-95 | a sign byte of 2 or 3, then the magnitude without leading zeros, highest byte first |
| `Strategies.FromIDUndoesID` | abci/strategies/currencypair/default.go:38-81 | FromID undoes ID on all pairs if and only if the ids are unique |
| `Strategies.DeltaRoundTrip` | abci/strategies/currencypair/delta.go:33-84 | decoding an encoded non-negative price against the same on-chain price returns it |
| `Strategies.FirstPriceIsPlain` | abci/strategies/currencypair/delta.go:106-118 | for a pair without a price the delta strategy encodes the price itself, as the default strategy does, and reads it back |
| `Strategies.LaterPriceIsDifference` | abci/strategies/currencypair/delta.go:33-56 | a pair with a price is encoded as the difference to it, and an unknown pair is an error |
| `Strategies.DefaultStrategy.ID` | abci/strategies/currencypair/default.go:38-55 | answer and cache after ID, the cache cleared on a new height |
| `Strategies.DefaultStrategy.FromID` | abci/strategies/currencypair/default.go:59-81 | answer and cache after FromID: the cached pair, or a pair the index holds for the id, which is then cached; in a store with unique ids that is the only one |
| `Strategies.DeltaStrategy.GetOnChainPrice` | abci/strategies/currencypair/delta.go:89-122 | answer and cache of the on-chain price lookup, 0 for a pair without a price |
| `Strategies.DeltaStrategy.GetEncodedPrice` | abci/strategies/currencypair/delta.go:33-56 | refuses negative prices without touching the cache, otherwise encodes the difference to the on-chain price |
| `Strategies.DeltaStrategy.GetDecodedPrice` | abci/strategies/currencypair/delta.go:62-84 | adds the on-chain price back and refuses negative sums and bad encodings |
| `Strategies.FromIDExact` | abci/strategies/currencypair/default.go:59-81 | a cached FromID answers as the keeper if and only if its cached entry, if any, is still the keeper's |
| `Strategies.PriceCacheHoldsRecord` | abci/strategies/currencypair/delta.go:89-122 | after any run of calls the price cache holds, for each pair, the price of its first lookup in the current stretch of lookups at one height |
| `Strategies.IdCacheHoldsRecord` | abci/strategies/currencypair/default.go:38-81 | after any run of calls the id cache holds what ID, or a FromID that missed, last recorded in the current stretch |
| `Strategies.AnswerExact` | abci/strategies/currencypair/delta.go:33-122 | over every run of ID, FromID, encode and decode, with any heights and a keeper that changes at will, answer i is the uncached one if and only if what the caches recorded for it in the current stretch is still what the keeper says |
| `Strategies.SecondRoundShiftsPrice` | abci/strategies/currencypair/delta.go:33-56 | two extensions at one height with on-chain prices q and then q' for a pair: the second one decodes to the reported price plus q' - q, or is refused when that is negative; it gives the reported price if and only if q = q' |
| `Strategies.SecondRoundIsStale` | abci/strategies/currencypair/delta.go:89-122 | the run with 100 and then 200 on chain: the price 300 is encoded as a difference of 200 and decodes to 400 |
| `Strategies.CachesAreTransparent` | abci/strategies/currencypair/delta.go:33-122 | under the hypothesis that the keeper's ids and prices do not change within a stretch of each cache, every answer of every interleaving is the uncached one |
| `Strategies.ForwardIsEqualContent` | abci/strategies/currencypair/delta.go:33-122 | with heights that never decrease it is enough that neighbouring calls of one height see equal ids and prices |
| `HashStrategy.HashedFromIDUndoesID` | abci/strategies/currencypair/hash.go:29-87 | FromID undoes ID on all pairs if and only if no two pairs share a hash |
| `HashStrategy.HashStrategy.FromID` | abci/strategies/currencypair/hash.go:55-87 | answer and cache after FromID: a hit, or a fill in which every stored hash leads to a pair with that hash and nothing else changes; without collisions that is the full index |
| `HashStrategy.HashAnswerExact` | abci/strategies/currencypair/hash.go:29-87 | over every run without collisions, answer i is the uncached one if and only if the pair recorded for the asked hash in the current stretch is still in the store |
| `HashStrategy.HashCacheIsTransparent` | abci/strategies/currencypair/hash.go:29-87 | under the hypothesis that the store's pairs do not change within a stretch of equal heights, every answer of every interleaving without collisions is the uncached one |
| `RealMedian.SortedUnique` | pkg/math/math.go:104-116 | two sorted permutations are equal, so any sort with this comparator gives the same list |
| `RealMedian.MedianWithinMajority` | pkg/math/math.go:120-139 | the median lies in every interval that holds a strict majority of the values |
| `RealMedian.MedianIsSymmetric` | pkg/math/math.go:120-139 | negating the values negates the median, so an even count takes the average of the middle two |
| `IndexAggregator.SortBigFloats` | pkg/math/math.go:104-116 | permutes the slice of references into ascending order and writes no number |
| `IndexAggregator.CalculateMedian` | pkg/math/math.go:120-139 | the median of the values; for an odd count it is one of the given objects, otherwise a new one; nil exactly for none |
| `IndexAggregator.ScaleBigFloat` | pkg/math/math.go:93-101 | multiplies its argument in place by 10^decimals and returns that object |
| `IndexAggregator.IndexPriceAggregator.GetProviderPrice` | pkg/math/oracle/utils.go:15-37 | the cached price or its inverse, an error exactly when it is missing or nil |
| `IndexAggregator.IndexPriceAggregator.CalculateAdjustedPrice` | pkg/math/oracle/aggregator.go:192-211 | the provider price, times the previous index price of the pair it is normalised by |
| `IndexAggregator.IndexPriceAggregator.CalculateConvertedPrices` | pkg/math/oracle/aggregator.go:137-180 | the adjusted prices of exactly the providers that have one, in order |
| `IndexAggregator.IndexPriceAggregator.PriceMarket` | pkg/math/oracle/aggregator.go:80-125 | index and scaled price of one market as two new objects, none when disabled or below the provider minimum |
| `IndexAggregator.IndexPriceAggregator.AggregatePrices` | pkg/math/oracle/aggregator.go:73-132 | in any market order the new index is that of the old index and the cache, scaled prices are index times 10^decimals, all results are new objects and no existing number is written |
| `IndexPrices.TickPrices` | pkg/math/oracle/aggregator.go:73-132 | same keys, scaled is index times 10^decimals, and each price lies in any interval holding a strict majority of its converted prices |
| `IndexLaws.AdjustedIsQuote` | pkg/math/oracle/aggregator.go:192-211 | the adjusted price is the cached price, inverted if configured, times the reference's index price, and missing exactly when one of them is |
| `IndexLaws.PricedExactly` | pkg/math/oracle/aggregator.go:80-104 | a market is priced if and only if it is enabled and at least its minimum, and at least one, of its providers quote |
| `IndexLaws.WithinQuotes` | pkg/math/oracle/aggregator.go:106-112 | the index price lies in every interval that holds a strict majority of the quotes |
| `IndexLaws.SingleProvider` | pkg/math/oracle/aggregator.go:73-132 | with one provider the index price is its cached price, or the inverse, times the reference's index price |
| `IndexLaws.TwoProviders` | pkg/math/oracle/aggregator.go:73-132 | with two quoting providers it is the average of their quotes |
| `IndexLaws.ScaledBy` | pkg/math/math.go:93-101 | scaling by 8 decimals multiplies by 100000000, by 18 decimals by 10^18 |
| `IndexPrices.ProviderOrderIrrelevant` | pkg/math/oracle/aggregator.go:137-180 | reordering a market's providers does not change its price |
| `IndexPrices.TickSettles` | pkg/math/oracle/aggregator.go:192-211 | each tick makes one more level of references equal to the recursive evaluation |
| `IndexPrices.IndexConverges` | pkg/math/oracle/aggregator.go:73-132 | with reference chains of length at most d, after d+1 ticks from any stale index the prices are the recursive evaluation of every market, and stay there |
| `IndexLaws.ChainConverges` | pkg/math/oracle/aggregator.go:73-132 | a chain of single-provider markets has, after as many ticks as it is long, the product of the provider prices along it, from any stale index |
| `ProviderFeed.Provider.UpdateData` | providers/base/fetch.go:200-243 | first result stored, older result dropped, "unchanged" moves only the timestamp, otherwise replaced |
| `ProviderFeed.Provider.Receive` | providers/base/fetch.go:161-178 | a response updates each of its ids independently, in any order, and no other id |
| `ProviderFeed.TimestampsNeverDecrease` | providers/base/fetch.go:200-243 | under any updates entries stay and their timestamps never decrease |
| `ProviderFeed.WebSocketHandler.CheckSequenceNumber` | providers/websockets/coinbase/parse.go:102-126 | accepts exactly the first and the non-decreasing sequence numbers, and records only those |
| `ProviderFeed.WebSocketHandler.ParseTickerResponseMessage` | providers/websockets/coinbase/parse.go:19-57 | state, response and error of a ticker message in all four cases; the trade id is recorded only with a resolved price |
| `ProviderFeed.WebSocketHandler.ParseHeartbeatResponseMessage` | providers/websockets/coinbase/parse.go:63-97 | state, response and error of a heartbeat; "unchanged" only for the recorded trade id, and an unknown trade is no error |
| `ProviderFeed.FeedInvariant` | providers/websockets/coinbase/parse.go:19-126 | over any message sequence with a non-decreasing clock no "unchanged" precedes a trade of its ticker, and results are in time order |
| `FeedLaws.InOrderIsInSequence` | providers/websockets/coinbase/parse.go:102-126 | a message is in order if and only if no earlier message about its ticker had a greater sequence number |
| `FeedLaws.SentExactly` | providers/websockets/coinbase/parse.go:19-126 | over any run the updates sent are exactly those the messages alone call for, and the handler remembers the greatest sequence number and the latest accepted trade id |
| `FeedLaws.UnchangedExactly` | providers/websockets/coinbase/parse.go:63-97 | a heartbeat is answered "unchanged" if and only if it is in sequence and names the trade id of its ticker's latest accepted trade |
| `FeedLaws.ResponseIsAboutSubject` | providers/websockets/coinbase/parse.go:19-97 | a message resolves exactly its ticker or leaves exactly it unresolved, and only a heartbeat is left unresolved without an error |
| `ProviderFeed.CacheHoldsLastTrade` | providers/base/fetch.go:200-243 | the cached price is that of the ticker's last delivered trade, and its timestamp that of the ticker's last delivered update |
| `ProviderFeed.FeedNeverStoresPlaceholder` | providers/base/fetch.go:200-243 | at every point of in-order delivery the feed's cache holds last trade prices only, and each "unchanged" moved one timestamp and nothing else |
| `FeedLaws.CacheHoldsLatestTrade` | providers/base/fetch.go:200-243 | from messages to the cache: once everything is delivered it holds each ticker's latest accepted trade price, and nothing for a ticker without one |
| `ProviderFeed.PlaceholderFreeExactly` | providers/base/fetch.go:200-243 | for results in time order the cache never holds a placeholder if and only if each ticker's first delivered result is a trade |
| `OracleTick.Oracle.FetchPrices` | oracle/oracle.go:171-239 | a stopped provider changes nothing; for a running one every entry is measured with a clock reading of its own, and an off-chain ticker has a price exactly when some entry with it was within the maximal age at its reading, namely such an entry's |
| `OracleTick.Oracle.Tick` | oracle/oracle.go:140-167 | afterwards the aggregator holds only entries of running providers that were within the maximal age at their own reading in this tick, no running provider is missing, and the index is computed from exactly them |
| `OracleTick.FilteredExactly` | oracle/oracle.go:206-231 | with distinct off-chain tickers the filtered prices are exactly the entries within the maximal age at their readings |
| `OracleTick.FetchedEntry` | oracle/oracle.go:140-239 | each price in the aggregator after the fetch comes from a running provider's cache and was within the maximal age at a reading of this tick |
| `OracleTick.SilentMarketIsUnpriced` | oracle/oracle.go:140-239 | a market whose feeds were all silent for longer than the maximal age has no price after the tick, whatever its index price was before |
| `Alerts.Keeper.Alert` | x/alerts/keeper/msg_server.go:32-104 | every rejection, the wrapped age test, and on success one bond escrowed and one open alert stored with its purge height |
| `Alerts.Keeper.ConcludeAlert` | x/alerts/keeper/conclusions.go:21-87 | every rejection leaves the state alone; on success the bond goes to the stored signer or is burned, and the alert is closed with its new purge height |
| `Alerts.Keeper.GetAllAlerts` | x/alerts/keeper/keeper.go:98-128 | every stored alert once, in some order |
| `Alerts.Keeper.EndBlocker` | x/alerts/keeper/abci.go:17-58 | nothing while pruning is disabled; otherwise the outcome of sweeping some snapshot of the table, stopping at the first error |
| `AlertLaws.FilingExactly` | x/alerts/keeper/msg_server.go:32-104 | an alert is filed if and only if, in plain numbers, it is at most maxBlockAge blocks old (or its unsigned age wraps to that), new, valid, of a known pair, enabled, and its bond can be paid |
| `AlertLaws.FiledRecord` | x/alerts/keeper/msg_server.go:71-84 | the stored record: open, with the block height and time it was filed in; other alerts are untouched |
| `AlertLaws.VerdictNumbers` | x/alerts/keeper/conclusions.go:13-61 | verdict 0 refunds the stored signer, 1 burns the bond, others are refused; the stored status becomes 1 |
| `AlertLaws.FiledIsKept` | x/alerts/keeper/abci.go:36-55 | pruning removes an open alert exactly from blocksToPrune blocks after the block it was filed in |
| `AlertLaws.ConcludedIsKept` | x/alerts/keeper/abci.go:36-55 | pruning removes a concluded alert exactly from maxBlockAge blocks after its height |
| `AlertLaws.KeysTellApart` | x/alerts/keeper/keeper.go:79-95 | alerts for different heights or pairs have different keys as long as no base contains a slash |
| `AlertLaws.SlashedKeysCollide` | x/alerts/keeper/keeper.go:79-95 | two pairs with a slash in a name share a key |
| `AlertEscrow.FilingBacksTheAlert` | x/alerts/keeper/msg_server.go:32-104 | filing keeps the escrow at one bond per open alert and takes the bond from the signer alone |
| `AlertEscrow.ConclusionSucceeds` | x/alerts/keeper/conclusions.go:21-61 | whatever the escrow holds, a conclusion succeeds if and only if the alert is open and valid, the verdict is negative or positive with a payable signer, and the escrow holds a bond, which a backed one does |
| `AlertEscrow.ConclusionIsFinal` | x/alerts/keeper/conclusions.go:33-61 | a conclusion keeps the escrow backed, and a second one fails whatever its verdict |
| `AlertEscrow.SweepPays` | x/alerts/keeper/abci.go:36-55 | from any point of any snapshot, also when it stops early, the sweep refunds only due alerts to their signers and changes no other alert |
| `AlertEscrow.SweepSucceeds` | x/alerts/keeper/abci.go:36-55 | the sweep gets through if and only if all due open signers are payable and the escrow covers their bonds; then exactly the due alerts are gone |
| `AlertEscrow.PruningLeavesTheRest` | x/alerts/keeper/abci.go:17-58 | a successful pruning leaves exactly the alerts with purge height above the block height, unchanged; it succeeds if and only if every due open alert's signer can be paid and the escrow covers them, which a backed one always does and stays |
| `AlertRuns.StepMoves` | x/alerts/keeper/conclusions.go:21-87 | every call, failed ones included, opens exactly the alert it files and closes exactly those it concludes or sweeps, and moves one bond for each: from the filer, and to the stored signer or to burned |
| `AlertRuns.BondLeavesOnce` | x/alerts/keeper/conclusions.go:21-87 | over every run of filings, conclusions and prunings from an empty table, payouts under a key equal filings under it, minus one while its alert is open |
| `AlertRuns.PayoutsNeedFilings` | x/alerts/keeper/conclusions.go:33-36 | between two payouts under one key a new bond was filed under it |
| `AlertRuns.RunConservesBonds` | x/alerts/keeper/conclusions.go:21-87 | over any run each account has paid one bond per alert filed and got one back per alert refunded, burned coins are one bond per slashed alert, and a backed escrow stays one bond per open alert |
| `AlertRuns.EscrowBalance` | x/alerts/keeper/conclusions.go:21-87 | over any run, whatever the escrow held at first, it gained one bond per alert filed and lost one per alert settled |
| `AlertRuns.ChangedBondUnbacks` | x/alerts/keeper/msg_server.go:197-224 | after a change of the bond the escrow is backed if and only if no alert was open |
| `AlertRuns.ChangedBondLimits` | x/alerts/keeper/conclusions.go:21-87 | after a change from b to b' with n open alerts and over any run with f new filings, settled alerts times b' never exceed n times b plus f times b', and one more can be settled if and only if that leaves b' for it |
| `AlertRuns.ChangedBondPruning` | x/alerts/keeper/abci.go:17-58 | pruning then gets through if and only if the due open signers are payable and their number times b' is at most n times b |

## Left out

- Logging, metrics, latency measurements, panic recovery, mutexes, goroutines and contexts: they do not enter the computed results.
- Store and codec errors that depend on the disk or on protobuf internals, except where they decide a modelled branch.
- Signature cryptography, bech32, sha256, compression and the protobuf encoding of extended commits: functions with the laws the proofs need (round trip, for commits up to nil slices; empty bytes decode to the empty message).
- int64 overflow of voting power and of byte sums: the total power CometBFT allows keeps both far away from it. Counters that grow by one, ids and nonces are unbounded naturals for the same reason.
- LegacyDec.Quo: any function within 10^-18 of the quotient, which includes each rounding mode.
- Sorting: an insertion sort with the code's comparator stands for the library sorts; `VoteWeighted.MedianUnique` and `RealMedian.SortedUnique` cover every other algorithm.
- StakeMedian.Median: the two ways a validator lookup can fail (unparsable address, unknown validator) are one case, since both skip the validator.
- VoteExtensions.ExtendVote: the sidecar's response is an input, and the strategy answers as the keeper does in the state the pre-block step left; `Strategies.AnswerExact` says exactly when a caching strategy does.
- PreBlock.PreBlockHandler.PreBlocker: the strategy's answers are a fixed decoder during one call; `Strategies.AnswerExact` and `HashStrategy.HashAnswerExact` say exactly when a caching strategy gives them.
- OracleTick.Oracle.Tick: caches do not change while a tick reads them; the market map is a validated one, and cached prices that are inverted are not zero.
- IndexAggregator.IndexPriceAggregator.GetProviderPrice: prices are exact reals, so a zero price that is inverted (an infinity in big.Float) is excluded, as is big.Float rounding.
- IndexAggregator.IndexPriceAggregator.CalculateAdjustedPrice: an inverted zero price is excluded in the same way.
- IndexAggregator.IndexPriceAggregator.CalculateConvertedPrices: an inverted zero price is excluded in the same way.
- IndexAggregator.IndexPriceAggregator.PriceMarket: an inverted zero price is excluded in the same way, and so is the one input on which the source panics, an enabled market with a provider minimum of zero and no price.
- IndexAggregator.IndexPriceAggregator.AggregatePrices: as for PriceMarket; market map keys equal their tickers, as market map validation demands.
- Alerts.Keeper.EndBlocker: the store iterates in key order; the model allows any order and the outcome on success does not depend on it.
- Coins other than the bond's denomination, coins sent to the module account from outside, genesis import and the incentives issued by a conclusion.
- Verification of conclusions by multi-signature, price bounds and the incentive handlers.
- pkg/types/currency_pair.pb.go: generated in the same pattern as the vote extension codec.
- abci/preblock/sla and the SLA module: map filling for a keeper that only records.
- Exchange handlers other than Coinbase, HTTP and gRPC plumbing, provider life cycle, market map updates, configuration, command line tools.
