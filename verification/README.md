# A verified model of the shielded-pool SDK

The SDK keeps a private pool of outputs (UTXOs). A client follows the contracts' event logs, keeps a
Merkle tree of commitments and a set of nullifiers up to date, decrypts the outputs that belong to its
user, chooses inputs for a transaction and builds change, recipient and fee amounts. This project models
those parts in Dafny and proves what they promise each other.

| file | part of the system |
|---|---|
| `Powers`, `Division`, `Numerals`, `Wrappers` | shifts and bit lengths, truncating division, numerals as text, `Option` and `Result` |
| `MerkleTree`, `MerkleInvariant`, `MerkleRoots`, `MerklePaths`, `MerkleTreeImpl` | the sparse incremental Merkle tree: its operations as functions on a value, the invariant of every write, roots, membership paths, and the object updated in place |
| `ChainEvents`, `Commitments`, `Nullifiers`, `Replay`, `SnapshotServices` | the two snapshot services under events in any order |
| `EventSync`, `Restart`, `OrderedRuns`, `EventGathering` | the emitter's watermark protocol as a step machine, restarts and resets, and event retrieval |
| `Subsequences`, `Utxos`, `InputSelection`, `BalanceCache`, `StuckUtxos` | sublists by increasing positions, lists of outputs, input selection and padding, cached decryption, the stuck-output withdrawal loop |
| `OkxInstructions`, `UtxoPlaintext`, `DecimalUnits` | the transformations: account-table compaction, the output's plaintext, decimal amounts |
| `Fees`, `ValueConservation`, `RecipientMatching` | fees and payout amounts, conservation of value in a transfer, deposits matched to recipients |

`dafny verify dfyconfig.toml` checks everything. State that the code updates in place is a class whose
methods are proved to follow functions on values (`MerkleTreeImpl.MerkleTree.Model`,
`SnapshotServices.CommitmentsSnapshotService.Model`); the lemmas about whole runs are about those functions.

## What the proofs found

Some promises hold only under a condition. Each is stated as an if-and-only-if, with failing cases.

- Root scan: the root is found by skipping zero values on the left spine. The scan gives the canonical root
  exactly when the tree is empty, that root is not 0, or there is nothing but 0 to find
  (`MerkleRoots.RootExactlyWhen`, `MerkleRoots.ZeroHashMissesRoot`). With a hash that never yields 0 the one
  deviation left is a tree holding the single leaf 0 (`MerkleRoots.RootWithNonZeroHash`).
- Paths: the path served for a value is valid exactly when the position at which the value was last written
  still holds it (`MerklePaths.PathInEveryRun`), so a value inserted at two positions can lose its path
  (`MerklePaths.TwoPositionsLoseThePath`). A tree read back without its reverse map does not have this problem
  (`MerklePaths.ReloadedTreeServesPaths`).
- Watermark: a snapshot load pulls the watermark down, but not a start block already read from it, by a waiting
  poll, by the client listener or by the batch in flight. The guarantee is kept by every load that misses no
  event below those start blocks, apart from events the batch in flight is about to bring to that service
  (`EventSync.StepKeeps`). After any other load the machine can go on to a watermark above a missing event
  (`EventSync.MissedBreaks`); `EventSync.ReloadBreaks` is such a run of ten steps.
- Commitments: an event keeps map, list and leaves in step exactly when the replaced value is held at no other
  leaf, no third commitment uses the dropped output, and no output loses its only commitment
  (`Commitments.TidyExactlyWhen`, `Commitments.UntidyRun`). Replaying over a replaced leaf keeps the list exactly when its output was
  last already (`Replay.ReplacedLeafReorders`).
- Balance cache: a query gives the full scan exactly when the cache holds the owned outputs of the part of the
  list it takes as covered (`BalanceCache.FullScanExactlyWhen`). Once the remembered output is replaced the
  cache is frozen for good (`BalanceCache.RemovedOutputFreezesTheCache`); a replaced earlier output of the user's is
  served for ever (`BalanceCache.ReplacedOutputLingers`).
- Instruction compaction: an account index is a byte, with 255 reserved. A reference resolves to its key
  exactly when its table position is below 255 (`OkxInstructions.ResolvesExactlyBelow255`,
  `OkxInstructions.LateAccountIsMisread`).
- Plaintext: a printed output reads back exactly when both addresses have text without a further mark and no
  negative number has an even number of digits, which puts its padding zero in front of the sign
  (`UtxoPlaintext.PlaintextRoundTrip`, `UtxoPlaintext.NegativeAmountIsLost`).
- Amount check: besides equal amounts, `EnsureAmountChanges` accepts amounts that differ by the field modulus
  across zero, so it is exact below half the modulus and no further (`ValueConservation.HalfTheModulus`).
- Transfers: only the first token has a recipient output; every other token of a multi-token transfer leaves
  by its own change. Two rows of inputs share outputs exactly when a token is listed twice
  (`ValueConservation.BuildTransfer`).
- Payout: `CalculateWithdrawalAmount` gives the largest affordable amount exactly when the remainder of its
  division is at most the rate (`Fees.PayoutIsLargestExactlyWhen`), and leaves that remainder behind, rounded
  up to units (`Fees.LeftBehindIsTheRemainder`).

## Model

| member | source | states |
|---|---|---|
| MerkleInvariant.InsertValid | data-structures/merkletree/impl.go:85-94 | Every insertion, at any position of the leaf range, keeps the node invariant although it recomputes one partial path; it adds or overwrites that one leaf and leaves all others as they were. |
| MerkleInvariant.RemoveValid | data-structures/merkletree/impl.go:96-98 | Removing a held leaf keeps the invariant, stores the default there and touches no other leaf. |
| MerkleInvariant.ForceInsertValid | data-structures/merkletree/impl.go:269-297 | Rewriting ceil(log2 n) ancestors of one leaf restores the invariant for the whole tree. |
| Powers.CeilLog2Range | data-structures/merkletree/impl.go:315-320 | The bit length of n - 1 is the least height whose span holds n leaves. |
| MerkleRoots.CompleteIsContiguous | data-structures/merkletree/impl.go:139-146 | The count-against-index check passes exactly when the held positions are an initial segment. |
| MerkleRoots.RootExactlyWhen | data-structures/merkletree/impl.go:122-135 | For any hash, the scanned root of a complete tree is the root computed from the plain leaf sequence exactly when the tree is empty, that root is not 0, or default and left spine hold nothing but 0. |
| MerkleRoots.RootWithNonZeroHash | data-structures/merkletree/impl.go:122-135 | With a hash that never yields 0 the scanned root is canonical for every complete tree, except that a single leaf 0 reads as the default. |
| MerkleRoots.ZeroHashMissesRoot | data-structures/merkletree/impl.go:128-134 | A complete tree over a hash that yields 0 whose scanned root is not the canonical one. |
| MerkleRoots.RunHolding | data-structures/merkletree/impl.go:85-98 | After every run of insertions and removals the tree is valid and holds exactly the last value written at each position. |
| MerkleRoots.RootOfEveryRun | data-structures/merkletree/impl.go:85-135 | For every run in any order, overwrites included, that leaves the leaf sequence `leaves`, the root is the canonical root of `leaves`. |
| MerkleRoots.GapIsReported | data-structures/merkletree/impl.go:122-127 | The incomplete-tree error is returned exactly for runs that leave a gap. |
| MerkleRoots.OrderIndependent | data-structures/merkletree/impl.go:269-297 | Runs that write the same leaves in different orders end, once complete, with the same node map, count and index. |
| MerkleRoots.SameLeavesSameNodes | data-structures/merkletree/impl.go:269-297 | The whole node map of a complete tree is determined by its leaves. |
| MerklePaths.PathProvesMembership | data-structures/merkletree/impl.go:174-218 | For a served leaf of a complete tree of at most 2^25 leaves, folding it with the first ceil(log2 n) siblings and sides gives the root; every later entry is the default on side 0; a tree of at least 25 levels serves exactly 25 entries. |
| MerklePaths.UnknownItem | data-structures/merkletree/impl.go:178-181 | An item that is not in a complete tree gets 25 zeros as siblings and 25 zeros as sides. |
| MerklePaths.KnownItem | data-structures/merkletree/impl.go:182-194 | A known item of a complete tree with at least 25 levels gets exactly 25 siblings and 25 sides. |
| MerklePaths.ReversePointsAtHeldLeaves | data-structures/merkletree/impl.go:275-276 | If no value is inserted at two positions, after every run the reverse map sends each held value to its leaf and knows only inserted values. |
| MerklePaths.EveryHeldLeafHasAPath | data-structures/merkletree/impl.go:148-218 | In every such run that ends complete, every held leaf has a path that folds to the root. |
| MerklePaths.ServedPathExactly | data-structures/merkletree/impl.go:174-218 | Under a collision-free hash the path served for a value folds to the root exactly when the leaf the reverse map points at holds the value. |
| MerklePaths.PathInEveryRun | data-structures/merkletree/impl.go:269-276 | In every run that ends complete, the path served for a value is valid exactly when the position at which it was last written still holds it. |
| MerklePaths.TwoPositionsLoseThePath | data-structures/merkletree/impl.go:275-276 | A value inserted at two positions whose second one is overwritten: the path served for it does not give the root. |
| MerklePaths.ReloadedTreeServesPaths | data-structures/merkletree/impl.go:72-76 | A complete tree written without its reverse map and read back serves a valid path for every held leaf, repeated values included. |
| MerklePaths.ReverseIsLast | data-structures/merkletree/impl.go:299-309 | In a rebuilt reverse map every value points at the last position that holds it. |
| MerkleTreeImpl.MerkleTree.constructor | data-structures/merkletree/impl.go:23-37 | A new tree is the empty one, with 200 levels when none are given, and satisfies the invariant. |
| MerkleTreeImpl.MerkleTree.Insert | data-structures/merkletree/impl.go:85-94 | The updated fields are those of the insertion function, and the invariant is kept. |
| MerkleTreeImpl.MerkleTree.Remove | data-structures/merkletree/impl.go:96-98 | The updated fields are those of the removal function; count and index do not change; the invariant is kept on held leaves. |
| MerkleTreeImpl.MerkleTree.ForceInsert | data-structures/merkletree/impl.go:269-297 | The loop up the parents writes exactly the recursive path of ceil(log2 n) nodes. |
| MerkleTreeImpl.MerkleTree.GetRootHash | data-structures/merkletree/impl.go:122-135 | The loop returns the first non-zero value on the left spine, the default if there is none, or the error. |
| MerkleTreeImpl.MerkleTree.GetSiblingHashesForVerification | data-structures/merkletree/impl.go:174-195 | The loop returns the siblings of all ancestors, cut to 25; exactly 25 zeros for an unknown item, and length 25 for a known one in a tree of 25 levels or more; the error when incomplete. |
| MerkleTreeImpl.MerkleTree.GetSiblingSides | data-structures/merkletree/impl.go:198-218 | The same for the sides, zeros and length included. |
| MerkleTreeImpl.MerkleTree.BuildReverseTree | data-structures/merkletree/impl.go:299-309 | The loop builds the reverse map of the first `count` positions, later positions winning. |
| ChainEvents.BlockedIsPageIndependent | internal/data-structures/eventservice/snapshot.go:107-112 | With one block per transaction, the blocked flag found in a page of a block range is that of the whole history. |
| Commitments.EveryRunIsTidy | internal/data-structures/snapshot/commitments.go:192-224 | For every run in which each commitment has one index and its own output, replacements included, the keys of the output map are exactly the held leaf values and the output list holds each mapped output once and nothing else. |
| Commitments.OutputsComeFromEvents | internal/data-structures/snapshot/commitments.go:218-222 | In every run each listed output has the text, the sign and the blocked flag of one of the events. |
| Commitments.AcceptLists | internal/data-structures/snapshot/commitments.go:192-224 | An event lists at most its own output, with its own text, sign and blocked flag, and its text is listed afterwards. |
| Commitments.AcceptWrites | internal/data-structures/snapshot/commitments.go:193-211 | An event of positive or negative index leaves its commitment at the absolute value and every other leaf as it was. |
| Commitments.KeysExactlyWhen | internal/data-structures/snapshot/commitments.go:195-212 | After a new event the map indexes exactly the held values, if and only if the replaced value is held at no other leaf. |
| Commitments.ListExactlyWhen | internal/data-structures/snapshot/commitments.go:201-222 | After a new event the list holds each mapped output once and nothing else, if and only if no third commitment uses the dropped output and no listed output loses its only commitment. |
| Commitments.TidyExactlyWhen | internal/data-structures/snapshot/commitments.go:192-224 | A new event keeps leaves, map and list in step exactly when none of these sharings occurs. |
| Commitments.UntidyRun | internal/data-structures/snapshot/commitments.go:212-222 | A run of two events from the empty service after which an output is listed that no commitment is mapped to. |
| Commitments.FlagsArePageIndependent | internal/data-structures/eventservice/snapshot.go:106-128 | A page yields the same service events as the whole history would for it. |
| Nullifiers.PageMembers | internal/data-structures/snapshot/nullifiers.go:113-119 | After a page the set is the old one plus the page's nullifiers, whatever the order. |
| Replay.OverlappingReplay | internal/data-structures/snapshot/commitments.go:195-199 | With one commitment per index, replaying from anywhere before a state's end gives exactly the full run, output order included. |
| Replay.ReplacedLeafReorders | internal/data-structures/snapshot/commitments.go:201-223 | Replaying both events of a replaced leaf moves its output to the end of any list; the list is unchanged exactly when it was last already. |
| Replay.RunReflects | internal/data-structures/snapshot/commitments.go:192-224 | The state after a run is determined by the set of its events: leaves, reverse map, output map and outputs as a multiset. |
| Replay.ListedExactly | internal/data-structures/snapshot/commitments.go:192-224 | After a run the list holds exactly the outputs of its events, each with the text, sign and blocked flag of its event. |
| Replay.RunsConverge | internal/data-structures/snapshot/commitments.go:192-224 | Two runs over the same set of events, in any order and with any repetition, end with the same leaves, counters, maps and outputs; once complete, with the same tree node by node. |
| SnapshotServices.CommitmentsSnapshotService.AcceptEvent | internal/data-structures/snapshot/commitments.go:192-224 | The in-place updates of tree, list and map are those of the accepting function; an appended output has the text of the event, is positive exactly when the index is not negative, and is blocked exactly when the event is; the result tells whether the leaf changed. |
| SnapshotServices.CommitmentsSnapshotService.DropOutput | internal/data-structures/snapshot/commitments.go:203-208 | Removes the first output with the value and nothing else. |
| SnapshotServices.CommitmentsSnapshotService.HasOutput | internal/data-structures/snapshot/commitments.go:213-217 | Tells whether the list holds the value. |
| SnapshotServices.CommitmentsSnapshotService.ProcessEventsPage | internal/data-structures/eventservice/snapshot.go:106-128 | The two passes over a page accept its commitment events in order, with the page's blocked flags, and return the number of events that changed the state. |
| SnapshotServices.NullifierSnapshotService.AcceptEvent | internal/data-structures/snapshot/nullifiers.go:113-119 | Adds the nullifier and tells whether it was new. |
| SnapshotServices.NullifierSnapshotService.ProcessEventsPage | internal/data-structures/eventservice/snapshot.go:106-128 | Adds the page's nullifiers and counts the new ones. |
| EventSync.Advance | internal/data-structures/eventservice/emitter.go:87-92 | The watermark becomes the higher of the old one and the block. |
| EventSync.SyncFromAtMost | internal/data-structures/eventservice/emitter.go:104-109 | The watermark becomes the lower of the old one and the block. |
| EventSync.BlockchainEventEmitter.AdvanceLatestBlockNumber | internal/data-structures/eventservice/emitter.go:87-92 | The field update is the raising function. |
| EventSync.BlockchainEventEmitter.SyncAtMost | internal/data-structures/eventservice/emitter.go:104-109 | The field update is the lowering function. |
| EventSync.BeginPollKeeps | internal/data-structures/eventservice/emitter.go:177-193 | A retrieval that takes the lock with a start block read earlier keeps the invariant. |
| EventSync.CommitKeeps | internal/data-structures/eventservice/emitter.go:197-201 | The watermark, and the listener's block after the lock is released, move only to where every service has arrived. |
| EventSync.BeginPushKeeps | internal/data-structures/eventservice/client.go:42-61 | An answer to the client listener keeps the invariant: with events it needs the lock, without it moves the listener's block over a range that has none. |
| EventSync.LoadKeeps | internal/data-structures/eventservice/snapshot.go:67-80 | A snapshot load at any moment, inside a retrieval or before the listener settles included, keeps the invariant if it misses no event below the cursors, apart from those the batch in flight is about to bring. |
| EventSync.SaveKeeps | internal/data-structures/eventservice/snapshot.go:82-93 | A saved snapshot labelled with the current watermark holds every event up to it. |
| EventSync.SavesAreLabelled | internal/data-structures/eventservice/snapshot.go:82-93 | Whatever step saves it, a new snapshot holds the log of its service and is labelled with the watermark of that moment. |
| EventSync.WatermarkMoves | internal/data-structures/eventservice/emitter.go:87-109 | Where every step leaves the watermark and the cursors: the lower block after a load, the end of the range after a commit, the block read after a start, nothing after a crash, unchanged otherwise. |
| EventSync.CursorKeeps | internal/data-structures/eventservice/polling.go:30-50 | A poll that reads the watermark as its start, or the watermark plus one, and a listener that starts after it, keep the invariant. |
| EventSync.ProcessorKeeps | internal/data-structures/eventservice/emitter.go:239-252 | One processor takes the page, saves or not, fails or not: it has every event up to the page's end, the others what they had, and what it saved is honest. |
| EventSync.StepKeeps | internal/data-structures/eventservice/emitter.go:87-109 | Every step of the machine, crashes included, keeps the invariant when loads are harmless. |
| EventSync.WatermarkIsReached | internal/data-structures/eventservice/emitter.go:177-202 | In every run with harmless loads every event at or below the watermark has been given to every loaded service. |
| EventSync.SnapshotsNeverOverclaim | internal/data-structures/eventservice/snapshot.go:82-128 | In every run with harmless loads a snapshot labelled b holds every event up to b. |
| EventSync.MissedBreaks | internal/data-structures/eventservice/client.go:33-65 | After every load that misses an event below a cursor, and not about to come, enabled steps lead to a watermark above that event: the condition on loads is exact. |
| EventSync.ReloadBreaks | internal/data-structures/eventservice/snapshot.go:67-80 | A run of ten steps in which a second load after a poll has read its start block leaves the watermark above a lost event. |
| EventSync.CursorsBelowIsHarmless | internal/data-structures/eventservice/snapshot.go:77 | Cursors at or below the snapshot's block plus one make a load harmless. |
| Restart.PageExtendsState | internal/data-structures/eventservice/snapshot.go:106-128 | Processing page by page gives the state of the concatenated log. |
| Restart.LogsConverge | internal/data-structures/snapshot/commitments.go:192-224 | Logs with the same events, in any order and repetition, give the same commitment and nullifier services. |
| Restart.RootOfTheService | internal/data-structures/snapshot/commitments.go:192-224 | Whatever pages a service was given, in whatever order and how often, if their commitments fill the positions from the first on, its root is the canonical root of the commitments by index. |
| Restart.RestartReachesTheSameState | internal/data-structures/eventservice/snapshot.go:67-93 | With one event per leaf, commitment and output, and pages in any order, a crash, a restart from any snapshot of any run and a replay from the next block reach the state of the uninterrupted run, up to the order of the output list. |
| Restart.ResetSteps | data-structures/hinkal/reset_merkle_trees.go:85-96 | Loading both snapshots leaves the watermark at the lower block, and one retrieval from there gives both services the same page. |
| Restart.ResetMatchesFullReplay | data-structures/hinkal/reset_merkle_trees.go:85-96 | With one event per leaf, commitment and output, and pages in any order, a commitment and a nullifier snapshot from different blocks plus that retrieval end as one full replay, up to the order of the output list. |
| Restart.OverlappingRetrievals | internal/data-structures/eventservice/emitter.go:177-202 | With one commitment per leaf and pages in block order, any sequence of overlapping retrievals gives exactly the state of one pass: tree, map and list in the same order. |
| OrderedRuns.RunPass | internal/data-structures/eventservice/emitter.go:177-202 | With pages in block order, every service log and every stored snapshot of every run holds the events up to some block and has the state of one pass up to there. |
| OrderedRuns.RestartIsExactInOrder | internal/data-structures/eventservice/snapshot.go:67-93 | With one commitment per leaf and pages in block order, a restart from any snapshot of any run and a replay from the next block give exactly the state of one pass: tree, map and list in order. |
| OrderedRuns.ResetIsExactInOrder | data-structures/hinkal/reset_merkle_trees.go:85-96 | The same for the reset: the stored commitment and nullifier snapshots of any run, whatever their blocks, and one retrieval from the lower one. |
| EventGathering.RangesConcatenate | internal/data-structures/eventservice/emitter.go:214-224 | The logs of adjacent block ranges, one after the other, are the logs of the joined range. |
| EventGathering.LogsInMembers | internal/data-structures/eventservice/emitter.go:204-213 | A query's answer holds exactly the logs of its contract and range. |
| EventGathering.LogsInKeeps | internal/data-structures/eventservice/emitter.go:204-213 | The answer is a sublist of the chain by increasing positions. |
| EventGathering.GatherIsExact | internal/data-structures/eventservice/emitter.go:204-237 | Whatever queries fail, a bisection that succeeds returns each log of the range once and in order. |
| EventGathering.GatherErrorIsReal | internal/data-structures/eventservice/emitter.go:214-226 | An error names a failed query inside the range that was out of retries or too small to halve. |
| EventGathering.GatherSucceeds | internal/data-structures/eventservice/emitter.go:214-226 | If small ranges and last retries never fail, the bisection succeeds. |
| EventGathering.BuildPages | internal/data-structures/eventservice/emitter.go:254-264 | For every page size the pages tile the range, none is longer than the size and all but the last are exactly as long; without a size there is one page. |
| EventGathering.GatherPages | internal/data-structures/eventservice/emitter.go:139-145 | The pages of one contract give the exact logs of the range, and succeed exactly when every page does. |
| EventGathering.GetEventsInRange | internal/data-structures/eventservice/emitter.go:136-156 | Succeeds exactly when every page of both contracts is answered; then it returns the main contract's logs and the deposit contract's, exactly those of the range. |
| EventGathering.CollectSignatures | internal/data-structures/eventservice/solana_emitter.go:164-180 | Backward paging collects a prefix of any newest-first history that misses nothing at or above the start slot. |
| EventGathering.InSlotsKeeps | internal/data-structures/eventservice/solana_emitter.go:164-180 | The signatures of a slot range are a sublist of the history by increasing positions. |
| EventGathering.GetProgramEvents | internal/data-structures/eventservice/solana_emitter.go:159-200 | The events of every successful transaction of the slot range that can be looked up, newest first, each once. |
| EventGathering.EventsOfMembers | internal/data-structures/eventservice/solana_emitter.go:182-198 | An event is gathered exactly when a successful transaction of the range has it. |
| Utxos.SortIsStable | internal/functions/balance/input_utxos_per_token.go:109-111 | The sort is a descending permutation that keeps the order of equal amounts. |
| Utxos.StableSortIsUnique | internal/functions/balance/input_utxos_per_token.go:109-111 | Any descending list with the same sublists of equal amount is this one. |
| Utxos.FirstFewAreBest | internal/functions/balance/add_padding_to_utxos.go:97-101 | No choice of at most k outputs totals more than the first k of a descending list. |
| Utxos.GreedyDecides | internal/functions/balance/add_padding_to_utxos.go:96-106 | Some choice of at most k outputs covers a need exactly when the k largest do. |
| InputSelection.GroupPerToken | internal/functions/balance/input_utxos_per_token.go:52-76 | Every token's outputs are grouped in order, and ensured tokens are present even when empty. |
| InputSelection.SortAndPad | internal/functions/balance/input_utxos_per_token.go:109-134 | The row is the sorted outputs padded with zero amounts to two, or to six when there are three to five. |
| InputSelection.EqualiseRows | internal/functions/balance/add_padding_to_utxos.go:75-140 | Rows of two stay; otherwise every row is cut or padded to the limit, or the first row that is over the limit and does not cover its spend is reported. |
| InputSelection.EqualisedIs | internal/functions/balance/add_padding_to_utxos.go:108-138 | A row brought to the limit has exactly that length: its own first entries, then zero amounts of its token. |
| InputSelection.WidthOfRows | internal/functions/balance/add_padding_to_utxos.go:75-93 | The widest row has two entries exactly when every token has at most two outputs. |
| InputSelection.SelectInputs | internal/functions/balance/add_padding_to_utxos.go:75-140 | Selection and the funds check fail exactly when some token's spend is beyond every choice of six of its outputs; a success gives every token its largest outputs, then only zero amounts of that token, and all rows width two exactly when every token has at most two outputs, six otherwise. |
| InputSelection.SelectionIsBest | internal/functions/balance/add_padding_to_utxos.go:94-138 | A selected row totals at least as much as any choice of six outputs. |
| InputSelection.ShortMeansUncoverable | internal/functions/pre-transaction/output_utxo_processing.go:33-39 | On a selected row the insufficient-funds error occurs exactly when no choice of six covers the spend. |
| BalanceCache.CutChunks | internal/functions/balance/input_utxos.go:212-227 | The workers' chunks lie end to end over all outputs, for every worker count. |
| BalanceCache.RunWorkers | internal/functions/balance/input_utxos.go:229-238 | In every interleaving of the workers the flags end as the owned outputs. |
| BalanceCache.FilterOwnedOutputs | internal/functions/balance/input_utxos.go:198-248 | The filter, sequential or parallel, returns the sublist of the list, by increasing positions, that holds exactly the decryptable outputs. |
| BalanceCache.OwnedKeeps | internal/functions/balance/input_utxos.go:198-248 | The owned outputs are the decryptable ones and no others, in the order of the list, each position once. |
| BalanceCache.IndexOfOutput | internal/functions/balance/input_utxos.go:265-272 | The first output with the value, or -1 when there is none. |
| BalanceCache.UpdateCache | internal/functions/balance/input_utxos.go:28-71 | The scan resumes after the remembered output, keeps what was cached, appends what it finds and remembers the last output; for a read-only query, or when the remembered output is gone, the cache is kept. |
| BalanceCache.CacheDevice.GetAllUtxos | internal/functions/balance/input_utxos.go:133-167 | What a query answers and what the device holds afterwards, for every cache, device, reset and read-only flag. |
| BalanceCache.DecodeOutputs | internal/functions/balance/input_utxos.go:183-194 | Every decryptable output in order, one entry each, as decoded and with its own blocked flag. |
| BalanceCache.DecodedEntries | internal/functions/balance/input_utxos.go:183-194 | The k-th decoded entry is the decoding of the k-th owned output, with the blocked flag of that output. |
| BalanceCache.EveryQueryIsAFullScan | internal/functions/balance/input_utxos.go:28-71 | In every run of appended outputs, queries and lost caches, each query answers with the full scan of everything appended so far. |
| BalanceCache.FullScanExactlyWhen | internal/functions/balance/input_utxos.go:146-167 | For every cache and list, a query gives the full scan exactly when the cache holds the owned outputs of the part of the list it takes as covered. |
| BalanceCache.RemovedOutputFreezesTheCache | internal/functions/balance/input_utxos.go:146-167 | When the last scanned output is replaced the cache is served unchanged, which is right exactly when neither it nor any output added since is the user's. |
| BalanceCache.ReplacedOutputLingers | internal/functions/balance/input_utxos.go:41-59 | When an earlier output is replaced the query keeps serving it; the answer is the full scan exactly when it was not the user's. |
| BalanceCache.FilterAvailable | internal/functions/balance/input_utxos.go:172-180 | The result is the sublist, by increasing positions, of exactly the outputs whose nullifier exists and is not in the spent set and whose blocked flag is the one asked for. |
| BalanceCache.AvailableKeeps | internal/functions/balance/input_utxos.go:250-263 | What is available, said without the test of the filter: positions increase, and an output is kept exactly when it has an unspent nullifier and the asked flag. |
| BalanceCache.Compute | internal/functions/balance/balance.go:19-57 | The one-pass report lists, in order, exactly the decodable outputs that have an unspent nullifier and are not blocked; its balances have exactly their tokens with their totals. |
| BalanceCache.TokenTotalIsSum | internal/functions/balance/balance.go:45-52 | The total reported for a token is the sum of the amounts of the outputs with that token. |
| BalanceCache.QueryAndReport | internal/functions/balance/input_utxos.go:115-181 | After every run of appended outputs, queries and lost caches, the cached query and the one-pass report return the same list: the sublist of all decodable outputs that have an unspent nullifier and are not blocked. |
| StuckUtxos.NextBatch | internal/functions/transactions/withdraw_stuck_utxos.go:57-86 | The batch is the six largest positive outputs of the token that are not spent on chain. |
| StuckUtxos.WithdrawStuck | internal/functions/transactions/withdraw_stuck_utxos.go:450-472 | For every fee quote and every failure the loop ends, and transactions so far and outputs left account for all stuck outputs and their value; it withdraws everything exactly when every batch covers its fee and every transaction is confirmed. |
| StuckUtxos.AfterBatch | internal/functions/transactions/withdraw_stuck_utxos.go:145-151 | Once a batch is nullified, the sorted outputs left are the old ones without it. |
| StuckUtxos.FinishedRun | internal/functions/transactions/withdraw_stuck_utxos.go:250-258 | A finished run made exactly ceil(n/6) transactions, spent each stuck output once, and recipient amounts plus fees are the whole stuck amount. |
| StuckUtxos.BuildInputs | internal/functions/transactions/withdraw_stuck_utxos.go:183-205 | The inputs selected again for the transaction start with the batch, hold nothing else of value, and always cover the spend. |
| StuckUtxos.BuilderPicksTheBatch | internal/functions/transactions/withdraw_stuck_utxos.go:183-205 | A selection from all unspent outputs of the token, empty ones included, starts with the six largest positive ones in order; the rest holds nothing. |
| StuckUtxos.PaddingIsHarmless | internal/functions/transactions/withdraw_stuck_utxos.go:145-151 | Nullifying the padding and the empty outputs of a row takes no other stuck output out of the queue. |
| OkxInstructions.AddAccount | internal/functions/pre-transaction/convert_okx_instructions.go:28-48 | A reference reuses its key's entry or appends one; the table keeps one entry per key, writable exactly when some reference is. |
| OkxInstructions.AddProgram | internal/functions/pre-transaction/convert_okx_instructions.go:56-70 | The same for a program, which never makes an entry writable. |
| OkxInstructions.ConvertAccounts | internal/functions/pre-transaction/convert_okx_instructions.go:22-49 | Every account of an instruction gets an index that stands for it in the final table; the error cases are exact. |
| OkxInstructions.Convert | internal/functions/pre-transaction/convert_okx_instructions.go:14-79 | Fails exactly on a bad key other than the signer or bad data; otherwise every instruction is denoted by the final table, whose keys are exactly those of the programs and of the accounts that are not the signer, once each, writable exactly when some reference to it is. |
| OkxInstructions.NeedsMembers | internal/functions/pre-transaction/convert_okx_instructions.go:14-79 | What the table has to serve, read off the instructions: every reference but those to the signer, their keys and the programs. |
| OkxInstructions.ResolvesExactlyBelow255 | internal/functions/pre-transaction/convert_okx_instructions.go:24-48 | An account index resolves to its key exactly when the key's table position is below 255. |
| OkxInstructions.LateAccountIsMisread | internal/functions/pre-transaction/convert_okx_instructions.go:40-48 | A table of 256 keys whose last account is resolved to the signer. |
| OkxInstructions.TableSize | internal/functions/pre-transaction/convert_okx_instructions.go:47-69 | The table has as many entries as the input has different keys. |
| OkxInstructions.FewKeysPreserveMeaning | internal/functions/pre-transaction/convert_okx_instructions.go:14-79 | With at most 255 different keys every account and program index resolves to the original key. |
| Numerals.TextRoundTrip | internal/functions/utils/bigint.go:32-41 | Printing a number in base 10 or 16 gives digits with that value. |
| Numerals.HexRoundTrip | internal/functions/utils/bigint.go:10-41 | Parsing the even-length prefixed hexadecimal form of a number gives the number. |
| Numerals.DecimalParses | internal/functions/utils/bigint.go:18-20 | A decimal numeral is never mistaken for a prefixed one and reads as its value. |
| Numerals.DecimalTextParses | internal/functions/utils/bigint.go:18-20 | The decimal text of any integer, negative ones included, reads as that integer. |
| Numerals.SignsParse | internal/functions/utils/bigint.go:10-22 | One sign in front of a numeral is read, and nothing but a numeral behind it. |
| Numerals.DigitValues | internal/functions/utils/bigint.go:14-18 | The sixteen digits, letters in either case, have their values; no other character is a digit. |
| Numerals.CapitalPrefixParses | internal/functions/utils/bigint.go:13-16 | A hexadecimal numeral behind 0X reads as its value. |
| Numerals.EvenHexIsEven | internal/functions/utils/bigint.go:36-40 | The printed hexadecimal form has an even number of characters. |
| UtxoPlaintext.Print | internal/utxo/encrypt.go:35-75 | The buffer is the fields in layout order, each after the mark 0x and each with the value of the output itself, 0 standing for a missing randomization or point; an unreadable time is the only error. |
| UtxoPlaintext.SplitHexParts | internal/functions/balance/decrypt.go:255-264 | The loop keeps the non-empty parts between the marks in order. |
| UtxoPlaintext.SplitExactly | internal/functions/balance/decrypt.go:255-264 | For any text, the parts are the only texts without 0x inside that give it when joined by 0x. |
| UtxoPlaintext.Read | internal/functions/balance/decrypt.go:54-115 | Reading a printed output recovers its amount, token, randomization, point, stealth address, time, style and 32-byte mint exactly when it is well-formed; what is read from any text has well-formed addresses and a mint of 32 bytes or none; marked fields of any layout are parsed as those fields. |
| UtxoPlaintext.PrintThenRead | internal/utxo/encrypt.go:35-75 | Printing and reading back recovers every field of the output, the time as a text that parses to it, exactly when it is well-formed; an unreadable time is the only printing error. |
| UtxoPlaintext.FieldsRoundTrip | internal/functions/balance/decrypt.go:255-264 | Splitting joined fields that hold no mark gives back the non-empty ones, for any number of fields. |
| UtxoPlaintext.NumberRoundTrip | internal/functions/utils/bigint.go:10-41 | A printed integer reads back as itself if it is not negative or has an odd number of digits, and otherwise does not read at all. |
| UtxoPlaintext.BytesRoundTrip | internal/functions/balance/decrypt.go:88-91 | Decoding the hexadecimal form of bytes gives the bytes. |
| UtxoPlaintext.PlaintextRoundTrip | internal/functions/balance/decrypt.go:54-115 | Reading the printed text gives back amount, token, the randomization or point that was there, stealth address, a timestamp that parses to the time, the style, and the mint when it has 32 bytes, exactly when both addresses have text without a further mark and the numbers are readable. |
| UtxoPlaintext.RecoveredRecovers | internal/utxo/encrypt.go:40-75 | What the reader is shown to return has the fields of the printed output: its randomization if it has one, its point in the new style, its 32-byte mint, and a timestamp text that parses to the time. |
| UtxoPlaintext.OldLayout | internal/functions/balance/decrypt.go:72-92 | Five to seven parts are read as the old layout, exactly when the three numbers parse; the mint is the seventh part if it has 32 bytes. |
| UtxoPlaintext.NegativeAmountIsLost | internal/functions/utils/bigint.go:36-40 | An output of amount -16 with good addresses whose printed text does not read back. |
| UtxoPlaintext.HexAddressesRoundTrip | internal/utxo/encrypt.go:40-75 | For non-negative numbers and addresses of hexadecimal digits the text always reads back, every field with the value the output had. |
| DecimalUnits.ScaledRoundTrip | internal/functions/utils/decimals.go:9-66 | Reading a printed amount with at least as many decimals multiplies it by the missing power of ten, for every integer. |
| DecimalUnits.FormattedShape | internal/functions/utils/decimals.go:21-29 | The printed sides of the point are quotient and remainder by the power of ten, without trailing zeros. |
| DecimalUnits.FormattedSign | internal/functions/utils/decimals.go:13-33 | A negative amount is printed with the sign in front, and without decimals there is no point. |
| DecimalUnits.ReadsPointed | internal/functions/utils/decimals.go:36-66 | Signed digits around a point, no more behind it than the decimals, read as their value scaled by the power of ten. |
| DecimalUnits.RefusesLongFraction | internal/functions/utils/decimals.go:51-53 | More digits behind the point than the decimals are refused. |
| DecimalUnits.TwoPointsAreInvalid | internal/functions/utils/decimals.go:43-45 | Text with two points is refused. |
| DecimalUnits.UnitsRoundTrip | internal/functions/utils/decimals.go:9-66 | Reading a printed amount with the same decimals is the identity, for every integer and every number of decimals. |
| DecimalUnits.WeiRoundTrip | internal/functions/web3/ether.go:12-23 | The amount in wei undoes the amount in tokens for every amount and every token of up to 18 decimals. |
| DecimalUnits.WeiOf | internal/functions/web3/ether.go:16-23 | Text is read with 18 decimals and the digits beyond those of the token are cut off. |
| Fees.TotalFeeIs | internal/functions/fees/fees.go:43-46 | The fee less the flat fee is amount times rate over 10000, rounded toward zero for either sign. |
| Fees.ModifiedFeeIs | internal/functions/fees/fees.go:48-77 | The charge is the flat fee plus the priced fee for a known other token with a rate, the flat fee alone when there is no price, and the total fee otherwise; the rate of the result is 0. |
| Fees.WithdrawalLeavesAtMostTwo | internal/functions/fees/fees.go:106-116 | For every total of at least the flat fee and every rate, payout plus fee fits, two units more would not, and at most two units stay behind up to a rate of 10000. |
| Fees.PayoutIsLargestExactlyWhen | internal/functions/fees/fees.go:106-116 | No larger amount is affordable exactly when the remainder of the division is at most the rate. |
| Fees.LeftBehindIsTheRemainder | internal/functions/fees/fees.go:106-116 | What stays behind is that remainder rounded up to units; up to a rate of 10000 two units stay exactly when it is above 10000. |
| Fees.PayoutBoundIsSharp | internal/functions/fees/fees.go:106-116 | Totals on which one unit more would fit, and on which two units stay behind. |
| Fees.TotalBelowFlatFee | internal/functions/fees/fees.go:106-116 | A total below the flat fee pays out nothing. |
| ValueConservation.TokenIndex | internal/functions/pre-transaction/merge_with_fee_structure.go:18-24 | The first token spelled like the fee token up to case, or none. |
| ValueConservation.SpendPlan.MergeWithFeeStructure | internal/functions/pre-transaction/merge_with_fee_structure.go:12-42 | The caller's lists after the merge; it fails, changing nothing, exactly when a received amount is below the fee. |
| ValueConservation.OutputUtxoProcessing | internal/functions/pre-transaction/output_utxo_processing.go:24-95 | The first output is what the inputs leave after the change, never negative; a second one of the recipient's amount exists exactly when there is a recipient; all carry the token of the inputs; and exactly when funds are reported insufficient. |
| ValueConservation.OutputsConserve | internal/functions/pre-transaction/output_utxo_processing.go:33-92 | Such a row exceeds the inputs by the change and the recipient's amount exactly when the change is affordable. |
| ValueConservation.CalcAmountChanges | internal/functions/snarkjs/common.go:116-136 | Outputs minus inputs per token, signed or encoded in the field; a missing output row counts as empty. |
| ValueConservation.EnsureAmountChanges | internal/functions/snarkjs/construct_solana_zk_proof.go:100-115 | Accepts exactly when every amount equals the integer difference or differs from it by the modulus across zero. |
| ValueConservation.HalfTheModulus | internal/functions/snarkjs/construct_solana_zk_proof.go:100-115 | Acceptance means equality for all amounts up to a bound exactly when the bound is below half the modulus. |
| ValueConservation.BuildTransfer | internal/functions/transactions/transfer.go:70-107 | A transfer is built exactly when the lists fit, the fee is payable and every spend can be covered. Then row 0 alone has a second output, of minus the first change; every first output is what the row's inputs leave after change and fee; so the first token and an added fee token lose the fee or nothing, every other token its own change. Rows share outputs exactly when their tokens are the same up to case and funded. |
| ValueConservation.BuildOutputs | internal/functions/transactions/transfer.go:87-105 | Selected rows always afford their change; the first row pays the recipient with its second output and every other row has one; first outputs are inputs plus change. |
| ValueConservation.OneTokenTransfer | internal/functions/transactions/transfer.go:174-182 | In a one-token transfer the computed amount changes are minus the fee in the fee token and zero in the sent token if different. |
| ValueConservation.RowsShare | internal/functions/balance/add_padding_to_utxos.go:77-84 | Selected rows share an output exactly when their tokens are the same up to case and there is an output to share. |
| RecipientMatching.UtxoAmounts | internal/functions/transactions/deposit_on_chain_utxos.go:37-46 | Each deposit less the fee on the recipient's amount is that amount, and the total is their sum. |
| RecipientMatching.MatchRecipients | internal/functions/transactions/deposit_on_chain_utxos.go:116-134 | Succeeds exactly when the required amounts are contained, as a multiset, in the deposited ones; recipients keep their order, amounts match, and no output is used twice. |
| RecipientMatching.WithdrawAll | internal/functions/transactions/deposit_and_withdraw.go:197-216 | Each recipient gets its output less its own charge: the flat fee plus amount times rate over 10000, or plus the priced fee of a known other token. |
| RecipientMatching.DepositAndWithdraw | internal/functions/transactions/deposit_and_withdraw.go:197-216 | Deposits equal payouts plus fees; a recipient gets the amount asked for exactly when the charge is the fee put on top, as it is for a fee in the sent token. |

## Left out

- Hash functions, base58, base64, NaCl, key derivation and signatures are foreign code: parameters or already decoded values here.
- Network, relayer, enclave and RPC calls are parameters (failure patterns, fee quotes, confirmations) or not modelled.
- Remote decryption: answers come from a server; only the local branch, which is also its fallback, is modelled.
- Cross-token fee pricing: the priced fee is a parameter, because it is float arithmetic over server prices.
- `FindCorrectRandomization`: a random search with no termination measure.
- Reorganised blocks, and block numbers near 2^64: the history is fixed and numbers are unbounded.
- Malformed logs and events are skipped by the code and are absent from, or `OtherEvent`s in, the model's pages.
- The depth rule that decides when a snapshot is saved: the machine lets any service that took a page save or not, which includes every schedule of the rule.
- Merkle positions outside one leaf range, and removing leaves that are not held: the code does not guard against them and no caller does either.
- Solana twins of the snapshot services, and the Solana spelling of token addresses.
- `forceEmptyUtxos`, `sliceIfMore6` and minimum widths other than two in input selection: not used by the modelled transactions.
- Address case: `strings.ToLower` and `strings.EqualFold` are one folding function, a parameter; their differences on unusual letters are not modelled.
- Utxos.SortIsStable: the library sort is a stable insertion sort on values, not an update in place; `Utxos.StableSortIsUnique` shows that any stable descending sort gives the same list.
- StuckUtxos.WithdrawStuck: amounts of outputs are non-negative, and the empty nullifier of padding stands for one that no output has.
- OrderedRuns.RunPass: pages in block order; with a deposit contract its logs come after the main contract's, and the results of `Restart` apply.
- UtxoPlaintext.Read: the checks inside `NewUtxo` and the encryption around the text are not modelled.
- DecimalUnits.UnitsRoundTrip: trimming knows ASCII white space only.
- ValueConservation.BuildTransfer: volatile-token adjustment of the amounts and the recipient's address syntax come before it and are not modelled.
- RecipientMatching.WithdrawAll: re-creating an output under another spelling of its token address keeps its amount and is not modelled.
- Multi-recipient encryption formats, zero-knowledge call data, constant tables, chain lists and JSON field copying: only easy members.
