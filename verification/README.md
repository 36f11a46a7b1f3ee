# Distributed storage platform: a verified model

A Dafny model of the platform's core and proofs about it: how a file becomes encrypted,
erasure-coded shards and comes back; where shards are placed and what losses they survive; how
versions, placements and paths evolve in the metadata store; how repair rounds and crashes leave
the bytes on honest nodes; how tickets are used up; how hours are billed and money is conserved;
and what the rate limiter admits.

`dafny verify dfyconfig.toml` checks the whole project.

## How it is organised

| files | subject |
|---|---|
| Bytes | big-endian integers, cutting and flattening byte strings |
| Pipeline, Framing | segment encryption: the stream loops; round trip and authenticity of the framing |
| Erasure, Transfer | Reed-Solomon 10+6 around a chunk; upload and download of whole files |
| Scheduler, Durability | choice of nodes; what survives the loss of a region, network or owners |
| PlacementDb, PlacementInv, PlacementRuns, PlacementPlans, PlacementCopies, Store | the metadata store as a machine of atomic transactions; what every step and run keeps; runs with upload and repair plans; the transactions as methods |
| Files | LIKE, folder renames |
| RepairRun, Agent | repair rounds over the nodes' disks; one agent's store under interleaving and crashes |
| Wire, Tickets, Receipts, Replay | codecs, signatures, one-time use of tickets |
| Rates, Ledger, Closing | charges and earnings, double entry, closing a cycle amid posts |
| Accrual, CrashFree, Overlap, Billing, Settlement | hourly accrual under crashes and with overlapping calls, against the run without crashes, down to the balances |
| RateLimit | the token bucket |

Each loop or state change of the source is a method proved equal to a function; the theorems are
lemmas about the functions. Cryptography enters as function-valued parameters, with what is
assumed of it named: `Correct` and `Ideal` (AES-GCM), `Mds` (any 10 of 16 shards determine all),
`Pinned` (a manifest digest has no second preimage), `Genuine` and `Unforged` (signatures).
Time, random draws, arrival orders, failures and crash points are parameters or steps.

## Where the code falls short of the property

Each of these is stated as a lemma with a concrete input or family of inputs. Named with it is the
lemma that says when the property does hold; an exact condition is an if-and-only-if.

- A placement insert that races with a delete leaves a pending row on a deleted file
  (`PlacementRuns.UnguardedInsertLeaks`, exact condition in `PlacementRuns.InsertQuietIff`).
- A node restored while a repair of its fragment is in flight ends with two stored copies
  (`PlacementCopies.RestoreDuringRepairDuplicates`; exact conditions in
  `PlacementCopies.MarkStoredOneCopyIff` and `PlacementCopies.RestoreOneCopyIff`).
- A commit marks all pending rows of a fragment, also those without a receipt
  (`PlacementCopies.CommitBackedIff`).
- `SumZero` adds in 64 bits and accepts sums that are multiples of 2^64 (`Ledger.SumZeroWraps`);
  the database trigger's exact sum makes up for it (`Ledger.PostHolds`).
- A post dated before the end of a cycle and committed between the reads of its closing leaves
  closing balances that do not add up (`Ledger.EarlyPostShows`; exact conditions in
  `Closing.ClosingAmidPostsIff` for the statements, `Closing.TotalsAreEarlyLegs` for the totals).
- A first call that stops before there is a watermark is not repeated once the clock has moved on:
  its hour stays half posted (`CrashFree.HalfPosted`, on balances `Settlement.HalfPostedBalance`;
  exact conditions in `CrashFree.CrashFreeIff` and `CrashFree.StraysIff`, and
  `Settlement.FromTheEmptyLedger` says by how much each balance is off).
- Overlapping calls can move the watermark back (`Overlap.WatermarkMovesBack`, exact condition in
  `Overlap.MovesBackIff`); nothing is skipped or posted twice for it (`Overlap.OverlapSkipsNoHour`,
  `Overlap.OverlapPostsOnce`) unless two calls with different targets found no watermark
  (`Overlap.SecondTargetSkips`, exact condition in `Overlap.SkipsNoneIff`).
- The hourly storage charge overflows above 3 TB at the default rate
  (`Rates.StorageChargeExactIff`, `Rates.DefaultRateLimit`).
- After a crash an hour can mix the readings of two calls (`Accrual.MixedReadings`), though never
  those of two hours (`Accrual.NothingElseIsPosted`).
- Paths with `%`, `_` or `\` select more or less than their subtree (`Files.SpecialRootMisses`,
  `Files.SubtreeIsExactIffPlain`).
- Renames into the own subtree depend on the order of rows (`Files.NestedRenameDependsOnOrder`;
  exact conditions in `Files.RenameSucceedsIff` for one order, `Files.EveryOrderSucceedsIff` for all).
- Nodes without a region label escape the region cap (`Durability.UnlabelledRegionIsUncapped`), and
  a chunk on them is lost with them exactly when fewer than ten others hold it
  (`Durability.LostWithTheUnlabelled`).
- An agent mixes bytes and index rows when one id comes with two hashes (`Agent.CrashSafeIff`), and
  a delete during a put leaves a receipt for nothing (`Agent.DeleteDuringPut`, exact condition
  in `Agent.SignedInPlaceIff`).
- A ticket checked before its expiry and consumed at it is honoured twice
  (`Replay.LateConsumptionRepeats`, exact condition in `Replay.RepeatIff`).
- A put limit of 2^63 - 1 or more reads nothing (`Agent.AcceptsIff`).

## Model

| member | source | states |
|---|---|---|
| Pipeline.Encrypt | internal/pipeline/pipeline.go:187-237 | the read-ahead loop writes prefix and sealed segments of exactly the stream's content, and returns sizes and digest of what it wrote; bad key and read error are reported |
| Pipeline.EncryptSegments | internal/pipeline/pipeline.go:201-246 | the segment loop writes Sealed of everything left in the stream, from counter 0 |
| Pipeline.Decrypt | internal/pipeline/pipeline.go:249-307 | writes and answers exactly what Decrypted says, for every stream, key and prefix, with read errors |
| Pipeline.DecryptSegments | internal/pipeline/pipeline.go:263-319 | the pending/lookahead loop equals the recursive opening of segments |
| Pipeline.SplitChunks | internal/pipeline/pipeline.go:329-356 | cuts the stream into chunk-size pieces, one empty chunk for an empty stream, with size and digest of each |
| Framing.RecordsArePieces | internal/pipeline/pipeline.go:187-246 | the sealed segments are the 64 KiB pieces in order and only the last is marked final |
| Framing.CiphertextLength | internal/pipeline/pipeline.go:20-36 | the ciphertext is 4 + n + 16 * max(1, ceil(n / 65536)) bytes |
| Framing.NoncesDistinct | internal/pipeline/pipeline.go:370-375 | no two segments of a file share a nonce |
| Framing.RoundTrip | internal/pipeline/pipeline.go:187-307 | decrypting what was encrypted writes exactly the plaintext and succeeds |
| Framing.IdealExists | internal/pipeline/pipeline.go:309-319 | the ideal-AEAD assumption can be met for every plaintext |
| Framing.OpenedIsPrefix | internal/pipeline/pipeline.go:249-319 | from any position, only a prefix of the remaining plaintext is written, and success means the run's own segments |
| Framing.OnlyTheOriginalDecrypts | internal/pipeline/pipeline.go:239-319 | for any stream and prefix, only a prefix of the plaintext is ever written, and decryption succeeds if and only if the stream is the whole original output |
| Erasure.JoinSplit | internal/pipeline/erasure.go:23-82 | joining the split data shards, padding included, gives back the chunk |
| Erasure.Encoded | internal/pipeline/erasure.go:23-40 | encoding always gives 16 equal non-empty shards of a codeword, also for an empty chunk |
| Erasure.CountPresent | internal/pipeline/erasure.go:44-60 | the loop counts the shards present |
| Erasure.ReconstructChunk | internal/pipeline/erasure.go:44-82 | answers exactly Rebuilt, with its error cases and the empty chunk |
| Erasure.AnyTenRebuild | internal/pipeline/erasure.go:44-82 | any 10 of a chunk's 16 shards rebuild exactly that chunk and all its shards |
| Erasure.ReconstructShards | internal/pipeline/erasure.go:85-106 | fills only the missing slots of the array, in place, and only with at least 10 present |
| Transfer.CollectShards | cmd/dsp/transfer.go:426-480 | keeps the first ten bodies that match the manifest, one per index |
| Transfer.CollectedTen | cmd/dsp/transfer.go:426-480 | kept bodies were promised for their index, and ten slots fill exactly when ten distinct indices arrive intact |
| Transfer.FetchChunk | cmd/dsp/transfer.go:426-493 | answers exactly Fetched |
| Transfer.FetchedExactly | cmd/dsp/transfer.go:426-493 | returns the chunk if and only if ten distinct shards arrive intact, in any order, amid any corrupt or forged bodies |
| Transfer.PrepareUpload | cmd/dsp/transfer.go:104-157 | the manifest holds the digest, size and 16 fragment digests of every ciphertext chunk, and the shards are those of the code |
| Transfer.Reassemble | cmd/dsp/transfer.go:319-369 | the chunk loop concatenates what the fetches return and stops at the first failure |
| Transfer.ReassembledExactly | cmd/dsp/transfer.go:319-369 | the result is the original ciphertext if and only if every chunk has ten intact shards |
| Transfer.GetFile | cmd/dsp/transfer.go:319-369 | fetch, content digest and decryption in sequence answer exactly Gotten |
| Transfer.PutThenGet | cmd/dsp/transfer.go:104-369 | whatever is uploaded comes back byte for byte exactly when ten intact shards of each chunk arrive; otherwise nothing is written |
| Transfer.GetNeverForges | cmd/dsp/transfer.go:319-369 | even with a hostile manifest and shards, only a prefix of the file encrypted under the key is written |
| Scheduler.Candidates | internal/scheduler/scheduler.go:192-211 | the candidates are live eligible nodes, and none only if no node is eligible |
| Scheduler.Pick | internal/scheduler/scheduler.go:192-228 | picks an eligible node for every draw, and fails with a working random source only if there is none |
| Scheduler.UseCounts | internal/scheduler/scheduler.go:181-190 | a chunk's use holds the true counts per region, network and owner of its holders |
| Scheduler.SeedUse | internal/scheduler/scheduler.go:114-126 | the use map tracks every chunk's occupants |
| Scheduler.Place | internal/scheduler/scheduler.go:59-150 | for any needs, occupants and draws: every assignment is on a node that was live and eligible when it was made, counts end at most at max(start, 3/3/2), no node is reused for a chunk, omitted needs have no eligible live node left, nodes in probation end within their quota, and assignments answer needs in order |
| Scheduler.NoTwoOnOneNode | internal/scheduler/scheduler.go:230-250 | two fragments of a chunk are never on one node, nor on a node that held the chunk before |
| Durability.SurvivorsCount | internal/scheduler/scheduler.go:26-30 | the surviving shards are the holders that were not lost, one per shard |
| Durability.ReadableIff | internal/pipeline/erasure.go:44-82 | a chunk is readable after a loss if and only if ten holders of distinct shards survive it |
| Durability.SurvivesRegionNetworkOrTwoOwners | internal/scheduler/scheduler.go:26-30 | a chunk committed with 14 or more shards, on any selection of its old and new placements within the caps (failed puts included), stays readable after losing any labelled region, any network or any two owners, and a full 16 keeps 13 after a region |
| Durability.CapsCarryOver | internal/scheduler/scheduler.go:59-150 | a chunk whose placements are within the caps is still so after any further Place |
| Durability.UnlabelledRegionIsUncapped | internal/scheduler/scheduler.go:230-250 | on a fleet without region labels every completed Place puts all shards of a chunk in that one region |
| Durability.LostWithTheUnlabelled | internal/pipeline/erasure.go:44-82 | losing the unlabelled nodes loses a chunk exactly when fewer than ten labelled ones hold shards |
| Durability.PlaceOnFleet | internal/scheduler/scheduler.go:59-150 | a run of Place on such a fleet succeeds for every need and uses only unlabelled nodes |
| Files.LikeIsBelow | internal/store/files.go:152-180 | for plain roots the LIKE pattern selects exactly the paths below |
| Files.SpecialRootMisses | internal/store/files.go:152-180 | for every other normalized folder there is a normalized path that is selected and not below it, or below it and missed |
| Files.SubtreeIsExactIffPlain | internal/store/files.go:152-180 | among the normalized paths the pattern selects exactly the subtree if and only if the folder path has no LIKE metacharacter |
| Files.RenameMovesExactlyTheSubtree | internal/store/files.go:123-200 | a rename moves exactly the folder and its subtree, keeping suffixes and all other rows |
| Files.RenameKeepsPathsUnique | internal/store/files.go:150-180 | without a collision live paths stay unique, also for nested paths |
| Files.RenameBackRestores | internal/store/files.go:123-200 | renaming back meets no collision and the rewrite back restores every row |
| Files.RewriteSubtree | internal/store/files.go:168-180 | the row-by-row update with an immediate uniqueness check equals Rewritten |
| Files.RewriteSucceedsIff | internal/store/files.go:150-180 | the update succeeds in an order if and only if no row sits in the way of one moved before it, and then it is the subtree rewrite with unique live paths |
| Files.RenameSucceedsIff | internal/store/files.go:150-180 | between plain paths without a collision it succeeds in an order if and only if no row moves to a path that a later row still has |
| Files.EveryOrderSucceedsIff | internal/store/files.go:150-180 | it succeeds in every order if and only if no moving row's new path is another one's old path |
| Files.ApartNeverOverlaps | internal/store/files.go:150-180 | between paths that are apart that is always so |
| Files.RenameBackInReverse | internal/store/files.go:123-200 | the row-by-row update back, in reverse order, succeeds exactly when the update did, and restores every row |
| Files.NestedRenameDependsOnOrder | internal/store/files.go:168-180 | moving a folder into itself succeeds bottom-up and fails top-down |
| PlacementInv.EmptySettles | internal/store/uploads.go:60-184 | the empty store satisfies the invariant |
| PlacementInv.BeginSettles | internal/store/uploads.go:60-184 | beginning or resuming an upload keeps the invariant |
| PlacementInv.CommitSettles | internal/store/uploads.go:358-432 | committing an upload keeps the invariant |
| PlacementInv.AbortSettles | internal/store/uploads.go:188-228 | aborting an upload keeps the invariant |
| PlacementInv.DeleteSettles | internal/store/files.go:204-287 | deleting a file or folder keeps the invariant |
| PlacementInv.RenameSettles | internal/store/files.go:123-200 | renaming keeps the invariant |
| PlacementInv.StepSettles | internal/store/uploads.go:60-432 | every transaction keeps the invariant |
| PlacementInv.RunSettles | internal/store/uploads.go:60-432 | in every run each live file has at most one pending-or-committed version, is active exactly when that version is committed and current, and live paths and shards are unique |
| PlacementRuns.StepFollows | internal/store/repair.go:25-48 | every transaction moves every placement row along one automaton |
| PlacementRuns.LeavingIsFinal | internal/store/lifecycle.go:66-75 | in every run an expiring row only becomes deleted and a deleted row never changes |
| PlacementRuns.CommitGate | internal/store/uploads.go:390-420 | a commit goes through only with at least 14 stored placements in every chunk |
| PlacementRuns.OnlyCommitCommits | internal/store/uploads.go:358-432 | no other transaction makes a version committed |
| PlacementRuns.EveryCommitPassedTheGate | internal/store/uploads.go:358-432 | in every run each committed version became so in a commit that left 14 stored placements in every chunk |
| PlacementRuns.RefusedCommitChangesNothing | internal/store/uploads.go:358-432 | a refused commit changes nothing, and a repeated one answers that it is done |
| PlacementRuns.InsertQuietIff | internal/store/uploads.go:282-294 | inserts keep deleted files without pending or stored rows if and only if every row is for a live file |
| PlacementRuns.RunQuiets | internal/store/files.go:204-287 | in every run whose inserts are for live files, deleted files have no pending, stored or lost row |
| PlacementRuns.RemovedForever | internal/store/files.go:204-287 | no transaction brings a deleted file back |
| PlacementRuns.UnguardedInsertLeaks | internal/store/uploads.go:282-294 | a delete between planning and inserting leaves a pending row on the deleted file |
| PlacementPlans.PlaceAnswersNeeds | internal/metadata/upload.go:82-192 | the rows a plan inserts are for fragments it asked the scheduler for |
| PlacementPlans.RunGood | internal/metadata/repair.go:62-157 | every run of upload plans, repair plans and transactions keeps the invariant and leaves deleted files without pending, stored or lost rows, with nothing assumed of the inserts |
| PlacementPlans.DeletedIsUnselected | internal/store/meters.go:25-71 | the billing, payment, download, repair and restore selections return nothing for a deleted file |
| PlacementPlans.DeletionIsFinal | internal/store/files.go:204-287 | from the empty store, after any run and a delete, whatever plans and transactions follow, everything the delete reached is never billed, paid, downloaded, repaired or restored |
| PlacementCopies.MarkStoredOneCopyIff | internal/store/repair.go:222-244 | marking stored keeps one copy per fragment if and only if no marked fragment has a rival row |
| PlacementCopies.RestoreOneCopyIff | internal/store/repair.go:247-287 | restoring lost rows keeps one copy per fragment if and only if none of them has a rival stored or restored row |
| PlacementCopies.PromptRestoreKeepsOneCopy | internal/store/repair.go:247-287 | a restore whose list still holds when applied meets that condition |
| PlacementCopies.RestoreDuringRepairDuplicates | internal/repair/worker.go:113-140 | a restore while a repair is in flight ends with two stored rows |
| PlacementCopies.RowsAreShards | internal/store/repair.go:51-63 | with single copies, stored rows count distinct shards |
| PlacementCopies.CommitCoversFourteenShards | internal/store/uploads.go:358-432 | such a commit leaves 14 distinct shards of every chunk |
| PlacementCopies.MatchReceipts | internal/metadata/repair.go:160-190 | the receipt loop accepts exactly when every receipt matches a remaining target, and then marks those fragments |
| PlacementCopies.ByFragIsTarget | internal/metadata/repair.go:160-170 | the map from fragment to target holds real targets |
| PlacementCopies.CommitBackedIff | internal/metadata/repair.go:160-190 | every row an upload or repair commit marks is backed by its own node's receipt if and only if no matched fragment has two pending rows and no fragment already stored has one |
| Store.InsertFragments | internal/store/uploads.go:164-174 | the insert loop adds one row per shard, stopping at a duplicate |
| Store.InsertChunks | internal/store/uploads.go:154-174 | the insert loop adds every chunk with its fragments, stopping at a duplicate |
| Store.Store.BeginUpload | internal/store/uploads.go:60-184 | the transaction makes the machine's step, from every settled state |
| Store.Store.InsertPlacements | internal/store/uploads.go:282-294 | row after row is inserted until one fails, as the machine says |
| Store.Store.CommitUpload | internal/store/uploads.go:358-432 | the transaction makes the machine's step and rolls back when a chunk is short |
| Store.Store.MarkAll | internal/store/repair.go:222-244 | the per-fragment update loop marks exactly the pending rows of the listed fragments |
| Store.Store.ApplyFlap | internal/metadata/repair.go:228-233 | listed lost rows become stored or expiring and all others stay; single copies are kept if and only if no restored row has a rival |
| Store.DeleteInSteps | internal/store/files.go:204-287 | updating files, then versions, then placements on changing rows equals the one-step delete |
| Store.DeleteMeans | internal/store/files.go:204-287 | everything a delete reaches is removed, has no open version and only expiring or deleted rows; everything else is as it was |
| Store.Store.SoftDeleteFile | internal/store/files.go:204-287 | three statements, each on the rows the one before left, together make the machine's delete, exactly for the owner's live file, and keep the invariant and quiet deleted files |
| Store.Store.RenameFile | internal/store/files.go:123-200 | performs the machine's rename exactly when no row is in the way, and otherwise changes nothing |
| Store.PlainRenameFits | internal/store/files.go:123-200 | for plain paths that is: no collision, and no row overtaking another in the order visited |
| RepairRun.Restore | internal/repair/worker.go:299-348 | fetchSources and the in-place rebuild answer exactly Restored |
| RepairRun.OnJob | internal/repair/worker.go:230-297 | a job skips healthy chunks, puts to its targets in order until one does not match its digest, marks the failed puts lost, and passes the receipts of the others to the commit, unless there is none |
| RepairRun.RestoredIsEncoded | internal/repair/worker.go:299-348 | with ten intact sources all 16 slots hold the chunk's own shards; with fewer the job stops |
| RepairRun.RepairIsExact | internal/repair/worker.go:230-297 | a job goes through exactly when ten distinct sources arrive intact, and then every target gets the very shard of the manifest |
| RepairRun.JobCommitsIff | internal/repair/worker.go:230-297 | a job on an unhealthy chunk commits if and only if ten sources arrive intact and one put succeeds; then each target is either marked lost or has its receipt in the commit |
| RepairRun.RunHolds | internal/agent/store.go:86-135 | after any uploads, losses, tampering and repair rounds every fragment on an honest disk is the manifest's shard |
| RepairRun.AnyTenHonestRebuild | internal/repair/worker.go:230-348 | in every reachable state ten honestly held shards fetch exactly the original chunk |
| RepairRun.RoundRestores | internal/repair/worker.go:230-297 | a round with ten intact sources leaves each uploaded shard on its honest node |
| Agent.AcceptsIff | internal/agent/store.go:86-113 | put takes exactly the bodies within the limit with the promised hash; limits from 2^63 - 1 on overflow to an empty read |
| Agent.ChunkStore.constructor | internal/agent/store.go:50-72 | a new store is empty and coherent |
| Agent.ChunkStore.Put | internal/agent/store.go:86-135 | which error is reported when, and the files and index after success, each failure, and a failed index update |
| Agent.ChunkStore.Delete | internal/agent/store.go:193-198 | file and index row go, each if its own operation succeeds, and coherence is kept |
| Agent.ChunkStore.ReadRange | internal/agent/store.go:161-182 | on a coherent store exactly the ranges inside the fragment are served, with the fragment's bytes, also where offset plus size wraps in 64 bits |
| Agent.SameHashIsCoherent | internal/agent/store.go:86-198 | with one hash per id, every run of interleaved puts, deletes and crashes keeps indexed size and hash true of the file |
| Agent.TwoHashesBreak | internal/agent/store.go:121-134 | two hashes for one id and a crash before the index update leave wrong bytes under the index row |
| Agent.CrashSafeIff | internal/agent/store.go:86-198 | all runs are safe if and only if each id always comes with the same hash |
| Agent.ReceiptsComeLast | internal/agent/fragments.go:38-69 | in every run each signed receipt is for a body that had been renamed into place and a row that had been indexed |
| Agent.SignedInPlaceIff | internal/agent/fragments.go:38-69 | over any run with one hash per id: when a put signs, the promised bytes are on disk and indexed if and only if the last step that placed or cleared the file placed it, and the last that listed or dropped the row listed it |
| Agent.SignedInPlace | internal/agent/fragments.go:38-69 | in particular, if no step removed the fragment since the put's rename, they are there |
| Agent.DeleteDuringPut | internal/agent/fragments.go:38-131 | a delete between index and signature leaves a receipt without file or row |
| Wire.Base64Back | internal/tickets/tickets.go:229-256 | unpadded base64url decodes every encoding back |
| Wire.WireBackIff | internal/tickets/tickets.go:229-256 | the dotted form round-trips if and only if the payload is non-empty and the signature has 64 bytes |
| Tickets.DecodeEncodeIff | internal/tickets/tickets.go:187-227 | decode(encode(t)) is t exactly for operations up to 65535 bytes, 32-byte hashes and 16-byte nonces |
| Tickets.EncodeDecode | internal/tickets/tickets.go:187-284 | every accepted payload is the encoding of what it decodes to |
| Tickets.SignedVerifiesIff | internal/tickets/tickets.go:116-177 | a signed ticket, its nonce and expiry filled in, is accepted exactly for its operation, node and fragment before expiry, with every field as signed |
| Tickets.DefaultLifetime | internal/tickets/tickets.go:116-177 | a ticket signed without an expiry is accepted up to a second short of 15 minutes and never after |
| Tickets.AcceptedWasIssued | internal/tickets/tickets.go:145-177 | with unforgeable signatures an accepted ticket is one that was issued, field for field |
| Receipts.UnpackPackIff | internal/receipts/receipts.go:106-141 | decode(encode(r)) is r exactly with a 32-byte hash and a nonce of 0 or 16 bytes |
| Receipts.PackUnpack | internal/receipts/receipts.go:106-141 | every accepted payload is the encoding of what it decodes to |
| Receipts.SignedReceiptVerifiesIff | internal/receipts/receipts.go:37-104 | a signed receipt is accepted exactly for its own node, fragment, size and hash |
| Receipts.AcceptedReceiptWasSigned | internal/receipts/receipts.go:72-104 | with unforgeable signatures an accepted receipt was signed as it reads |
| Replay.Gate.ConsumeNonce | internal/agent/store.go:236-250 | refuses an unexpired nonce and otherwise records it |
| Replay.Gate.Serve | internal/agent/fragments.go:38-190 | the common head of the four handlers honours a request exactly as Honoured says |
| Replay.RepeatOnlyAfterExpiry | internal/agent/store.go:236-250 | over any trace, even with shared nonces, a second use of a ticket comes only after its expiry |
| Replay.HonouredAtMostOnce | internal/agent/fragments.go:38-190 | when check and consumption see the same second, each ticket is honoured at most once across put, get, delete and challenge |
| Replay.RepeatIff | internal/agent/store.go:236-250 | a ticket presented again in time is honoured again if and only if, when it is consumed, the expiry has come of the ticket last honoured with its nonce |
| Replay.LateConsumptionRepeats | internal/agent/fragments.go:38-50 | every ticket has such a run |
| Replay.HonouredWasIssued | internal/agent/fragments.go:38-190 | an honoured request presents an issued ticket for this operation, node and fragment |
| Rates.StorageChargeExactIff | internal/ledger/ledger.go:246-251 | the hourly charge is the exact floor if and only if the product fits an int64 |
| Rates.DefaultRateLimit | internal/ledger/ledger.go:46-74 | at default rates that is up to 3074457345618 bytes; one more is billed negative |
| Rates.NestedDivision | internal/ledger/ledger.go:246-260 | the nested divisions equal one floor |
| Rates.EarningBound | internal/ledger/ledger.go:271-277 | an egress earning never exceeds the charge rate for the same bytes |
| Rates.MarginBound | internal/ledger/accrue.go:133-187 | egress earnings are at most the charges of C customers plus C - 1 micro-credits |
| Rates.DefaultsAreSustainable | internal/ledger/ledger.go:46-74 | the default tariff meets the bound's condition |
| Rates.ReliabilityInRangeAndMonotone | internal/ledger/ledger.go:284-311 | reliability stays in [0, 12000] without its clamps and grows with each factor |
| Ledger.SumZero | internal/ledger/ledger.go:231-243 | accepts a non-empty set exactly when the true sum is a multiple of 2^64 |
| Ledger.SumZeroWraps | internal/ledger/ledger.go:231-243 | four legs of 2^62 pass |
| Ledger.LedgerStore.PostTxn | internal/store/ledger.go:66-106 | header and legs go in together or not at all, as Transact says |
| Ledger.PostHolds | deploy/migrations/000009_ledger_m5.sql:41-55 | a posting goes through exactly with a true zero sum, a new id and known accounts, and then appends the whole transaction |
| Ledger.RunHolds | internal/ledger/ledger.go:181-209 | under any interleaving and replay the book is the log of distinct transactions that went through |
| Ledger.WhollyPresentOrAbsent | internal/store/ledger.go:66-106 | in every run a transaction has either no rows or exactly the rows of one accepted balanced posting |
| Ledger.LogSums | internal/store/ledger.go:66-106 | every transaction's rows sum to zero |
| Ledger.CutsBalance | internal/store/ledger.go:425-435 | at every time cut the rows sum to zero |
| Ledger.MoneyIsConserved | internal/store/ledger.go:424-435 | in every reachable book and at every cut all account balances sum to zero |
| Ledger.CloseAll | internal/ledger/ledger.go:138-178 | the closing loop, each account read at its own moments, equals CloseViews |
| Ledger.ClosedKeys | internal/store/ledger.go:394-404 | existing statements are immutable and new ones are for listed accounts |
| Ledger.ClosedStatements | internal/ledger/ledger.go:138-178 | every account gets a statement of its own balances unless it had one |
| Ledger.ClosedCycleBalances | internal/ledger/ledger.go:138-178 | a newly closed cycle opens and closes at a total of zero |
| Closing.ClosingAmidPostsIff | internal/ledger/ledger.go:138-178 | a cycle closed amid posts has the statements of the ledger as listed if and only if, for each account without a statement, the early-dated legs committed before its reads add up to nothing |
| Closing.TotalsAreEarlyLegs | internal/ledger/ledger.go:138-178 | in every reachable ledger the opening and closing totals are exactly the sums of those legs over all accounts |
| Ledger.ClosingAmidPosts | internal/ledger/ledger.go:138-178 | in particular posts dated at or after the end of the cycle do not show in its statements |
| Ledger.ClosedAmidPostsBalances | internal/ledger/ledger.go:138-178 | a cycle closed amid such posts opens and closes at a total of zero |
| Ledger.PostsAfterTheCut | internal/store/ledger.go:425-435 | any further calls dated at or after the cut lead to such a ledger |
| Ledger.EarlyPostShows | internal/store/ledger.go:425-435 | a transfer dated before the end and committed between the reads leaves closing balances off by its amount |
| Ledger.LaterRowsDoNotMatter | internal/store/ledger.go:425-435 | rows created after a cut leave balances at the cut alone |
| Accrual.Accruer.AccrueWindow | internal/ledger/accrue.go:72-189 | stopped anywhere, the hour's postings up to there are in and the watermark is untouched |
| Accrual.Accruer.OneHour | internal/ledger/accrue.go:206-213 | the watermark moves only after the whole hour is posted |
| Accrual.Accruer.CatchUp | internal/ledger/accrue.go:192-219 | the window loop, with its 48-hour cap and a crash anywhere, equals CaughtUp |
| Accrual.Replay | internal/store/ledger.go:66-106 | posting a list again up to any point is as if it had been posted once up to the further point |
| Accrual.CrashesDoNotMatter | internal/ledger/accrue.go:192-219 | after any crashes and restarts, from any start, the ledger is one the crash-free run from the first watermark on had, on top of what calls stopped before that watermark wrote; no hour from it on is skipped or doubled |
| Accrual.SameWatermarkSameLedger | internal/ledger/accrue.go:192-219 | histories that end undisturbed at the same watermark leave the same ledger if there was a watermark at the start; otherwise they have posted the same ids if and only if their first hours and stopped early calls add up to the same ids |
| CrashFree.CrashFreeLedger | internal/ledger/accrue.go:192-219 | a run without crashes posts the hours from its first to its last, each once, and nothing else |
| CrashFree.CrashFreeRun | internal/ledger/accrue.go:192-219 | such a run exists for every first and last hour |
| CrashFree.CrashFreeIff | internal/ledger/accrue.go:192-219 | a history has posted the ids of the crash-free run over its hours if and only if every id written by calls stopped before the first watermark was there before or belongs to those hours |
| CrashFree.StraysIff | internal/ledger/accrue.go:94-186 | with ids that carry their hour: if and only if each such call was for one of those hours or wrote nothing new |
| CrashFree.HalfPosted | deploy/migrations/000010_ledger_txns.sql:11-14 | without a watermark, a first call stopped after one of two posts and a next call an hour later leave the second post out for ever |
| CrashFree.IdsDecideBalances | internal/ledger/accrue.go:72-219 | after any history an account's balance is the old one and the amount of every id posted since, each once |
| Overlap.OverlapSkipsNoHour | internal/ledger/accrue.go:192-219 | under any interleaving of calls and crashes every hour from the first to the watermark is posted whole |
| Overlap.OverlapPostsOnce | internal/store/ledger.go:66-106 | overlapping calls post no id twice and each account gets the amount of every id once |
| Overlap.SecondTargetSkips | internal/ledger/accrue.go:198-204 | a call that finds no watermark and crashes, then one for a later hour that finds none, leave the first one's hour out |
| Overlap.SkipsNoneIff | internal/ledger/accrue.go:198-204 | without a watermark at the start, no hour from any call's target is skipped, in all interleavings and crashes, if and only if the calls that find none have the same target |
| Overlap.MovesBackIff | internal/store/ledger.go:133-149 | the watermark moves back exactly when a loop behind it finishes its hour |
| Overlap.WatermarkMovesBack | internal/store/ledger.go:133-149 | two overlapping calls leave the watermark an hour behind, with the posting both made in once |
| Accrual.WatermarkOnlyAdvances | internal/store/ledger.go:119-149 | with one call after the other the watermark never moves back, and an undisturbed call moves it up to 48 hours, or sets it |
| Accrual.CatchesUp | internal/ledger/accrue.go:192-219 | repeated calls reach the target in ceil(missing / 48) steps, or at once without a watermark |
| Accrual.NoHourIsSkipped | internal/ledger/accrue.go:72-219 | with changing meters and from any start no id is posted twice, and all ids some call read are posted for every hour after the first watermark, or from the first hour finished |
| Accrual.NothingElseIsPosted | internal/ledger/accrue.go:72-219 | every new entry is, amount included, a posting some call read for the very hour in its id |
| Accrual.MixedReadings | internal/ledger/accrue.go:72-219 | a call stopped after one post and a call with other readings leave an hour with amounts of both |
| Billing.FindReputation | internal/ledger/accrue.go:164-170 | the search gives the first held row's reputation, or 1 |
| Billing.ChargeAll | internal/ledger/accrue.go:85-101 | the customer loop posts one charge per non-zero amount |
| Billing.PayHolders | internal/ledger/accrue.go:107-131 | the loop over held bytes posts each node's earning at its reliability |
| Billing.PayServers | internal/ledger/accrue.go:159-187 | the loop over served bytes posts each node's earning at its reliability |
| Billing.BillHour | internal/ledger/accrue.go:72-189 | the four loops together post exactly the hour's Postings |
| Billing.HourBalances | internal/ledger/accrue.go:72-189 | an hour changes each customer by what it owes, each provider by what it earned, and the platform by the difference |
| Billing.EgressMargin | internal/ledger/accrue.go:133-187 | when bytes served are bytes charged, an hour's downloads cost the platform at most one micro-credit per customer beyond the first |
| Billing.PostingsProper | internal/ledger/accrue.go:94-186 | every accrual posting is balanced and carries its hour in its id |
| Billing.BookFollowsJournal | internal/ledger/ledger.go:181-209 | on known accounts the ledger takes a proper posting exactly when the journal does |
| Billing.SameJournalSameBalances | internal/store/ledger.go:227-234 | books behind the same journal give every account the same balance |
| Settlement.WriteMirrors | internal/ledger/ledger.go:181-209 | ensuring the accounts and posting takes a proper posting into the book exactly when the journal takes it |
| Settlement.VisitsMirror | internal/ledger/accrue.go:192-219 | over any calls stopped anywhere the book follows the journal's run posting for posting |
| Settlement.CrashesChangeNoBalance | internal/ledger/accrue.go:72-219 | with equal readings, two histories that finish at the same watermark leave every account the same balance if there was a watermark at the start; in any case they differ by exactly the amounts of the ids only one of them reached |
| Settlement.FromTheEmptyLedger | deploy/migrations/000010_ledger_txns.sql:11-14 | from the empty ledger an account's balance is that of the run without crashes over the same hours plus the amounts of stray ids, which is none when the stopped calls were for hours accounted for later |
| Settlement.HalfPostedBalance | internal/ledger/accrue.go:192-219 | a first call stopped inside its hour and a next call an hour later leave each account of the missing posting off by its leg |
| Settlement.EmptyMirrors | internal/store/ledger.go:66-106 | the empty book stands behind the empty journal |
| Settlement.BillIsDated | internal/ledger/accrue.go:72-189 | every posting of an hour's bill carries that hour |
| RateLimit.Limiter.Allow | internal/ratelimit/ratelimit.go:21-83 | decision, wait and stored bucket are the script's, an expired key counts as absent, other keys are untouched |
| RateLimit.CountsAdmitted | internal/ratelimit/ratelimit.go:35-48 | the counted levels are the requests admitted |
| RateLimit.AdmittedIffWithinLimit | internal/ratelimit/ratelimit.go:21-49 | a request is admitted if and only if, from every earlier request on, it keeps the number admitted within capacity plus what accrued |
| RateLimit.IntervalBound | internal/ratelimit/ratelimit.go:21-49 | at most capacity + rate * (b - a) requests are admitted in any interval |
| RateLimit.ExpiryHarmlessIff | internal/ratelimit/ratelimit.go:36-47 | the 120 s key expiry changes no level if and only if the window is at most 120 s or the capacity is zero |
| RateLimit.WaitIsLeast | internal/ratelimit/ratelimit.go:36-44 | a lone retry is admitted exactly from the returned wait on, which is between 1 and 120 seconds |

## Left out

- AES-GCM, Reed-Solomon, SHA-256 and Ed25519 themselves: parameters with stated assumptions.
- SQL isolation, Redis, NATS, bbolt, HTTP, TLS and JSON: a transaction, script or index update is one atomic step.
- The gateway, CLI flags, certificates, heartbeats, health thresholds, rollups and the visualizer: plumbing, or settled by one branch.
- Placement row ids: the pair of fragment and node names a row, as the table's unique constraint does.
- Version numbers, timestamps on rows and file sizes in the metadata store: they decide nothing proved here.
- NormalizePath: its result is the predicate Files.Normalized; the trimming it does first is not modelled.
- Redis reservations in Place and an I/O error part-way through it: a call that completes is modelled.
- Node scores: a positive weight per node and an arbitrary draw; that the weighted choice follows the weights is not stated.
- pickDownloadPlacements and the ordering of download candidates: arrivals come in any order anyway.
- Float rounding in reliability, scores and tokens: modelled over reals.
- Collisions of the SHA-1 transaction ids: an id is its kind, subject and window.
- Meter queries: an hour's readings are inputs of Billing.
- Tickets.SignedVerifiesIff: the sub-second part of a requested expiry is dropped, as the encoding drops it.
- Challenge sets, audits and their scheduling: only the placement updates they cause are steps.
- The repair worker's bandwidth budget, job queue and republishing of chunks that are still unhealthy: rounds are steps taken at any time.
- Files.RenameBackRestores: for paths free of LIKE metacharacters, where the subtree is exact; that the update back succeeds row by row is RenameBackInReverse.
- PlacementPlans.RunGood: a plan is one atomic step; a delete between its begin and its insert is the case of PlacementRuns.UnguardedInsertLeaks. Which rows a plan inserts is any choice Place could make.
- Framing.NoncesDistinct: up to 2^64 segments, the width of the counter.
- Durability.SurvivesRegionNetworkOrTwoOwners: for chunks whose earlier holders were within the caps, as CapsCarryOver keeps them, and for labelled regions; the unlabelled case is refuted by UnlabelledRegionIsUncapped.
- Rates.MarginBound: for products that fit an int64, as StorageChargeExactIff shows is needed.
- RateLimit.IntervalBound: for windows up to 120 seconds; the service's are one minute.
- RepairRun.RunHolds: every fragment's put tickets carry the manifest digest; CrashSafeIff shows what happens otherwise.
