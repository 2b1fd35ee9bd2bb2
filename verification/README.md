# A verified model of shm-actors

shm-actors keeps versioned tables in shared memory: readers pin a version and read it
without locks while a leased writer commits the next one, chunks are reference-counted and
recycled, and a coordinator cleans up after processes that die. This project models that
object layer in Dafny and proves what it promises, for every run, every number of threads
and every input the code accepts. Where the code does not keep a promise, a lemma gives the
run that breaks it, and the promise is proved under a condition shown to be exact for the
step that breaks it.

`dafny verify dfyconfig.toml` checks the whole project.

| part | files |
|---|---|
| manifests, chain walk, window, history, delta reads, commits | `Manifests`, `ChainWalk`, `Window`, `Lineage`, `Delta`, `Rewindow`, `Commits`, `ManifestStore`, `Completeness`, `Policy`, `ChunklessBatch` |
| bytes of a manifest | `Bytes`, `ManifestCodec` |
| pin hazard handshake and reclamation, step by step | `PinProtocol`, `PinSafety`, `Reclamation`, `StaleElection`, `StaleRuns`, `PinAlone` |
| reference accounting, and what a pin keeps | `References`, `Ledger`, `PinnedData`, `NoLeak` |
| recycling a head region; the write lease | `Recycle`, `RecycleRuns`, `RecycleAlone`, `Lease`, `LeaseAlone` |
| chunk control word, free list, pool layout | `ChunkCtrl`, `ChunkCtrlRuns`, `ChunkCtrlAlone`, `Treiber`, `TreiberRuns`, `TreiberAlone`, `PoolLayout` |
| borrow journal and crash replay | `Journal`, `Replay`, `ReplayRuns`, `ReplayEnds` |
| broadcast ring | `Ring`, `RingRuns`, `RingAlone` |
| Arrow batches | `ArrowTree`, `ArrowPacking`, `ArrowBatch` |

Protocols are machines of atomic steps: every load, store, compare-exchange and fetch-add of
a thread is one step, sequentially consistent, and a run is any interleaving of any number
of threads. What an operation comes to when nobody interferes is stated apart, as the state
it leaves behind (the files that end in `Alone`). Loops over vectors and buffers are methods with loops, the store of references
and the journal are classes, and each method is proved against a specification function that
the lemmas reason about.

## Model

| member | source | states |
|---|---|---|
| Manifests.CheckWindow | crates/shm-artifact/src/manifest.rs:426-449 | the validator's single pass accepts a window exactly when its members have batches, strictly increasing versions below the root's, counts within the batch count, and a base not above the first |
| ChainWalk.WalkNewestFirst | crates/shm-artifact/src/manifest.rs:696-753 | the loop over links returns what the walk specification says, for any resolver and stop rule |
| ChainWalk.WalkSound | crates/shm-artifact/src/manifest.rs:696-753 | every successful walk, against any resolver, visits links the resolver answered, one per hop, never more than the head's depth |
| ChainWalk.FullWalk | crates/shm-artifact/src/manifest.rs:673-682 | a full walk has depth + 1 members, strictly falling versions, one artifact and schema, and own batch counts that add up to the head's total |
| ChainWalk.WalkErrors | crates/shm-artifact/src/manifest.rs:696-753 | a walk fails with an error the resolver gave, or with the version reported gone |
| Window.CollectWindow | crates/shm-artifact/src/artifact.rs:1725-1877 | the nested loops build the window the specification defines, or fail as it does |
| Rewindow.WindowIsExact | crates/shm-artifact/src/artifact.rs:1725-1877 | over any represented history the window keeps exactly the newest batches asked for, names the version of every one, and its base is a version from which every later reader can be caught up |
| Lineage.TableIsSuffix | crates/shm-artifact/src/artifact.rs:2450-2494 | without a replacement in between, a version's table is a suffix of an earlier table followed by what was added since |
| Delta.BatchesSince | crates/shm-artifact/src/artifact.rs:2450-2494 | the delta read returns what its specification defines over the walked chain, truncation and errors included |
| Delta.BatchesOfChain | crates/shm-artifact/src/artifact.rs:2499-2530 | grouping chunks by spans across a chain, skipping the batches the reader has, gives the chain's batches or an overrun |
| Delta.ExactDelta | crates/shm-artifact/src/artifact.rs:2450-2494 | for every represented history and every earlier version, a delta read that is not truncated returns exactly the batches added since, in order, and the table is a suffix of the old table followed by them; a truncated one returns the whole table |
| Commits.ComposeManifest | crates/shm-artifact/src/artifact.rs:945-1100 | link, window and list handling of a commit compose the manifest the specification defines, errors included |
| Commits.CommitRepresents | crates/shm-artifact/src/artifact.rs:945-1100 | a commit keeps the manifests representing the history exactly when it does not re-root over batches that have no chunk between them |
| Commits.RunRepresents | crates/shm-artifact/src/artifact.rs:880-1225 | every run of replacing, appending and re-rooting commits writes manifests that represent its history |
| Commits.EveryRunDelta | crates/shm-artifact/src/artifact.rs:2450-2494 | the exact delta, with its suffix law, over every run of commits and every reader |
| ManifestStore.AppendLinks | crates/shm-artifact/src/manifest.rs:292-300 | an accepted append links the predecessor's version under the reference and the generation its manifest has |
| ManifestStore.NeverLies | crates/shm-artifact/src/artifact.rs:2463-2472 | in every run of commits that writes manifests into chunks and uses chunks again, a link is followed to the manifest it named while that is there, and refused as gone afterwards |
| ManifestStore.FaithfulIffResident | crates/shm-artifact/src/artifact.rs:1734-1743 | links are followed rightly all down a version's chain exactly while no manifest of the chain has been written over |
| ManifestStore.RunWrote | crates/shm-artifact/src/artifact.rs:945-1100 | so every such run writes manifests that represent its history, with nothing asked of how links resolve |
| ManifestStore.EveryStoredDelta | crates/shm-artifact/src/artifact.rs:2450-2494 | the exact delta over every such run, for the newest version always and for any other as long as its chain is there |
| ManifestStore.StoredWindow | crates/shm-artifact/src/artifact.rs:1725-1877 | the exact window over every such run |
| Commits.RefusedOnlyFor | crates/shm-artifact/src/manifest.rs:324-373 | a commit is accepted exactly when ids match, a link has a reference and a depth, counts fit 32 bits, and a window of chunkless batches is no larger than what is staged; collecting the window itself never fails |
| Commits.RefusalKinds | crates/shm-artifact/src/artifact.rs:945-1100 | a refused commit is a conflict exactly when it extends another artifact's version, and unsupported otherwise |
| Commits.ShortcutLoses | crates/shm-artifact/src/artifact.rs:1070-1078 | the shortcut for an empty kept list drops batches exactly when the window kept some and none has a chunk |
| ChunklessBatch.ChunklessBatchLost | crates/shm-artifact/src/artifact.rs:1070-1078 | after a version of one chunkless batch, a re-rooting commit that keeps it is accepted and loses it, whatever is staged |
| Completeness.TurnedAwayIff | crates/shm-artifact/src/artifact.rs:1725-1877 | over every run of commits, a reader is turned away though it could be caught up exactly when it is before the window base and between the two nothing was replaced and nothing added |
| Completeness.TruncatesIffLost | crates/shm-artifact/src/artifact.rs:1725-1877 | over every run of commits, all readers are told they lost their place exactly when they cannot be caught up if and only if the base version is the first, was a replacement, or added something |
| Completeness.EmptyVersionTruncates | crates/shm-artifact/src/artifact.rs:1725-1877 | re-rooting with nothing kept right after an empty version writes such a base |
| Policy.PolicyBound | crates/shm-artifact/src/artifact.rs:120-151 | every run of one-batch windowed commits keeps the chain below max(1, max depth) and the table between min(n, keep + 1) and keep + max(1, max depth) batches |
| Policy.RerootsEvery | crates/shm-artifact/src/artifact.rs:143-151 | every max(1, max depth)-th commit of such a run re-roots, beginning with the first, and the others append |
| Policy.PolicyReadsDepth | crates/shm-artifact/src/artifact.rs:2170-2178 | the depth a policy reads from the head manifest is the history's |
| ManifestCodec.ParsesExactly | crates/shm-artifact/src/manifest.rs:509-606 | the parser returns a manifest exactly when the bytes begin with its encoding and it is coherent and fits its fields |
| ManifestCodec.ParseErrors | crates/shm-artifact/src/manifest.rs:509-606 | bytes are refused as another format exactly when a whole header is there without the magic, and as a version gone otherwise |
| ManifestCodec.WriteThenParse | crates/shm-artifact/src/manifest.rs:324-424 | what the writer writes parses back to the same lists, link and window; the link's total comes back unchanged exactly when the running total did not saturate |
| ManifestCodec.WriteManifest | crates/shm-artifact/src/manifest.rs:324-424 | the writer's loops put the encoding at the start of the chunk and touch nothing after it, or refuse and touch nothing |
| ManifestCodec.ParseManifest | crates/shm-artifact/src/manifest.rs:509-606 | the parser's loops compute the decoding of any bytes at all |
| PinSafety.PinHazardSafety | crates/shm-artifact/src/head.rs:148-245 | in every run, a thread with an accepted pin has its slot neither free nor past a reclaimer's scan, and its version's reference on the manifest it read is outstanding |
| PinSafety.InvStep | crates/shm-artifact/src/artifact.rs:1339-1444 | every step of every thread keeps the handshake's invariant: counts, elections, lease, manifests' owners and readers' words |
| PinAlone.PinAlone | crates/shm-artifact/src/artifact.rs:1339-1444 | an undisturbed pin holds the current version in whatever slot it is, with one more pin there and nothing else changed; if no live slot carries it the pin leaves no trace |
| PinAlone.PinSucceeds | crates/shm-artifact/src/artifact.rs:1339-1444 | in every run without stale elections, whatever else is under way, such a pin succeeds as soon as the current version's commit is done |
| PinAlone.GivesUpAfterAll | crates/shm-artifact/src/head.rs:522-531 | in every run, a pin gives up before it has bumped only after it looked at every slot, and each was not live or of another version when it looked |
| PinAlone.RetireAlone | crates/shm-artifact/src/artifact.rs:2040-2099 | an undisturbed retire frees exactly the slot it is for, unless that is the current version's or pinned |
| PinAlone.DropAlone | crates/shm-artifact/src/artifact.rs:2341-2368 | an undisturbed drop gives one pin back, and the last one of a superseded version frees its slot |
| PinAlone.CommitAlone | crates/shm-artifact/src/artifact.rs:1125-1225 | an undisturbed commit installs the next version in the first free slot and retires its predecessor by version and manifest; in a full table it leaves nothing |
| PinnedData.StepInv | crates/shm-artifact/src/artifact.rs:880-1225 | every step of every thread, a commit staging its manifest and a release with all it frees included, keeps every count exact, exactly the needed manifests unfreed, and the outstanding version references exactly the live slots' |
| PinnedData.BooksStay | crates/shm-artifact/src/artifact.rs:1938-1969 | so in every run of the pin protocol together with the control words |
| PinnedData.PinnedDataStays | crates/shm-artifact/src/artifact.rs:1938-1969 | in every such run everything reachable from an accepted pin is published: its manifest, every manifest its chain links, and every chunk they list |
| PinnedData.PinnedChainFixed | crates/shm-artifact/src/artifact.rs:1339-1444 | no step of any thread changes which chunks a held version's chain lists or what it links |
| NoLeak.PublishedIffWanted | crates/shm-artifact/src/artifact.rs:2040-2099 | in every such run without stale elections, once nothing is in flight a chunk is published exactly when it is on the chain of the current version or of one a reader holds |
| Ledger.ChainReleased | crates/shm-artifact/src/artifact.rs:1938-1969 | giving references back one by one down the chain keeps the counts exact and frees exactly what nothing needs |
| Ledger.TakeAccounts | crates/shm-artifact/src/artifact.rs:945-1100 | taking a commit's references one by one keeps the counts exact |
| Reclamation.SettledIffFresh | crates/shm-artifact/src/artifact.rs:2040-2099 | the reclamation invariant survives a step exactly when the step is not a stale election |
| Reclamation.NoLostReclamation | crates/shm-artifact/src/artifact.rs:2040-2099 | in every run without stale elections, once nothing is in flight every live slot is current or pinned and the outstanding references are exactly the live slots' |
| Reclamation.CurrentStaysLive | crates/shm-artifact/src/artifact.rs:2040-2099 | in every such run the current version has a live slot at every moment |
| Reclamation.PinFreezesSlot | crates/shm-artifact/src/head.rs:148-177 | in every such run an accepted pin's slot keeps its version and manifest |
| StaleElection.FreesCurrentIff | crates/shm-artifact/src/artifact.rs:2040-2099 | letting an election on an unpinned slot finish leaves the current version in place exactly when the slot is not the current one's |
| StaleElection.RevertLeaksIff | crates/shm-artifact/src/artifact.rs:2040-2099 | a retire that reverts over an unpinned, superseded slot leaves someone on the way to reclaim it exactly when it was for that version or someone else already was |
| StaleElection.ForgottenForever | crates/shm-artifact/src/artifact.rs:2040-2099 | a superseded version nobody works for is never reclaimed in any later run that does not retire it by number |
| StaleRuns.LeakedVersion | crates/shm-artifact/src/head.rs:207-222 | a run with two slots and three threads that ends at rest with a superseded, unpinned, live version, forgotten for good |
| StaleRuns.DestroyedCurrent | crates/shm-artifact/src/artifact.rs:1985-1996 | a run that ends at rest with a current version that has no slot |
| References.Store.Commit | crates/shm-artifact/src/artifact.rs:880-1225 | every outcome of a commit keeps the books balanced; a failed one leaves versions as they were and returns exactly the staged chunks, an installed one adds its version and retires its predecessor |
| References.Store.Rollback | crates/shm-artifact/src/artifact.rs:1228-1277 | releasing what a failed commit took restores the books |
| References.Store.ReleaseManifest | crates/shm-artifact/src/artifact.rs:1938-1969 | the cascade ends, releases each reference once, and frees exactly the manifests nothing needs |
| References.Store.TryRetire | crates/shm-artifact/src/artifact.rs:2040-2099 | retiring frees the slot's reference and what that cascades to, only for a superseded, unpinned version |
| References.Store.Pin | crates/shm-artifact/src/artifact.rs:1339-1444 | a pin raises the current version's count and nothing else |
| References.Store.Drop | crates/shm-artifact/src/artifact.rs:2341-2368 | the last drop of a superseded version retires it, and the books balance |
| References.Store.EvictAll | crates/shm-artifact/src/artifact.rs:537-579 | with no pins left, every chunk that is not on loan is free |
| References.ManifestCounted | crates/shm-artifact/src/artifact.rs:1938-1969 | a manifest's count is at its last reference exactly when neither a live slot nor an unfreed successor needs it |
| References.RolledBack | crates/shm-artifact/src/artifact.rs:1228-1277 | balanced books over the same versions agree on every chunk not on loan, so a failed commit leaves no trace |
| Recycle.StepInvIff | crates/shm-artifact/src/head.rs:442-501 | the books of pins survive a step exactly when it does not initialise under an outstanding pin, those of claims exactly when it neither initialises under an outstanding claim nor frees a slot another thread claimed, and both exactly when it does neither |
| Recycle.QuietMeansQuiet | crates/shm-artifact/src/head.rs:466-498 | in every run, a scan that comes back quiet finds no pin that passed its check if the run spares pins, and no claim that passed its check if it spares claims |
| Recycle.CleanIffWords | crates/shm-artifact/src/head.rs:483-498 | an initialisation spares pins exactly when every pin count reads zero, and claims exactly when no slot is claimed, which its live word would show; over empty words it spares both |
| Recycle.CarefulRunsSpare | crates/shm-artifact/src/head.rs:390-400 | a sweeper that initialises only over words that still read empty, and an evictor that frees only slots nobody claimed, spare pins and claims in every run |
| Recycle.OldHandlesFail | crates/shm-artifact/src/head.rs:442-465 | in every run, no handle of an incarnation older than the latest issued passes its check |
| RecycleAlone.HeadInService | crates/shm-artifact/src/artifact.rs:489-491 | in every run, outside a sweep the latest incarnation is in service, and during one none is |
| RecycleAlone.SweepAlone | crates/shm-artifact/src/head.rs:466-506 | an undisturbed sweep renews a head nothing is registered on, and puts any other back into service as it was |
| RecycleAlone.PinAlone | crates/shm-artifact/src/head.rs:442-465 | an undisturbed pin gets in exactly with a handle of the incarnation in service, and otherwise leaves the count as it was |
| RecycleAlone.ClaimAlone | crates/shm-artifact/src/head.rs:558-577 | the same for a slot claim |
| RecycleAlone.ClaimEnds | crates/shm-artifact/src/artifact.rs:1172-1248 | a claim becomes current exactly when it is the version after the current one; one that gives up frees its slot only if that still carries its version |
| RecycleAlone.LeaseAlone | crates/shm-artifact/src/head.rs:442-465 | the lease is got with a current handle and given back, with any other the acquisition backs out |
| RecycleRuns.QuietOverPin | crates/shm-artifact/src/head.rs:390-400 | a run from a fresh region that ends with a quiet scan over a pin that passed its check |
| RecycleRuns.QuietOverClaim | crates/shm-artifact/src/head.rs:558-577 | the same for a slot claim, freed by an older occupant's back-out |
| RecycleRuns.QuietOverFreedClaim | crates/shm-artifact/src/artifact.rs:561-574 | a run with no initialisation at all in which an evictor frees a claimed slot and the scan comes back quiet over the claim |
| RecycleRuns.InstallsOntoNext | crates/shm-artifact/src/artifact.rs:1172-1174 | its continuation: the region is in service again, and the old occupant's commit installs its version onto the new one |
| Lease.OneCommitter | crates/shm-artifact/src/head.rs:591-662 | in every run at most one committer's token is in force, equal owner ids included |
| Lease.NeverAgain | crates/shm-artifact/src/head.rs:614-623 | a token behind the fence is never in force again within 2^32 releases |
| Lease.StaleDrop | crates/shm-artifact/src/artifact.rs:2255-2277 | a committer's drop leaves another committer's lease word and token as they are, equal owner ids included |
| Lease.LateDrop | crates/shm-artifact/src/artifact.rs:2255-2277 | a committer fenced out drops harmlessly in every later run |
| LeaseAlone.AcquireAlone | crates/shm-artifact/src/head.rs:591-613 | an undisturbed acquisition of a free lease succeeds under the present fence, and of a held one fails |
| LeaseAlone.DropAlone | crates/shm-artifact/src/head.rs:624-644 | acquiring and dropping leaves the lease free, one fence on |
| LeaseAlone.ForceAlone | crates/shm-artifact/src/head.rs:645-662 | a forced release leaves it free, one fence on |
| LeaseAlone.GivesUpOnlyIf | crates/shm-artifact/src/head.rs:591-662 | whatever the others do, an acquisition gives up only while the lease is held and a forced release only once it is free |
| Lease.WrappedDrop | crates/shm-artifact/src/head.rs:624-644 | a run of 2^32 releases after which a fenced-out committer's drop releases its successor's lease |
| ChunkCtrl.WordShape | crates/shm-core/src/ctrl.rs:143-302 | in every run the word counts exactly the outstanding references while published and nothing otherwise, every occupancy but the present one was freed once, and each freeing bumps the generation once |
| ChunkCtrl.InvStep | crates/shm-core/src/ctrl.rs:143-302 | the owner's books survive a step exactly when it does not take a loan over a half-done drop or publish past a reclaim that saw an earlier owner gone |
| ChunkCtrl.EveryOccupancyFreed | crates/shm-core/src/ctrl.rs:229-302 | in every clean run over any number of occupancies, once all have released the chunk is free, with one freeing and one generation per loan |
| ChunkCtrl.FreedWhenDone | crates/shm-core/src/ctrl.rs:229-302 | in every clean run a published chunk is freed only when its owner is gone and nobody else holds it |
| ChunkCtrl.SingleFreer | crates/shm-core/src/ctrl.rs:229-302 | within one occupancy, with no premise on the interleaving, the owner and all holders releasing ends in one freeing and one bump |
| ChunkCtrlAlone.LoanAlone | crates/shm-core/src/ctrl.rs:143-157 | an undisturbed loan succeeds exactly for a free chunk |
| ChunkCtrlAlone.PublishAlone | crates/shm-core/src/ctrl.rs:158-176 | publishing a loan keeps its owner |
| ChunkCtrlAlone.DropAlone | crates/shm-core/src/ctrl.rs:177-196 | dropping a loan frees the chunk under the next generation |
| ChunkCtrlAlone.BorrowAlone | crates/shm-core/src/ctrl.rs:201-219 | an undisturbed borrow succeeds exactly for a published chunk, whatever its count, and adds one reference |
| ChunkCtrlAlone.ReleaseAlone | crates/shm-core/src/ctrl.rs:229-272 | a release takes one reference off, and the last one of a chunk without an owner frees it |
| ChunkCtrlAlone.DisownAlone | crates/shm-core/src/ctrl.rs:273-302 | an owner letting go frees a chunk nobody references and no other |
| ChunkCtrlAlone.BorrowEnds | crates/shm-core/src/ctrl.rs:201-219 | in every run a borrow ends with a reference, or it looked while the chunk was not published |
| ChunkCtrlAlone.OwnerEnds | crates/shm-core/src/ctrl.rs:158-196 | a publish or drop ends with its own transition, or after it saw the word not loaned |
| ChunkCtrlRuns.FreedUnderOwner | crates/shm-core/src/ctrl.rs:283-302 | a run from a fresh chunk in which an overtaken reclaim frees the next occupancy under its owner |
| Treiber.StepRefinesIff | crates/shm-core/src/pool.rs:142-180 | a step refines a step, or none, of an atomic stack exactly when it does not install a link that is no longer the top slot's |
| Treiber.RefinesStack | crates/shm-core/src/pool.rs:142-180 | a run refines the atomic stack driven by the same schedule all along exactly when no step installs such a link |
| Treiber.WindowRefines | crates/shm-core/src/pool.rs:142-180 | no step does in a run in which no thread is overtaken by 2^32 swaps between its load and its swap |
| Treiber.EverySlotOnce | crates/shm-core/src/pool.rs:142-180 | in every refining run every slot is on the free list exactly once or held by exactly one thread |
| Treiber.WrapInstallsHeld | crates/shm-core/src/pool.rs:142-160 | a whole turn of the tag after its load, a stale pop installs a held slot |
| TreiberRuns.WrappedTag | crates/shm-core/src/pool.rs:142-160 | a run of 2^32 swaps that ends so |
| TreiberAlone.PopAlone | crates/shm-core/src/pool.rs:142-160 | an undisturbed pop takes the top slot, or finds the list empty |
| TreiberAlone.PushAlone | crates/shm-core/src/pool.rs:161-180 | an undisturbed push puts the slot on top |
| TreiberAlone.PushUndoesPop | crates/shm-core/src/pool.rs:142-180 | a push undoes a pop |
| PoolLayout.ComputeLayout | crates/shm-core/src/pool.rs:205-234 | both passes compute the global indices, regions and total of the layout |
| PoolLayout.ChunkClear | crates/shm-core/src/pool.rs:205-234 | every chunk is behind the control words, inside the layout, with a global index below the total, and 64-aligned if its size is a multiple of 64 |
| PoolLayout.RegionsInOrder | crates/shm-core/src/pool.rs:214-217 | class headers of 32 bytes follow the 24-byte pool header, control words of 16 bytes follow them from the first 8-aligned byte, all 8-aligned and before every chunk |
| PoolLayout.WordsApart | crates/shm-core/src/pool.rs:205-234 | different class headers, and different control words, occupy different bytes |
| PoolLayout.ChunkBehindAll | crates/shm-core/src/pool.rs:219-225 | every chunk lies behind every class header and every control word, and its class starts at the first 64-aligned byte it can |
| PoolLayout.ChunksApart | crates/shm-core/src/pool.rs:205-234 | different chunks occupy disjoint bytes and have different global indices |
| PoolLayout.LocateExact | crates/shm-core/src/pool.rs:447-468 | in a layout below 2^32 bytes an offset resolves to a chunk exactly when it is the offset handed out for that chunk, with its own global index; chunks of size zero are never found |
| PoolLayout.AllocTruncates | crates/shm-core/src/pool.rs:412-418 | the offset handed out for a chunk is its true one modulo 2^32, so the true one exactly when that fits |
| PoolLayout.LargeClassAliases | crates/shm-core/src/pool.rs:285-285 | a class larger than that hands out two chunks at one offset |
| PoolLayout.Locate | crates/shm-core/src/pool.rs:447-468 | the search over classes computes the specified resolution, errors included |
| PoolLayout.LocateRefuses | crates/shm-core/src/pool.rs:447-468 | an offset is out of bounds exactly when no class covers it, and misaligned only when one does but no chunk starts there |
| PoolLayout.FindClass | crates/shm-core/src/pool.rs:390-397 | an allocation uses the first class large enough, or none is |
| Journal.BorrowJournal.constructor | crates/shm-core/src/journal.rs:325-359 | a new journal is empty |
| Journal.BorrowJournal.RecordEntry | crates/shm-core/src/journal.rs:483-519 | recording fails exactly when every slot is taken; otherwise the entry is added to the map at an index below capacity that was free |
| Journal.BorrowJournal.Release | crates/shm-core/src/journal.rs:526-541 | release removes the index from the map and reports whether it was there |
| Journal.BorrowJournal.ReplayIndexed | crates/shm-core/src/journal.rs:578-595 | replay lists the decoded entries of the occupied slots in index order |
| Journal.HeldExactly | crates/shm-core/src/journal.rs:578-595 | that list holds each decodable occupied slot once, in order, and nothing else |
| Journal.EntryRoundTrip | crates/shm-core/src/journal.rs:130-224 | an entry decodes to the record it was made from exactly when its 64-bit field fits |
| Replay.InvStep | crates/shm-core/src/journal.rs:526-541 | the pin accounting survives a step exactly when it does not record an index over someone who still names it for another version |
| Replay.NeverSteals | crates/shm-runtime/src/coordinator.rs:1310-1332 | in every such run each version's count is exactly what is owed and at least its live readers |
| Replay.LedgerStep | crates/shm-core/src/journal.rs:526-541 | the ledger of single pins survives a step exactly when it records an index nobody names |
| Replay.AtMostOnce | crates/shm-artifact/src/artifact.rs:2341-2368 | in every such run each pin is given back at most once by its holder and the coordinator together |
| Replay.UncleanSteals | crates/shm-core/src/journal.rs:483-519 | any other recording lets whoever named the index win a bit that is not its pin's, one below what its version is owed |
| Replay.DeadRunsClean | crates/shm-runtime/src/coordinator.rs:1310-1332 | it is enough that actors declared dead record nothing |
| Replay.OnlyMissesLeak | crates/shm-artifact/src/artifact.rs:1548-1565 | when all threads are done, what is left of a version's count is exactly what replays gave up on |
| ReplayEnds.CompleteStep | crates/shm-artifact/src/artifact.rs:1548-1565 | every pin taken stays owned, recorded or given back over a step exactly when the step is not a replay that looks while its slot is not live |
| ReplayEnds.AllGivenBack | crates/shm-artifact/src/artifact.rs:1548-1565 | when all threads are done, no count is left exactly when no replay looked at such a moment, and then every pin ever taken was given back once |
| ReplayEnds.ReplayAlone | crates/shm-artifact/src/head.rs:188-199 | an undisturbed replay of a live slot's pin gives it back whatever the count |
| ReplayEnds.DropAlone | crates/shm-artifact/src/artifact.rs:2341-2368 | a drop nobody forestalled gives its pin back |
| ReplayRuns.StolenPin | crates/shm-core/src/journal.rs:483-519 | a run in which an actor declared dead but still running steals a live reader's pin |
| ReplayRuns.LeakedPin | crates/shm-artifact/src/artifact.rs:1548-1565 | a run that ends with every thread done and a version pinned by nobody |
| Ring.Conservation | crates/shm-ring/src/subscribe.rs:136-153 | in every run samples received plus messages reported lost equal the cursor's advance, the cursor never moves back, and the resynchronising subtraction never underflows |
| Ring.LossIsLap | crates/shm-ring/src/ring.rs:290-335 | in every run a load reports loss exactly when it finds the head more than a lap ahead, resumes exactly a lap behind, and reports just what it skipped; it starts on a message exactly when it is at most a lap behind, and turns to the head in between only if its slot's sequence moved on |
| RingAlone.ReceivesAll | crates/shm-ring/src/subscribe.rs:136-153 | in every run a subscriber no more than a lap behind (less than one while the producer stores) that loads alone receives every message up to the head, in order, and reports no loss |
| RingRuns.Publishes | crates/shm-ring/src/ring.rs:268-289 | a publication's stores leave the message in its slot under its sequence and move the head by one |
| Ring.SampleIsExact | crates/shm-ring/src/ring.rs:268-335 | a sample accepted less than a lap behind is the message published at the cursor, and none is accepted more than a lap behind |
| RingRuns.TornSample | crates/shm-ring/src/ring.rs:268-289 | on a ring of any capacity and any positive descriptor width, a run in which a sample accepted exactly a lap behind is a mixture of two messages |
| RingRuns.LapIsTheBound | crates/shm-ring/src/ring.rs:268-335 | every sample accepted at most d behind the head is exact in all runs if and only if d is less than the capacity, or descriptors are empty |
| ArrowTree.PlanForest | crates/shm-arrow/src/write.rs:196-252 | flattening appends the pre-order nodes and buffers of the columns, or refuses an unsupported type or count |
| ArrowTree.PlannableIff | crates/shm-arrow/src/write.rs:196-252 | a well-typed forest is refused only for an unsupported type in its schema or a count of some array that does not fit its node entry |
| ArrowTree.BuildForest | crates/shm-arrow/src/read.rs:334-378 | the recursive reader computes the lockstep walk, underruns and mismatches included |
| ArrowTree.BuildInverts | crates/shm-arrow/src/read.rs:334-378 | the walk undoes the flattening of every well-typed forest, wherever its entries stand in the tables |
| ArrowTree.BuildSound | crates/shm-arrow/src/read.rs:334-378 | whatever the tables hold, a forest that comes out is well typed and used up its nodes and buffers in order |
| ArrowPacking.Pack | crates/shm-arrow/src/write.rs:295-327 | packing succeeds exactly when the tables and each buffer fit a chunk, keeps every buffer whole, 64-aligned, in bounds and disjoint, and uses one chunk exactly when the serialized length fits one |
| ArrowPacking.NextFit | crates/shm-arrow/src/write.rs:295-327 | every buffer goes to the first aligned byte after the one before it if it fits that chunk, and opens the next chunk only if it does not |
| ArrowPacking.FitsOneChunk | crates/shm-arrow/src/write.rs:332-339 | the single-chunk writer accepts a batch exactly when its serialized length fits the capacity |
| ArrowPacking.ComputeSerializedLen | crates/shm-arrow/src/write.rs:332-339 | the loop over buffers computes that length |
| ArrowBatch.WriteBatch | crates/shm-arrow/src/write.rs:95-193 | the writer succeeds exactly for writable batches with enough room, leaves them in the chunks, and touches no byte outside them |
| ArrowBatch.ReadBatch | crates/shm-arrow/src/read.rs:109-210 | the reader computes the specified batch of any bytes, errors included |
| ArrowBatch.BatchRoundTrip | crates/shm-arrow/src/read.rs:257-378 | every well-typed forest the writer accepts, at any capacity, reads back as itself |
| ArrowBatch.ReadSound | crates/shm-arrow/src/read.rs:257-378 | whatever the chunks hold, a batch that reads is well typed and its buffers are those the table names, each used once |

## Findings

Promises the code does not keep in every run. Each line names the run or input that breaks it
and the exact condition under which it holds.

- A retire may elect a slot that was freed and claimed again since it was found, because the election compares the slot's state alone (crates/shm-artifact/src/head.rs:207-222). A version can be leaked (`StaleRuns.LeakedVersion`, `StaleElection.ForgottenForever`) or the version being installed destroyed (`StaleRuns.DestroyedCurrent`). Exact condition on the step: `Reclamation.SettledIffFresh`; consequences: `StaleElection.FreesCurrentIff`, `StaleElection.RevertLeaksIff`. Accepted pins stay safe in every run all the same (`PinSafety.PinHazardSafety`).
- Initialising a recycled head wipes a pin or claim registered after its slot was scanned; its undo then undoes the next occupant's, and a later scan is quiet over a registered operation (`RecycleRuns.QuietOverPin`, `RecycleRuns.QuietOverClaim`). Exact condition: `Recycle.StepInvIff`, in words a sweeper can read: `Recycle.CleanIffWords`.
- Evicting retires every unpinned live slot that carries a version, also one a commit under way has claimed (crates/shm-artifact/src/artifact.rs:561-574). A recycle scan then comes back quiet over a commit that passed its incarnation check, and that commit installs onto the reclaimed head (`RecycleRuns.QuietOverFreedClaim`, `RecycleRuns.InstallsOntoNext`), although the comment at crates/shm-artifact/src/artifact.rs:532-533 says no interleaving does. Exact condition: the claims' half of `Recycle.StepInvIff`.
- A reclaim that saw a chunk's owner gone can free the next occupancy under its owner (`ChunkCtrlRuns.FreedUnderOwner`). Exact condition: `ChunkCtrl.InvStep`. What either kind of step leads to: `ChunkCtrl.StaleReclaim`, `ChunkCtrl.StaleDrop`. Forbidding loans alone while a reclaim stands at its exchange would not do: the reclaim may load the owner word between the loan and the store of the new owner.
- A journal index may be recorded again while a holder whose bit was taken still names it; that holder's drop then steals a live reader's pin (`ReplayRuns.StolenPin`). Exact conditions: `Replay.InvStep` for the counts, `Replay.LedgerStep` for single pins.
- A replay that looks while a reclaimer holds the slot FREEING gives up, and the pin is leaked (`ReplayRuns.LeakedPin`). Exact condition: `ReplayEnds.CompleteStep`; over whole runs: `ReplayEnds.AllGivenBack`.
- A subscriber exactly a lap behind can accept a mixture of two messages, on a ring of any capacity (`RingRuns.TornSample`); less than a lap behind it cannot. Exact bound: `RingRuns.LapIsTheBound`.
- Re-rooting over batches without chunks loses them (`ChunklessBatch.ChunklessBatchLost`). Exact condition: `Commits.CommitRepresents`.
- An empty version can become a window's base, and then a reader that could be caught up is turned away (`Completeness.EmptyVersionTruncates`). Exact condition for all readers: `Completeness.TruncatesIffLost`; for one: `Completeness.TurnedAwayIff`.
- A saturated batch total does not come back from the bytes (`ManifestCodec.WriteThenParse` says exactly when).
- After 2^32 swaps a stale pop installs a held slot (`TreiberRuns.WrappedTag`); exact condition: `Treiber.StepRefinesIff`. After 2^32 releases a stale committer releases its successor's lease (`Lease.WrappedDrop`); exact condition: `Lease.AgainIffWrapped`.
- A pool of more than 2^32 bytes is created without complaint, and hands out chunks at truncated offsets (`PoolLayout.LargeClassAliases`). Exact condition for a chunk: `PoolLayout.AllocTruncates`.

Where comments and code differ, the model follows the code: the manifest magic is SHMMFST5
although the layout comment says SHMMFST4; a root stores its window base in `prev_version`
although a comment says that field is zero exactly for a root; a policy that keeps no batches
still leaves tables of one batch, although its comment gives the range from keep to twice keep.

## Left out

- Optimistic commits that overlap another commit: commits are serialised by the held lease.
- Weak memory: steps are sequentially consistent; fences and orderings are not modelled.
- Segments, memory mapping, file descriptors, doorbells, futexes, process supervision and the clock: they are I/O.
- Arrow library internals: buffers are byte sequences, types are trees, slices are already normalised, and the schema registry is a schema id.
- The early returns of a commit that do not consume what was staged, and generation checks on released references.
- The reliable-subscriber table of the ring, the envelope and control protocol codecs, the catalog, tasks and streams: they would add only easy members.
- Window.CollectWindow: does not model the borrow and the generation check of each chunk it keeps; borrowing is part of the reference accounting.
- PinnedData.StepInv: a commit takes its references, and a release follows what it frees, in one step each; which interleavings the counts alone allow is the subject of the control word's model.
- Reclamation.NoLostReclamation: holds for runs without stale elections, because it is false otherwise; the condition is exact at the step.
- NoLeak.PublishedIffWanted: holds for runs without stale elections, for the same reason.
- Recycle.QuietMeansQuiet: holds for runs that spare pins or claims, because it is false otherwise; the condition is exact at the step.
- ChunkCtrl.EveryOccupancyFreed: holds for clean runs, because it is false otherwise; a pool that lists a chunk only after its drop or release returned takes no loan over a half-done drop.
- Replay.NeverSteals: holds for runs that record no index over a holder of another version, because it is false otherwise; one recorder per journal, so an entry and its bit are written in one step.
- Lease.OneCommitter: for runs in which no committer is overtaken by 2^32 releases.
- Commits.EveryRunDelta: for histories whose tables fit the 32-bit batch counter and that do not re-root over chunkless batches.
- Policy.PolicyBound: for one-batch commits.
- PinAlone.PinSucceeds: for runs without stale elections, because the current version may have no slot otherwise (`StaleRuns.DestroyedCurrent`).
- ReplayEnds.AllGivenBack: for runs that record no index someone names, because it is false otherwise (`ReplayRuns.StolenPin`).
- ManifestStore.RunWrote: that the pool does not hand out a chunk of the head's chain is a condition on its choices; the reference accounting is what makes sure of it (`PinnedData.PinnedDataStays`).
- References.Store.Commit: which way a commit fails is a parameter; the sequence of releases within one call is sequential.
- Journal.BorrowJournal.RecordEntry: sequential; contention on a bitmap word is part of the replay model instead.
- PoolLayout.LocateExact: for layouts below 2^32 bytes; what fails beyond is `PoolLayout.AllocTruncates`.
- The generation field of a chunk, the ring's sequence numbers and incarnations are unbounded.
