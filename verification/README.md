# Verified model of the Amareleo BFT engine

This project models the Narwhal and Bullshark engine under `node/bft` of the Amareleo chain, together with
the block locators of `node/sync`, and proves what its comments, checks and structure promise. The centre is
the commit engine: certificates are stored and delivered to a DAG, leaders ("anchors") are committed in
chunks that may stop half way, garbage is collected after each chunk, and the node may restart from its ledger
at any time.

## How it is organised

The engine is described twice. `Dag`, `Links`, `Dfs`, `Blocks` and `Engine` give each operation as a function
of values, and the classes `Dag`, `MemoryService`, `Storage`, `Bft`, `Ready` and `Primary` perform the same
operations in place, with the loops of the source; every method is proved to compute its function. `Nodes`
then turns the functions into runs: a run is *any* sequence of events (store a certificate with its
transmissions, deliver one to the DAG with any answers from ledger and consensus, restart), and an event that the
source would refuse has no effect. The results hold after every run:

- `Agreement.RunsAgree`: two runs over the same certificates, in any arrival order, with any chunking, any
  half-finished chunks and any restarts, never fork: one has committed a prefix of the other's anchors, each with
  the same certificates in the same order. This is the argument of the comment at
  `node/bft/src/bft.rs:777-791`, made whole: it rests on `Links.AnchorInclusion` (stake-weighted quorum
  intersection) and on `Safety.ChunkIndependence`.
- `NoFork` and `ForkFree`: the ledgers then agree block for block, transmissions included, on one condition: no
  ledger lookup fails for a transmission that a committed block would include. `ForkFree.NeverForksExactly` shows
  that the condition is exact, and `ForkWitness.FailedReadForks` is a run that one failed lookup makes fork.
- `Safety`: no certificate is committed twice, commits are causally complete and permanent, ordering never
  misses a parent, no stored certificate loses a transmission, no transaction or solution enters two blocks, and a
  restart leaves the commit counters as they were (`Bootup.BootupEquivalence`).
- `Progress` and `Resync`: when a delivery commits its whole walk, and when storing the window's certificates again
  after a restart restores storage, each as an if-and-only-if.
- `DfsExactness` and `DfsOrder`: what the depth-first ordering collects, and in which order: left to right on
  every level, which fixes the order of whole blocks without the traversal (`Histories.BlocksAreLeftToRight`).
- `Storages` and `Memories`: the four storage maps describe one set of certificates, and transmissions are
  reference counted.
- `ReadyQueues`, `Drains`, `Primaries`, `ProposalCaches`, `Locators`: the ready queue, the batch drain, one
  proposal per round across restarts, the proposal cache format, and block locators.

## Assumptions

- Each lock-protected operation is one step, and a certificate reaches the DAG after its parents
  (`ParentsDelivered` in `Nodes.dfy`): the callers store a certificate, which requires its parents to be stored,
  and then await the DAG update before going on.
- Bootup is one step. The source only sends the window's certificates to the BFT task and does not await the DAG
  sync, and the pending certificates of the proposal cache are delivered through another task; the model takes the
  sync to be finished before the first certificate is delivered. Storing the window's certificates again is a
  sequence of ordinary store events after the restart (`Resync`), in the order of the blocks; the certificates of one
  round, which the source may store in parallel, are stored in subdag order.
- Runs embed the memory service. The node opens the persistent one, for which `NoFork.AnchorCommitsExactly`,
  `Progress.DeliveryCommitsExactly`, `Safety.TransmissionsAreCounted` and the supply conditions of `Resync` are not
  claimed.
- Callers abort only transmissions that the certificate declares, as `sync_certificate_with_block` does;
  `Storages.Storage.InsertCertificate` says what happens otherwise.
- The parents of a certificate are an ordered set, so they are distinct; used only for the order within a block.
- Certificate IDs determine certificates (the hash has no collisions): every run draws its certificates from one
  map `world`. Round-1 certificates have no parents. The ID doubles as the batch ID.
- The lookback committee is a fixed function of the round; the ledger may fail to return it. With total stake N
  and f = (N - 1) / 3 rounded down, the quorum is N - f and the availability threshold f + 1.
- For agreement between two runs, and for restoring storage after a restart (`ValidWorld`): one certificate per
  author and round, and every certificate has a quorum of existing parents. Everything else about a single run is
  proved from the storage checks.
- The leader is one fixed address, as in the source, where it is the primary's own.
- A commit callback that succeeds has added the block to the ledger; one that fails has not. After a block is
  added the ledger contains the IDs of its transmissions.
- `update_dag` is instantiated with ledger access and without syncing. A failed ledger read of a certificate counts as
  "not contained", so running without ledger access is the case in which every read fails.
- Round and height counters do not overflow, except where saturation is part of the behaviour (stake sums, the
  checkpoint range, the batch cost), which is modelled.

## Where the documentation and the code differ

- The comment on `BlockLocators` says the checkpoints go up to the largest multiple of 10,000 not exceeding the
  number of blocks N; the validator and the builder use the tip N - 1. The model follows the code.
- `check_block_locators` rejects well-formed locators whose tip is the largest 32-bit height, because the saturating
  addition makes the range end there. `Locators.CheckBlockLocators` states the exact condition.
- `check_batch_header` documents that no transmission is from a past round; no such check is made.
  `ForkWitness.PastTransmissionIsAccepted` is a run that stores two certificates with the same transmission, and
  `Memories.RecordedIsDeclared` says when that cannot happen: when memory records none of its transmissions.
- `sync_certificate_with_block` skips a transmission that is already recorded as aborted, while
  `find_missing_transmissions` does not count it as known: a second certificate that declares it is not restored at
  bootup (`Memories.SecondAbortedIsRefused`).
- The propose lock is lost when a session ends without saving: `Primaries.CrashRepeatsARound` shows a round proposed
  twice, and `Primaries.OneProposalPerRoundExactly` says exactly when that can happen.
- The comment at `node/bft/src/bft.rs:701` calls it safe to skip a transmission whose ledger lookup fails; skipping
  it can make two ledgers with the same subdags differ (`ForkWitness.FailedReadForks`).

## Model

| member | source | states |
|---|---|---|
| `Agreement.RunsAgree` | node/bft/src/bft.rs:777-791 | Of any two runs over the same certificates one has committed a prefix of the other's anchors, each with the same certificates in the same order. |
| `NoFork.LedgersNeverFork` | node/bft/src/bft.rs:655-792 | Of two runs in which no failed lookup drops a transmission of a committed block, one ledger is a prefix of the other block for block, transmissions included. |
| `ForkFree.NeverForksExactly` | node/bft/src/bft.rs:700-704 | The condition is exact: a run's ledger is comparable to that of every run without dropped transmissions if and only if no failed lookup drops one of its own. |
| `ForkWitness.FailedReadForks` | node/bft/src/bft.rs:700-704 | Two runs of one validator that differ in a single failed lookup and end with different ledgers. |
| `ForkWitness.PastTransmissionIsAccepted` | node/bft/src/helpers/storage.rs:505-516 | A run in which storage accepts a certificate that declares a transmission of a stored certificate of a past round. |
| `NoFork.RunFaithfulExactly` | node/bft/src/bft.rs:666-727 | The blocks of a run follow from its subdags alone exactly when no failed lookup drops a transmission of one of them. |
| `Blocks.FailedReadsMatterExactly` | node/bft/src/bft.rs:700-704 | A built block is the one with every lookup succeeding exactly when none of that block's transmissions has a failed lookup. |
| `NoFork.AnchorCommitsExactly` | node/bft/src/bft.rs:656-775 | After any run an anchor fails to commit exactly when consensus refuses, a ratification is declared, or a transmission the block must include is recorded as aborted only: storage has lost nothing else. |
| `NoFork.BlockDecides` | node/bft/src/bft.rs:656-775 | In any state an anchor commits exactly when its subdag is ordered with the anchor's round on top, its block is built, and consensus accepts. |
| `Progress.DeliveryCommitsExactly` | node/bft/src/bft.rs:511-795 | After any run, a delivery attempts a commit exactly when the leader certificate of the even round below, above the last committed one, has supporters with a third of the stake. Its round becomes the last committed one exactly when no anchor of the walk is refused; the whole walk is then in the ledger and storage collected. A walk that stops short collects nothing, and without support nothing changes. |
| `Progress.CommittableExactly` | node/bft/src/bft.rs:520-594 | The leader certificate to commit is found exactly under the listed conditions and with the support of a third of the stake. |
| `Progress.ChunkFinishesExactly` | node/bft/src/bft.rs:655-775 | A chunk is committed to its end exactly when each anchor, in the state its predecessors leave, meets none of the three refusals. |
| `Safety.ChunkIndependence` | node/bft/src/bft.rs:777-866 | Runs that have committed the same anchors, in whatever chunks and with whatever garbage collected between them, have ordered the same certificates in the same order. |
| `Agreement.LogIsIdeal` | node/bft/src/bft.rs:798-866 | The ordered subdags of any run are a function of its anchors alone, computed as if nothing were ever pruned. |
| `Agreement.WalkIsLeaders` | node/bft/src/bft.rs:604-653 | The walk over the pruned DAG finds exactly the leaders above the last committed round that are linked among all existing certificates. |
| `Agreement.SupportedHistoryIsPrefix` | node/bft/src/bft.rs:604-653 | The whole history of a supported leader is a prefix of every later walk. |
| `Agreement.DirectHistoriesAgree` | node/bft/src/bft.rs:574-594 | The histories of two leaders with availability support never diverge. |
| `Agreement.RunKeeps` | node/bft/src/bft.rs:511-795 | Every event of every run keeps the invariant of storage, DAG, ledger, causality and log. |
| `Links.AnchorInclusion` | node/bft/src/helpers/storage.rs:456-498 | If a certificate has availability-threshold support one round up, every certificate two or more rounds up has a path to it. |
| `Committees.Committee.ThresholdsExactly` | node/bft/src/bft.rs:380-421 | A quorum is more than two thirds of the stake, and availability at least one third. |
| `Committees.Committee.QuorumsIntersect` | node/bft/src/helpers/storage.rs:552-578 | Two quorums share at least a third of the stake. |
| `NodeRuns.SupportedIsLinked` | node/bft/src/bft.rs:574-652 | In every reachable state a supported leader above the last committed round is linked from every stored certificate two or more rounds later, and `is_linked` says so. |
| `NodeRuns.SupportedIsWalked` | node/bft/src/bft.rs:604-653 | Committing any later leader includes every supported older leader in its chain. |
| `Safety.SupportedLeaderIsCommittedNext` | node/bft/src/bft.rs:604-653 | The same after any run, for the walk that the next commit performs. |
| `NodeRuns.LinkExact` | node/bft/src/bft.rs:869-891 | Above the last committed round `is_linked` never errors, and pruning never changes its answer. |
| `NodeRuns.WalkSucceeds` | node/bft/src/bft.rs:604-653 | The walk never errors and yields leaders of rising even rounds that can be committed in order. |
| `Links.IsLinked` | node/bft/src/bft.rs:869-891 | Errors exactly when the DAG lacks a round in between; otherwise true if and only if a one-round-per-step path of DAG certificates joins the two. |
| `Safety.NoDoubleCommit` | node/bft/src/bft.rs:817-832 | Over any run, restarts included, two committed certificates with the same ID are at the same position of the same block. |
| `Safety.CommittedIsCausallyComplete` | node/bft/src/bft.rs:798-866 | Every parent of a committed certificate whose round plus `max_gc_rounds` exceeds the last committed round is committed. |
| `Safety.NoMissingParent` | node/bft/src/bft.rs:838-855 | Collection stays `max_gc_rounds` below the last committed round, stored certificates above it have their parents stored, and ordering any of them never takes the missing-certificate error. |
| `Safety.NoDoubleInclusion` | node/bft/src/bft.rs:666-727 | Over any run no transaction ID and no solution ID is at two positions of the ledger, whatever the checksums. |
| `Histories.BlocksAreWhole` | node/bft/src/bft.rs:666-727 | Every block of every run holds each transaction and solution of its certificates that no earlier block has and whose lookup succeeds, once, as first declared, and nothing else; all of them when no failed lookup drops one. |
| `Safety.CommitsArePermanent` | node/bft/src/bft.rs:770-774 | Whatever events follow, what was committed stays committed, in place. |
| `Safety.RestartKeepsCounters` | node/bft/src/sync/mod.rs:84-159 | A restart at any point of a run leaves the last committed round and the recent IDs unchanged. |
| `Bootup.BootupEquivalence` | node/bft/src/sync/mod.rs:91-101 | When anchors rise by two rounds per block, committing only the last ⌊max_gc_rounds/2⌋ + 1 blocks, in any order, gives the same counters as committing the whole ledger, in any order. |
| `Bootup.RestartKeeps` | node/bft/src/sync/mod.rs:84-159 | Bootup from the window re-establishes the whole invariant, with nothing stored yet. |
| `Resync.WindowIsRestoredExactly` | node/bft/src/sync/mod.rs:114-136 | Storing the window's certificates again, in block order, leaves exactly the committed certificates above the collection round if and only if each comes with its transmissions; no other check refuses one. |
| `Resync.BootupRestoresExactly` | node/bft/src/helpers/storage.rs:706-816 | With what blocks and ledger return, the window is restored exactly when each transmission of its certificates is present or syncable when its turn comes. |
| `DfsExactness.DfsExact` | node/bft/src/bft.rs:798-866 | The traversal succeeds and visits each certificate reachable through uncommitted parents above the horizon exactly once, and nothing else. |
| `DfsExactness.SubdagExact` | node/bft/src/bft.rs:798-866 | Each reachable certificate is once under its own round, the rounds are contiguous, the leader is alone at the top, and the final `retain` removes nothing. |
| `DfsExactness.OrderDagAgrees` | node/bft/src/bft.rs:838-855 | Views that resolve the reachable parents alike order the same subdag in the same order. |
| `DfsExactness.RetainExactly` | node/bft/src/bft.rs:862-865 | For any leader the final `retain` keeps exactly the visited rounds above the horizon, whole. |
| `Dfs.ResolveExactly` | node/bft/src/bft.rs:821-855 | A parent is skipped exactly when recently committed or in the ledger, and otherwise found in the DAG or, failing that, in storage. |
| `Engines.SkippedExactly` | node/bft/src/bft.rs:826-836 | A failed ledger read of a certificate counts as not contained. |
| `DfsOrder.SubdagIsLeftToRight` | node/bft/src/bft.rs:820-859 | On every level below the leader the subdag holds the uncommitted parents of the level above, in declared order from left to right, each at its first occurrence. |
| `DfsOrder.BlockOrder` | node/bft/src/bft.rs:798-866 | The order of the whole flattened subdag is that of the levels, lowest first, without the traversal. |
| `Histories.BlocksAreLeftToRight` | node/bft/src/bft.rs:798-866 | So it is in every block of every run, computed from the blocks before it as if nothing were ever pruned. |
| `Histories.RunHistory` | node/bft/src/bft.rs:655-775 | Every block of every run was committed from a state that satisfies the invariant, on top of the blocks before it. |
| `Dfs.OrderDagWithDfs` | node/bft/src/bft.rs:798-866 | The loop over buffer, commit map and visited set terminates and returns the specified subdag, or the missing-certificate error. |
| `NodeProofs.AnchorOrders` | node/bft/src/bft.rs:656-664 | Ordering a reachable anchor never fails, whichever ledger reads fail, and passes the anchor-round check. |
| `NodeProofs.ParentResolves` | node/bft/src/bft.rs:821-855 | A parent the traversal looks up is skipped exactly when committed and otherwise found, though DAG and storage are partial copies. |
| `NodeProofs.CommitAnchorKeeps` | node/bft/src/bft.rs:656-775 | Committing an anchor keeps the invariant and makes its round the last committed one. |
| `NodeRuns.CommitAnchorsKeeps` | node/bft/src/bft.rs:655-775 | A chunk keeps the invariant wherever it stops, and the ledger grows by exactly the anchors committed. |
| `NodeRuns.StoreKeeps` | node/bft/src/helpers/storage.rs:587-601 | Storing an accepted certificate keeps it: one certificate per author and round, parents closed above the collection round. |
| `NodeRuns.CollectGarbageKeeps` | node/bft/src/helpers/storage.rs:239-257 | Garbage collection keeps it. |
| `Dags.CommitTracks` | node/bft/src/helpers/dag.rs:110-138 | After a commit the counters describe exactly the committed set: highest round, and the IDs within `max_gc_rounds` of it. |
| `Dags.CommitAllTracks` | node/bft/src/helpers/dag.rs:110-138 | The same after any sequence of commits, in any order. |
| `Dags.TracksDetermines` | node/bft/src/helpers/dag.rs:117-126 | The committed set determines both counters. |
| `Dags.CommitExactly` | node/bft/src/helpers/dag.rs:110-138 | A commit leaves exactly the certificates within `max_gc_rounds` of the new last committed round, except the author's own at or below the committed round. |
| `Dags.CommitAllExactly` | node/bft/src/helpers/dag.rs:110-138 | The same for any sequence of commits, which also leaves no empty round behind. |
| `Dags.RoundsStayFilled` | node/bft/src/helpers/dag.rs:131-137 | A commit removes the rounds it empties, and neither operation makes an empty one. |
| `Dags.CommitAllPrunes` | node/bft/src/helpers/dag.rs:128-137 | Commits never add to the graph and never touch a round above the last committed one. |
| `Dags.InsertExactly` | node/bft/src/helpers/dag.rs:93-107 | An insert puts the certificate in the slot of its round and author and changes nothing else; a recently committed one changes nothing. |
| `Dags.InsertKeepsGraph` | node/bft/src/helpers/dag.rs:93-107 | An insert changes only its own round and author, and takes effect unless recently committed. |
| `Dags.Dag.Commit` | node/bft/src/helpers/dag.rs:110-138 | In-place commit and pruning leave exactly those certificates. |
| `Dags.Dag.FindInRound` | node/bft/src/helpers/dag.rs:76-85 | Finds a certificate of the round with the ID exactly when there is one. |
| `Blocks.BlockContents` | node/bft/src/bft.rs:666-727 | A block holds exactly the first declaration of each transaction and solution ID that the ledger does not have, in declared order, each once. |
| `Blocks.KeysAreSubjects` | node/bft/src/bft.rs:674-727 | Deduplication keys are equal exactly for the same transaction ID or the same solution ID, checksums aside. |
| `Blocks.DeclaredInOrder` | node/bft/src/bft.rs:674-676 | Declarations are looked at certificate by certificate, each in its own order. |
| `Blocks.NewKeyIsIncluded` | node/bft/src/bft.rs:666-727 | Every key that some declaration brings new to the ledger is in the block. |
| `Blocks.GatherSucceeds` | node/bft/src/bft.rs:692-711 | Block building fails exactly when a ratification is declared or storage lacks a transmission to include. |
| `Blocks.GatherTransmissions` | node/bft/src/bft.rs:666-727 | The nested loops build that block. |
| `Bfts.Bft.UpdateDagWith` | node/bft/src/bft.rs:511-594 | Inserting a certificate and deciding whether its leader is committable. |
| `Bfts.Bft.CommitLeaderCertificate` | node/bft/src/bft.rs:597-795 | Walk, commit oldest first until one fails, and collect garbage only when the whole chunk is done. |
| `Bfts.Bft.WalkToOlderLeaders` | node/bft/src/bft.rs:604-653 | The loop over rounds two apart finds the linked leaders, newest first. |
| `Bfts.Bft.CommitAnchorCertificate` | node/bft/src/bft.rs:656-775 | Commits one anchor, with the transmissions that storage holds, or leaves the engine unchanged. |
| `Bfts.Bft.SyncBftDagAtBootup` | node/bft/src/bft.rs:935-943 | Commits the certificates in order and inserts none. |
| `Bfts.StakesAddUp` | node/bft/src/bft.rs:477-506 | The stakes with and without the leader add up to the stake of the round's authors. |
| `Bfts.OddRoundProgress` | node/bft/src/bft.rs:423-474 | Once every member's certificate of an odd round is stored the readiness test passes, timer or not. |
| `Bfts.OddRoundReadyExactly` | node/bft/src/bft.rs:423-474 | The readiness test as inequalities between stakes: two thirds present, and a third for, two thirds against, no leader, or the timer. |
| `Bfts.Bft.ComputeStakeForLeaderCertificate` | node/bft/src/bft.rs:477-506 | The two saturating sums are the stakes of the authors who did and did not include the leader certificate. |
| `Bfts.Bft.IsLeaderQuorumOrNonleadersAvailable` | node/bft/src/bft.rs:423-474 | True exactly for the current odd round with a quorum and one of the four conditions. |
| `Bfts.InsertedIsAccepted` | node/bft/src/helpers/storage.rs:587-601 | What storage accepts, runs allow to be stored, with the same certificates and transmissions afterwards. |
| `Storages.Storage.constructor` | node/bft/src/helpers/storage.rs:116-148 | Starts empty, at round 1 or later, with the collection round behind it. |
| `Storages.Storage.InsertCertificate` | node/bft/src/helpers/storage.rs:587-636 | Stores exactly when every check passes and changes nothing otherwise; the maps agree and no transmission is lost whatever is aborted, and nothing leaks exactly when only declared transmissions are. |
| `Storages.Storage.CheckCertificate` | node/bft/src/helpers/storage.rs:517-574 | Accepts exactly new, timely certificates whose parents, signers and transmissions pass, and returns the missing transmissions. |
| `Storages.Storage.SyncCertificateWithBlock` | node/bft/src/helpers/storage.rs:706-816 | Stores a certificate of a block again exactly when it is above the collection round, passes the checks, and each transmission is present or syncable. |
| `Storages.Storage.CheckParents` | node/bft/src/helpers/storage.rs:456-498 | Accepts exactly stored parents of the previous round by distinct authors that reach the quorum, above the collection round only. |
| `Storages.ParentsOkExactly` | node/bft/src/helpers/storage.rs:456-498 | The check on parents in full: round, number, distinct authors and more than two thirds of the stake. |
| `Storages.Storage.CheckSigners` | node/bft/src/helpers/storage.rs:546-573 | Accepts exactly committee members that reach the quorum with the author. |
| `Storages.SignersOkExactly` | node/bft/src/helpers/storage.rs:546-573 | The check on signers in full: members with more than two thirds of the stake. |
| `Storages.SignersIntersect` | node/bft/src/helpers/storage.rs:546-573 | Two accepted certificates of one round share signers with at least a third of the stake. |
| `Storages.Storage.RemoveCertificate` | node/bft/src/helpers/storage.rs:644-679 | Removes one certificate from every map, and its round when that empties it. |
| `Storages.Storage.GarbageCollectCertificates` | node/bft/src/helpers/storage.rs:239-257 | Leaves exactly the certificates above the new collection round, which never decreases, and releases exactly the transmissions that only the others held. |
| `Storages.Storage.IncrementToNextRound` | node/bft/src/helpers/storage.rs:179-230 | The result and the new round in every case; the storage round never decreases. |
| `Storages.Storage.SyncRoundWithBlock` | node/bft/src/helpers/storage.rs:693-703 | Raises the round to the block's, at least 1. |
| `Storages.RoundsOfInsert` | node/bft/src/helpers/storage.rs:622-628 | Adding the entry for a new certificate keeps `rounds` and `batch_ids` describing exactly the certificates. |
| `Storages.RoundsOfRemove` | node/bft/src/helpers/storage.rs:658-675 | Removing an entry, and the bucket it empties, keeps them so. |
| `Safety.TransmissionsAreCounted` | node/bft/src/helpers/storage.rs:587-679 | Over any run every transmission in memory is held by stored certificates that declare it, at least one, and every declared transmission of a stored certificate is recorded for it. |
| `Memories.InsertionRefCounted` | node/bft/storage-service/src/memory.rs:102-161 | Inserting loses no stored certificate's transmission, and leaks nothing exactly when only declared transmissions are aborted. |
| `Memories.RemovalRefCounted` | node/bft/storage-service/src/memory.rs:166-202 | Removing a certificate releases its entries and no other certificate's. |
| `Memories.RemovalReleases` | node/bft/storage-service/src/memory.rs:166-202 | What a removal releases is exactly what the certificate held. |
| `Memories.InsertionExactly` | node/bft/storage-service/src/memory.rs:102-161 | Which transmissions are present and aborted after an insertion, for which certificates, and with what data. |
| `Memories.ReleasedExactly` | node/bft/storage-service/src/memory.rs:166-202 | An entry stays, with its data, exactly while another certificate holds it. |
| `Memories.RecordedIsDeclared` | node/bft/storage-service/src/memory.rs:55-59 | Memory records a transmission exactly when some stored certificate declares it. |
| `Memories.SyncSuppliesExactly` | node/bft/src/helpers/storage.rs:706-800 | What syncing provides and aborts suffices exactly when each transmission is present, or unrecorded and found or aborted. |
| `Memories.SyncExactly` | node/bft/src/helpers/storage.rs:729-800 | What syncing provides is what block or ledger returned, and only what they did not return is aborted. |
| `Memories.SecondAbortedIsRefused` | node/bft/src/helpers/storage.rs:734-737 | A transmission that a block aborted is synced for one certificate only: every later one that declares it is refused. |
| `Memories.MemoryService.FindMissingTransmissions` | node/bft/storage-service/src/memory.rs:69-99 | Fails exactly when a declared transmission is neither known, provided nor aborted. |
| `Memories.MemoryService.InsertTransmissions` | node/bft/storage-service/src/memory.rs:102-161 | The two loops record the certificate for declared and aborted transmissions. |
| `Memories.MemoryService.RemoveTransmissions` | node/bft/storage-service/src/memory.rs:166-202 | The loop forgets the certificate and the entries it alone held. |
| `ReadyQueues.IndexedIsUnique` | node/bft/src/helpers/ready.rs:29-38 | The index of shifted positions holds exactly the queued IDs, each once. |
| `ReadyQueues.PopFrontIndexed` | node/bft/src/helpers/ready.rs:162-177 | Removing the front and raising the offset keeps every other position right. |
| `ReadyQueues.PushFrontIndexed` | node/bft/src/helpers/ready.rs:143-159 | Inserting at the front and lowering the offset keeps every other position right. |
| `ReadyQueues.Ready.Get` | node/bft/src/helpers/ready.rs:118-123 | Returns the transmission queued under the ID, if any. |
| `ReadyQueues.Ready.Insert` | node/bft/src/helpers/ready.rs:127-138 | Appends a new ID, refuses a queued one. |
| `ReadyQueues.Ready.InsertFront` | node/bft/src/helpers/ready.rs:143-159 | Prepends a new ID, refuses a queued one. |
| `ReadyQueues.Ready.RemoveFront` | node/bft/src/helpers/ready.rs:162-177 | Removes and returns the head. |
| `ReadyQueues.Ready.ClearSolutions` | node/bft/src/helpers/ready.rs:180-189 | Keeps exactly the other transmissions, in order, and rebuilds the index. |
| `Drains.DrainExact` | node/bft/src/primary.rs:493-629 | Every transmission is looked at in order with the batch as it then is: it is taken exactly when there is room, it is not in the ledger nor, unless it would be the first, in storage, and it is valid and affordable. The drain ends exactly at the first one without room, undecodable or overspending, and only the last kind stays in the queue. |
| `Drains.DrainLimits` | node/bft/src/primary.rs:493-629 | It leaves a suffix of the queue; the batch is an in-order subsequence of what was removed, within the size and spend limits and free of ledger transmissions. |
| `Drains.DrainWorker` | node/bft/src/primary.rs:501-629 | The loop over the worker's queue performs exactly that drain, errors included. |
| `Primaries.Primary.ProposeBatchLite` | node/bft/src/primary.rs:374-679 | Drains exactly when the checks pass, moves the lock exactly when the drain succeeds, and builds and completes the batch; a refused header or a completion that fails after signing returns it to the queue. |
| `Primaries.Primary.CompleteBatchLite` | node/bft/src/primary.rs:681-716 | A failed signature loses the batch; a failure to store or deliver its certificate returns what storage and ledger do not have. |
| `Drains.ReinsertTransmissions` | node/bft/src/primary.rs:1106-1114 | Appends to the queue exactly the items of the batch that storage and ledger do not have, in order. |
| `Primaries.OneProposalPerRoundExactly` | node/bft/src/primary.rs:163-202 | In any run, crashes included, no proposal at any point repeats a round if and only if every boot restores a lock at or above the rounds built so far; the rounds with a batch then strictly increase. |
| `Primaries.OneProposalPerRound` | node/bft/src/primary.rs:1284-1313 | So they do in any run whose sessions all end saved or with nothing to lose, across restarts, and no proposal is left pending. |
| `Primaries.CrashRepeatsARound` | node/bft/src/primary.rs:163-202 | A run with a crash that builds two batches for round 5. |
| `Primaries.BootRestoresExactly` | node/bft/src/primary.rs:163-202 | After a shutdown that saves, a boot succeeds exactly when the cache is within the reader's bounds and every signature is by the signer, and then lock and signed proposals are as before. |
| `ProposalCaches.CacheRoundTrip` | node/bft/src/helpers/proposal_cache.rs:120-169 | Reading a written cache gives it back for any hash-map order, exactly when it is within the bounds that reading enforces. |
| `ProposalCaches.ProposalRoundTrip` | node/bft/src/helpers/proposal.rs:190-252 | The same for the proposal. |
| `ProposalCaches.SignedRoundTrip` | node/bft/src/helpers/signed_proposals.rs:39-80 | The same for the signed proposals. |
| `ProposalCaches.ReadCacheIsOk` | node/bft/src/helpers/proposal_cache.rs:143-169 | Whatever is read from any stream holds a proposal whose transmissions are those of its header, distinct and within bounds, and no more certificates than allowed. |
| `ProposalCaches.CacheLayout` | node/bft/src/helpers/proposal_cache.rs:120-141 | The written symbols of a cache with one of everything, in order and little-endian. |
| `ProposalCaches.ReadSignedProposalsLoop` | node/bft/src/helpers/signed_proposals.rs:60-80 | The reading loop. |
| `Locators.CheckBlockLocators` | node/sync/src/block_locators.rs:187-235 | Accepts exactly the locators with the last 100 (or all) heights and every 10,000th up to a tip below the largest height, unique hashes in each map and agreement where they overlap; its lookups never fail. |
| `Locators.CheckRecentBlocks` | node/sync/src/block_locators.rs:245-290 | Returns the tip exactly for the recents of a tip. |
| `Locators.CheckBlockCheckpoints` | node/sync/src/block_locators.rs:299-324 | Returns the last height exactly for a run of checkpoints from 0. |
| `Locators.OverlapIsLastCheckpoint` | node/sync/src/block_locators.rs:213-232 | The maps can only overlap at the last checkpoint, when it is recent. |
| `Locators.GetBlockLocators` | node/bft/src/sync/mod.rs:187-208 | The builder's locators are those of the chain, and with distinct blocks they are accepted exactly below the largest height and when the ledger returns every hash looked up. |
| `Locators.CheckConsistent` | node/sync/src/block_locators.rs:163-184 | Accepts exactly when the maps agree wherever they overlap. |
| `Locators.ExtensionIsConsistent` | node/sync/src/block_locators.rs:163-184 | Locators of a chain and of any extension are consistent, both ways. |
| `Locators.IterationIsLookup` | node/sync/src/block_locators.rs:110-124 | Iterating and looking up agree at every height. |

## Left out

- Signatures, hashing, keys, transaction checks and the snarkVM ledger: foreign code, present only as IDs, answers and verdicts.
- 64-bit overflow of rounds, and of the signed queue offset: the counters are unbounded here.
- The order inside storage's insertion-ordered maps (`swap_remove` changes it): the model keeps sets, so the order in which a proposal lists its parents is not derived from storage.
- The even-round readiness test and the leader timer: easy; the timer is a flag.
- `try_increment_to_the_next_round` and its fast-forward loop: only its effect on the storage round is modelled.
- `Proposal::new`, `add_signature` and `to_certificate`: easy checks; only the proposal's byte format is modelled.
- Byte encodings of foreign values (headers, certificates, addresses, signatures): one symbol each.
- The byte format of locators.
- The contents of a completed batch: its signatures and certificate; only what happens to the queue is modelled.
- The persistent storage service: it is not a refinement of the memory service.
- REST, CLI, logging, metrics, channels, task spawning, files and clocks.
- Worker assignment: there is one worker.
