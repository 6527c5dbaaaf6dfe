# Verified models of the verifiable-log tools

Dafny models of the parts of this repository on which its promises rest, and proofs of those
promises. All of them are built on one foundation: the Merkle tree of section 2.1 of RFC 6962
over an idealised hash function, and compact ranges over it.

| files | part of the system |
|---|---|
| `merkle.dfy`, `compact.dfy`, `consistency.dfy` | tree hash, perfect nodes, compact ranges, the consistency verifier of section 2.1.4.2 of RFC 9162 |
| `layout.dfy`, `tilestore.dfy`, `client.dfy`, `proofs.dfy`, `checks.dfy`, `integrate.dfy`, `sequence.dfy` | the serverless tiled log: addresses, tile files, reading nodes, building and feeding proofs, comparing checkpoints, integrating, sequencing |
| `logrun.dfy`, `logfiles.dfy`, `logstops.dfy`, `logprogress.dfy` | whole runs of the tiled log: what published trees promise, what the files hold, how the log stops, exactly when it goes on |
| `witness.dfy`, `persistence.dfy`, `feeder.dfy`, `consensus.dfy` | the witness, its compare-and-swap store, the SumDB feeder, N-of-witnesses consensus |
| `bulk.dfy`, `cloner.dfy`, `sumdbclone.dfy`, `logdb.dfy`, `verify.dfy` | the clone pipeline, its database and the incremental root check |
| `audit.dfy`, `pipeline.dfy` | the SumDB audit: the root check over tiles with its two callers, and the hashing goroutines |
| `distributor.dfy`, `splitting.dfy` | merging witness signatures, filling the distributor's slots, updating in steps |
| `codec.dfy` | text forms of tiles and proofs |

`dafny verify dfyconfig.toml` checks everything.

## How the model is built

* Digests are a free datatype, so hashing is injective and leaf hashes, node hashes and other
  byte strings never coincide. Claims about untrusted hashes quantify over every digest,
  including byte strings that are no hash at all.
* All tree arithmetic is by halving a row of nodes (`Lift` drops an unpaired last node,
  `Carry` keeps it), so no proof needs powers of two except where the source shifts bits.
  `RootIsTreeHash` ties the rows to the recursive definition of RFC 6962.
* A compact range is a spine of at most two hashes a row; `ToSeq` lists them as the library
  does. The library itself is not part of the repository; its functions are defined here from
  the paper cited in `witness/README.md`, with the visitor callbacks as lists of visits.
* Classes, arrays and loops are used where the source has them; every such method is proved
  against a function of its inputs or old state. Goroutines, concurrent calls, crashes and
  cancellation are state machines over their steps, and the theorems hold for every schedule.
* I/O results, clocks and network answers are parameters or nondeterministic. A parameter
  marked `ghost` (the true log, the row of its leaf hashes) is only there to state contracts.
* Root claims are for trees of size > 0, as the code treats the empty tree separately.

## Where the code does less than it seems

Each of these is a theorem: there is a lemma for a failing input, and one for the condition
under which the code does what was expected.

* `Bulk` under cancellation: a worker that sees the cancellation closes its channel, and
  reading a closed channel gives the collector an empty result at index 0. Batches can be
  skipped (`OrderUnderCancellation`: exactly unless there is one worker or one batch), and the
  output can be closed without an error before the end (`CleanCloseUnderCancellation`).
  The database stays a gap-free prefix all the same, because no write begins after a
  cancellation, but `Clone` returns nil with leaves missing in some cancelled schedule exactly
  when the tree fits one batch (`Clone`, `SilentScheduleExists`, `SilentCloseUnderCancellation`).
* `Sequence` documents that a crash lets a leaf be sequenced again. In fact the temporary file
  that the crash leaves behind keeps the leaf out for good: every later call for it fails
  (`CrashRunsExist`, `CrashPutsOut`, `OutForGood`), and one sequencer at a time never makes a duplicate however
  often it crashes (`SoloRunsHaveNoDuplicates`). Duplicates come from two sequencers, or from a
  call that fails with an I/O error.
* `StoreTile` replaces the partial versions of a full tile by symbolic links that hold the
  path as the storage directory was given. With a relative directory, such as the `./log` of
  the GitHub deployment, they do not resolve: a tree that was published is lost as soon as a
  larger one fills one of its partial tiles (`RunLosesTree`, `FilledTreesAreLost`; exactly then
  by `WhenTreesAreKept`, and exactly if a tile is such a link by `WhenReadable`). With an
  absolute directory every published tree stays readable (`PublishedTreesStayReadable`).
* An integration that dies can stop the log for good: between making a temporary link and
  renaming it, between making the temporary checkpoint and renaming it, and, with a relative
  directory, between replacing a partial tile and publishing. Runs from the empty log reach
  each of these states (`RunLeavesLink`, `RunLeavesCheckpoint`, `RunLeavesDanglingTree`), from
  each nothing is published any more (`StuckForGood`), and there are no others: when no
  integration runs, the log can go on exactly if nothing is left behind and its tree can be
  read (`WhenTheLogGoesOn`). `Integrate` fails exactly if a link is in its way or a tile of the
  old tree does not resolve.
* The client's `CheckConsistency` takes the pair of checkpoints for the next round before its
  index has moved on: of three or more it compares the first pair twice and the last never, so
  wrong hashes for the sizes 1 and 2 pass beside the right one for 3 (`WrongPairAccepted`).
  `WhenAcceptedIsRight` has the exact condition on the sizes under which acceptance means that
  all checkpoints are those of the tree.
* `Tile.UnmarshalText` indexes the second line without checking that there is one: the text
  `32` crashes it (`HashSizeAloneCrashes`), and exactly the texts that trim to a single line
  with that number do (`WhenParsingCrashes`). Nodes unset at the end of a tile are lost
  (`TileRoundTrip`), which no tile built by `Visit` has (`VisitsBuild`), nor any tile file in any
  run (`EveryFileReadsBack`).
* The distributor drops signatures on checkpoints that no slot serves, so updating in two
  steps can yield less than one update with all notes (`SplitUpdatesCanLose`): exactly when a
  body with lost signatures is not overtaken in some slot (`WhenTwoUpdatesAreOne`), never
  when no later note has the body of an earlier checkpoint that no slot serves
  (`FreshBodiesLoseNothing`). With two best checkpoints for a slot the result depends on the
  order of sorting, and only then (`WhenDetermined`).

## Model

| member | source | states |
|---|---|---|
| `Merkle.RootIsTreeHash` | witness/golang/internal/witness/witness.go:258-267 | the root computed row by row is the recursive tree hash of section 2.1 of RFC 6962 |
| `Merkle.RootFixesRow` | sumdbaudit/audit/service.go:484-497 | leaf hashes of one number with the same root are the same |
| `Merkle.PerfectInTree` | serverless/client/client.go:196-204 | a perfect node has the same hash in the row-by-row view of the whole tree, imperfect border included |
| `CompactRange.ToSeqFromSeq` | witness/README.md:46-50 | listing the hashes of a range built from hashes gives those hashes back |
| `CompactRange.FromSeqToSeq` | witness/README.md:46-50 | the list has exactly as many hashes as the range has nodes, and rebuilding the range from it gives the range |
| `CompactRange.MergeHonest` | witness/golang/internal/witness/witness.go:244-252 | merging adjacent ranges of one tree gives the range of their union |
| `CompactRange.MergeInjective` | witness/golang/internal/witness/witness.go:244-252 | ranges that merge into the same range are the same, whatever hashes they hold |
| `CompactRange.RootHonest` | witness/golang/internal/witness/witness.go:258-267 | the range of the first n leaves has the root of the tree over them |
| `CompactRange.RootInjective` | witness/golang/internal/witness/witness.go:258-267 | ranges of one size with the same root are the same, whatever hashes they hold |
| `CompactRange.MergeReports` | serverless/pkg/log/integrate.go:98-111 | the visitor is told of exactly the perfect nodes that straddle the seam |
| `CompactRange.MergeVisitsHonest` | serverless/pkg/log/integrate.go:98-111 | each with the hash the tree has there |
| `CompactRange.RangeMatchesNodes` | internal/feeder/sumdb/sumdb_feeder.go:56-71 | the node IDs listed for a range are perfect nodes, and its hashes are their hashes in the same order |
| `CompactRange.AppendAllHonest` | clone/internal/verify/verify.go:66-79 | appending leaf hashes one by one gives the range of the tree |
| `Consistency.ConsistencySound` | witness/golang/internal/witness/witness.go:207-211 | an accepted proof of arbitrary hashes forces every log with the second root to start with a log that has the first root |
| `Consistency.ConsistencyComplete` | witness/golang/internal/witness/witness.go:207-211 | for every log and every smaller non-zero size there is an accepted proof |
| `Witness.VerifyRangeSound` | witness/golang/internal/witness/witness.go:234-267 | if arbitrary stored and delta hashes are accepted, every log with the new root has a prefix with the old root, and all three hash lists are that log's compact ranges |
| `Witness.VerifyRangeComplete` | witness/golang/internal/witness/witness.go:234-267 | the ranges of a log are accepted and merge into its range |
| `Witness.VerifyRangeKeepsRoot` | witness/golang/internal/witness/witness.go:234-267 | what is returned is again a range with the new root |
| `Witness.DecideSound` | witness/golang/internal/witness/witness.go:121-221 | a state to be stored is sane, and if there was one before, strictly larger and an extension of it |
| `Witness.NextKeepsInv` | witness/golang/internal/witness/witness.go:121-221 | every step of concurrent updates keeps: store = last commit, histories strictly grow and extend, replies are committed |
| `Witness.RunKeepsInv` | witness/golang/internal/persistence/inmemory/inmemory.go:73-132 | so does every interleaving of any number of calls |
| `Witness.NoSplitView` | witness/golang/internal/witness/witness.go:121-221 | any two checkpoints ever handed out for a log are cosigned and agree: equal at equal size, the larger an extension of the smaller |
| `Witness.HistoryOnlyGrows` | witness/golang/internal/persistence/inmemory/inmemory.go:88-113 | nothing committed is ever taken back |
| `Persistence.InMemoryPersistence.WriteOps` | witness/golang/internal/persistence/inmemory/inmemory.go:73-86 | a snapshot of the log's state |
| `Persistence.InMemoryPersistence.CompareAndWrite` | witness/golang/internal/persistence/inmemory/inmemory.go:88-113 | the state is replaced exactly if it still is the expected one |
| `Persistence.ReadWriter.Set` | witness/golang/internal/persistence/inmemory/inmemory.go:125-132 | writes against the snapshot that was read |
| `Persistence.Update` | witness/golang/internal/witness/witness.go:121-221 | the imperative call carries out the decision function: same reply, same stored state, errors included |
| `Persistence.SetInitChkptData` | witness/golang/internal/witness/witness.go:271-288 | a first checkpoint is stored exactly if its range, when used, has its root |
| `Consensus.CheckpointNConsensus` | serverless/client/witness/consensus.go:47-90 | returns a largest fetched checkpoint with at least N known witness signatures, and none exactly if there is none |
| `Consensus.QuorumsMeet` | serverless/client/witness/consensus.go:76-90 | with at most f dishonest witnesses and 2N > W + f two accepted notes share an honest signer |
| `Consensus.OneWitness` | witness/golang/internal/witness/witness.go:121-221 | an honest witness that follows the log under one ID never signs two views |
| `Consensus.ConsensusHasNoSplitView` | serverless/client/witness/consensus.go:32-90 | two accepted checkpoints are of one log, equal at equal size |
| `Consensus.ConsensusIsReachable` | serverless/client/witness/consensus.go:32-90 | the premises can be met: for every non-empty log a witness and a client that accepts its checkpoint |
| `Layout.AddressBijection` | serverless/api/layout/tile.go:30-38 | tree nodes and valid tile addresses correspond one to one |
| `Layout.TileKeysAreABijection` | serverless/api/state.go:93-95 | nodes and positions correspond one to one; the nodes of a tile have the positions 0 to 510 without 255, which is the node above the tile |
| `Layout.KeyRange` | serverless/api/state.go:93-95 | nodes within k levels, and only they, have keys below 2^(k+1) - 1 other than 2^k - 1 |
| `Layout.PartialIsLeafCount` | serverless/api/layout/tile.go:19-27 | the partial size is the number of tile leaves, 0 standing for a full tile |
| `Layout.NodeInTile` | serverless/api/layout/tile.go:19-38 | a node exists in the tree exactly if the leaves below it are within its tile's leaf count |
| `Layout.PlacesDiffer` | serverless/api/layout/tile.go:30-38 | different nodes have different (tile, key) places |
| `Layout.BlockRoot` | internal/feeder/sumdb/sumdb_feeder.go:145-160 | the root of an aligned block of 2^k nodes is a node k rows up |
| `TileStore.Storage.StoreTile` | serverless/internal/storage/fs/fs.go:253-302 | sizes outside 1..256 are refused; otherwise the tile's file is written and, for a full tile, every partial becomes a link to it and no other file changes; with a temporary link left behind a full tile is written and the call fails |
| `TileStore.Storage.RelinkPartials` | serverless/internal/storage/fs/fs.go:280-299 | exactly the partial versions of the tile become links, and no temporary link stays |
| `TileStore.ReadIsComplete` | serverless/internal/storage/fs/fs.go:231-247 | on good files none of whose links for that size dangles, the tile read for a size, partial or relinked, holds every node of the tree of that size |
| `TileStore.UnreadableTile` | serverless/internal/storage/fs/fs.go:280-299 | a tile that cannot be read is a partial one that has become a link, the storage directory being relative |
| `Client.NodeCache.GetNode` | serverless/client/client.go:232-258 | a lookup is the ephemeral node if one is recorded and otherwise the node in its tile; the cache changes no answer |
| `Client.NodeCache.SetEphemeralNode` | serverless/client/client.go:224-228 | records the node and nothing else |
| `Client.PerfectNodeRead` | serverless/client/client.go:232-258 | from correct tiles every perfect node is read with its tree hash |
| `Client.FetchRangeNodes` | serverless/client/client.go:163-175 | from correct tiles it returns the compact range of the first s leaves; it fails if any partial tile of the tree cannot be read |
| `Client.EdgeTileIsRead` | serverless/client/client.go:163-175 | every partial tile of a tree, on whatever level, holds a node of its compact range |
| `Client.NewProofBuilder` | serverless/client/client.go:88-118 | on correct tiles it succeeds exactly if the checkpoint hash is the tree's root, nil for the empty tree, and then remembers exactly the imperfect nodes of the tree, with their true hashes |
| `Client.RootBorder` | serverless/client/client.go:88-118 | computing a root visits only imperfect nodes of the right border, with their true hashes |
| `Client.RootReported` | serverless/client/client.go:106-110 | and it visits every one of them that has two children |
| `Client.LookupAgreesWithTree` | serverless/client/client.go:196-258 | remembered nodes are never perfect ones, and the lookup of every node of the tree, perfect or not, gives its hash |
| `TileProofs.RehashBorder` | serverless/client/client.go:154-158 | the imperfect last node of any row is the hash of the perfect nodes below it, taken from the right |
| `TileProofs.FetchTreeNode` | serverless/client/client.go:143-159 | every node of every row of every tree up to the builder's is read or put together right |
| `TileProofs.ConsistencyProof` | serverless/client/client.go:135-141 | for all sizes 0 < m <= n up to that of the builder, a proof built from correct tiles is the one RFC 9162 defines and is accepted by the verifier of its section 2.1.4.2; it fails exactly if m > n |
| `TileProofs.PerfectLookup` | serverless/client/client.go:143-159 | perfect nodes of a smaller tree are never remembered ones, so they are read from the tiles |
| `TileProofs.FetchProof` | internal/feeder/serverless/serverless_feeder.go:53-68 | from correct tiles the serverless feeder gets a proof that is accepted, an empty one for a witness that has no entries |
| `TileProofs.FeedOnce` | internal/feeder/feeder.go:76-180 | with correct tiles one undisturbed round makes a witness without compact ranges, which has no checkpoint or that of any prefix of the log, cosign and store the log's checkpoint; if it has it already it returns it; a failed round changes nothing |
| `Checks.CheckConsistency` | serverless/client/client.go:417-449 | on correct tiles: rejects fewer than two checkpoints, sorts the others and accepts exactly if the largest is that of the tree and the first pair and all but the last pass |
| `Checks.CheckPairs` | serverless/client/client.go:429-447 | the loop, whose next pair is taken before its index moves on, compares exactly these pairs |
| `Checks.PairDown` | serverless/client/client.go:437-445 | in a pair that passes, a right larger checkpoint makes the smaller one right |
| `Checks.PairUp` | serverless/client/client.go:437-445 | a right smaller one makes the larger right, and both are right if the smaller size is no power of two |
| `Checks.WrongPairAccepted` | serverless/client/client.go:429-447 | for the sizes 1, 2, 3 any hash for 1 is accepted with some hash for 2 |
| `Checks.WhenAcceptedIsRight` | serverless/client/client.go:417-449 | for given sizes acceptance means that all checkpoints are right if and only if there are two, or all but the last are empty, or a non-empty one smaller than the last but one has a size that is no power of two |
| `Integrate.TileCache.Visit` | serverless/pkg/log/integrate.go:173-206 | the cached, fetched or new tile is grown and gets the node; other tiles are untouched |
| `Integrate.VisitsMakeDirtyTiles` | serverless/pkg/log/integrate.go:173-206 | visiting the new nodes makes exactly the tiles that gained something dirty, each complete for the new tree |
| `Integrate.MergeVisitsNew` | serverless/pkg/log/integrate.go:90-113 | the nodes visited are exactly the perfect nodes of the new tree absent from the old one |
| `Integrate.ScanSequenced` | serverless/pkg/log/integrate.go:90-103 | the new range is that of the new entries, and all nodes inside it are visited |
| `Integrate.Compute` | serverless/pkg/log/integrate.go:64-144 | reading only old range nodes and new entries: nothing to do exactly if there are none, otherwise the size and root of all entries and the complete dirty tiles; fails if a partial tile of the old tree cannot be read; builds tiles out of built tiles |
| `Integrate.OutcomeExists` | serverless/pkg/log/integrate.go:64-144 | on good tiles there is such an update whenever there are new entries |
| `Integrate.VisitsBuild` | serverless/pkg/log/integrate.go:196-201 | every tile that visits build, out of fetched partial tiles or nothing, has at most 256 leaves and ends with a node that is set and not empty |
| `Integrate.HonestVisitsCarryHashes` | serverless/pkg/log/integrate.go:93-113 | the visits of an integration never carry an empty hash |
| `Integrate.MergeMakesNodes` | serverless/pkg/log/integrate.go:104-113 | nor do those of a merge of arbitrary ranges |
| `Integrate.StoreDirty` | serverless/pkg/log/integrate.go:126-130 | in any order, keeps the files good and those of other tiles unchanged; succeeds exactly if no temporary link is in the way, and then every dirty tile has its file, which is no link |
| `Integrate.Integrate` | serverless/pkg/log/integrate.go:64-145 | on good files it fails exactly if a link of the old tree does not resolve or a temporary link of a tile that becomes full is in the way; otherwise it returns size = number of entries and their RFC 6962 root, and the new tree can be read; in any case the files stay good and none is lost |
| `Integrate.PutKeepsFiles` | serverless/internal/storage/fs/fs.go:253-278 | writing a complete tile keeps the files good |
| `Integrate.RelinkKeepsFiles` | serverless/internal/storage/fs/fs.go:280-299 | so does relinking a partial tile |
| `LogRun.StepKeepsInv` | serverless/pkg/log/integrate.go:64-145 | every step of sequencing, starting, writing one tile, making and renaming one link, making and renaming the checkpoint, and dying at any of these points keeps the log good |
| `LogRun.WhenReadable` | serverless/client/client.go:232-279 | a published tree can be read, every perfect node with its hash, if and only if none of its tiles is a link that does not resolve |
| `LogRun.PublishedTreesStayReadable` | serverless/client/client.go:232-279 | in every state of every run, every published root is that of its entries, and with an absolute storage directory every perfect node of every published tree is read with its hash |
| `LogFiles.EveryFileReadsBack` | serverless/api/state.go:50-90 | in every state of every run the text of every tile file parses as the tile it holds |
| `LogFiles.StepKeepsRelinked` | serverless/internal/storage/fs/fs.go:280-299 | every step keeps: the partial versions of a tile that is full in the published tree are links, and so are those an integration has dealt with |
| `LogFiles.FilledTreesAreLost` | serverless/internal/storage/fs/fs.go:288-297 | with a relative directory a published tree cannot be read once a published one fills one of its partial tiles |
| `LogFiles.UnfilledTreesAreKept` | serverless/internal/storage/fs/fs.go:288-297 | with any directory it can be read while no integration has begun to store such a tree |
| `LogFiles.WhenTreesAreKept` | serverless/internal/storage/fs/fs.go:288-297 | so with a relative directory, when the largest tree begun is published, a published tree can be read if and only if none of its partial tiles is full in the last one |
| `LogStops.StopBetweenBlocks` | serverless/internal/storage/fs/fs.go:288-297 | stopping between making and renaming a link leaves the link behind |
| `LogStops.StuckForGood` | serverless/internal/storage/fs/fs.go:288-312 | from a state with a leftover link, a leftover temporary checkpoint, or a published tree that does not resolve, nothing is published any more in any continuation |
| `LogStops.StuckOrClear` | serverless/internal/storage/fs/fs.go:288-312 | when no integration runs, the log is stuck exactly if a temporary link or checkpoint is there or the published tree cannot be read |
| `LogProgress.EveryPublicationIsClear` | serverless/cmd/integrate/main.go:112-130 | whenever a checkpoint has just been published nothing is left behind and its tree can be read, whatever the directory |
| `LogProgress.Publish` | serverless/cmd/integrate/main.go:112-130 | from every such state with new entries a run publishes the root of all entries and ends in such a state |
| `LogProgress.WhenTheLogGoesOn` | serverless/cmd/integrate/main.go:112-130 | in every state of every run in which no integration runs, some continuation publishes another checkpoint if and only if nothing is left behind and the published tree can be read |
| `LogProgress.LinkCanBeLeft` | serverless/internal/storage/fs/fs.go:288-297 | every integration that fills a partial tile can stop and leave its link behind |
| `LogProgress.TreeCanDangle` | serverless/internal/storage/fs/fs.go:288-297 | with a relative directory it can stop and leave the published tree unreadable |
| `LogProgress.CheckpointCanBeLeft` | serverless/internal/storage/fs/fs.go:304-312 | every integration can stop and leave its temporary checkpoint behind |
| `LogProgress.RunLeavesLink` | serverless/internal/storage/fs/fs.go:288-297 | for any 256 entries, a run from the empty log that publishes the first one and leaves a link |
| `LogProgress.RunLeavesDanglingTree` | serverless/internal/storage/fs/fs.go:288-297 | with a relative directory, one that leaves the published tree unreadable and the log stuck |
| `LogProgress.RunLeavesCheckpoint` | serverless/internal/storage/fs/fs.go:304-312 | for any two or more entries, one that leaves a temporary checkpoint |
| `LogProgress.RunLosesTree` | serverless/internal/storage/fs/fs.go:288-297 | with a relative directory, a run in which nothing fails publishes two trees and loses the first |
| `Sequencing.Storage.Sequence` | serverless/internal/storage/fs/fs.go:109-183 | an undisturbed call: duplicate, error or next free number, and the exact files afterwards |
| `Sequencing.Storage.Link` | serverless/internal/storage/fs/fs.go:144-160 | the loop over used numbers ends at the first free one |
| `Sequencing.StepKeepsInv` | serverless/internal/storage/fs/fs.go:109-206 | every file operation of every sequencer, crash or I/O failure keeps: gap-free, write-once, names right, temporary files exclusive |
| `Sequencing.EveryInterleaving` | serverless/internal/storage/fs/fs.go:109-206 | over every run the entries only grow at the end, without gaps, and leaf-hash files name an entry with that hash |
| `Sequencing.NumbersReturnedAreRight` | serverless/internal/storage/fs/fs.go:105-127 | every number ever returned, as new or as duplicate, is that of the submitted entry |
| `Sequencing.StepAppends` | serverless/internal/storage/fs/fs.go:109-183 | each step leaves the entries alone or appends one |
| `Sequencing.SoloRunsHaveNoDuplicates` | serverless/internal/storage/fs/fs.go:109-183 | one sequencer at a time, however often it crashes, gives no entry two numbers |
| `Sequencing.SoloCallsSucceed` | serverless/internal/storage/fs/fs.go:109-183 | without crashes nothing gets stuck, and a call for an entry that is not stuck returns its number |
| `Sequencing.CrashPutsOut` | serverless/internal/storage/fs/fs.go:130-168 | a lone sequencer that crashes with its temporary file and before its leaf-hash file puts its entry out |
| `Sequencing.CrashRunsExist` | serverless/internal/storage/fs/fs.go:130-168 | for every entry there are runs of a lone sequencer that put it out, without a number and with one |
| `Sequencing.OutForGood` | serverless/internal/storage/fs/fs.go:130-168 | in every later run, whoever sequences, crashes or fails, it stays out and every call for it that returns returns an error |
| `Sequencing.TwoSequencersCanDuplicate` | serverless/internal/storage/fs/fs.go:117-141 | two sequencers can give any entry two numbers |
| `Sequencing.FailedCallCanDuplicate` | serverless/internal/storage/fs/fs.go:162-172 | so can one sequencer after an I/O error |
| `Feeder.ConvertAgreesWithLayout` | internal/feeder/sumdb/sumdb_feeder.go:97-114 | the feeder computes the layout's address, below level 56 |
| `Feeder.TileHash` | internal/feeder/sumdb/sumdb_feeder.go:145-160 | the hash of a subtree of a tile is that node of the tile's tree |
| `Feeder.PartialTiles` | internal/feeder/sumdb/sumdb_feeder.go:173-193 | the recorded partial sizes are those of the tiles at the edge of the tree |
| `Feeder.TileBroker.Tile` | internal/feeder/sumdb/sumdb_feeder.go:195-208 | a tile is requested at its true size, and the cache changes no answer |
| `Feeder.FetchNode` | internal/feeder/sumdb/sumdb_feeder.go:56-71 | no tile is too short for the node, and correct tiles give its hash |
| `Feeder.FetchProof` | internal/feeder/sumdb/sumdb_feeder.go:56-71 | from correct tiles the proof is the compact range [from, to) |
| `Feeder.FeederProofAccepted` | internal/feeder/sumdb/sumdb_feeder.go:56-71 | a compact-range witness that holds the `from` checkpoint, or none, accepts it and stores the range of the whole log |
| `Feeder.HeldRangeIsHonest` | witness/golang/internal/witness/witness.go:234-267 | a stored range with the stored root is the range of the log |
| `Bulk.EveryUncancelledRun` | clone/internal/download/batch.go:42-98 | in every schedule with any fetch errors the output is an in-order prefix, and complete when closed without an error |
| `Bulk.EveryErrorFreeRun` | clone/internal/download/batch.go:42-98 | without errors and cancellation every schedule emits in order and no error, cannot go on forever, and where it can go no further has emitted all leaves and closed |
| `Bulk.NeverStuck` | clone/internal/download/batch.go:42-98 | while the collector waits, its worker can fetch or deliver |
| `Bulk.StepsRunOut` | clone/internal/download/batch.go:114-153 | every step of an uncancelled run brings it closer to its end |
| `Bulk.FetchesOnBoundaries` | clone/internal/download/batch.go:53-66 | batches stay on batch boundaries if the first leaf is on one |
| `Bulk.OrderUnderCancellation` | clone/internal/download/batch.go:75-98 | under cancellation the output is always an in-order prefix if and only if there is one worker or one batch |
| `Bulk.CleanCloseUnderCancellation` | clone/internal/download/batch.go:68-98 | closing without an error always means completeness if and only if, moreover, the tree is larger than a batch |
| `Bulk.LiveIsInOrder` | clone/internal/download/batch.go:75-98 | what was emitted before a cancellation is an in-order prefix, whatever comes after |
| `Bulk.SilentCloseUnderCancellation` | clone/internal/download/batch.go:68-98 | a clean close with nothing emitted since the cancellation always means completeness if and only if the tree is larger than a batch |
| `Cloner.Next` | clone/internal/cloner/clone.go:135-147 | one past the last leaf, 0 for an empty table |
| `Cloner.WriteBatches` | clone/internal/cloner/clone.go:101-131 | the batching loop with failing writes: the table gains exactly the first n leaves, all of them if it succeeds |
| `Cloner.Clone` | clone/internal/cloner/clone.go:51-131 | in every schedule, cancelled or not, the table holds a gap-free prefix, no shorter than before; nil means complete unless cancelled with a tree of one batch; a download that ends silently gives nil with nothing added |
| `Cloner.SilentScheduleExists` | clone/internal/cloner/clone.go:101-131 | for a tree of one batch there is a cancelled schedule that ends without an error and a leaf |
| `SumDbClone.PrefetchTile` | clone/cmd/sumdbclone/sumdbclone.go:95-154 | a partial last tile is completed up to the target or a tile boundary |
| `SumDbClone.CloneSumDb` | clone/cmd/sumdbclone/sumdbclone.go:95-154 | the same for the whole SumDB clone |
| `SumDbClone.EveryFetchStartsATile` | clone/cmd/sumdbclone/sumdbclone.go:95-154 | from a tile boundary every batch any worker fetches starts a tile |
| `SumDbClone.ScheduleNeverRefused` | clone/cmd/sumdbclone/sumdbclone.go:95-154 | at every point of the schedule that the clone runs no fetch is refused |
| `LogDb.Database.WriteLeaves` | clone/logdb/database.go:117-129 | a transaction appends the leaves to the log held or changes nothing |
| `LogDb.Database.Head` | clone/logdb/database.go:150-162 | the largest index, or none |
| `LogDb.Database.StreamLeaves` | clone/logdb/database.go:131-148 | the leaves of [start, end) that are there, in order |
| `LogDb.Database.WriteCheckpoint` | clone/logdb/database.go:68-97 | stored exactly if larger than every stored one |
| `LogDb.Database.GetLatestCheckpoint` | clone/logdb/database.go:99-112 | the largest checkpoint with its range |
| `Verify.MerkleRoot` | clone/internal/verify/verify.go:49-85 | on good checkpoints the incremental result is that from leaf 0, missing leaves being an error |
| `Verify.VerifyAndStore` | clone/internal/verify/verify.go:49-85 | accepts exactly the root of that many leaves; good checkpoints stay good and the latest never shrinks |
| `Verify.FastIsSlow` | clone/internal/verify/verify.go:49-85 | incremental equals from scratch for every size |
| `Verify.EveryRun` | clone/logdb/database.go:68-147 | over every run of cloning and verifying: good checkpoints, fast equals slow, RFC 6962 root for sizes > 0, latest size never decreases |
| `Audit.GetLevelsForLeafCount` | sumdbaudit/audit/service.go:583-591 | the top level is the last one that has a complete tile, -1 if there is none |
| `Audit.AlignedRange` | sumdbaudit/audit/service.go:457-466 | the range of an aligned block of 2^k leaves is a single node |
| `Audit.TileRootIsNode` | sumdbaudit/audit/service.go:457-466 | the root of a stored tile is the tree node above it |
| `Audit.TileRowIsTreeHash` | sumdbaudit/audit/service.go:457-466 | every hash of a complete tile is the RFC 6962 tree hash of the leaves below it |
| `Audit.AppendTile` | sumdbaudit/audit/service.go:452-468 | a complete correct tile extends the range of the log by the leaves it stands for |
| `Audit.AppendLevel` | sumdbaudit/audit/service.go:446-470 | after a level the range ends at the last complete tile of that level |
| `Audit.AppendTiles` | sumdbaudit/audit/service.go:446-470 | the walk from the top level down covers exactly the leaves of complete tiles, with their range if the tiles are correct |
| `Audit.AppendStragglers` | sumdbaudit/audit/service.go:472-482 | the rest of the leaves completes the range |
| `Audit.CheckCheckpoint` | sumdbaudit/audit/service.go:437-498 | given correct tiles, and whatever stragglers the one request for N mod 2^height of them yields, a checkpoint is accepted exactly if its hash is the RFC 6962 root of the tiles' leaves followed by the stragglers |
| `Audit.CheckRootHash` | sumdbaudit/audit/service.go:411-432 | with the stragglers that the SumDB serves: accepted exactly if the hash is the root of the log when they are right; and whatever is served, an accepted checkpoint commits to all leaves of the local tiles |
| `Audit.CheckConsistency` | sumdbaudit/audit/service.go:377-409 | with stragglers from the tile that has since been completed: passes exactly if there is no golden checkpoint, or it is beyond the head, or its hash is the root of that many local leaves |
| `Pipeline.PlanLevels` | sumdbaudit/audit/service.go:341-371 | one goroutine per level, each told the number of its complete tiles |
| `Pipeline.NextKeepsInv` | sumdbaudit/audit/service.go:500-578 | every step of every goroutine keeps: channels hold the unread roots in order, tiles hold true hashes, nothing fails |
| `Pipeline.SomeStepEnabled` | sumdbaudit/audit/service.go:341-371 | unless all levels are done some goroutine can step: unread roots fit their channel |
| `Pipeline.StepMakesProgress` | sumdbaudit/audit/service.go:500-578 | each step leaves less work |
| `Pipeline.EverySchedule` | sumdbaudit/audit/service.go:341-371 | every schedule ends, never fails, and where it ends every complete tile is stored with its true hashes |
| `Pipeline.StoredHashesAreTreeHashes` | sumdbaudit/audit/service.go:500-578 | in every state of every schedule slot i of tile (level, offset) is the tree hash of leaves [x W^level, (x+1) W^level) for x = offset W + i |
| `Distributor.Combine` | formats/checkpoints/combine_signatures.go:37-93 | fails exactly if a note is not signed by the log or has another body; otherwise the union of known witness signatures and the log's |
| `Distributor.FillSlots` | serverless/deploy/github/distributor/combine_witness_signatures/internal/distributor/state.go:75-92 | the one-pass scan puts a largest candidate with at least i witness signatures into every slot i |
| `Distributor.SortBySize` | serverless/deploy/github/distributor/combine_witness_signatures/internal/distributor/state.go:71-73 | the same notes by falling size |
| `Distributor.UpdateState` | serverless/deploy/github/distributor/combine_witness_signatures/internal/distributor/state.go:35-94 | fails exactly if a note that takes part is not a checkpoint of the log; otherwise slot i has a largest checkpoint among all merged inputs with at least i witness signatures, or nothing if there is none |
| `Distributor.SlotSizesFall` | serverless/deploy/github/distributor/combine_witness_signatures/internal/distributor/state.go:75-92 | slot sizes never increase with i |
| `Distributor.SlotsAreDetermined` | serverless/deploy/github/distributor/combine_witness_signatures/internal/distributor/state.go:35-94 | with one body a size the slots do not depend on order or repetition of the inputs |
| `Distributor.TiesAreUndetermined` | serverless/deploy/github/distributor/combine_witness_signatures/internal/distributor/state.go:56-73 | two largest checkpoints with different bodies leave the slots undetermined, whatever the number of slots and other notes |
| `Distributor.WhenDetermined` | serverless/deploy/github/distributor/combine_witness_signatures/internal/distributor/state.go:56-92 | the slots are determined if and only if no slot has two best candidates |
| `Distributor.RerunKeepsTable` | serverless/deploy/github/distributor/combine_witness_signatures/internal/distributor/state.go:35-94 | the slots are again a correct result for themselves and any notes seen before |
| `Distributor.Idempotent` | serverless/deploy/github/distributor/combine_witness_signatures/internal/distributor/state.go:35-94 | with one body a size an update with its own result, and any notes seen before, changes nothing |
| `Distributor.SlotsNeverRegress` | serverless/deploy/github/distributor/combine_witness_signatures/internal/distributor/state.go:35-94 | an update keeps every slot's promise and never replaces a checkpoint by a smaller one |
| `Distributor.EveryRunGrows` | serverless/deploy/github/distributor/combine_witness_signatures/internal/distributor/state.go:35-94 | over every run of updates a filled slot stays filled and its size never falls |
| `Splitting.SplitUpdatesCanLose` | serverless/deploy/github/distributor/combine_witness_signatures/internal/distributor/state.go:35-94 | two updates can leave a slot empty that one update with the same notes fills |
| `Splitting.WhenSplittingLosesNothing` | serverless/deploy/github/distributor/combine_witness_signatures/internal/distributor/state.go:35-94 | every result of two updates is one of a single update if and only if every body whose signatures get lost is overtaken in every slot it could have had |
| `Splitting.SplitInputs` | serverless/deploy/github/distributor/combine_witness_signatures/internal/distributor/state.go:35-54 | a second update takes the slots and the later notes, and fails exactly if one update with all notes does |
| `Splitting.WhenTwoUpdatesAreOne` | serverless/deploy/github/distributor/combine_witness_signatures/internal/distributor/state.go:35-94 | for two calls, from any state: whatever they may yield one call with all notes may yield, if and only if every body whose signatures get lost is overtaken in every slot it could have had |
| `Splitting.FreshBodiesLoseNothing` | serverless/deploy/github/distributor/combine_witness_signatures/internal/distributor/state.go:35-94 | in particular if no later note has the body of an earlier checkpoint that no slot serves |
| `Codec.Base64RoundTrip` | witness/golang/internal/witness/proof.go:30-61 | decoding undoes encoding, section 4 of RFC 4648 |
| `Codec.DecimalRoundTrip` | serverless/api/state.go:50-90 | parsing digits undoes printing a number |
| `Codec.SplitJoin` | serverless/api/state.go:67-78 | splitting at line breaks undoes joining lines |
| `Codec.MarshalProof` | witness/golang/internal/witness/proof.go:30-37 | one encoded hash a line |
| `Codec.UnmarshalProof` | witness/golang/internal/witness/proof.go:41-61 | the loop computes the parse, failing as a whole if one line fails |
| `Codec.ProofRoundTrip` | witness/golang/internal/witness/proof.go:30-61 | every non-empty proof survives; the empty one is rejected |
| `Codec.MarshalTile` | serverless/api/state.go:50-64 | header lines and one line a node |
| `Codec.UnmarshalTile` | serverless/api/state.go:67-90 | the loop computes the parse, with its errors and its crash |
| `Codec.TileRoundTrip` | serverless/api/state.go:50-90 | what every printed tile parses as: itself without nodes unset at its end, or an error beyond 16 bits |
| `Codec.BuiltTileReadsBack` | serverless/api/state.go:50-90 | such a tile, its unset and empty nodes printed as empty lines, is parsed as the tile the store models reading: same leaf count and nodes, unset ones as empty hashes |
| `Codec.DirtyTilesReadBack` | serverless/pkg/log/integrate.go:173-206 | so is every tile an integration makes dirty |
| `Codec.WhenParsingCrashes` | serverless/api/state.go:67-79 | parsing crashes if and only if the trimmed text is a single line that reads as 32 |
| `Codec.HashSizeAloneCrashes` | serverless/api/state.go:67-79 | the text 32 does |

## Left out

- HTTP servers and clients, GitHub, GCS, gRPC and Trillian, Beam, flags, logging, timers and backoff timing are I/O plumbing.
- Signature cryptography and note parsing: a note is its origin, its checkpoint, its further lines and the set of keys that have validly signed it; signatures of honest witnesses cannot be forged, key hashes are distinct, and the log's key is not a witness key. The order of signatures in a combined note is not modelled.
- The stored compact range of a witness is a list of hashes; that its empty text form is rejected on reading is modelled.
- File paths: files are keyed by (level, index, partial size), by sequence number and by leaf hash. Hard links are copies, as no linked file is written again.
- Integer widths: sizes are unbounded, except that the feeder's 64-bit shifts are modelled by its bound of 2^56 leaves and parsed numbers by 16 bits.
- `LogRun` does not model an operator who removes a temporary link or checkpoint that was left behind, or restores a lost tile.
- `TileStore.Storage.RelinkPartials`: the pattern for partial versions also matches a temporary `.temp` file that a crash left of a partial tile, which then becomes a link as well; such files are never read and not modelled.
- A relative storage directory is taken to be one from which a tile's own directory does not lead to the tile, as with `./log`; all commands run from the same working directory.
- `LogRun` has one integration at a time, and claims nothing about a store that already disagrees with its checkpoint: `Integrate` recomputes the old root but only logs it.
- GCS and browser storage do not relink partial tiles; the tiled-log claims are for the filesystem store.
- `Consensus.CheckpointNConsensus`: the rejection of N greater than the number of witnesses when it is set up is not modelled; such an N never accepts anything.
- `LogDb.Database.WriteLeaves`: inserts at indices that are taken are ignored, as the source ignores their errors; inserts at fresh indices succeed.
- `LogDb.Database.StreamLeaves`: a database error in the middle of a query, which would leave `MerkleRoot` waiting, is not modelled.
- `Bulk` for a first leaf at or beyond the tree size, where the collector would go round forever: `Clone` returns before starting it.
- `Pipeline`: schedules with database errors, after which other goroutines may wait forever because channels are not closed. Tiles are written atomically.
- `Cloner.Clone`: nil does not mean complete when the download is cancelled and the tree fits one batch; the condition in its contract is exact by `SilentScheduleExists`.
- `SumDbClone.CloneSumDb`: the same exception, for targets of at most one tile.
- `Audit.CheckRootHash`: a served tile with more leaves than asked for makes the source index out of range; the model counts this as not accepted.
- `Sequencing`: the claim of no duplicates is for one sequencer at a time without I/O errors, which is exact by the two counterexamples; directory creation and the parsing of hexadecimal numbers are not modelled.
- `LogStateTracker.Update` makes no run-wide claim: it replaces its state unchecked when the size does not grow.
- `TileProofs.FeedOnce`: retries and backoff, and a witness that changes its checkpoint during a round.
- The golden checkpoint of `Sync` is not checked against its predecessor when it is beyond the local head, so no consistency claim is made for it.
- Inclusion proofs, which read a part of the nodes that consistency proofs do, `FetchLeafHashes`, `LookupIndex` and the SQL persistence of the witness would only add easier members of the same kind. The library that lists the nodes of a proof is not part of the repository; its list is defined here from RFC 9162.
- The firmware demo, the sparse-map verification and the hello-world log.
