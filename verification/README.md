# Stratum in Dafny

A model of the Stratum key-value engine and proofs of what it keeps: Raft consensus, the LSM tree with
its compactions and manifest, the write-ahead log, the ordered stores under it, and transactions over
a hybrid clock. `dafny verify dfyconfig.toml` checks all of it; no step is assumed.

## How it is organised

**Raft.** `RaftNode` has each handler twice: as a function of the node's state, and as a method of a
class that updates fields and loops as the source does. `RaftCluster` makes a transition system of it:
election timeouts, votes, replies, proposals, sends, appends and acknowledgements, with every message
free to be lost, delayed, repeated or reordered. `RaftElection` and `RaftLogs` prove election safety and
log matching in all such runs, `RaftTerms` how terms spread, and `RaftProgress` that from every reachable
state a leader can bring followers up to its log and commit it. `RaftHistory`, `RaftSafety` and `RaftCommit` prove leader completeness
and state machine safety in *orderly* runs: a leader sends while it leads, and a follower does not accept
an older, shorter snapshot of one leader's log after a longer one. `RaftSteps` builds runs step by step,
and `RaftReorder` uses it to give up each condition in turn: without either one two nodes apply different
entries, because the follower truncates whatever the request does not mention. It states exactly which
acknowledged entries an accepted request keeps.

**The tree.** `KeyOrder`, `SortedLists` and `MergeIterator` cover the key order and the k-way merge over
a binary heap. `Compaction` is the merge loop with version pruning and file cutting; `Levels`,
`CompactionJob` and `TreeEdit` are the picker, the version edit and the layout invariant. `TreeReads`
and `SnapshotReads` say exactly when a compaction leaves point reads and snapshot reads unchanged, and
`PruningLimits` gives the trees on which it does not. `TreeWeight` proves that the compaction loop ends.
`LsmTree` is the tree object, `CompactionRuns` says what snapshots see after the whole compaction loop,
and `TreeRuns` is about whole runs, including the manifest (`ManifestFormat`, `Manifest`) that every run
writes.

**The log.** `WalFormat` and `WalRoundTrip` describe and prove the record format as a byte stream;
`WalDamage` proves what the checksums promise of any file. `WalFiles` has writer and reader over a block
buffer; `Batches` and `Recovery` build on them. `Decoding` says exactly which bytes the decoders of
batches, edits and tables accept.

**Stores and transactions.** `SkipList`, `Memtables` and `Engine` go from linked towers to the read view
of the whole engine. `SsTable`, `SsTableReads`, `SsTableFiles`, `SsTableIterator`, `Bloom` and `BlockCache`
cover table files. `HybridClock` and `Transactions` cover timestamps and snapshot isolation.

## What the proofs found in the code

Where a promised property does not hold of the code, the model keeps the code and a lemma gives the
input, next to a theorem with the exact condition.

- First-level files are merged oldest first while the lowest index wins, so a compaction keeps the
  oldest value of a full key that was flushed twice (`PruningLimits.OldestDuplicateWins`). Reads are
  kept exactly when no key has two values there (`TreeReads.CompactionKeepsReads`), and the engine's
  reads are right in every state of a run, now and once the flushed table is dropped, exactly when that
  holds of the keys its memtables do not cover (`Engine.EngineView`).
- Files are cut and chosen by full key, so a droppable tombstone can be compacted while an older version
  sits in the next file (`PruningLimits.SplitVersionsResurface`); with falling thresholds it can even
  happen inside one compaction (`PruningLimits.FallingThresholdResurrects`). When a snapshot's reads
  are kept is `SnapshotReads.SnapshotReadsKept`.
- The follower's unconditional truncation makes reordered requests unsafe
  (`RaftReorder.ReorderingBreaksSafety`), and so are sends that a former leader still makes
  (`RaftReorder.LateSendUndoesCommit`, `RaftReorder.LateSendBreaksSafety`).
  `RaftCommit.StateMachineSafety` is for runs without the two.
- A log record appended after a sync is lost exactly if it does not fit the rest of a block of the file
  that is already begun (`WalRoundTrip.SyncedAppendReadable`); group commit syncs after every batch.
- Recovery appends to a leftover temporary file, whose batches then come first
  (`Recovery.LeftoverComesFirst`); if its blocks end inside a record, all that was rewritten behind it is
  lost (`Recovery.LeftoverOfWholeBlocks`, with an input in `Recovery.LeftoverLosesBatch`).
- An empty value comes back from the log as a missing one (`Batches.BatchRoundTrip`), which a memtable
  stores as a tombstone.
- The manifest does not carry the file counter (`Manifest.CounterLost`), so numbers of live files are
  handed out again after a restart (`TreeRuns.NumbersComeAgain`).
- Opening does not cut off a torn edit: behind one, edits are lost (`Manifest.EditLost`) or the next
  opening fails (`Manifest.OpenFails`). All that is appended is replayed exactly if nothing is torn
  (`Manifest.TearLosesEdits`).
- A compressed block above 32768 bytes cannot be read (`SsTableReads.LargeBlockLost`), and an iteration,
  such as a compaction's, ends at it as at the end of the table (`SsTableIterator.WriteThenIterate`). The
  theorems about the tree and the engine take a table for its entries; they hold of tables whose blocks
  can be read, as they can if no entry takes a block beyond the buffer
  (`SsTableReads.SmallEntriesReadable`).
- Begin draws its timestamp before registering it, so the oldest active snapshot can go down
  (`Transactions.BeginGap`); an answer is a lower bound for good exactly if no smaller snapshot is then
  drawn and not registered (`Transactions.AnswerIsFloor`).
- The clock's counter overlaps the wall time from 65536 on (`HybridClock.CounterOverflow`).

## Reading the model

Byte strings are sequences of numbers below 256. A value is `Some(bytes)`, a tombstone `None`; a lookup
that finds nothing is `None` and one that finds a tombstone `Some(None)`. Integers are unbounded except
where a width matters, and then `% U16`, `% U32` or `% U64` says so. Checksum, hash, compressor, wall
clock, random tower heights, peers' replies and the thresholds a compaction reads are parameters. The Raft
model takes each body under the node's mutex as one step. Sending is its own step: `becomeLeader` calls
`sendHeartbeats` with the mutex held, which would lock it again. Server names are numbers, with zero for
Go's empty string. A proposal, which the code lacks, is the step that `docs/weekly/week-4.md:109-110`
describes.

## Model

| member | source | states |
|---|---|---|
| RaftNode.Node.DoStartElection | internal/raft/raft.go:120-146 | the node stands for the next term with its own vote, asks every peer but itself, and the request tells the end of its log |
| RaftNode.Node.DoHandleVoteReply | internal/raft/raft.go:157-176 | a granted vote counts only while the node is a candidate of the term it was asked in, a newer term in the answer ends the candidacy, and the vote that exceeds (len(Peers)+1)/2 makes a leader |
| RaftNode.Node.DoBecomeLeader | internal/raft/raft.go:183-192 | the loop over the peers leaves nextIndex at the log's length and matchIndex at zero for every peer, other entries as they were |
| RaftNode.Node.DoHandleVote | internal/raft/raft.go:313-336 | new state and answer of RequestVote: step down first, grant only once per term and only to an up-to-date log |
| RaftNode.Node.DoHandleAppend | internal/raft/raft.go:338-375 | new state and answer of AppendEntries: stale terms and mismatches are refused, otherwise the tail is replaced and the commit index follows |
| RaftNode.Node.DoApplyLog | internal/raft/raft.go:305-311 | the loop applies exactly the entries after lastApplied up to the commit index, in order |
| RaftNode.Node.DoAdvanceCommitIndex | internal/raft/raft.go:288-303 | the downward scan finds the highest index of the current term that more than (len(peers)+1)/2 nodes are known to hold, or changes nothing |
| RaftNode.Node.DoHandleAppendReply | internal/raft/raft.go:260-281 | a reply to an old term changes nothing; success moves matchIndex and nextIndex and may commit, refusal backs nextIndex up by one but not below one, which is what lets a follower catch up (RaftProgress.FollowerCatchesUp) |
| RaftNode.VoteRepeats | internal/raft/raft.go:313-336 | a request for a vote, asked again, gets the same answer and changes nothing more |
| RaftNode.NotBehindIsTotal | internal/raft/raft.go:324-333 | being at least as up to date is a total preorder on logs, so among any nodes there is one that the others can vote for |
| RaftNode.FirstRequestIsEmpty | internal/raft/raft.go:183-192 | the first request of a new leader to any peer carries no entry and asks about its last one |
| RaftTerms.TermsSpread | internal/raft/raft.go:120-375 | no step lowers a term; a node whose term rises without standing follows, with no vote or one for who asked; an awaited message leaves its receiver with a term no older than its own; whoever takes a request of its term follows |
| RaftTerms.EntriesAreNumbered | internal/raft/raft.go:356-361 | in every run each entry of every log, of nodes and of requests under way, carries its own position |
| RaftSteps.Elect | internal/raft/raft.go:120-192 | from every reachable state a node can win the next term: enough nodes whose term is not above its own and whose logs are not more up to date vote for it, and it leads with its log unchanged |
| RaftProgress.SendInRange | internal/raft/raft.go:224-231 | in every run, whoever leads can read its log for a request to any peer |
| RaftProgress.FollowerCatchesUp | internal/raft/raft.go:207-281 | every run in which a node leads goes on, by one heartbeat and then only requests of it to one follower and their answers, at most one request for each log entry, to a state in which the follower has exactly the leader's log and its commits, and the leader, still leading with that log, knows it |
| RaftProgress.LeaderCommits | internal/raft/raft.go:207-311 | every run in which a node leads, with an entry of its term last and enough followers not beyond that term, goes on to a state in which it and all of them have the leader's log, all of it committed and applied |
| RaftElection.EnoughIsQuorum | internal/raft/raft.go:172-172 | more than (len(Peers)+1)/2 members are more than half of the cluster, whether or not Peers lists the node itself |
| RaftElection.QuorumsMeet | internal/raft/raft.go:172-172 | any two such quorums share a member |
| RaftElection.WinnerIsFirst | internal/raft/raft.go:157-176 | a candidate that is about to win finds its term without a leader, and its votes form a quorum |
| RaftElection.LeaderStays | internal/raft/raft.go:183-200 | once a term has a leader, the same node is its leader for the rest of the run |
| RaftElection.ElectionSafety | internal/raft/raft.go:120-336 | in every run, with messages lost, delayed, repeated or reordered, two nodes leading in the same term at any two moments are the same node |
| RaftLogs.AcceptedLogIsSnapshot | internal/raft/raft.go:356-361 | accepting a request leaves the follower with exactly the log its sender had when it sent |
| RaftLogs.SuccessMeansSameLog | internal/raft/raft.go:338-375 | in every run a follower answers success exactly when it accepts, and then has the sender's log of the moment of sending |
| RaftLogs.LogMatching | internal/raft/raft.go:207-375 | in every run, any two logs of nodes or of requests under way, seen at any two moments, with the same term at an index agree up to that index |
| RaftSafety.HoldInvNext | internal/raft/raft.go:313-375 | every step keeps what acknowledgements and votes guarantee: voters of later terms carry what they acknowledged earlier |
| RaftSafety.LeaderCompleteness | internal/raft/raft.go:324-333 | an entry held by a quorum in its own term is in the log of every later leader |
| RaftCommit.LaterLeadersHold | internal/raft/raft.go:288-336 | leader completeness in every state of every orderly run |
| RaftCommit.CommittedLogsAgree | internal/raft/raft.go:288-371 | two nodes agree on every entry both have committed |
| RaftCommit.StepCommitGrows | internal/raft/raft.go:288-375 | no step lowers a commit index, unapplies an entry or removes a committed one |
| RaftCommit.CommitNeverUndone | internal/raft/raft.go:288-375 | over every orderly run the commit index never falls, what was applied is only extended and committed entries stay |
| RaftCommit.AppliedIsCommitted | internal/raft/raft.go:305-311 | in every orderly run lastApplied equals commitIndex, which is inside the log, and exactly those entries were applied |
| RaftCommit.StateMachineSafety | internal/raft/raft.go:288-375 | in every orderly run, what two nodes have applied, at any two moments, is one a prefix of the other |
| RaftReorder.ReorderingBreaksSafety | internal/raft/raft.go:356-361 | if one leader's requests may be handled out of order, a state that is reachable with every send made while leading has two nodes that applied different entries first |
| RaftReorder.LateSendUndoesCommit | internal/raft/raft.go:207-245 | if the send goroutine may read the log after the node has stepped down, a state reachable with all requests accepted in order has a node whose next accepted request replaces an entry it has committed and applied |
| RaftReorder.LateSendBreaksSafety | internal/raft/raft.go:207-245 | and from there a state is reachable, still with all requests accepted in order, in which two nodes have applied different entries first |
| RaftReorder.AcceptKeepsAcknowledged | internal/raft/raft.go:361-361 | accepting a request keeps the first k acknowledged entries if and only if its snapshot has at least k entries |
| KeyOrder.DecodeEncode | internal/mvcc/key.go:12-28 | decoding an encoded key gives back user key and timestamp |
| KeyOrder.EncodeDecode | internal/mvcc/key.go:12-28 | every key of at least eight bytes is the encoding of what it decodes to |
| KeyOrder.CompareKeysZero | internal/mvcc/key.go:34-43 | CompareKeys is zero exactly on equal byte strings, also of different or short lengths |
| KeyOrder.KeysOrdered | internal/mvcc/key.go:34-43 | CompareKeys is a strict total order on all byte strings |
| KeyOrder.EncodedOrder | internal/mvcc/key.go:8-43 | encoded keys are ordered by user key and then newest version first |
| SortedLists.MergeSorted | internal/lsm/merge_iterator.go:50-60 | the merge of sorted inputs is strictly increasing |
| SortedLists.MergeLookup | internal/lsm/merge_iterator.go:26-37 | the merge has exactly the keys of the inputs, each with the value of the lowest-index input that has it |
| MergeIterator.Push | internal/lsm/merge_iterator.go:78-78 | pushing keeps the heap order and adds exactly the item |
| MergeIterator.Pop | internal/lsm/merge_iterator.go:120-120 | popping returns the root and leaves a heap of the other items |
| MergeIterator.RootIsLeast | internal/lsm/merge_iterator.go:30-37 | the root of a heap comes before every other item |
| MergeIterator.SeekMerge | internal/lsm/merge_iterator.go:84-94 | seeking every input and merging is merging and then seeking |
| MergeIterator.MergeIter.SeekToFirst | internal/lsm/merge_iterator.go:73-82 | afterwards the iterator has the whole merge before it |
| MergeIterator.MergeIter.Seek | internal/lsm/merge_iterator.go:85-94 | afterwards the iterator has exactly the merged entries not below the target before it |
| MergeIterator.MergeIter.Next | internal/lsm/merge_iterator.go:111-128 | drops exactly one key from what remains, in all inputs at once |
| Compaction.SplitFlattens | internal/lsm/compaction.go:213-251 | cutting output into files loses and reorders nothing, and no file is empty |
| Compaction.SplitSizes | internal/lsm/compaction.go:229-251 | every output file but the last is cut at exactly the entry with which its estimate reaches the target |
| Compaction.Execute | internal/lsm/compaction.go:115-251 | the merge loop with pruning and cutting produces the tables of the specification, numbered in order, with exact key ranges |
| CompactionJob.BestLevel | internal/lsm/compaction.go:28-38 | the first of the levels with the highest score |
| CompactionJob.PickCompaction | internal/lsm/compaction.go:27-86 | no job exactly if no level scores above one; otherwise all first-level files or the largest file of the best level, with every next-level file their hull overlaps |
| CompactionJob.GetOverlapping | internal/lsm/level.go:16-24 | the loop keeps, in order, exactly the files whose range meets the given one |
| CompactionJob.ScoreNeedsFiles | internal/lsm/level.go:47-59 | a score above one means the level has files |
| CompactionJob.TargetSizes | internal/lsm/level.go:34-43 | ten megabytes for the level after the first, and ten times as much for each deeper one |
| CompactionJob.DueWhen | internal/lsm/level.go:47-59 | a score is above one exactly if the first level has more than four files, or another level more bytes than its target |
| CompactionJob.OverlapsMeans | internal/lsm/level.go:16-24 | a file is taken as overlapping exactly if some key lies in both ranges |
| CompactionJob.UntouchedMissesKeys | internal/lsm/compaction.go:54-83 | a next-level file that is not taken lies to one side of every key of every input |
| Levels.SortExtended | internal/lsm/manifest.go:239-270 | sorting a level extended by tables apart from it gives a level in which lookups prefer the new tables |
| TreeEdit.AddedFacts | internal/lsm/compaction.go:178-251 | whatever is pruned, the new tables form a level of their own, hold exactly the output and have ranges made of input keys |
| TreeEdit.KeptAre | internal/lsm/compaction.go:259-266 | deleting by file number takes away exactly the inputs |
| TreeEdit.CompactionKeepsLayout | internal/lsm/compaction.go:27-270 | every compaction keeps each level below the first sorted, disjoint and with exact ranges |
| TreeReads.CompactionKeepsReads | internal/lsm/compaction.go:115-270 | without a pruning threshold, and with tables whose blocks can be read, a compaction at any level changes no read of any key, if and only if the newest and the oldest first-level value of every key agree when the first level is compacted |
| TreeReads.FirstLevelRead | internal/lsm/compaction.go:128-139 | a key the first level holds reads as its newest value there before the first level is compacted and as its oldest after |
| SnapshotReads.PruneKeeps | internal/lsm/compaction.go:193-211 | an entry is written exactly if it is not below the threshold, or is the first below it of its user key and not a droppable tombstone |
| SnapshotReads.PrunedReadDropped | internal/lsm/compaction.go:198-211 | for any sequence of thresholds, dropping a tombstone changes exactly the snapshots that saw it, and those see what lies outside the compaction or above the threshold read at it |
| SnapshotReads.SnapshotReadsKept | internal/lsm/compaction.go:178-270 | for any sequence of thresholds, a snapshot at or above all of them sees of a user key after the compaction what the compaction saw (oldest value first where the first level holds a version twice), if and only if no dropped tombstone lets an older version resurface; where the first level agrees on the versions of the key, that is what the snapshot saw before |
| SnapshotReads.KeepingTombstonesIsSafe | internal/lsm/compaction.go:198-211 | where tombstones are kept, such a snapshot sees what the compaction saw, for any sequence of thresholds, and what it saw before where the first level agrees on the versions of the key |
| PruningLimits.FallingThresholdResurrects | internal/lsm/compaction.go:186-211 | two versions and a falling threshold for which a dropped tombstone leaves the older value visible |
| PruningLimits.SplitVersionsResurface | internal/lsm/compaction.go:206-210 | five flushes and the picked compactions lead from the empty tree to one whose next picked compaction drops a tombstone although the next file of the same level has an older version: a deleted value reads again (for any large value of the needed length; the file sizes are those of one that does not compress) |
| PruningLimits.OldestDuplicateWins | internal/lsm/compaction.go:128-139 | five flushes of one full key into the empty tree: it reads as its newest value, and after the picked compaction as its oldest |
| TreeWeight.CompactionDecreases | internal/lsm/lsm.go:258-317 | every picked compaction lowers the sum over entries of the levels left below them, or empties a first level of empty files |
| LsmTree.SearchLevel | internal/lsm/lsm.go:206-221 | the binary search finds a file covering the key whenever one exists |
| LsmTree.CoveringFileDecides | internal/lsm/lsm.go:199-233 | asking the covering file alone is asking the whole level |
| LsmTree.FlushReads | internal/lsm/lsm.go:101-175 | after a flush a key reads as in the memtable if it is there and as before otherwise |
| LsmTree.Tree.Flush | internal/lsm/lsm.go:101-175 | the flush loop records the exact range and puts the table last in the first level; the tree stays valid |
| LsmTree.Tree.Get | internal/lsm/lsm.go:178-237 | the result is that of looking in the first level newest first and then in each level in turn |
| LsmTree.SwapReaders | internal/lsm/lsm.go:287-313 | readers of inputs are closed, missing ones of the output level opened, all others kept |
| LsmTree.Tree.Compact | internal/lsm/lsm.go:278-313 | one job leaves the levels of the edit, a reader for every file and the file counter moved on by the new files |
| LsmTree.Tree.DoCompaction | internal/lsm/lsm.go:258-317 | the rounds are a run of the tree: the picker's job each time, against the snapshots of that round, with tombstones dropped exactly where no file lies deeper than the output; the loop ends with every score at most one, keeps the tree valid and, with nothing to prune and a first level that agrees with itself, changes no read |
| CompactionRuns.RoundReads | internal/lsm/lsm.go:258-317 | one compaction of a run: a snapshot at or above its thresholds sees of a user key what it saw before, exactly if no dropped tombstone lets an older version resurface |
| CompactionRuns.LoopKeepsSnapshots | internal/lsm/lsm.go:258-317 | over all rounds of the loop, a snapshot at or above all thresholds sees of a user key what it saw before if in no round a dropped tombstone lets an older version resurface, as none is dropped where every round leaves some file deeper |
| TreeRuns.LayoutInvariant | internal/lsm/lsm.go:101-317 | after any run of flushes and compactions the layout invariant holds and every file number stands for one file |
| ManifestFormat.EditRoundTrip | internal/lsm/manifest.go:36-160 | decoding an encoded edit gives it back |
| Decoding.DecodedEditIsEncoded | internal/lsm/manifest.go:80-160 | an edit is decoded, from any bytes, only if they begin with its encoding |
| Decoding.CutEditRefused | internal/lsm/manifest.go:80-160 | an edit cut short anywhere is refused |
| Manifest.ManifestReplay | internal/lsm/manifest.go:186-293 | replaying any byte prefix of a manifest gives the levels after exactly the edits wholly in it |
| Manifest.CounterLost | internal/lsm/manifest.go:238-267 | after replay the file counter is one exactly if no edit carries a larger one |
| TreeRuns.NumbersComeAgain | internal/lsm/manifest.go:303-309 | after any run and a restart the k-th file number handed out is k, which is the number of a file in the replayed manifest if and only if file k is still in the tree |
| TreeRuns.NumberAfterReopen | internal/lsm/manifest.go:186-309 | the k-th call of NextFileNumber on the reopened manifest of any run returns k |
| TreeRuns.FirstNumberAgain | internal/lsm/manifest.go:303-309 | after one flush file 1 is in the tree, so the first number handed out after a restart is a live one |
| Manifest.AppendAfterTear | internal/lsm/manifest.go:211-223 | what a replay makes of old edits, any proper prefix of a torn edit and edits appended behind it: all edits with nothing torn; otherwise the old ones and then whatever the tear and the new bytes spell: a stop, a failure or a mixed edit |
| Manifest.TearLosesEdits | internal/lsm/manifest.go:211-232 | whatever is appended is replayed if and only if no byte of a torn edit is in front of it |
| Manifest.EditLost | internal/lsm/manifest.go:217-223 | a torn length prefix behind which an appended edit is lost |
| Manifest.OpenFails | internal/lsm/manifest.go:225-228 | five torn bytes behind which the same edit, written again, makes opening fail |
| Manifest.ApplyToMemory | internal/lsm/manifest.go:239-270 | the loops delete by level and number, append and sort, as the edit function says |
| Manifest.ManifestFile.Apply | internal/lsm/manifest.go:273-293 | file and memory stay those of the same list of edits |
| Manifest.ManifestFile.NextFileNumber | internal/lsm/manifest.go:303-309 | hands out the counter and moves it, touching nothing else |
| Manifest.Open | internal/lsm/manifest.go:186-236 | the replay loop: fails on an undecodable edit or an unknown level, stops at a torn one |
| TreeRuns.ReplayRebuildsTree | internal/lsm/manifest.go:186-293 | the manifest written by any run of flushes and compactions replays to exactly the files the run ended with, and to counter one |
| WalFormat.EmptyFragment | internal/wal/writer.go:43-86 | an empty fragment of a non-empty record is only written where a header ends a block, so the next block is fresh and Append ends |
| WalFiles.Writer.EmitPhysicalRecord | internal/wal/writer.go:90-104 | the buffer gains exactly the fragment; its length fits the 16-bit field |
| WalFiles.Writer.Append | internal/wal/writer.go:31-88 | the bytes appended since the last sync are extended by exactly the record's fragments; a closed writer refuses |
| WalFiles.Writer.Sync | internal/wal/writer.go:118-131 | everything appended is in the file and the next record starts as if in a fresh block |
| WalFiles.Reader.ReadBlock | internal/wal/reader.go:101-119 | loads the next block or finds the end of the file |
| WalFiles.Reader.ReadRecord | internal/wal/reader.go:29-99 | returns what the reading function gives at the reader's position, and moves to where it says; what that function can return is WalDamage.ReturnedIsChecked |
| WalRoundTrip.RoundTrip | internal/wal/reader.go:29-99 | every list of records of any lengths is read back in full, and then the file ends |
| WalRoundTrip.TornTail | internal/wal/reader.go:29-99 | on any byte prefix of a log the reader returns exactly the records wholly in it and then the end or a short record |
| WalDamage.ReturnedIsChecked | internal/wal/reader.go:29-99 | from any position of any file, a returned record is the payloads of fragments that stand one after another in what was read, first to last, each inside one block and with the right checksum of its type and payload |
| WalDamage.DamagedLog | internal/wal/reader.go:54-73 | a written log with the payload of one fragment changed to one with another checksum reads back exactly the records before it and is then corrupt, whatever follows |
| WalDamage.ZeroTail | internal/wal/reader.go:57-64 | a log followed by any number of zero bytes is read in full and then ends |
| WalRoundTrip.SyncedAppendReadable | internal/wal/writer.go:118-131 | a record of any length appended after a sync is read back if and only if it fits what is left of the file's block or the file ended with a block |
| Batches.BatchRoundTrip | internal/wal/batch.go:33-106 | decoding an encoded batch, whatever follows it, gives it back with empty values as missing ones |
| Batches.DecodedReencodes | internal/wal/batch.go:60-106 | a batch decoded from any bytes survives encoding and decoding unchanged |
| Decoding.DecodedBatchIsEncoded | internal/wal/batch.go:60-106 | a batch is decoded, from any bytes, only if they begin with its encoding |
| Decoding.CutBatchRefused | internal/wal/batch.go:60-106 | a batch cut short anywhere is refused |
| Batches.Encode | internal/wal/batch.go:33-58 | sizing and filling the buffer gives the encoding |
| Batches.Decode | internal/wal/batch.go:60-106 | the offset loop decodes, or fails, as specified |
| Recovery.RecoveryIdempotent | internal/wal/recovery.go:17-91 | on every file content a second recovery returns the same batches, reports no damage and leaves the file alone |
| Recovery.RecoveredAreDecoded | internal/wal/recovery.go:17-59 | on every file, recovery returns the batches of the records read, up to the first that does not decode, and reports damage unless all decode and the file ends with the last |
| Recovery.DamagedRecovery | internal/wal/recovery.go:17-91 | a log with a damaged fragment is recovered as the batches before it, and the rewritten log holds exactly those |
| Recovery.LeftoverComesFirst | internal/wal/recovery.go:61-88 | whatever batches a leftover temporary file begins with, the recovery after a rewrite returns them before all others, and so differs from the one that rewrote unless that one began with them |
| Recovery.LeftoverOfWholeBlocks | internal/wal/recovery.go:61-88 | after a leftover of the first whole blocks of a log the next recovery returns its whole batches and then the recovered ones if the blocks end between two records, and its whole batches only, with damage, if they end inside one |
| Recovery.LeftoverLosesBatch | internal/wal/recovery.go:61-88 | an input: the first recovery returns a batch, and the next one after its rewrite nothing |
| Recovery.Recover | internal/wal/recovery.go:17-91 | the procedure returns the specified result and file; a missing log is an empty result |
| SkipList.PutFind | internal/memtable/skiplist.go:47-113 | setting a key changes the lookup of that key only |
| SkipList.LaneMembers | internal/memtable/skiplist.go:17-21 | following a lane visits, in order, exactly the towers that reach it |
| SkipList.LanesNested | internal/memtable/skiplist.go:17-21 | every lane is a sublist of the one below |
| SkipList.NextInserted | internal/memtable/skiplist.go:84-87 | how every link changes when a tower goes in |
| SkipList.SkipList.Descend | internal/memtable/skiplist.go:51-59 | the descent finds the last node before the key and its predecessor in every lane |
| SkipList.SkipList.Get | internal/memtable/skiplist.go:93-109 | agrees with lookup in the sorted contents |
| SkipList.SkipList.Put | internal/memtable/skiplist.go:47-91 | contents become the sorted map with the key set, for any drawn height; links, size and memory count stay exact |
| SkipList.SkipList.Delete | internal/memtable/skiplist.go:111-113 | sets the key to a tombstone |
| SkipList.Iterator.SeekToFirst | internal/memtable/iterator.go:30-34 | all entries are still to come |
| SkipList.Iterator.Seek | internal/memtable/iterator.go:36-47 | exactly the entries not below the target are still to come |
| SkipList.Iterator.Next | internal/memtable/iterator.go:22-28 | drops the first of the entries to come |
| Memtables.MemTable.Put | internal/memtable/memtable.go:27-33 | refuses exactly if frozen or full |
| Memtables.Manager.Put | internal/memtable/manager.go:51-93 | with room the entry is written, and the table swapped exactly if that filled it and no other waits; without room the writer waits if an immutable table is there, and otherwise the full table is swapped first |
| Memtables.Manager.Get | internal/memtable/manager.go:145-158 | active table first, then the immutable one |
| Memtables.Manager.FreezeActive | internal/memtable/manager.go:81-83 | the active table becomes the immutable one and a new empty one takes its place |
| Memtables.Manager.DropImmutable | internal/memtable/manager.go:237-240 | the immutable table goes and nothing else changes |
| Engine.EngineView | db.go:159-187 | over every run of writes, deletions, swaps, flushes, drops and compactions, and with tables whose blocks can be read, reads give the last write of their key in every state, now and once the flushed table is dropped, if and only if no first-level compaction met two values of a key the tree is asked for |
| Engine.EngineReads | db.go:159-187 | at the end of such a run every read gives the last write of its key |
| Engine.HarmfulWrong | internal/lsm/compaction.go:128-139 | a first-level compaction that meets two values of such a key makes a read wrong, at the latest when the flushed table is dropped |
| Engine.Get | db.go:159-187 | memtables before the tree, a tombstone is not found |
| SsTable.ScanFinds | internal/sstable/reader.go:186-230 | scanning a block is looking the key up in its entries, tombstones apart from empty values |
| Decoding.ScanDamagedEnd | internal/sstable/reader.go:186-230 | in a block whose end is damaged a key of the whole entries is found, one before the last of them is missed, and for any other the block is reported damaged |
| Decoding.CutEntryRefused | internal/sstable/reader.go:190-212 | an entry cut short is not parsed |
| SsTable.StoredReadable | internal/sstable/reader.go:123-147 | a stored block reads back exactly if it was left uncompressed or fits the reader's buffer |
| SsTable.OpenBack | internal/sstable/reader.go:31-113 | an intact file opens with the index of its blocks and its filter |
| Decoding.OpensExactly | internal/sstable/reader.go:31-113 | a file opens if and only if it ends with a footer, magic number and all, that points at a whole index and at a filter within the file, and those are what the open table has |
| SsTableReads.FindBlockIndex | internal/sstable/reader.go:161-165 | the first block whose last key is not below the key |
| SsTableReads.BlockDecides | internal/sstable/reader.go:160-165 | the key can only be in that block |
| SsTableReads.TableGet | internal/sstable/reader.go:167-231 | a lookup in a written table whose blocks can be read agrees with its entries for every key, compressor, hash, block size and filter size |
| SsTableReads.OwnProbeMissed | internal/sstable/reader.go:167-175 | a key with a probe that no key of the table has is missed without reading a block, also where the blocks cannot be read |
| SsTableReads.FooterCounts | internal/sstable/writer.go:159-209 | the footer of a written table counts its entries |
| SsTableReads.LargeBlockLost | internal/sstable/reader.go:135-144 | every lookup of a key in a compressed block beyond the buffer fails |
| SsTableReads.SmallEntriesReadable | internal/sstable/reader.go:135-144 | if no entry takes a block beyond the buffer, every block of the written table can be read, whatever the compressor does |
| SsTableReads.LeadingIs | internal/sstable/iterator.go:57-73 | the entries of the blocks before the first that cannot be read begin the table, and are all of it if and only if every block can be read |
| SsTableFiles.TableWriter.Add | internal/sstable/writer.go:53-80 | the entry joins the block, which is finished exactly when it has reached the block size |
| SsTableFiles.TableWriter.FlushDataBlock | internal/sstable/writer.go:82-155 | the block is stored and indexed by its last key |
| SsTableFiles.TableWriter.Close | internal/sstable/writer.go:159-209 | the last block, index, filter and footer make the specified file |
| SsTableFiles.WriteTable | internal/sstable/writer.go:53-209 | adding entries one by one and closing gives the file the reading theorems are about |
| SsTableFiles.CachedBlock | internal/sstable/reader.go:116-158 | the block cache never changes an answer, and afterwards holds the block if it fits its shard |
| SsTableFiles.Get | internal/sstable/reader.go:167-231 | the procedure gives the specified answer |
| SsTableFiles.WriteThenGet | internal/sstable/reader.go:167-231 | writing a table whose blocks can be read, opening it and looking a key up through the cache answers from the entries it was written from |
| SsTableReads.OpenedSorted | internal/sstable/reader.go:31-113 | an opened table has a sorted index |
| SsTableIterator.WrittenHolds | internal/sstable/reader.go:31-113 | each index entry of an opened table leads to its block, or to nothing exactly if the block cannot be read |
| SsTableIterator.TableIterator.SeekToFirst | internal/sstable/iterator.go:24-27 | the entries of the blocks before the first that cannot be read are to come, none after an earlier error |
| SsTableIterator.TableIterator.Seek | internal/sstable/iterator.go:30-40 | from the block the index search finds, the entries not below the target are to come, up to the first block that cannot be read; if all can, exactly the entries not below the target |
| SsTableIterator.TableIterator.Next | internal/sstable/iterator.go:43-55 | drops the first entry to come, across block ends; a block that cannot be read ends the iteration for good |
| SsTableIterator.WriteThenIterate | internal/sstable/iterator.go:24-73 | writing a table and iterating over it gives the entries of the blocks before the first that cannot be read, which are all if and only if every block can be read |
| BlockCache.Shard.Get | internal/sstable/cache.go:58-70 | a hit returns the cached data and moves it to the front |
| BlockCache.Shard.Put | internal/sstable/cache.go:73-109 | the block goes to the front, where it is found if it fits the shard, and the least recently used leave until the rest fits; index, list and size agree |
| BlockCache.EvictedIsLongest | internal/sstable/cache.go:98-108 | what stays after an eviction is the longest beginning of the list that fits |
| BlockCache.RecentlyUsedStays | internal/sstable/cache.go:58-109 | a block that has been used stays for as long as it and the blocks used since fit the shard together |
| BlockCache.Cache.RemoveFile | internal/sstable/cache.go:112-126 | no block of the file stays in any shard, and every block of every other file does |
| Bloom.NoFalseNegatives | internal/bloom/bloom.go:51-86 | every added key is admitted, whatever was added besides, for any hash |
| Bloom.AdmitsExactly | internal/bloom/bloom.go:51-86 | a key is admitted if and only if each of its probes is a probe of an added key, so one with a probe of its own is refused |
| Bloom.DecodeEncode | internal/bloom/bloom.go:90-112 | a stored filter comes back |
| Bloom.NewFilterHasBits | internal/bloom/bloom.go:18-48 | a new filter has bits unless rounding its size up wraps around 32 bits |
| Bloom.NewFilterSize | internal/bloom/bloom.go:18-48 | where nothing wraps around, a new filter has the whole bytes the bits asked for need, and eight at the least |
| Bloom.BloomFilter.Add | internal/bloom/bloom.go:51-66 | the loop sets exactly the probes of the key |
| Bloom.BloomFilter.MayContain | internal/bloom/bloom.go:70-86 | true exactly if all probes are set |
| HybridClock.StampOrder | internal/hlc/hlc.go:20-36 | while the counter fits, timestamps compare as (wall, counter) pairs |
| HybridClock.CounterOverflow | internal/hlc/hlc.go:35-35 | the first counter value that does not fit exceeds its predecessor exactly on even wall times, and equals another timestamp in either case |
| HybridClock.ClockMonotone | internal/hlc/hlc.go:23-61 | as long as the counter fits, each reading exceeds every earlier reading and every timestamp merged before, whatever the wall clock does |
| HybridClock.StampIsLeast | internal/hlc/hlc.go:23-61 | each step gives the least timestamp above the last and the merged one whose wall time is not behind the reading; its counter is zero where the reading moved the wall time on |
| HybridClock.StampFollowsWall | internal/hlc/hlc.go:23-61 | after any run that fits, the wall time of the timestamp is the largest of all readings and all merged wall times so far |
| HybridClock.Clock.Now | internal/hlc/hlc.go:23-36 | new state and timestamp of a reading; HybridClock.StampIsLeast and HybridClock.StampFollowsWall say which timestamp that is |
| HybridClock.Clock.Update | internal/hlc/hlc.go:39-61 | new state after merging a remote timestamp |
| Transactions.SnapshotIsolation | internal/mvcc/txn.go:31-84 | in every interleaving, with other steps between the two halves of Begin, commits whose snapshot-to-commit intervals overlap write disjoint keys |
| Transactions.FirstCommitterWins | internal/mvcc/txn.go:61-84 | in every reachable state a commit goes through if and only if no earlier commit with a timestamp above its snapshot wrote one of its keys |
| Transactions.ActiveAreRunning | internal/mvcc/txn.go:31-98 | in every run exactly the snapshots of transactions that were registered and have not ended since are active |
| Transactions.AnswerIsFloor | internal/mvcc/txn.go:46-57 | an answer is at or below every snapshot that is ever active afterwards and every later answer if and only if no snapshot drawn before it and not yet registered is below it |
| Transactions.MinActiveIsFloor | internal/mvcc/txn.go:46-57 | with no Begin half done, the answer is at or below every active and every later snapshot and every later answer |
| Transactions.BeginGap | internal/mvcc/txn.go:31-36 | a run in which an answer falls between the two halves of Begin: a later answer is lower, and a snapshot below the first is active |
| Transactions.TxnManager.DrawSnapshot | internal/mvcc/txn.go:32-32 | the first half of Begin: a fresh timestamp, not yet registered |
| Transactions.TxnManager.RegisterSnapshot | internal/mvcc/txn.go:34-36 | the second half of Begin: the drawn timestamp becomes active |
| Transactions.TxnManager.Begin | internal/mvcc/txn.go:31-43 | both halves in a row: the snapshot is fresh and registered, and nothing is left half done |
| Transactions.TxnManager.MinActiveSnapshot | internal/mvcc/txn.go:46-57 | the least active snapshot or the present time |
| Transactions.TxnManager.Commit | internal/mvcc/txn.go:61-84 | fails exactly if an earlier commit, after the snapshot, wrote one of the keys; otherwise stamps every written key |

## Left out

- gRPC, client API, command programs and benchmarks: plumbing without properties of their own.
- Raft persistence, restarts and snapshots: saving state does nothing in the code, so runs have no restarts.
- Leader leases: they depend on real time and nothing reads them.
- Slices shared between a leader's log and its requests, and 64-bit wrap-around of Raft terms and indexes.
- RaftCommit.StateMachineSafety: for orderly runs; RaftReorder.ReorderingBreaksSafety and RaftReorder.LateSendBreaksSafety show that it fails with either half of the order alone. Election safety and log matching are proved for all runs.
- RaftCommit.LaterLeadersHold: for orderly runs, on which the commit theorems rest.
- RaftCommit.CommitNeverUndone: for orderly runs; RaftReorder.LateSendUndoesCommit shows that it fails with late sends.
- RaftCommit.StepCommitGrows: for orderly steps, for the same reason.
- RaftCommit.AppliedIsCommitted: for orderly runs, for the same reason.
- Lock-level concurrency of reads during a compaction's swap of readers: reads are stated between compactions.
- I/O errors other than damaged or missing bytes, rate limiting, write stalls, statistics.
- Group commit, WAL rotation and crash durability of the whole database.
- Rounding of compaction scores: they are compared as exact real numbers.
- Order among files with equal smallest keys in one level: the layout invariant excludes it, so the sort is modelled as insertion.
- Blocking on a full memtable: `Memtables.Manager.Put` reports that the writer has to wait instead.
- Batched writes and the replay of recovered batches into memtables: the loop of a single write, entry by entry.
- Iterating over a table that was damaged after it was written; lookups cover damage.
- TreeReads.CompactionKeepsReads: takes a table for its entries, so blocks the reader cannot decompress are outside it; SsTableReads.SmallEntriesReadable says when there are none.
- Engine.EngineView: the same.
- Sharing of data between the cache's list and its map: both are fields with the same contents.
- Bloom false-positive rate and the floating-point number of probes: any number of probes is allowed.
- LZ4, murmur3 and CRC32C themselves: parameters with the properties named where they are used.
- SnapshotReads.SnapshotReadsKept: needs keys of at least eight bytes in the inputs, as EncodeKey makes them.
- CompactionRuns.LoopKeepsSnapshots: the same of the keys in the tree, and a first level that agrees on the versions of the user key.
- RaftProgress.LeaderCommits: that the cluster can commit, not that it will: timers and fair delivery are not modelled. A node without peers gets no acknowledgements, so it is outside.
- Manifest.TearLosesEdits: needs a file counter that two more edits can still raise within 64 bits.
