# A verified model of Autumn's storage engine

Autumn is a key-value store: an LSM tree that keeps its log, its tables and its large values in
append-only extents, each replicated on three nodes. This project models the engine in Dafny, from the
bytes of a block header up to whole runs of a range partition with crashes, and proves that the parts fit
together.

| file | models |
|---|---|
| Bytes, Keys, Values, Runs | byte order, integers and varints, internal keys, stored values, sorted runs |
| Skiplist, SkiplistWriter, SkiplistOps, SkiplistIterator | the memtable: towers in an arena, search and insertion one memory access at a time, iteration both ways |
| Merge, MergeIterator | the tree of two-way merge iterators, in both directions |
| TableBlock, TableBuilder, TableIterator | prefix-compressed blocks, the builder, the two-level iterator |
| Versions, Partition, PartitionOrder, PartitionProof | the range partition as a state machine: log, memtables, flusher, tables, compaction, crash, replay |
| Shutdown | emptying the memtables by a forced rotation or by closing |
| Replay, Unclean | what replay does to reads and to the sequence counter, and the runs in which it goes wrong |
| Reads, Recovery, RunReads, Scans, Room | Get, what Get and Range see in a run, Range and major compaction, room in the memtable |
| Extent, ExtentOps, Replication | block framing, append with failures, crash recovery, the three-replica append |
| Wire, LogBlocks, LogPack, LogReplay | entry encoding, packing a batch into blocks, replay, value pointers |

What the store promises is stated once, in `Versions`: `Shows(s, e)` says that among the versions in `s`,
`e` is the newest of its user key and no tombstone. Two sets of versions mean the same (`Faithful`) when
they show the same entries. Sorted runs connect the layers: the skiplist, the table iterator and the merge
tree are each proved against a run, and the contracts of the table iterator's Rewind, Seek and Next are those
of a leaf of the merge tree. The log is the reference: every layer is compared with what the log shows.

Where the code does not do what it might be expected to do, the model follows the code and the exact
condition is proved:

- A batch is sorted by value length before it is logged, so versions of one key can lie in the log in the
  wrong order; a deletion, which has no value, comes first of all. While serving this does no harm, because
  memtables are rotated between batches. During replay a rotation can separate a newer version from an older
  one behind it. `Replay.ReplayReadsRight` proves that reads after a replay, with any tables behind it, are right
  if and only if no rotation did so. What is shown and recovered suffers only when a deletion is separated from an
  older live version: `PartitionProof.Durability` and its companions hold for every run in which no rotation
  during replay does that (`SafeRotations`), which is every run when no batch logs a deletion ahead of an older
  live version of its key (`PartitionProof.OrderlyIsSafe`). `Unclean.CompactedAfterReplay` goes on from any run
  that has published no table, for any two rotation points, to a compaction after which the partition shows what
  the log shows if and only if no deletion before the second point hides the newest version behind it;
  `Unclean.DeletedKeyReturns` gives the run in which a deleted key returns for every such batch.
- Replay raises the sequence counter by one for each newer entry and then for each rotation before it is stored.
  `Replay.CounterReaches` proves which values it reaches, `Replay.RecoveredCounter` when it covers every version,
  and `Replay.CounterInOrder` that without rotations distinct timestamps have to be logged in order and without a
  gap. `Replay.LatestRead` says what a read of the latest version returns otherwise.
- A failing AppendBlocks keeps the blocks it had written before the one that failed, since the length it cuts
  back to has moved along. A failed header write is not reported at all. `ExtentOps.SuccessfulAppend` proves that
  an append that succeeds leaves whole blocks, and the recorded length right, if and only if no header write was
  short. An append that fails behind a short header can still leave whole blocks, since the file is cut or extended
  to the recorded length. `ExtentOps.FailedAppendExact` compares what lies behind the written part of the header:
  the data has to repeat the lost header bytes, and the bytes written after it have to continue that pattern.
  `ExtentOps.ShortHeaderUnseen` says what that means when nothing was written after it: data and lost bytes are
  all zeros.
- Range tests the prefix on the internal key and stops at the first key without it. `Scans.RangeExact`
  proves that the scan is right over every store if and only if the start key is not before the prefix
  (or the start is empty and the prefix is a single zero byte).
- Table blocks add the header size to a key length in 16 bits. `TableBlocks.BaseKeyReads` and
  `TableBlocks.CellReads` prove that a key part reads back if and only if it is at most 65531 bytes long.
- A small entry with a key of several kilobytes does not fit a 4 KB log block, and packing panics;
  `LogPack.EntriesToBlocks` proves that it succeeds if and only if every entry of the small run fits.
- A block with more than one entry can be four bytes over the 64 KB that the table builder aims at.
  `TableBuilders.OverExactly` proves when an entry takes it over, and `TableBuilders.FourBytesOver` gives two.
- `estimatedVS` is only an upper bound for values that are short or at most as long as a pointer
  (`Room.GrowthWithinEstimateVS`).
- When the three results of an append differ, the primary returns neither offsets nor an error.
  `Replication.WrittenIsAcked` proves that this case is never reached.

Hypotheses the code needs, stated where they are used: blocks carry as much data as their length says;
offsets stay below 2^32; user keys are not empty; timestamps are positive; expiry times are zero, which writes
never set; the log is one extent; no two versions share key and timestamp, and each batch is newer, key by key,
than the log before it, in any order inside the batch; rotations during replay separate no deletion from an older
live version (`SafeRotations`), or no newer version from an older one (`CleanRotations`), where a theorem says so;
replicas write block headers in full.

`dafny verify dfyconfig.toml` checks the whole project.

## Model

| member | source | states |
|---|---|---|
| Bytes.BigEndianOrder | rangepartition/y/y.go:33-46 | big-endian integers of one width compare as byte strings exactly as the integers do |
| Bytes.UvarintRoundTrip | rangepartition/y/iterator.go:63-80 | every 64-bit varint reads back, whatever bytes follow it |
| Keys.LessTotal | rangepartition/y/y.go:40-45 | CompareKeys is a total order whose equality is equality of internal keys |
| Keys.LessTransitive | rangepartition/y/y.go:40-45 | the key order is transitive |
| Keys.KeyOrder | rangepartition/y/y.go:33-45 | internal keys order by user key ascending, then by timestamp descending |
| Keys.TimestampRoundTrip | rangepartition/y/y.go:33-76 | ParseTs gives back the timestamp of a built key if and only if the user key is not empty or the timestamp is zero |
| Keys.KeyRebuild | rangepartition/y/y.go:33-76 | every key longer than eight bytes is KeyWithTs of its own parts |
| Keys.SameKeyIffSameUser | rangepartition/y/y.go:63-69 | SameKey holds exactly when the user keys are equal |
| Keys.LessByParts | rangepartition/y/y.go:40-76 | the order in terms of parsed user key and timestamp, both directions |
| Values.ValueRoundTrip | rangepartition/y/iterator.go:50-80 | a stored value decodes to itself and has the size EncodedSize says |
| Values.Encode | rangepartition/y/iterator.go:72-80 | encoding writes exactly the encoded bytes at its place and touches no other byte |
| Runs.LookupNewest | rangepartition/skiplist/skl.go:376-391 | a point lookup at version v finds the version with the greatest timestamp not above v, or there is none |
| Runs.PutHolds | rangepartition/skiplist/skl.go:284-346 | after a put exactly the old entries under other keys and the new entry are held |
| Runs.PutSorted | rangepartition/skiplist/skl.go:284-346 | a put keeps a run strictly sorted |
| SkiplistShape.SearchStepSound | rangepartition/skiplist/skl.go:186-252 | one step of findNear in a well-formed skiplist keeps the search on track, and an answer is the right node in all four modes |
| SkiplistShape.ConcurrentSearch | rangepartition/skiplist/skl.go:186-252 | a search whose reads fall anywhere in a list that grows and is well formed at every moment answers correctly for the contents at some moment of the search |
| SkiplistWriters.WriterStepOneStore | rangepartition/skiplist/skl.go:302-346 | a step of the writer changes at most one word of what readers see, or adds a node that nothing points to |
| SkiplistWriters.WriterStepSound | rangepartition/skiplist/skl.go:302-346 | every step of the writer from a well-formed list on its way leaves a well-formed list that lost nothing; the contents change by exactly the put, in the base link or the value store, and the writer gets nearer to its end |
| SkiplistWriters.PutWithSearch | rangepartition/skiplist/skl.go:186-346 | a put and a search that take turns in any way, one memory access at a time, never follow a bad pointer; the list shows the old or the new contents at every moment, and the answer is right for one of the moments of the search |
| SkiplistWriters.LinkShape | rangepartition/skiplist/skl.go:320-334 | linking a node into one level keeps every level a sorted sublist of the level below; the contents change at the base level only, and there by exactly one put |
| Skiplists.Skiplist.constructor | rangepartition/skiplist/skl.go:127-136 | a new skiplist is well formed and empty and has used a known number of arena bytes |
| Skiplists.Skiplist.PutNode | rangepartition/skiplist/arena.go:64-82 | a node gets aligned space inside the bytes that were reserved for it |
| Skiplists.Skiplist.FindNear | rangepartition/skiplist/skl.go:186-252 | the search ends and returns the nearest node in the requested mode |
| Skiplists.Skiplist.FindSpliceForLevel | rangepartition/skiplist/skl.go:258-277 | the neighbours of the key on a level, or the node that has the key |
| Skiplists.Skiplist.FindSplices | rangepartition/skiplist/skl.go:284-300 | neighbours on every level from the top down, or a level on which the key itself is found |
| Skiplists.Skiplist.FindLast | rangepartition/skiplist/skl.go:355-371 | the last node of the base level, none exactly when the list is empty |
| Skiplists.Skiplist.Get | rangepartition/skiplist/skl.go:376-391 | Get is the lookup in the sorted contents |
| Skiplists.Skiplist.Collect | rangepartition/skiplist/skl.go:431-457 | iterating from the first node visits the contents in order |
| Skiplists.Skiplist.Put | rangepartition/skiplist/skl.go:284-346 | for every tower height the contents become the put of the old contents; the arena grows by the stated amount; every step on the way makes at most one store and leaves a well-formed skiplist showing the old or the new contents |
| Skiplists.Skiplist.Write | rangepartition/skiplist/skl.go:302-346 | the writer's steps, from any start, end and perform the put |
| Skiplists.Skiplist.Step | rangepartition/skiplist/skl.go:302-346 | one call makes exactly one step of the writer |
| Skiplists.Skiplist.Overwrite | rangepartition/skiplist/skl.go:147-151 | replacing a value in place is a put |
| Skiplists.Skiplist.Insert | rangepartition/skiplist/skl.go:302-346 | linking a new node from the base level up is a put |
| Merges.MergeMembers | rangepartition/table/merge_iterator.go:99-132 | a two-way merge is strictly ordered and holds all of the left and what of the right has other keys |
| Merges.MergeDrop | rangepartition/table/merge_iterator.go:177-182 | seeking both sides and merging is merging and seeking |
| Merges.JoinMerges | rangepartition/table/merge_iterator.go:210-232 | merging two merges is a merge of all inputs, leftmost input first |
| SkiplistIterators.SkipIterator.Next | rangepartition/skiplist/skl.go:431-434 | to the following entry, nowhere after the last |
| SkiplistIterators.SkipIterator.Prev | rangepartition/skiplist/skl.go:437-440 | to the entry before, which findNear finds from the key alone, nowhere before the first |
| SkiplistIterators.SkipIterator.Seek | rangepartition/skiplist/skl.go:443-445 | to the first entry not below the target, nowhere when there is none |
| SkiplistIterators.SkipIterator.SeekForPrev | rangepartition/skiplist/skl.go:448-450 | to the last entry not above the target, nowhere when there is none |
| SkiplistIterators.SkipIterator.SeekToFirst | rangepartition/skiplist/skl.go:454-456 | to the first entry, nowhere in an empty list |
| SkiplistIterators.SkipIterator.SeekToLast | rangepartition/skiplist/skl.go:460-462 | to the last entry, nowhere in an empty list |
| SkiplistIterators.SkipIterator.Rewind | rangepartition/skiplist/skl.go:490-496 | everything is to come, in the direction of the iterator |
| SkiplistIterators.SkipIterator.UniSeek | rangepartition/skiplist/skl.go:499-505 | what is to come is everything not before the key in the direction of the iterator |
| SkiplistIterators.SkipIterator.UniNext | rangepartition/skiplist/skl.go:481-487 | drops exactly one entry from what is to come |
| SkiplistIterators.SkipIterator.Head | rangepartition/skiplist/skl.go:508-514 | key and value are those of the first entry that is to come |
| MergeIterators.Iter.Leaf | rangepartition/table/merge_iterator.go:49-97 | the contract of an input of the tree: an iterator over one ordered run, which the skiplist and the table iterator meet |
| MergeIterators.Iter.Merge2 | rangepartition/table/merge_iterator.go:216-224 | a node over two separate iterators stands for their merge |
| MergeIterators.Iter.Fix | rangepartition/table/merge_iterator.go:99-151 | equal keys are skipped on the right and the smaller side is chosen, without changing what is still to come |
| MergeIterators.Iter.Valid | rangepartition/table/merge_iterator.go:185-187 | valid exactly while something is still to come |
| MergeIterators.Iter.Key | rangepartition/table/merge_iterator.go:190-192 | the key of the next entry, though cached keys are returned |
| MergeIterators.Iter.Value | rangepartition/table/merge_iterator.go:195-197 | the value of the next entry, from the leftmost input that holds its key |
| MergeIterators.Iter.Next | rangepartition/table/merge_iterator.go:153-167 | Next drops exactly one entry from what is still to come, in trees of any height |
| MergeIterators.Iter.Rewind | rangepartition/table/merge_iterator.go:169-175 | from any state, everything is to come again |
| MergeIterators.Iter.Seek | rangepartition/table/merge_iterator.go:177-182 | from any state, what is to come is everything not before the key in the direction of iteration |
| MergeIterators.Iter.Collect | rangepartition/table/merge_iterator.go:153-198 | Rewind followed by Next until invalid yields the whole merge |
| MergeIterators.NewMergeIterator | rangepartition/table/merge_iterator.go:210-232 | the tree over any number of iterators is the ordered union of their keys without duplicates, each entry from the leftmost input that has the key |
| TableBlocks.CellReads | rangepartition/table/iterator.go:94-112 | a stored entry reads back against the base key if and only if its own part of the key is at most 65531 bytes |
| TableBlocks.BaseKeyReads | rangepartition/table/iterator.go:82-87 | the base key of a block reads back if and only if it is at most 65531 bytes |
| TableBlocks.CellAt | rangepartition/table/iterator.go:88-98 | between its offset and the next one, or the end of the entries, lies exactly entry i |
| TableBlocks.RawMetaReads | rangepartition/table/builder.go:253-257 | the size in a block's metadata reads back |
| TableBlocks.BlockParts | rangepartition/table/iterator.go:63-69 | count, offsets and entries are cut out of a finished block as they were put in |
| TableBlocks.BlockIterator.SetBlock | rangepartition/table/iterator.go:55-70 | loading a finished block establishes the invariant on the shared key buffer |
| TableBlocks.BlockIterator.SetIdx | rangepartition/table/iterator.go:73-113 | after any history of calls, entry i's key and value are reconstructed exactly, and the end of the block is recognised |
| TableBlocks.BlockIterator.Seek | rangepartition/table/iterator.go:131-151 | the binary search ends on the first entry from the start index on that is not below the key |
| TableBuilders.KeyDiff | rangepartition/table/builder.go:154-162 | the rest of the key after the longest common prefix with the base key |
| TableBuilders.AddBounded | rangepartition/table/builder.go:277-287 | adding without closing keeps a block with several entries at or below 65540 bytes and 1001 entries |
| TableBuilders.OverExactly | rangepartition/table/builder.go:277-287 | an added entry takes the block over 64 KB if and only if the estimate, less the prefix shared with the base key, is within four bytes of the limit |
| TableBuilders.FourBytesOver | rangepartition/table/builder.go:277-287 | two sorted entries that make a block of 65540 bytes |
| TableBuilders.Builder.MakeRoom | rangepartition/table/builder.go:168-174 | growing keeps what was written, leaves room for the new bytes and stays sector-aligned |
| TableBuilders.Builder.Append | rangepartition/table/builder.go:177-192 | the bytes go behind what the block already holds |
| TableBuilders.Builder.AppendValue | rangepartition/table/builder.go:221-224 | the encoded value goes behind what the block already holds |
| TableBuilders.Builder.AddHelper | rangepartition/table/builder.go:194-229 | the current block holds one more entry and stays readable as its run |
| TableBuilders.Builder.FinishBlock | rangepartition/table/builder.go:248-265 | the finished block holds the current run, passes the checks of the extent, and is indexed by its first key |
| TableBuilders.Builder.Add | rangepartition/table/builder.go:290-302 | the entry goes to the current block, or to a new one exactly when the size or count limit is passed |
| TableBuilders.HandleFlushTask | rangepartition/range_rangepartition.go:270-301 | an empty memtable builds nothing, and any other becomes a table of exactly its contents |
| TableBuilders.BuildTable | rangepartition/range_rangepartition.go:285-300 | adding a sorted run of entries makes a table whose blocks hold exactly these entries in order and can be read back |
| TableIterators.SliceBound | rangepartition/table/iterator.go:245-283 | what a search in one block says about the place of the key in the whole table |
| TableIterators.TableIterator.constructor | rangepartition/table/table.go:145-150 | a new iterator stands on the first entry |
| TableIterators.TableIterator.SeekToFirst | rangepartition/table/iterator.go:198-213 | stands on the first entry, or is invalid for an empty table |
| TableIterators.TableIterator.SeekToLast | rangepartition/table/iterator.go:215-230 | stands on the last entry, or is invalid for an empty table |
| TableIterators.TableIterator.SearchIndex | rangepartition/table/iterator.go:254-257 | the first block whose first key is above the key |
| TableIterators.TableIterator.SeekHelper | rangepartition/table/iterator.go:232-242 | stands on the first entry of one block that is not below the key, or at its end |
| TableIterators.TableIterator.SeekFrom | rangepartition/table/iterator.go:245-283 | lands on the smallest key at or above the target in the whole table, invalid exactly when there is none |
| TableIterators.TableIterator.NextEntry | rangepartition/table/iterator.go:299-326 | moves to the following entry across blocks, invalid exactly after the last |
| TableIterators.TableIterator.PrevEntry | rangepartition/table/iterator.go:328-354 | moves to the entry before across blocks, invalid exactly before the first |
| TableIterators.TableIterator.SeekForPrev | rangepartition/table/iterator.go:291-297 | lands on the greatest key at or below the target, although it compares with a stale key at the end of the table |
| TableIterators.TableIterator.Current | rangepartition/table/iterator.go:358-366 | the key and value slices are those of the entry the iterator stands on |
| TableIterators.TableIterator.Rewind | rangepartition/table/iterator.go:386-392 | everything is to come, in the direction of the iterator |
| TableIterators.TableIterator.Seek | rangepartition/table/iterator.go:395-401 | what is to come is everything not before the key in the direction of the iterator |
| TableIterators.TableIterator.Next | rangepartition/table/iterator.go:377-383 | drops exactly one entry from what is to come |
| TableIterators.GetFromTable | rangepartition/range_rangepartition.go:869-882 | seek and compare user keys is the point lookup in the table's entries |
| Versions.CoversAbsorb | rangepartition/range_rangepartition.go:350-392 | a table flushed from a stretch of the log moves the recovery point past that stretch without changing what is shown |
| Versions.CoversFromEarlier | rangepartition/range_rangepartition.go:177-188 | replaying from an earlier safe point than needed shows the same |
| Versions.CoversCompact | rangepartition/compaction.go:71-115 | replacing the tables by the survivors of compaction keeps a safe recovery point valid |
| Versions.SafeEverywhere | streamclient/mix_block.go:65-67 | every position of a log is safe if and only if no deletion lies ahead of an older live version of its key |
| Versions.CompactExact | rangepartition/compaction.go:71-115 | compacting the log before a position and keeping the rest shows the same if and only if no deletion before it hides the newest version behind it |
| Versions.CompactExactFrom | rangepartition/compaction.go:71-115 | the same, with the condition taken at an earlier position, when the log is kept from there on |
| PartitionOrder.RunOrder | rangepartition/range_rangepartition.go:87-392 | in every state of every run, tasks, immutable memtables and tables are in order and compaction outputs carry the recovery point of their inputs |
| PartitionOrder.PipelineOrder | rangepartition/range_rangepartition.go:350-392 | in every run, the flush tasks that are queued or in hand are the immutable memtables in order, so the flusher always pops the memtable it has built |
| PartitionOrder.CompactionKeepsRecoveryPoint | rangepartition/compaction.go:34-115 | in every run, the newest table and its log position are the same after the inputs are removed |
| PartitionProof.RunInv | rangepartition/range_rangepartition.go:87-392 | the invariant holds in every state of every run with safe, or with clean, rotations during replay, whatever the order inside batches and of writes, rotations while serving, flusher steps, compaction steps, crashes and replay |
| Unclean.CompactedAfterReplay | rangepartition/range_rangepartition.go:138-240 | any run without published tables goes on to a crash, a replay rotated at c and p and a compaction; then what is stored shows what the log shows if and only if no deletion before p hides the newest version behind p, and so does what would be recovered, counted from the block at p, unless nothing survived |
| Unclean.DeletedKeyReturns | rangepartition/range_rangepartition.go:138-240 | for every batch and every such deletion, a run after which the deleted version is shown; its rotations are not safe |
| PartitionProof.Durability | rangepartition/range_rangepartition.go:124-188 | in every state of every run with safe rotations, the published tables and the log from the recovery point on show exactly what the whole log shows, and every acknowledged version is in the log |
| PartitionProof.AckedSurvives | rangepartition/range_rangepartition.go:507-560 | in every state of every run with safe rotations, a version that was acknowledged is recoverable unless it is a tombstone or was overwritten |
| PartitionProof.AckedExactly | rangepartition/range_rangepartition.go:507-560 | in every run, a version is acknowledged exactly when a logged batch that holds it has been applied, and it stays so |
| PartitionProof.WriteSucceeds | rangepartition/range_rangepartition.go:507-560 | any batch that may be logged while serving can be logged and applied, and then all of it is acknowledged |
| Shutdown.FlushEverything | rangepartition/range_rangepartition.go:887-935 | a forced rotation, or closing, followed by the flusher leaves no memtable, and the tables alone show what the log shows; if the last memtable held anything, they are published and say to replay from behind the last batch applied while serving |
| PartitionProof.ServingShowsLog | rangepartition/range_rangepartition.go:325-392 | in every serving state of every run with safe rotations, memtables and tables together show exactly what the applied log shows, also in the middle of a flush or a compaction |
| PartitionProof.CompactionPreserves | rangepartition/range_rangepartition.go:203-240 | in every run with safe rotations, removing the inputs of a compaction changes neither what is shown nor what would be recovered |
| PartitionProof.OrderlyIsSafe | rangepartition/range_rangepartition.go:138-175 | if no batch logs a deletion ahead of an older live version of its key, all rotations of the run are safe, wherever they fall |
| PartitionProof.PartialAppend | streamclient/streamclient.go:444-467 | an append that stops after any part of a batch and takes the process down leaves a run: everything acknowledged is still logged, and what would be recovered shows what the log with that part shows |
| Reads.OutOfRange | rangepartition/range_rangepartition.go:752-776 | a table whose key range leaves out the user key has no version of it |
| Reads.TablesForKey | rangepartition/range_rangepartition.go:752-776 | every table with a version of the key is returned, newest first |
| Reads.FirstHit | rangepartition/range_rangepartition.go:837-858 | in layered memtables the first hit is the answer over all memtables and tables |
| Reads.SearchTables | rangepartition/range_rangepartition.go:859-885 | the maximum over the filtered tables is the answer over all tables |
| Reads.SearchRight | rangepartition/range_rangepartition.go:837-885 | in layered memtables and tables the search returns the version with the greatest timestamp not above the one asked for |
| Reads.GetValueStruct | rangepartition/range_rangepartition.go:837-885 | the result is the first memtable hit or else the greatest version in the tables, and in layered memtables the greatest version over everything stored |
| Reads.Get | rangepartition/range_rangepartition.go:809-834 | Get returns that version, and not found exactly when there is none or it is a tombstone |
| Reads.AnswerShows | rangepartition/range_rangepartition.go:809-834 | reading at a version that covers everything returns exactly the entry that is shown |
| Recovery.ServingLayered | rangepartition/range_rangepartition.go:325-346 | in every serving state of every run with clean rotations, the memtables are layered and everything is sorted, as the search of Get needs |
| Recovery.ReadsShowLog | rangepartition/range_rangepartition.go:809-885 | in every serving state of every run with safe rotations, the newest stored version up to a timestamp that covers the log is what the applied log shows |
| Recovery.ReplayRestores | rangepartition/range_rangepartition.go:124-188 | in runs with safe rotations, when a replay after a crash has reached the end of the log, memtables and tables together hold exactly the published tables and the log from the recovery point on, whatever was rotated and flushed meanwhile |
| Replay.ReplayReadsRight | rangepartition/range_rangepartition.go:138-175 | after a replay with any rotations and flushes, behind any earlier tables, reads of every key and version are right if and only if, at each rotation, a version in the tables or replayed before that is newer than one behind is replayed behind as well |
| Replay.CleanOverLog | rangepartition/range_rangepartition.go:138-175 | without earlier tables, that is a rotation which separates no newer version from an older one |
| Replay.UncleanMisreads | rangepartition/range_rangepartition.go:138-175 | for any other rotation, a stored version that is passed over for an older one |
| Replay.CounterReaches | rangepartition/range_rangepartition.go:146-157 | for every list of entries and rotations, the counter reaches m if and only if there are growing positions of which the k-th is a rotation or an entry newer than c + k, up to m |
| Replay.RecoveredCounter | rangepartition/range_rangepartition.go:146-157 | the counter covers every version if and only if there is such a ladder for each of them |
| Replay.CounterInOrder | rangepartition/range_rangepartition.go:146-148 | without rotations and with distinct timestamps above the start, it covers them if and only if they are logged in order without a gap |
| Replay.ReplayCounts | rangepartition/range_rangepartition.go:138-175 | in every run, the counter during replay is that of the events so far, each entry counting before the rotations that make room for it |
| Replay.ReplaySees | rangepartition/range_rangepartition.go:138-175 | in every run, these events hold the timestamps of the replayed stretch of the log, each once and in log order |
| Replay.ReplayAfterCrash | rangepartition/range_rangepartition.go:124-188 | after a crash the counter starts from the newest published table and takes note of the log from the position that table names |
| Replay.CounterCovers | rangepartition/range_rangepartition.go:939-1001 | once the counter covers the log, which it does from the start, it does so until the next crash |
| Replay.LatestRead | rangepartition/range_rangepartition.go:842-846 | a read of the latest version finds the newest one if and only if the counter covers it, and otherwise the newest covered one, or nothing when none is |
| RunReads.LatestShowsLog | rangepartition/range_rangepartition.go:809-885 | in runs with safe rotations, while the counter covers the log, the newest stored version up to the counter is what the applied log shows |
| RunReads.TwoLocks | rangepartition/range_rangepartition.go:837-885 | in runs with clean rotations, memtables taken at one moment and tables at a later one give, at a version that covers the log, what the applied log showed at some moment in between |
| RunReads.TwoLocksAnyVersion | rangepartition/range_rangepartition.go:837-885 | and at any version, such as the counter at some moment in between, what is stored at one of these moments answers, as long as no compaction ends meanwhile |
| RunReads.ScanMerge | rangepartition/range_rangepartition.go:730-750 | in every serving state of every run with safe rotations whose counter covers the log, the merge of memtables and tables that a scan walks holds exactly what is stored |
| RunReads.RangeFindsWhatGetFinds | rangepartition/range_rangepartition.go:778-834 | in such a state this holds of what is stored, for every limit, and a key is live exactly when Get finds it, whenever the layers are in order |
| Room.PointerRoundTrip | rangepartition/range_rangepartition.go:1028-1042 | a value pointer decodes to itself |
| Room.LsmValueReads | rangepartition/range_rangepartition.go:566-592 | the stored value tells pointer from value, where the pointer leads, the delete bit, the user meta and the expiry |
| Room.GrowthWithinEstimate | rangepartition/range_rangepartition.go:433-445 | the arena growth of any put of a log entry is below the estimate |
| Room.GrowthWithinEstimateVS | rangepartition/range_rangepartition.go:447-458 | the estimate for stored values is an upper bound if and only if the value is short or no longer than a pointer |
| Room.BatchCount | rangepartition/range_rangepartition.go:594-611 | a list of single-entry requests that is not too big has at most 192 entries |
| Room.TooBigExactly | rangepartition/range_rangepartition.go:594-611 | requests are too big together exactly when their bytes sum to over 30 MB or their entries to over 192 |
| Room.BatchFits | rangepartition/range_rangepartition.go:594-686 | such a list and one more request fit an empty memtable when keys are at most 4301 bytes |
| Room.Memtables.EnsureRoomForWrite | rangepartition/range_rangepartition.go:688-728 | success without a rotation means room for the whole batch, and with one exactly if the batch fits an empty memtable; a rotation queues the old memtable; failure changes nothing but the counter |
| Room.Memtables.WriteToLSM | rangepartition/range_rangepartition.go:566-592 | with the room reserved, afterwards the memtable holds what it held under keys the batch does not mention, and for each key of the batch what its last entry stores; no arena bound is hit |
| Scans.KeepMembers | rangepartition/compaction.go:71-115 | walking a sorted run and skipping older versions keeps exactly the shown entries |
| Scans.Range | rangepartition/range_rangepartition.go:778-806 | Range returns at most `limit` keys, in ascending order, all of them live and in range; if any such key is missing, the limit is reached and the key lies above all that are returned |
| Scans.RangeIsLiveScan | rangepartition/range_rangepartition.go:778-806 | when the start is not before the prefix, the scan lists in ascending order exactly the shown user keys at or above the start with the prefix |
| Scans.RangeExact | rangepartition/range_rangepartition.go:778-806 | it does so over every store if and only if the start is not before the prefix, one degenerate case apart |
| Scans.StartTooEarly | rangepartition/range_rangepartition.go:778-806 | for every other start and prefix, a store over which the scan is wrong |
| Scans.Consider | rangepartition/compaction.go:80-106 | one version is skipped, dropped or put, or the memtable is full at the first version of a key |
| Scans.FillChunk | rangepartition/compaction.go:76-106 | one pass takes a leading part of the survivors and makes progress |
| Scans.DoCompact | rangepartition/compaction.go:58-115 | the chunks together are exactly the kept versions, with nothing lost or repeated at a break, and the loop ends |
| Scans.MergeOfRuns | rangepartition/compaction.go:48-57 | the merge of inputs that agree on equal keys holds exactly the versions of all inputs |
| Scans.CompactionChunks | rangepartition/compaction.go:34-115 | the chunks hold exactly the survivors of the input tables |
| Extents.HeaderFields | extent/extent.go:430-475 | every field of a block header reads back, with and without user data |
| Extents.FrameReads | extent/extent.go:568-617 | a written block reads back wherever it lies in the file |
| Extents.CutFails | extent/extent.go:568-617 | a block that was cut off anywhere does not read |
| Extents.DataChecked | extent/extent.go:568-624 | behind a written header, data of the right length reads exactly when its checksum is the one in the header |
| Extents.ChangedByteFails | extent/extent.go:568-624 | a block of which any one byte has changed does not read |
| Extents.HeaderIdReads | extent/extent.go:101-126 | the file header gives the identifier back |
| Extents.RecoverCut | extent/extent.go:191-227 | recovering a file that was cut at any byte keeps exactly the blocks wholly before the cut |
| Extents.RecoverTwice | extent/extent.go:191-227 | recovering the recovered file changes nothing, whatever the file was |
| ExtentOps.SuccessfulAppend | extent/extent.go:412-428 | after an append that succeeds, the file is whole blocks, and as long as recorded, if and only if every header was written in full |
| ExtentOps.FailedAppend | extent/extent.go:408-416 | an append that fails behind full headers leaves exactly the whole blocks before the failing one |
| ExtentOps.FailedAppendExact | extent/extent.go:408-416 | behind a short header, cutting or extending to the recorded length leaves whole blocks if and only if the data repeats the lost header bytes and what was written after it continues the pattern into the frames of the later blocks |
| ExtentOps.ShortHeaderUnseen | extent/extent.go:408-416 | when nothing was written after the data, this happens if and only if the data and the lost header bytes are all zeros |
| ExtentOps.OffsetsReadBack | extent/extent.go:412-428 | the offsets before the first short header read back, whatever follows |
| ExtentOps.Extent.Create | extent/extent.go:128-147 | a new extent is a header and no blocks |
| ExtentOps.Extent.WriteBlock | extent/extent.go:430-475 | reports exactly a bad block or a failed data write, not a short header; the file grows by what was written |
| ExtentOps.Extent.AppendBlocks | extent/extent.go:390-428 | what file, recorded length and result are for every outcome of the writes; whole blocks and old bytes are kept behind full headers, on success exactly then; a wrong commit length or a seal refuses |
| ExtentOps.Extent.Seal | extent/extent.go:259-277 | sealing cuts the file at the given length or fails beyond it, and no append succeeds afterwards |
| ExtentOps.Extent.ReadBlocks | extent/extent.go:344-384 | the blocks from an offset up to the count and size limits, and how the read ended |
| ExtentOps.ReadsAppended | extent/extent.go:344-384 | reading at a returned offset gives the appended blocks back in order |
| ExtentOps.ReadsExactly | extent/extent.go:344-395 | a read of a well-formed extent returns as many blocks as were asked for, unless the blocks before the last exceed the byte limit or the extent ends, and only the end gives another code |
| ExtentOps.Recover | extent/extent.go:191-227 | a file without the magic number is refused; otherwise the file is truncated at the first block that does not read, and that length is recorded |
| ExtentOps.CrashRecovery | extent/extent.go:191-227 | for every cut that keeps the header, the recovered file is the header and exactly the blocks wholly before the cut |
| Replication.CrashIsRecovery | extent/extent.go:191-227 | a crash step leaves the replica with exactly the file that reopening any surviving prefix with the synced blocks gives, and the others alone |
| Replication.WriteIsAppend | node/node_service.go:55-72 | a write step appends the frames of the blocks it got to when the file has the length the request names, and changes nothing otherwise |
| Replication.RunInv | node/node_service.go:55-166 | the invariant holds in every run, with requests lost, repeated or late, failing writes and crashes of any replica |
| Replication.AckedEverywhere | node/node_service.go:87-166 | in every reachable state the blocks of an acknowledged append are byte for byte at its offset on all three replicas and read back there |
| Replication.AckedExactly | node/node_service.go:87-166 | in every run, an append is acknowledged exactly when it was in flight and all three replicas had reported it, and it stays so |
| Replication.AppendSucceeds | node/node_service.go:87-166 | from any moment with replicas of one length, once an append in flight is given up, any proper blocks can be written by all three, which report the offsets behind the old length, and be acknowledged |
| Replication.OffsetsAgree | node/node_service.go:150-161 | replicas that succeed report equal offsets |
| Replication.AckedInOrder | node/node_service.go:100-124 | acknowledged appends occupy disjoint stretches in the order of the appends |
| Replication.FoldResults | node/node_service.go:150-165 | an append is acknowledged exactly when no result failed and each repeats the offsets of every earlier one that has any; a refusal without an error means that two results differ |
| Replication.WrittenIsAcked | node/node_service.go:150-165 | results of replicas that have written an append never differ, in whatever order they arrive |
| Wire.EntryRoundTrip | proto/pb/pb.pb.go:2898-2933 | a marshalled entry unmarshals to itself, default fields left out |
| Wire.EntrySize | proto/pb/pb.pb.go:4398-4421 | Size is the length of the marshalled entry |
| Wire.MixedRoundTrip | proto/pspb/pspb.pb.go:2677-2701 | a marshalled offset list unmarshals to itself |
| LogBlocks.MixedBlockProper | streamclient/mix_block.go:41-53 | a packed block always passes writeBlock: the offsets of 100 entries fit the header |
| LogBlocks.MixedBlockReplays | extent/extent.go:518-566 | replaying a packed block returns its entries in order, and so does extracting them |
| LogBlocks.ValueBlockProper | streamclient/mix_block.go:95-111 | a block made for one entry always passes writeBlock |
| LogBlocks.ValueBlockReads | extent/extent.go:477-566 | a value block gives its whole entry back by pointer; in replay it gives key, user meta, expiry and delete bit, and the pointer bit for the value |
| LogPack.MixedBlock.Fill | streamclient/mix_block.go:33-39 | the entry lies behind the earlier ones and its offset is recorded |
| LogPack.MixedBlock.ToBlock | streamclient/mix_block.go:41-53 | the block of exactly the entries that were filled in |
| LogPack.PackSmall | streamclient/mix_block.go:69-90 | small entries are packed greedily in order; a group is closed only when the next entry does not fit |
| LogPack.PackValues | streamclient/mix_block.go:95-111 | one block for each other entry |
| LogPack.SortByValue | streamclient/mix_block.go:64-67 | a permutation ordered by value length |
| LogPack.EntriesToBlocks | streamclient/mix_block.go:60-113 | packing the sorted batch succeeds if and only if each entry of the small run fits a block, that is each small entry of the batch when none has a pointer bit; the blocks are the packed groups followed by one block for each other entry |
| LogPack.SortedSplit | streamclient/mix_block.go:64-79 | without pointer bits, sorting puts exactly the large values behind the small run |
| LogPack.EntriesOfFrames | extent/extent.go:302-342 | reading entries from a file of framed blocks is replaying the blocks |
| LogPack.ReplayPacked | extent/extent.go:477-566 | replaying the blocks of a batch gives its entries in order, each with its key and marks and with the offset of its block |
| LogReplay.AppendEntries | streamclient/streamclient.go:412-428 | each entry of the sorted batch with its own block learns the offset of that block, and the tail is the end of the batch |
| LogReplay.ReplayStoresSame | rangepartition/range_rangepartition.go:566-592 | writing a replayed entry stores the same value as writing the original, up to the length in a pointer |
| LogReplay.BatchReplays | extent/extent.go:302-342 | replaying a batch yields as many entries, in order, each with the key, user meta, expiry and delete bit of its original and storing what the write stored |
| LogReplay.BatchRestored | rangepartition/range_rangepartition.go:138-175 | writing a batch and replaying it into memtables that agree leaves memtables that agree: the same keys, with the same values up to the length in a pointer |
| LogReplay.BatchReadsBack | rangepartition/range_rangepartition.go:819-833 | Get returns the written value from the entry as written and from the entry as replayed, whatever else the log holds |
| LogReplay.LogReplays | extent/extent.go:302-342 | replaying a log of any number of batches yields their entries in order, each with its key and marks, and replaying from the block of any entry yields everything from the first entry of that block on |
| LogReplay.StartsInBatch | extent/extent.go:302-342 | no block holds entries of two batches, so that first entry lies in the batch of the entry |
| LogReplay.ReadEntries | extent/extent.go:302-342 | however much one call reads, what it returns and what lies after its end are together all entries; the end is reported exactly when it is reached |

## Left out

- gRPC, etcd, leader election, connection pools, heartbeats, command-line tools: plumbing around libraries.
- The stream manager's sealing protocol and the node's Seal and CommitLength handlers; streams of more than one extent.
- Log garbage collection, discard statistics and blob streams, which are unfinished; stream truncation and table reference counts, which are stubs.
- The Bloom filter and the farm hash: `Reads.GetValueStruct` takes any filter without false negatives.
- Unknown fields in protobuf messages are an error in the model; the generated readers skip them.
- The table's metadata block (index, filter, recovery point) and its encoding: a table is its data blocks and its index of first keys.
- The writer goroutine of the table builder, which appends finished blocks to the stream in order, and errors of the stream while a table is read.
- Several writers of one skiplist: the code writes from one goroutine. The node's 16-bit key length is not modelled; keys are assumed shorter.
- ConcatIterator, and the reuse of one key buffer by successive calls of an iterator: keys are returned as values.
- Liveness of compaction against the flusher; minor compaction; expiry times other than zero.
- Several batches written at a time: in the state machine a batch is applied to the memtable in one step. Readers during a put are treated in `SkiplistWriters.PutWithSearch`.
- A log append that times out and is repeated on a new extent, which can log part of a batch twice. Any other failure ends the process, and is covered by `PartitionProof.PartialAppend`; what it leaves in an extent is stated by `ExtentOps.Extent.AppendBlocks`.
- Gets that run during replay, which the code does not serve.
- The `len` field of a value pointer after replay, which is zero; nothing reads it.
- ReadEntries for garbage collection, which returns one placeholder a block.
- Replication.AckedEverywhere: block headers are taken to be written in full on every replica; a short header write that goes unreported is treated in `ExtentOps.SuccessfulAppend`, which shows that the extent then no longer consists of whole blocks.
- PartitionProof.AckedSurvives: a tombstone may be gone after compaction, since compaction drops it together with everything it hides; `PartitionProof.Durability` states what is shown.
