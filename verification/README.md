# VaultKV: a verified model

VaultKV is an LSM-tree key-value store: writes go to a write-ahead log and a skip-list memtable, a full
memtable is flushed to an SSTable file, and a background engine merges SSTables tier by tier. Every part
has one abstract meaning, a finite map from byte strings to a value or a tombstone (`Tables.dfy`). This
project models the parts in the form the Go code has (classes with updated fields, loops over offsets,
in-place splicing), proves each against that meaning, and then proves what the whole store promises.

| file | what it holds |
|---|---|
| `ByteStrings.dfy`, `Tables.dfy` | key order, little-endian fields, tables and sorted entry lists |
| `Wal.dfy`, `WalRecovery.dfy` | the log: record format, `Append`, `Replay`; crash cuts and arbitrary bytes |
| `Murmur.dfy`, `Bloom.dfy` | MurmurHash3 on 32-bit words and its bijections; the Bloom filter |
| `SkipList.dfy`, `MemTable.dfy` | the 12-level linked list on the heap; its levels, iterator, byte accounting, flush |
| `SSTableWriter.dfy`, `SSTableReader.dfy`, `SSTableRoundTrip.dfy`, `TableSizes.dfy`, `TableFiles.dfy` | the file format as printer, parser, three-stage lookup, iterator; their agreement; how large a file can be; a directory of file bytes as tables |
| `Tiers.dfy`, `Merge.dfy`, `Compaction.dfy`, `CompactionSoundness.dfy` | size tiering, the heap merge, `RunOnce` over file bytes, and exactly when a compaction preserves reads |
| `Store.dfy`, `StoreInvariants.dfy`, `StoreReads.dfy`, `StoreCalls.dfy` | the store as a state machine over its goroutines' steps: refinement, recovery, linearizable reads, whole calls |
| `StoreRaces.dfy`, `Scenarios.dfy` | what the missing synchronization costs: exact conditions, and runs from an empty store |
| `Database.dfy`, `CrashRecovery.dfy` | `DB` as a class over the log's bytes, skip lists, engine and file bytes; its calls as steps of the state machine; from a cut log to the next `Open` |

What is false of the code, with the exact condition under which the claim holds and a run from an empty
store in which it fails:

- A compaction's output takes the newest id although tiers are cut by size. Reads are preserved if and only
  if each covered key shows the same in its newest and its newest selected version (`CompactionExact`); a
  newest suffix is always safe, any other selection is unsafe for some contents (`SuffixIsSound`,
  `OnlySuffixIsSound`). Five small writes, each flushed, make `RunOnce` select such a tier whatever way equal
  sizes are sorted (`FiveSizes`, `SmallTierChosen`), and an overwritten value is read again
  (`StaleValueReturns`).
- Two writes of one key can be logged in one order and applied in the other. A crash then preserves the
  read if and only if both show the same (`OverlappingWrites`, `CrashChangesRead`).
- A flush inside a reload loses its reader, a flush that took its id before a compaction did sorts as older,
  and a failed flush hides its writes until the next `Open`. Each changes exactly the reads that its lemma
  names (`FlushInsideReload`, `LateFlush`, `FailedFlush`; `ReloadLosesFlush`, `LateFlushHides`,
  `FailedFlushHides`).
- `Store.Guard` is what these rule out. Every run within it refines a plain map (`RefinesMap`).
- The README's log section says partial records are truncated cleanly. Appending after a replay gives old
  plus new, for everything one may append, if and only if the crash left neither part of a 13-byte header
  nor a bare header behind (`AppendAfterCutExact`); after a bare header `Open` fails (`CrashCut`). The
  limitations list says the log is truncated after a flush; no code does that, so the model replays the
  whole history.

Choices of the model: CRC-32 is an arbitrary function from bytes to 32 bits, so the results hold for any
checksum. `randomLevel` is any height from 1 to 12. `heap.Pop` returns a least item of a set under the
heap's order, `sort.Slice` a sorted permutation. `float64` arithmetic (filter sizing, tier ratio) is done in
`real`. A node's `forward` slice is a sequence field. The state machine holds each file as the entry list
its bytes stand for; `DB` and the engine hold the bytes, and their contracts say which states of the state
machine they go through (`TablesOf`, `DB.Abs`). A file beyond the format's 32-bit fields is printed, as the
source does, and the contracts say which bytes (`IsPrintOf`), but not that it reads back. It does whenever
the entries to be written, counted as twice their key and value bytes plus 31 for each, come to less than
512 MiB less 53 bytes (`PrintedBound`, `SmallPrintIsSound`): a table's own counters tell so before a flush,
and the tables of the selected files before a merge (`MergedWeight`, `AllSmallFit`).

## Model

| member | source | states |
|---|---|---|
| ByteStrings.LessExact | internal/memtable/skiplist.go:103 | the key order: at the first index where the keys differ the smaller byte decides, and a proper prefix is smaller |
| ByteStrings.LittleEndian32 | internal/wal/wal.go:123-126 | a 32-bit field holds its lowest byte first, read and written |
| WriteAheadLog.NewBuffer | internal/wal/wal.go:112-133 | for a record of any size: after the checksum field the buffer is exactly op, lengths, key and value, each cut to its 32-bit length field |
| WriteAheadLog.Wal.Append | internal/wal/wal.go:108-154 | for a record of any size: the file grows by exactly the encoding of what its length fields keep, which is all of it below 4 GiB |
| WriteAheadLog.Wal.ReadNext | internal/wal/wal.go:188-256 | reading a record with ReadFull, field by field, decides like the parser on the remaining bytes: end, torn header, unknown op, bare header, torn payload, bad checksum, or a record and its size |
| WriteAheadLog.Wal.Replay | internal/wal/wal.go:177-272 | on any file: delivers the records of the maximal scan, leaves the file as `Recovered` says, and errors exactly when the file ends just after a header; `CrashCut`, `DamageTruncated` and `AppendAfterTornHeader` say what that is |
| WriteAheadLog.Wal.TruncateAt | internal/wal/wal.go:276-284 | the file is its old prefix of that length |
| WalRecovery.ReadEncoded | internal/wal/wal.go:188-256 | parsing an encoded record gives it back, with its size, whatever follows |
| WalRecovery.ScanEncoded | internal/wal/wal.go:177-272 | a log is read back record by record and the bytes after it are scanned as if alone |
| WalRecovery.CrashCut | internal/wal/wal.go:188-264 | for every list of records and every cut: exactly the records wholly before the cut are delivered, why the scan stops, and the file ends as exactly their encoding if and only if the cut did not leave part of a header or a bare header |
| WalRecovery.AppendAfterCleanRecovery | internal/wal/wal.go:108-272 | where recovery restored a clean log, later appends and a replay give old plus new |
| WalRecovery.TornHeaderLosesProbe | internal/wal/wal.go:188-256 | after 1 to 13 bytes of any kind, one fixed record is never read back, for any checksum function |
| WalRecovery.AppendAfterCutExact | internal/wal/wal.go:108-272 | after any cut, all later appends are read back behind the surviving records if and only if the cut left neither part of a header nor a bare header |
| WalRecovery.AppendAfterTornHeader | internal/wal/wal.go:192-195 | after 1 to 4 torn bytes any record whose misread opcode byte is none is dropped by the following replay |
| WalRecovery.DamageTruncated | internal/wal/wal.go:207-247 | for every log followed by a complete record whose checksum does not match, and any bytes: exactly the records before it are delivered, the file ends as exactly their encoding, and everything appended afterwards is read back behind them |
| WalRecovery.KnownSet | internal/wal/wal.go:112-140 | the bytes of one set record, written out |
| WalRecovery.KnownDelete | internal/wal/wal.go:112-140 | the bytes of one delete record, written out |
| WalRecovery.ReadSound | internal/wal/wal.go:200-256 | an accepted record re-encodes to its own bytes unless it is a delete that carried a value |
| WalRecovery.ScanSound | internal/wal/wal.go:177-272 | on any bytes, re-encoding what is delivered gives the scanned prefix if and only if no delete carried a value; otherwise it is shorter by those bytes |
| WalRecovery.ScanMaximal | internal/wal/wal.go:177-272 | no valid log that starts the file is cut short |
| WalRecovery.ReplayTwice | internal/wal/wal.go:177-284 | a second replay delivers the same records and changes nothing more |
| Murmur.MurmurHash3 | internal/bloom/bloom.go:189-229 | the block loop and the tail switch compute the hash composed of block steps, tail step and finalizer |
| Murmur.KnownHashes | internal/bloom/bloom.go:183-244 | published MurmurHash3_x86_32 values for keys with tails of 0, 1, 2 and 3 bytes, under zero and non-zero seeds |
| Murmur.BlockBytes | internal/bloom/bloom.go:191-196 | byte i of a block's word is byte i of the block |
| Murmur.TailBytes | internal/bloom/bloom.go:206-222 | for 1 to 3 tail bytes, byte i of the tail word is byte i of the tail, zeros above |
| Murmur.ScrambleInverse | internal/bloom/bloom.go:196-199 | multiply, rotate, multiply is undone by its inverse for every word |
| Murmur.Fmix32Inverse | internal/bloom/bloom.go:238-244 | the finalizer is a bijection: shifts and odd multiplications are undone |
| Murmur.MixBlockInjective | internal/bloom/bloom.go:196-204 | a block step loses neither the state nor the block |
| Murmur.InjectiveInSeed | internal/bloom/bloom.go:189-229 | for every key, different seeds give different hashes |
| Murmur.NoCollisionInOneBlock | internal/bloom/bloom.go:189-229 | equal-length keys that differ only in one 4-byte block never collide |
| Murmur.NoCollisionInTail | internal/bloom/bloom.go:189-229 | equal-length keys that differ only in the tail never collide |
| BloomFilter.ThreeHashesDistinct | internal/bloom/bloom.go:34-45 | the three filter hashes of a key are pairwise distinct before reduction |
| BloomFilter.WithBitGets | internal/bloom/bloom.go:164-171 | setting a bit sets that bit and changes no other |
| BloomFilter.SetBit | internal/bloom/bloom.go:164-166 | the array in place becomes the old one with that bit set |
| BloomFilter.BitCount | internal/bloom/bloom.go:67-72 | the size is a multiple of 8, at least n times bitsPerKey and less than 8 above it |
| BloomFilter.Build | internal/bloom/bloom.go:62-93 | the filter of the keys in the computed size, the empty filter for no keys |
| BloomFilter.Query | internal/bloom/bloom.go:102-114 | on any filter: no, maybe, or a panic at the first position beyond the stored bits |
| BloomFilter.TestExact | internal/bloom/bloom.go:102-114 | on a filter with all its bits the answer is whether every position is set |
| BloomFilter.DecodeEncode | internal/bloom/bloom.go:123-148 | decoding an encoded filter restores bits, m and k |
| BloomFilter.BitsExact | internal/bloom/bloom.go:74-86 | a bit of the built array is set exactly when some key's MurmurHash3 under one of the three literal seeds, modulo the size, is that bit |
| BloomFilter.MayContainExact | internal/bloom/bloom.go:62-114 | a query passes exactly when each of its three hashes, under the literal seeds and modulo the size, was hit by some inserted key |
| BloomFilter.NoFalseNegatives | internal/bloom/bloom.go:62-148 | every inserted key passes on the decoded encoding of the built filter, for every positive size that is a multiple of 8 |
| BloomFilter.KnownFilter | internal/bloom/bloom.go:123-129 | the bytes of one stored filter, written out |
| BloomFilter.KnownBits | internal/bloom/bloom.go:164-166 | bit 0 of a byte is its lowest |
| SkipLists.SkipList.RandomLevel | internal/memtable/skiplist.go:83-89 | the height is between 1 and 12 |
| SkipLists.SkipList.WalkLevel | internal/memtable/skiplist.go:101-104 | walking one level ends at its last node before the key |
| SkipLists.SkipList.Search | internal/memtable/skiplist.go:97-107 | `update` holds, for every level in use, the last node before the key |
| SkipLists.SkipList.SpliceChained | internal/memtable/skiplist.go:131-135 | inserting after the last node before the key keeps a level sorted, complete and cycle-free |
| SkipLists.SkipList.SpliceAt | internal/memtable/skiplist.go:133-134 | splicing one level on the heap inserts the node there and leaves every other level alone |
| SkipLists.SkipList.SpliceAll | internal/memtable/skiplist.go:131-135 | after the splice loop the node is linked on exactly its levels |
| SkipLists.SkipList.FoundOrAbsent | internal/memtable/skiplist.go:109-118 | the level-0 successor holds the key's cell, or the key is nowhere |
| SkipLists.SkipList.Insert | internal/memtable/skiplist.go:120-138 | a new key at any height keeps the whole structure and maps to its cell |
| SkipLists.SkipList.Overwrite | internal/memtable/skiplist.go:110-118 | changing a node in place keeps structure and byte count, and remaps its key only |
| SkipLists.SkipList.Set | internal/memtable/skiplist.go:94-139 | the represented map is updated at the key and the structure stays valid |
| SkipLists.SkipList.Delete | internal/memtable/skiplist.go:145-185 | the map gets a tombstone at the key, present or not |
| SkipLists.SkipList.Get | internal/memtable/skiplist.go:197-213 | agrees with the represented map, tombstones included |
| SkipLists.SkipList.HeadTop | internal/memtable/skiplist.go:60-80 | head pointers at or above `level` are nil |
| SkipLists.SkipList.LevelExact | internal/memtable/skiplist.go:94-213 | following level i from a node meets, strictly sorted, exactly the later nodes whose forward slice is longer than i |
| MemTables.LevelsNest | internal/memtable/skiplist.go:94-213 | every level is strictly sorted and is the level below without its shorter nodes |
| MemTables.ContentsExact | internal/memtable/skiplist.go:217-263 | level 0 is the represented map as a sorted list |
| MemTables.Conservation | internal/memtable/skiplist.go:109-184 | byteSize is the sum of key and value lengths over level 0 and length its node count |
| MemTables.Iterator.Next | internal/memtable/skiplist.go:233-261 | the iterator steps through exactly the remaining entries in order |
| MemTables.WriteFromMemTable | internal/sstable/writer.go:150-166 | prints the memtable's entries, into blocks cut as soon as they reach the given block size; fails exactly on the empty key |
| SSTableWriter.Writer.Add | internal/sstable/writer.go:171-217 | refuses the empty key, else appends the entry as its length field keeps it, and cuts a block exactly when it reaches the block size |
| SSTableWriter.Writer.FlushBlock | internal/sstable/writer.go:221-258 | the pending entries become a checksummed block with its index entry; nothing added is lost |
| SSTableWriter.Writer.WriteIndex | internal/sstable/writer.go:270-287 | the index section is the encoding of the sparse index |
| SSTableWriter.Writer.Finish | internal/sstable/writer.go:263-339 | the bytes are data blocks, index, Bloom block and footer of exactly the added entries |
| SSTableWriter.PrintEntries | internal/compaction/compaction.go:208-262 | adding every entry and finishing prints exactly them, in blocks cut when they reach the given block size, or 4096 bytes if none is given; fails exactly on an empty key |
| SSTableReader.ParseIndexBlock | internal/sstable/reader.go:255-289 | the offset loop parses like the recursive grammar, on any bytes |
| SSTableReader.Open | internal/sstable/reader.go:29-106 | opening any bytes gives the reader or failure the format prescribes |
| SSTableReader.FindBlock | internal/sstable/reader.go:143-159 | the loop computes the binary search |
| SSTableReader.Scan | internal/sstable/reader.go:189-230 | the offset loop finds what the entry grammar says, including corruption |
| SSTableReader.Get | internal/sstable/reader.go:114-136 | on any reader: Bloom check, index search, block read and scan in sequence, with the error and panic cases |
| SSTableReader.Iterator.Advance | internal/sstable/reader.go:334-392 | delivers the next remaining entry, crossing block boundaries, or becomes invalid if none is left; terminates |
| SSTableReader.Iterator.TakeEntry | internal/sstable/reader.go:361-390 | one entry of a loaded block is decoded, or the iterator stops |
| SSTableReader.ListAll | internal/sstable/reader.go:308-401 | SeekToFirst and Next until invalid list every remaining entry of any file, in order |
| SSTableRoundTrip.ScanEncoded | internal/sstable/reader.go:189-230 | scanning a printed block finds what the sorted list holds |
| SSTableRoundTrip.DecodeEncoded | internal/sstable/reader.go:361-390 | decoding a printed block lists its entries |
| SSTableRoundTrip.ReadBlockAt | internal/sstable/reader.go:163-183 | each index entry leads to its block's bytes with a matching checksum |
| SSTableRoundTrip.ParseEncodedIndex | internal/sstable/reader.go:255-289 | parsing the printed index gives it back |
| SSTableRoundTrip.OpenPrinted | internal/sstable/reader.go:29-106 | a printed file opens with the writer's index, filter and entry count |
| SSTableRoundTrip.SearchIsRightmost | internal/sstable/reader.go:143-159 | the search returns the last block whose first key is at most the key |
| SSTableRoundTrip.OnlyInBlock | internal/sstable/reader.go:127-137 | no other block can hold the key |
| SSTableRoundTrip.PrintedFileServes | internal/sstable/reader.go:29-230 | for every sorted entry list and every cut into blocks, the printed file opens and Get returns exactly the list's value, tombstone or absence for every key |
| SSTableRoundTrip.PrintedFileIterates | internal/sstable/reader.go:334-401 | iterating a printed file yields exactly the added entries in order |
| SSTableRoundTrip.OpenedIsMarked | internal/sstable/reader.go:62-78 | a file that opens has a footer with the magic number and the version |
| SSTableRoundTrip.ReadIsChecked | internal/sstable/reader.go:163-183 | a block is accepted if and only if it is followed by the checksum of exactly its bytes |
| SSTableRoundTrip.DamagedBlockReported | internal/sstable/reader.go:114-136 | a lookup led to a block that is not stored so reports an error, unless the filter rules the key out |
| SSTableRoundTrip.ScanDamaged | internal/sstable/reader.go:189-230 | a block damaged behind some entries answers what those decide and reports an error for every other key |
| SSTableRoundTrip.DecodeDamaged | internal/sstable/reader.go:361-390 | iterating such a block lists the entries before the damage |
| SSTableRoundTrip.KnownEntries | internal/sstable/writer.go:184-204 | the bytes of a value and of a tombstone, written out |
| SSTableRoundTrip.KnownIndexEntry | internal/sstable/writer.go:270-281 | the bytes of an index entry, written out |
| SSTableRoundTrip.KnownFooter | internal/sstable/writer.go:307-325 | the 48 bytes of a footer, written out |
| TableSizes.PrintedBound | internal/sstable/writer.go:171-339 | a printed file has at most 53 bytes more than twice its keys' and values' bytes and 31 for each entry |
| TableSizes.MergedWeight | internal/compaction/compaction.go:192-257 | by that measure a merge's output is no larger than its inputs together |
| TableFiles.SmallFileFits | internal/sstable/writer.go:221-339 | in a file below 512 MiB every length, offset and bit count fits its field |
| TableFiles.PrintedIsSound | internal/sstable/reader.go:29-230 | the printed bytes, below 512 MiB, of any sorted storable list open, answer every lookup as the list, and list it |
| TableFiles.SmallPrintIsSound | internal/sstable/writer.go:150-339 | so do those of any entries that are small enough themselves, at any block size |
| TableFiles.ListFile | internal/compaction/compaction.go:176-190 | opening and iterating lists the file's table, or fails exactly when it does not open |
| Tiers.GroupBySize | internal/compaction/compaction.go:286-323 | the tiers are the files as a multiset, sorted by size, each below twice its smallest, each head at least twice the head before |
| Tiers.OptimalTiering | internal/compaction/compaction.go:286-323 | no partition into groups with that bound uses fewer groups |
| Tiers.GroupingUnique | internal/compaction/compaction.go:286-323 | whatever order sorting gives equal sizes, the tiers hold the same files |
| Tiers.HeadsDouble | internal/compaction/compaction.go:300-318 | the n-th tier starts at 2^n times the first or more |
| Tiers.ReadAmplification | internal/compaction/compaction.go:91-101 | when no tier is full there are at most (threshold-1)(1+floor(log2(max/min))) files |
| Merge.Pop | internal/compaction/compaction.go:340-359 | the popped item is least by key, then newest file first |
| Merge.PoppedIsNewest | internal/compaction/compaction.go:215-242 | the first item popped for a key is its newest version |
| Merge.GapIsEmpty | internal/compaction/compaction.go:215-242 | no key between two settled keys is in any input |
| Merge.SettleNext | internal/compaction/compaction.go:239-257 | writing or dropping the next item settles every key up to it |
| Merge.MergeFiles | internal/compaction/compaction.go:192-257 | for any number of sorted inputs with distinct ids the output is strictly sorted and holds for each key exactly the highest-id entry; dropped keys are exactly winning tombstones, dropped only while all files are selected, and written only while not |
| Compaction.Engine.NeedsCompaction | internal/compaction/compaction.go:91-101 | true exactly when some tier reaches the threshold, for every order that sorting gives equal sizes |
| Compaction.Engine.FindLongest | internal/compaction/compaction.go:112-120 | the first of the longest tiers that reach the threshold, or nothing when none does |
| Compaction.Engine.MergeTables | internal/compaction/compaction.go:168-262 | from the inputs' bytes to the output's: the file is the print, at the default block size, of the merge of the tables that the selected files hold; where these are small enough it reads back as that merge |
| Compaction.Engine.RunOnce | internal/compaction/compaction.go:104-165 | nothing changes unless a tier is full, or if the merge fails; else the unselected files and arrivals stay in order, the inputs are gone from disk and the output's bytes are the print of their merge, which with all files selected and none arriving has no tombstone; where the selected tables are small enough the output reads back, and every listed size is again its file's |
| Compaction.RoundListed | internal/compaction/compaction.go:138-155 | replacing the inputs by a sound output keeps every listed file on disk, sound, and listed with its own size |
| Compaction.AllSmallFit | internal/compaction/compaction.go:104-165 | if all tables together are small enough, those of any round are |
| Compaction.TierOfFiles | internal/compaction/compaction.go:112-120 | a tier is a set of the engine's files, and all of them if it has their number |
| Compaction.RoundShrinks | internal/compaction/compaction.go:138-164 | an effective round keeps every other file and removes at least threshold-1 |
| Compaction.RoundsBounded | internal/compaction/compaction.go:104-165 | from n files at most (n-1)/(threshold-1) effective rounds run back to back |
| CompactionSoundness.ReadAfter | internal/compaction/compaction.go:104-165 | what a key reads as after a compaction: from a newer file, else from the merged ones, else as before; dropped tombstones stay sound when files arrive mid-merge |
| CompactionSoundness.CompactionExact | internal/compaction/compaction.go:104-165 | reads are preserved if and only if every covered key shows the same in its newest and its newest selected version |
| CompactionSoundness.SuffixIsSound | internal/compaction/compaction.go:104-165 | selecting a newest suffix preserves every read |
| CompactionSoundness.OnlySuffixIsSound | internal/compaction/compaction.go:104-165 | any other selection changes a read for some contents of the same files |
| Store.SearchDesc | db.go:163-182 | searching the readers newest first finds the newest version |
| StoreInvariants.IdsKept | db.go:255-326 | every guarded step keeps the order of flush, compaction and file ids |
| StoreInvariants.InstallKeeps | db.go:297-299 | prepending the flushed file's reader keeps the view, and it shows the immutable table |
| StoreInvariants.ClearKeeps | db.go:274-276 | clearing the immutable table after its reader is installed changes no read |
| StoreInvariants.WriteOutputKeeps | internal/compaction/compaction.go:131-165 | writing the output of a guarded compaction amid writes and flushes keeps the view |
| StoreInvariants.RemoveKeeps | internal/compaction/compaction.go:138-161 | so does replacing the file list and removing the inputs one by one |
| StoreInvariants.SwapKeeps | db.go:399-424 | swapping in freshly listed readers keeps the view |
| StoreInvariants.KeysLoggedKept | db.go:91-130 | every step, guarded or not, keeps every stored key in the log's history |
| StoreInvariants.OpenedView | db.go:72-76 | what Open shows for any log and any tables |
| StoreInvariants.RecoveryExact | db.go:347-397 | Open recovers exactly the fold of the log if and only if no unlogged key reads from the tables |
| StoreInvariants.LogKept | db.go:91-130 | the log's fold and the applied writes differ exactly by the writes in flight |
| StoreInvariants.InvKept | db.go:91-326 | the whole invariant is inductive over guarded steps, reopening included |
| StoreInvariants.OpenedInv | db.go:42-88 | opening any directory whose keys were all logged establishes it |
| StoreInvariants.RefinesMap | db.go:91-326 | in every state of every guarded run, active over immutable over readers equals a plain map of the applied writes |
| StoreInvariants.CrashRecovers | db.go:378-397 | a crash anywhere recovers every acknowledged write, and a write in flight as if applied |
| StoreInvariants.AnyRunRecovers | db.go:347-397 | after any run at all, however unsound its flushes and compactions, also cut off between writing an output and removing each input, reopening shows exactly the fold of the log |
| StoreReads.LinearizableGet | db.go:134-183 | Get, split into its two snapshots with any guarded steps between, returns a value the map held between its start and end |
| StoreReads.SourcesNext | db.go:139-182 | no step makes the sources of a waiting Get show anything they or the map did not show |
| StoreCalls.LeadsKeeps | db.go:91-326 | whatever a guarded run leads to keeps the invariant |
| StoreCalls.LoggedKeeps | db.go:91-130 | Set and Delete keep the invariant under which Get returns the plain map's value |
| StoreCalls.FlushedKeeps | db.go:255-308 | a flush keeps it and changes no read |
| StoreCalls.CompactingLeads | internal/compaction/compaction.go:104-165 | a compaction is a run of steps, its inputs removed in any order, and within the guard whenever its first step is |
| StoreCalls.RoundKeeps | db.go:316-324 | a compaction round and reload over a newest suffix keep the invariant and change no read |
| StoreRaces.OverlappingWrites | db.go:98-104 | two writes of one key applied against log order: a crash preserves the read if and only if both show the same |
| StoreRaces.FlushInsideReload | db.go:399-419 | a flush between the listing and the swap of a reload: a read agrees with the map if and only if memory has the key, the flushed table has not, or the older files show the same |
| StoreRaces.FlushInsideReloadRuns | db.go:399-419 | the race can run from every state with a reload due and a flush under way |
| StoreRaces.LateFlush | db.go:267-322 | a compaction that takes its id after a flush did: what every key reads as, and for the merged keys agreement with the map if and only if the older versions show the same |
| StoreRaces.FailedFlush | db.go:270-276 | after a failed flush a read agrees with the map if and only if memory has the key, the lost table has not, or the readers show the same; Open restores it |
| Scenarios.CrashChangesRead | db.go:98-104 | a run from an empty store after which a crash changes what a key reads as |
| Scenarios.FailedFlushHides | db.go:270-276 | a run from an empty store after which an acknowledged write is not read |
| Scenarios.ReloadLosesFlush | db.go:399-419 | a run from an empty store, through a merge of four flushed files, after which a flushed value is not read |
| Scenarios.LateFlushHides | db.go:267-322 | a run from an empty store after which a flushed value is hidden by a merged older one |
| Scenarios.PrintedSize | internal/sstable/writer.go:171-339 | the exact size of the file of a one-entry table |
| Scenarios.FiveSizes | internal/sstable/writer.go:171-339 | the sizes of five such files, from their printed bytes, for any checksum function |
| Scenarios.SmallTierChosen | internal/compaction/compaction.go:112-120 | at the sizes of five such files RunOnce selects the four small ones, however equal sizes are sorted |
| Scenarios.StaleValueReturns | internal/compaction/compaction.go:104-165 | a run from an empty store through five flushed writes and that round, after which an overwritten value is read again |
| Database.ListFiles | db.go:348-353 | listing and sorting gives every file id in ascending order |
| Database.Open | db.go:42-88 | on any log bytes and any directory whose files are sound or do not open: fails exactly on a bare header, else is the state that shows the tables under the replayed log, with the engine's sizes those of the files |
| Database.DB.LoadSSTables | db.go:347-376 | a reader for every file that opens, newest first, the others skipped; each in the engine's list with the size of its bytes; ids above all loaded ones free |
| Database.DB.ReplayWal | db.go:378-397 | the active table is the fold of all records delivered |
| Database.DB.Set | db.go:91-113 | refuses the empty key, else is one Log and one Apply step, in memory and in the log's bytes; signals a flush exactly at the size limit |
| Database.DB.Delete | db.go:116-130 | the same with a tombstone; never signals |
| Database.FirstAnswerExact | db.go:169-180 | over sound files the byte-level lookups, newest first, answer like the search through the tables |
| Database.FirstAnswerAt | db.go:169-180 | on any readers, the newest that says anything but absent decides, an error included; if none does the key is absent |
| Database.DB.Get | db.go:134-183 | memory, else the readers' bytes, errors passed on; over sound files no error and the layered view, and under the invariant the plain map's value |
| Database.DB.RotateIfNeeded | db.go:255-268 | rotates exactly when the table is non-empty and full, or closing |
| Database.DB.FlushMemTable | db.go:284-308 | unless it fails or the table holds the empty key, the file is the print of the table at the configured block size; if the table is small enough the newest file's bytes, its reader and the engine entry hold its entries; on failure or an empty key nothing changes |
| Database.SmallTableIsSound | internal/sstable/writer.go:150-166 | the print of a table whose own size is small enough opens and holds exactly that table |
| Database.DB.FlushIfNeeded | db.go:255-282 | exactly when the table is full or closing: a whole flush, or one that failed and lost its table to reads, for every table whose byte and entry counters are small enough; the file is the print of the table in any case |
| Database.DB.ReloadReaders | db.go:399-424 | readers are exactly the files on disk that open, newest first |
| Database.DB.CompactionRound | db.go:316-324 | nothing, or one id taken, at most one merge of a full tier and one reload; the disk is the old one with a full tier's files replaced by the print of their merge, and where any full tier is small enough the calls are steps of the store |
| Database.RoundFiles | internal/compaction/compaction.go:138-155 | the engine's list after a round is again exactly the files on disk |
| CrashRecovery.CutReplays | internal/wal/wal.go:177-272 | the log of any writes cut at any byte replays exactly the writes wholly before the cut, and Open fails exactly on a bare header |
| CrashRecovery.CutRecovers | db.go:347-397 | after such a cut, over any tables, Open shows the surviving writes' fold on each of their keys, and on all keys if and only if no other key reads from the tables |

## Left out

- BloomFilter.BitCount: real arithmetic; float64 rounding and the uint32 cast of a filter of 2^32 bits or more are not modelled.
- TableFiles.SmallPrintIsSound: only for entries below the size limit; SSTableRoundTrip.PrintedFileServes claims it up to the format's exact 32-bit and 64-bit fields, and larger files are printed but not claimed to read back.
- Database.DB.FlushMemTable: of a table whose bytes twice plus 31 for each entry reach 512 MiB less 53, only the bytes written are claimed, not that they read back.
- Tiers.GroupBySize: the size ratio is a real quotient, exact for sizes below 2^52.
- Compaction.Engine.RunOnce: a failing merge leaves the directory as it was; the partly written output it may leave is not modelled, nor an input whose removal fails.
- Database.Open: files that open but hold corrupt blocks or unsorted entries are excluded; files that do not open are skipped as in the source.
- Database.DB.CompactionRound: no other call runs inside it; interleavings are the state machine's.
- StoreInvariants.RefinesMap: holds under `Store.Guard`; `StoreRaces` shows what each guard rules out.
- Values are byte strings, never nil: a nil value reads as absent from a memtable and as empty from an SSTable.
- I/O errors other than a failing flush or merge, fsync and the three sync modes, buffered writing.
- Closing readers while a Get uses them, Close, the sync loop, channel wake-ups, Stats.
- memtable.go: a lock around the skip list; each call is one atomic step.
- The heap inside container/heap, the random distribution of heights, false-positive rates, sizes in practice.
- The server, the command-line client and the options' defaults.
