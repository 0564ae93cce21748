# Verified model of the TurboHash, Dash and CCEH hash tables

Four hash-table engines share this repository, and each rests on an invariant that its code never writes down but that
every lookup depends on. This project models the engines in Dafny and proves those invariants and what follows from
them. Code that the repository updates in place is modelled by classes and loops; each such method is proved either
against what it promises or against a function whose properties are proved as lemmas.

**Dash extendible hashing** (`Dash/src/ex_finger.h`). A segment is a ring of 64 buckets and two stash buckets. A pair
that spills into the stash leaves a fingerprint mark in its home bucket, else in the right neighbour, else only a tick
of an anonymous counter. `DashMarks` states what the marks promise about all stashed pairs of all homes at once, and
proves that setting and unsetting them keeps the promise, so that the counter never underflows. `DashSegment` derives
complete lookup from it, `DashUpdates` insertion and deletion over every branch, and `DashPlacing` where an insertion
finds room and when there is none; `DashSplit` and `DashTable` the split into two segments. `DashFit` and
`DashRebuild` show that what finds room depends on a few counts only, and from them how many pairs a split loses;
`DashRows` and `DashLoss` build a table that loses one. `PackedWord` and `PackedBucket` refine the bucket to the
32-bit word and the bytes of the original. `DashDirectory` and `DashDirectoryOps` hold the directory: update,
doubling, merge and halving. `DashHash` puts directory and segments together and shows that they are a map,
`DashEffects` what each step does to it. `DirectoryLock` is the directory's reader-writer word.

**Dash linear hashing** (`Dash/src/lh_finger.h`). `LhAddressing` shows that segment index arithmetic is a bijection
with segment arrays laid end to end, `LhExpansion` what an expansion moves, `LhSegment` and `LhTable` the split that
also takes keys back from the overflow chain. `LhRebuild` is the table that a split builds, as a function of the pairs
it meets, and when the overflow counter suffices; `LhAbort` is a table for whose split it does not.

**TurboHash** (`src/turbo`). `TurboCell`, `TurboProbe` and `TurboBucket` show that a bucket of cells is a map;
`TurboRuns` that whole sequences of calls agree with the map; `TurboRehash`, `TurboMove` and `TurboOverreach` what a
rehash carries over, and when it puts a record out of reach; `PmemCell`, `PmemCrash` and `PmemRecovery` that over the
whole life of a persistent bucket, crashes included, what can be recovered is the map of all completed operations,
without or with the one in flight, and `PmemProgress` that every operation completes; `ReadProtocol` what the
lock-free lookup may answer, and when it answers; `EpochReclamation` that no node is freed under a thread that can
still see it, and `EpochCleanup` that what nobody can see is freed.

**CCEH** (`CCEH-PMDK/src`). `CcehCuckoo` is the cuckoo path search and the shift along the path, `CcehDirectory` the
directory after a split, `SuspendLock` the suspend/lock semaphore.

`Bags` (sums over sequences), `Powers` (shifts as divisions) and `Schedules` (runs of a machine) are helpers;
`DashRouting` is hash prefixes.

## What the proofs show about the code

The machines that run over schedules are proved twice: that no step does harm, and that an attempt which nobody disturbs
gets done what it is for. Most promised properties hold for every input. These hold only under a condition:

- A TurboHash rehash probes one step further than a lookup does (`src/turbo/turbo_hash.h:1722` against `2373`). All
  records stay findable if and only if walking the old bucket settles none fifteen steps from its home
  (`TurboBucket.Bucket.MinorRehash`). With at most fifteen new cells that always holds (`TurboRehash.SmallRehash`), and
  with more whenever no 29 consecutive new cells are home to more records than fifteen cells take, in whatever order
  they are walked (`TurboRehash.CalmRehash`). `TurboOverreach.DoublingCanOverreach` is a sixteen-cell bucket, in perfect
  order, whose doubling hides a record.
- The "+1" slack of the lock-free lookup (`src/turbo/turbo_hash.h:2386`) is sound if and only if each write to a cell
  is one atomic step (`ReadProtocol.SoundExactly`); with stores visible one at a time a lookup can return a value its
  key never had (`ReadProtocol.SlackOneCanTear`). Comparing for equality is always sound.
- Dash extendible hashing drops a pair when `Insert4split` finds home, right neighbour and stash full
  (`Dash/src/ex_finger.h:1129`). The number of pairs that a split drops is a function of the homes of the pairs that
  move, in the order of the walk, computed on counts alone, and it is exact (`DashTable.Table.Split`,
  `DashRebuild.RebuildFits`). None is dropped if at most 56 pairs move, or if no three consecutive buckets are home to
  more than 28 of them (`DashRebuild.SplitLoses`). `DashLoss.LosingRun` inserts 72 pairs into a new table and splits it:
  every insertion is accepted, and the split drops one pair.
- Dash linear hashing asserts that an overflow counter does not reach 255 (`Dash/src/lh_finger.h:431`). Insertion into a
  new table, `Insert2Org` and the stash answer `Aborted` exactly when the home has no room and the counter would wrap. A
  split is never aborted while fewer than 255 pairs share a home (`LhTable.Table.Split`), and the first 282 pairs that
  move are always taken (`LhRebuild.LongFits`). `LhAbort.AbortingRun` puts 324 pairs into a new table, all accepted,
  whose split is aborted.
- TryMerge computes the index of the right segment as the end of a chunk. It lies inside the directory if and only if
  the segment's local depth is positive, and is the index just past the last entry otherwise
  (`DashDirectory.RightInside`); merging the two segments of a directory of depth one leads there
  (`DashDirectory.DepthZeroIsReached`). `DashDirectoryOps.Directory.Merge` asks for a positive depth.
- Halving counts every segment at the new full depth except those that are splitting or merging and the entry after a
  merging one, so the new count is right if and only if no segment at full depth is among these
  (`DashDirectoryOps.Directory.Halve`).

## Model

| member | source | states |
|---|---|---|
| DashMarks.SetMarkKeepsPromise | Dash/src/ex_finger.h:100-130 | set_indicator extends the promise made for a home's stashed pairs by one pair, changes no other home's marks, count or flag, as long as a mark is blank or the counter byte does not wrap; it marks the home as long as a mark there is blank, else the neighbour, and counts only when none of the eight is |
| DashMarks.UnsetMarkKeepsPromise | Dash/src/ex_finger.h:132-178 | unset_indicator takes one stashed pair out of the promise for its home only, and when no mark for it is left the counter it decrements is at least one |
| DashMarks.PromiseIsComplete | Dash/src/ex_finger.h:180-226 | with the counter at zero the marks are exactly the stashed pairs' tags and positions, and with the flag down nothing is stashed, so the marks may be trusted |
| DashMarks.TakenSignals | Dash/src/ex_finger.h:132-165 | clearing a matching mark removes exactly that tag and position from the home's signals; finding none changes only the counter |
| DashSegment.GetSound | Dash/src/ex_finger.h:2136-2259 | a value that a lookup returns is stored under that key |
| DashSegment.GetComplete | Dash/src/ex_finger.h:2177-2259 | a stored key is found whether it is in its home, its right neighbour or the stash, despite shared marks and the anonymous counter |
| DashSegment.GetIsLookup | Dash/src/ex_finger.h:2136-2259 | a lookup answers NONE exactly when no pair of that key is stored |
| DashSegment.StashedIsFound | Dash/src/ex_finger.h:2193-2259 | a stashed pair is always suspected: the flag is up and either the counter is positive or a mark of its tag and position is in one of the two buckets |
| DashSegment.MarksAreNarrow | Dash/src/ex_finger.h:107-125 | every mark on the ring names a stash bucket that exists |
| DashUpdates.DuplicateIsPresence | Dash/src/ex_finger.h:180-226 | unique_check refuses exactly the keys that are stored |
| DashUpdates.NextDisplaceKeeps | Dash/src/ex_finger.h:733-759 | displacement to the right adds exactly the new pair and keeps every pair in its home or right neighbour with the right member bit, or changes nothing |
| DashUpdates.PrevDisplaceKeeps | Dash/src/ex_finger.h:761-787 | displacement to the left does the same |
| DashUpdates.StashInsertKeeps | Dash/src/ex_finger.h:789-807 | stash insertion adds exactly the new pair and one promise, or changes nothing |
| DashUpdates.AddKeeps | Dash/src/ex_finger.h:917-987 | every branch of balanced insertion, displacement and stash adds exactly the new pair and keeps the segment invariant, or changes nothing |
| DashPlacing.RoomFound | Dash/src/ex_finger.h:917-987 | an insertion finds room exactly when home, right neighbour or stash has a free cell, or the neighbour holds a pair of its own and the bucket after it has room, or the home holds a pair of its left neighbour and that one has room |
| DashPlacing.RoomTaken | Dash/src/ex_finger.h:917-987 | with a free cell in either, the pair goes to the emptier of home and neighbour, the home on a tie, and nothing else changes; the stash is left alone as long as a pair can be displaced, and its bucket of the home's parity is filled first |
| DashUpdates.InsertSpec | Dash/src/ex_finger.h:879-987 | Insert answers 0 and adds exactly the pair, or -1 or -3 and changes nothing, and -3 exactly when the key is stored; keys stay unique |
| DashUpdates.StashClearKeeps | Dash/src/ex_finger.h:2487-2523 | clearing a stash cell with its mark removes exactly its pair and keeps the promises of all homes |
| DashUpdates.DeleteSpec | Dash/src/ex_finger.h:2385-2531 | Delete answers true exactly when the key is stored, removes exactly that pair, and afterwards the key is not stored |
| DashUpdates.FixedStashMarkable | Dash/src/ex_finger.h:100-130 | two stash buckets hold too few pairs for the overflow counter to wrap, so set_indicator never meets a full byte |
| DashTable.Table.NextDisplace | Dash/src/ex_finger.h:733-759 | the in-place displacement equals the function whose effect NextDisplaceKeeps states |
| DashTable.Table.PrevDisplace | Dash/src/ex_finger.h:761-787 | the in-place displacement equals the function whose effect PrevDisplaceKeeps states |
| DashTable.Table.StashInsert | Dash/src/ex_finger.h:789-807 | the stash loop equals the function whose effect StashInsertKeeps states; -1 leaves the table as it was |
| DashTable.Table.Insert | Dash/src/ex_finger.h:879-987 | 0 adds exactly the pair, -1 and -3 change nothing; -3 exactly when the key was there, -1 exactly when it was not, home, right neighbour and both stash buckets are full and no pair of home or neighbour can be displaced; the count of pairs is right |
| DashTable.Table.Get | Dash/src/ex_finger.h:2136-2259 | returns the stored value, and NONE exactly when there is none |
| DashTable.Table.Delete | Dash/src/ex_finger.h:2385-2531 | removes the key if and only if it is there, and says so; afterwards it is not |
| DashTable.Table.Insert4split | Dash/src/ex_finger.h:1063-1131 | writing at the index GET_COUNT gives is sound because allocated cells form a prefix; adds exactly the pair where Add puts it, and is without room exactly when home, right neighbour and both stash buckets are full and no pair can be displaced |
| DashTable.Table.CopyBucket | Dash/src/ex_finger.h:1309-1340 | one bucket of the split: the new table and the lost pairs are what adding the pairs that move, in the order of cells, makes of them |
| DashTable.Table.CopyStash | Dash/src/ex_finger.h:1342-1376 | the same for one stash bucket of the split, whose marks in the old table are taken back as its pairs are copied |
| DashSplit.BulkClear | Dash/src/ex_finger.h:1381-1393 | the bulk clear of allocation bits removes exactly the recorded cells and leaves an overflow chain alone |
| DashTable.Table.Split | Dash/src/ex_finger.h:1293-1393 | old contents = what stays + what the new table took + what it lost; exactly the keys whose next hash bit is one left; how many are lost is a function of the homes of the pairs that move, and it is none while the stash has room, for up to 56 pairs, or for any number spread over the homes; both tables keep all their invariants, counts and unique keys, and each key has its table's longer pattern |
| DashTable.HalvesRouted | Dash/src/ex_finger.h:1293-1330 | the two halves of a segment are the keys of the pattern with a zero and with a one appended |
| DashFit.SeatFits | Dash/src/ex_finger.h:1063-1127 | whether a pair finds a cell in its home or right neighbour, displacements included, depends only on how many pairs each bucket holds for itself and for its left neighbour, and so do the counts afterwards; without a cell both are full |
| DashFit.AddFits | Dash/src/ex_finger.h:1063-1131 | the same for the whole of Insert4split with the counts of the stash; it fails only when home, right neighbour and both stash buckets are full |
| DashRebuild.RebuildFits | Dash/src/ex_finger.h:1309-1376 | the number of pairs that adding a sequence loses is computed from the sequence of homes alone |
| DashRebuild.FitAllHolds | Dash/src/ex_finger.h:1063-1131 | every pair that finds room is held to the end and one that does not finds 56 in its way, so up to 56 pairs all fit |
| DashRebuild.SpreadFits | Dash/src/ex_finger.h:1063-1131 | if no three consecutive buckets are home to more than 28 pairs, the stash is never touched, whatever the order |
| DashRebuild.SplitLoses | Dash/src/ex_finger.h:1293-1376 | the exact number of lost pairs, and when it is zero |
| DashLoss.SplitCanLose | Dash/src/ex_finger.h:1293-1376 | a sound segment, built by adding 72 pairs of which none was refused, whose split loses exactly one |
| DashLoss.LosingRun | Dash/src/ex_finger.h:879-1393 | the same as a run of the table: 72 insertions, all accepted, and a split that loses one pair |
| DashSplit.AddKeepsDense | Dash/src/ex_finger.h:1078-1083 | adding to a table under construction, displacements included, keeps every bucket's allocated cells a prefix |
| DashSplit.DenseCount | Dash/src/ex_finger.h:1078-1083 | for a prefix of allocated cells the allocation count is the index of the first free cell |
| DashSplit.MoveFromStash | Dash/src/ex_finger.h:1342-1376 | copying a stashed pair out, unmarking it at once and clearing its bit later amounts to deleting it now |
| DashSplit.SplittingEnd | Dash/src/ex_finger.h:1381-1393 | when all cells have been visited, the bulk clear leaves a sound table of exactly the pairs that stay |
| DashRouting.PrefixOfPrefix | Dash/src/ex_finger.h:2144-2150 | a shorter hash prefix is a longer one shifted right |
| PackedWord.SetHashWord | Dash/src/ex_finger.h:290-300 | set_hash sets one allocation bit and its member bit, adds one to the low nibble without a carry, and keeps the nibble equal to the number of allocation bits |
| PackedWord.UnsetHashWord | Dash/src/ex_finger.h:302-317 | unset_hash clears the two bits and subtracts one without a borrow |
| PackedWord.ClearWord | Dash/src/ex_finger.h:1382-1388 | the bulk clear removes exactly the masked indices and subtracts their number without a borrow |
| PackedBucket.Bucket.SetHash | Dash/src/ex_finger.h:290-300 | on the bit fields set_hash puts exactly one pair into a free cell of the bucket as a value |
| PackedBucket.Bucket.UnsetHash | Dash/src/ex_finger.h:302-317 | unset_hash frees exactly one cell |
| PackedBucket.Bucket.FindEmptySlot | Dash/src/ex_finger.h:83-90 | -1 exactly when the bucket is full, else the first free cell |
| PackedBucket.Bucket.Insert | Dash/src/ex_finger.h:361-375 | fills the first free cell, or answers -1 and changes nothing |
| PackedBucket.Bucket.CheckAndGet | Dash/src/ex_finger.h:233-288 | the value of the first allocated cell with that tag, member bit and key, else NONE |
| PackedBucket.Bucket.Delete | Dash/src/ex_finger.h:377-480 | frees the first matching cell, or answers -1 and changes nothing |
| PackedBucket.Bucket.FindOrgDisplacement | Dash/src/ex_finger.h:519-526 | the first cell whose member bit is clear, or -1 |
| PackedBucket.Bucket.FindProbeDisplacement | Dash/src/ex_finger.h:528-535 | the first cell whose member bit is set, or -1 |
| PackedBucket.Bucket.BulkClear | Dash/src/ex_finger.h:1382-1388 | the word arithmetic after a split frees exactly the masked cells |
| PackedBucket.Bucket.SetIndicator | Dash/src/ex_finger.h:100-130 | the byte operations on the bucket and its neighbour equal set_indicator on values |
| PackedBucket.Bucket.UnsetIndicator | Dash/src/ex_finger.h:132-178 | the byte operations equal unset_indicator on values, flag included |
| DashDirectory.RoutedByPattern | Dash/src/ex_finger.h:2144-2160 | the entry a hash selects is segment t exactly when the hash starts with t's pattern |
| DashDirectory.UpdatedInv | Dash/src/ex_finger.h:1737-1789 | Directory_Update keeps: entry i is t iff i's top local_depth bits are t's pattern, and depth_count counts the entries at full depth |
| DashDirectory.DoubledInv | Dash/src/ex_finger.h:1689-1735 | Directory_Doubling keeps it |
| DashDirectory.MergedInv | Dash/src/ex_finger.h:1791-1809 | Directory_Merge_Update of two buddies keeps it |
| DashDirectory.HalvedInv | Dash/src/ex_finger.h:1633-1665 | halving with depth_count zero keeps it |
| DashDirectory.PairsAgree | Dash/src/ex_finger.h:1642-1665 | with depth_count zero both entries of every pair are the same segment, as the halving loop asserts |
| DashDirectory.ChunkEndsAreBuddies | Dash/src/ex_finger.h:2263-2330 | the two segments TryMerge reads at the ends of a chunk, if of equal depth, differ in the last pattern bit only |
| DashDirectory.RightInside | Dash/src/ex_finger.h:2263-2274 | the right index that TryMerge computes lies inside the directory if and only if the segment's local depth is positive; otherwise it is one past the last entry |
| DashDirectory.DepthZeroIsReached | Dash/src/ex_finger.h:2263-2362 | a directory reached from a new one by a merge has a segment of local depth 0 |
| DashDirectory.RunsRouteByPattern | Dash/src/ex_finger.h:1633-1809 | over every run of updates, doublings, merges and halvings every hash is routed to the segment whose pattern it starts with, and the halving assertion holds whenever it is reached |
| DashDirectory.GrowEffect | Dash/src/ex_finger.h:1689-1789 | a segment that splits always gets its new half into the directory: it doubles exactly when the segment uses every bit, exactly the segment's entries whose next bit is one name the new half, both halves are one bit deeper with the pattern extended by zero and by one, and nothing else changes |
| DashDirectory.HalveEffect | Dash/src/ex_finger.h:1633-1687 | halving takes place exactly at depth_count zero and a depth above two, keeps one of each pair of entries, which are equal, and recounts the entries at full depth |
| DashHash.FindIsMap | Dash/src/ex_finger.h:2136-2259 | looking a key up in the segment that its hash selects is looking it up in the map |
| DashHash.SplitTable | Dash/src/ex_finger.h:1293-1393 | the split of a segment is a split step of the whole table |
| DashHash.AfterWhole | Dash/src/ex_finger.h:879-2531 | insertion, deletion, split with directory update or doubling, merge with an empty right segment and halving keep: each segment holds exactly the bindings whose hashes start with its pattern, the lost ones excepted |
| DashHash.RunsAreMaps | Dash/src/ex_finger.h:879-2531 | over every run of these from a new table, a lookup answers what the map that the run has built binds, and NONE for any other key |
| DashEffects.PutIsSeen | Dash/src/ex_finger.h:879-987 | after an insertion an unbound key is found with its value exactly when there is room for it in the segment its hash selects, a bound one keeps its value, and no other key is found differently; without room home, right neighbour and stash are full |
| DashEffects.RemoveIsSeen | Dash/src/ex_finger.h:2385-2531 | after a deletion the key is not found, and no other key is found differently |
| DashEffects.SplitIsSeen | Dash/src/ex_finger.h:1293-1393 | a split puts the two halves in the place of the segment and into the directory, and every key is found as before unless its pair is one that was lost |
| DashEffects.ReshapeIsSeen | Dash/src/ex_finger.h:1633-2330 | a merge with an empty right segment and a halving change the directory, and no key is found differently |
| DashEffects.RunGoesOn | Dash/src/ex_finger.h:879-2531 | a run of allowed steps carries out each of them where the ones before have led |
| DashDirectoryOps.Directory.Update | Dash/src/ex_finger.h:1737-1789 | the chunk loops overwrite exactly the right half of the old segment's entries, those whose next bit is one |
| DashDirectoryOps.Directory.Doubling | Dash/src/ex_finger.h:1689-1735 | the copy loop builds exactly the doubled directory: every entry twice, except that the second copy of the split segment's names the new half |
| DashDirectoryOps.Directory.Merge | Dash/src/ex_finger.h:2263-2330 | merges exactly when the segments at the two ends of the chunk have the same local depth, in whichever half of the chunk the key lies; then every entry that named either names the left one, which is one bit less deep, the right one is gone, and no other entry or segment changes; else nothing changes |
| DashDirectoryOps.Directory.Compact | Dash/src/ex_finger.h:1645-1665 | copies every second entry; counts exactly the entries whose segment is at the new full depth and neither splitting nor merging, passing over the entry after a merging one |
| DashDirectoryOps.Directory.Halve | Dash/src/ex_finger.h:1633-1687 | builds exactly the halved directory; its depth_count is never too high, and right if and only if every entry at full depth was counted, as it is when no segment is splitting or merging |
| DashDirectoryOps.SkippedAfterOdd | Dash/src/ex_finger.h:1645-1665 | the halving loop passes an entry over exactly when the unbroken row of merging segments before it is odd |
| DirectoryLock.StepInv | Dash/src/ex_finger.h:1546-1582 | every atomic access keeps: the word is the writer bit plus the number of readers, with at most one owner |
| DirectoryLock.WriterExcludes | Dash/src/ex_finger.h:1546-1582 | for any schedule of any number of threads a writer past its wait is alone, and no reader enters while the bit is set |
| DirectoryLock.ReadGoesThrough | Dash/src/ex_finger.h:1551-1556 | a read attempt that nobody disturbs is granted exactly when no writer owns the word, and then counts one reader more |
| DirectoryLock.WriteGoesThrough | Dash/src/ex_finger.h:1562-1570 | a write attempt that nobody disturbs gets the writer bit exactly when nobody has it, and goes on trying otherwise |
| DirectoryLock.DrainEnds | Dash/src/ex_finger.h:1572-1576 | the writer's wait ends at its first look after the last reader has left |
| LhAddressing.SegmentOf | Dash/src/lh_finger.h:97-132 | SEG_IDX_OFFSET, SUM_BUCKET, SEG_SIZE and SEG_SIZE_BY_SEGARR_ID agree with segment arrays laid end to end: index = base of its array + offset, offset below the array's size, SUM_BUCKET the base of the next |
| LhAddressing.TableAt | Dash/src/lh_finger.h:97-113 | every offset of every segment array is the image of exactly one table index |
| LhAddressing.SegmentsInOrder | Dash/src/lh_finger.h:97-113 | the map preserves order |
| LhAddressing.SegBaseClosed | Dash/src/lh_finger.h:115-123 | the closed form of the running total of array sizes |
| LhAddressing.SegIdxOffset | Dash/src/lh_finger.h:97-113 | the out-parameters are the segment and an offset within it that locate the table |
| LhExpansion.RunValid | Dash/src/lh_finger.h:2066-2125 | every run of expansions keeps next even and below 2^N, adds two tables each, and N is determined by the number of tables |
| LhExpansion.AddressBounded | Dash/src/lh_finger.h:1180-1191 | every computed address is below 2^N + next |
| LhExpansion.ExpansionMoves | Dash/src/lh_finger.h:2110-2117 | one expansion changes an address exactly for the two frontier tables with the next hash bit set, from b to b + 2^N, and get_org_table inverts the move |
| LhExpansion.SplitTest | Dash/src/lh_finger.h:1365-1366 | for hashes of table b the split's modulo test is the next bit, and decides between b and b + 2^N |
| LhExpansion.PairShares | Dash/src/lh_finger.h:2070-2075 | the two tables of one expansion lie side by side in one segment array |
| LhExpansion.Linear.constructor | Dash/src/lh_finger.h:2133-2165 | the initial N = 6, next = 0 has all 64 tables in segment 0 |
| LhExpansion.Linear.Target | Dash/src/lh_finger.h:2330-2345 | the table a hash addresses lies in an allocated segment array, at an offset inside it |
| LhExpansion.Linear.Expand | Dash/src/lh_finger.h:2066-2125 | moves the frontier by two and allocates the one segment array that may be missing, with its size |
| LhSegment.WordFields | Dash/src/lh_finger.h:75-84 | BUCKET_INDEX and META_HASH of linear hashing, packed so that the shared bucket code reads them |
| LhSegment.ExtendedKeeps | Dash/src/lh_finger.h:1121-1137 | a new empty overflow bucket changes neither contents nor promises |
| LhSegment.ShortenedKeeps | Dash/src/lh_finger.h:1500-1508 | unlinking an empty overflow bucket changes neither contents nor promises, since all chain positions share one mark value |
| LhSegment.SplitAddresses | Dash/src/lh_finger.h:1365-1366 | if all keys were congruent to the table's index, those that move are congruent to index + base modulo twice the base and the others to the index |
| LhRebuild.AddLongKeeps | Dash/src/lh_finger.h:1804-1871 | adding to a new table with a chain adds exactly the pair over every branch and keeps every invariant, or fails and changes nothing |
| LhRebuild.StashPlace | Dash/src/lh_finger.h:1092-1144 | a stash insertion fills the fixed bucket of the home's parity, else the other one, else the first overflow bucket with room, and touches no other; a new overflow bucket is allocated exactly when all of them are full |
| LhRebuild.FewIsMarkable | Dash/src/lh_finger.h:405-434 | the assertion on the overflow counter holds as long as fewer than 255 pairs share the home |
| LhRebuild.LongFits | Dash/src/lh_finger.h:1804-1871 | any 282 pairs fit into a new table: whoever misses a seat finds 28 in the row, so at most 253 are stashed |
| LhRebuild.StashedAtMost | Dash/src/lh_finger.h:405-434 | eight marks and a counter byte account for at most 263 stashed pairs of a home |
| LhAbort.SplitCanAbort | Dash/src/lh_finger.h:1327-1534 | a sound table of 324 pairs, all added without abort, whose moving pairs do not fit into a new table |
| LhAbort.AbortingRun | Dash/src/lh_finger.h:1327-1871 | the same as a run: 324 pairs are accepted, and the split is aborted |
| LhTable.Table.PutInStash | Dash/src/lh_finger.h:1092-1107 | adds exactly the pair with its mark; refuses exactly when the counter would wrap |
| LhTable.Table.StashInsert | Dash/src/lh_finger.h:1092-1144 | fixed stash, first overflow bucket with room and new overflow bucket, in this order, add exactly the pair and keep the marks complete; refuses exactly when the counter would wrap |
| LhTable.Table.Insert2Org | Dash/src/lh_finger.h:1282-1323 | puts a pair back outside the chain, which it leaves untouched, and never empties what was full; there is no room exactly when home, right neighbour and both fixed stash buckets are full, and it aborts exactly when only the counter is in the way |
| LhTable.Table.Insert4split | Dash/src/lh_finger.h:1804-1871 | adds exactly the pair to the new table, where AddLong puts it, and keeps allocated cells a prefix; aborts exactly when home and right neighbour are full, no pair of theirs can be displaced, and the counter would wrap |
| LhTable.FoundIsStored | Dash/src/lh_finger.h:2362-2485 | a stored key is in its home, its right neighbour, or a stash or chain bucket that its home suspects; whatever is found there is stored |
| LhTable.Table.Get | Dash/src/lh_finger.h:2362-2485 | returns a stored value of the key, and NONE exactly when there is none, overflow chain included |
| LhTable.Table.CopyBucket | Dash/src/lh_finger.h:1351-1378 | one bucket of the split: the new table is what adding the pairs that move makes of it; aborts exactly when they do not fit, and never while fewer than 255 pairs share a home |
| LhTable.Table.CopyStash | Dash/src/lh_finger.h:1380-1412 | the same for one fixed stash bucket of the split, with its marks taken back |
| LhTable.Table.Unlink | Dash/src/lh_finger.h:1473-1481 | unset_indicator with position 3 and unset_hash remove exactly the pair of one chain cell |
| LhTable.Table.DrainCell | Dash/src/lh_finger.h:1460-1499 | a chain cell whose key moves goes to the new table; one whose key stays goes back in front of the chain, unless home, right neighbour and fixed stash are full; no pair is lost or doubled, no full bucket empties, and it is not aborted while fewer than 255 pairs share a home |
| LhTable.Table.DrainChain | Dash/src/lh_finger.h:1453-1510 | afterwards no overflow bucket is empty, no key in the chain moves, and each pair still in the chain has home, right neighbour and fixed stash full |
| LhTable.Table.Split | Dash/src/lh_finger.h:1327-1534 | loses and duplicates no pair: the new table ends with exactly the pairs whose hash addresses the table one doubling further on, placed as adding them in the order of the walk places them, the source with the rest, in its chain only what finds no room in front of it; marks are complete on both sides; it is completed whenever fewer than 255 pairs share a home |
| CcehCuckoo.WalkRepeats | CCEH-PMDK/src/CCEH.cpp:55-81 | the search is a function of the slot: from equal slots it goes on equally |
| CcehCuckoo.NoSlotTwice | CCEH-PMDK/src/CCEH.cpp:48-87 | a walk that reaches a free or stale slot has not been anywhere twice |
| CcehCuckoo.PathIsSound | CCEH-PMDK/src/CCEH.cpp:48-87 | a usable path repeats no slot, ends in a free or stale one, passes only live keys, and each step leads from one window of the occupant to the other |
| CcehCuckoo.OtherIsPartner | CCEH-PMDK/src/CCEH.cpp:65-77 | an occupant moves exactly when it is in one of its windows, from the first offset at which it is in either to the place of that offset in the other, first to second and second to first |
| CcehCuckoo.Segment.FindPath | CCEH-PMDK/src/CCEH.cpp:48-87 | the result is nonempty exactly when some chain of fewer than sixteen moves leads from the target to a free or stale slot, each move going from a slot to the place of the same offset in the occupant's other window, out of either window; it is then that walk |
| CcehCuckoo.Segment.ExecutePath | CCEH-PMDK/src/CCEH.cpp:22-32 | the loop shifts each pair one place along the path and writes the new one at its start |
| CcehCuckoo.CuckooInsert | CCEH-PMDK/src/CCEH.cpp:22-32 | the shift adds exactly the new pair to the live ones and moves pairs only within their windows |
| CcehCuckoo.Segment.CuckooBranch | CCEH-PMDK/src/CCEH.cpp:291-304 | succeeds exactly when such a chain leads from one of the key's two first slots to a free or stale one, adds exactly the pair, leaves every live pair in one of its windows, and else changes nothing |
| CcehDirectory.Directory.Double | CCEH-PMDK/src/CCEH.cpp:308-334 | the copy loop builds the doubled directory in which only the split segment's entry falls into two |
| CcehDirectory.Directory.Update | CCEH-PMDK/src/CCEH.cpp:344-395 | the two-entry case and the stride loop overwrite exactly the upper half of the segment's entries |
| CcehDirectory.Directory.Install | CCEH-PMDK/src/CCEH.cpp:308-402 | entering a split segment keeps: entry i is segment t iff i's top local_depth bits are t's pattern |
| SuspendLock.StepInv | CCEH-PMDK/src/CCEH.h:68-98 | every atomic access keeps sema equal to the holders, or to -1 minus the holders already gone |
| SuspendLock.SuspendExcludes | CCEH-PMDK/src/CCEH.h:68-98 | for any schedule of any number of threads, once suspend has returned true no shared holder is left and none can enter until sema is reset |
| SuspendLock.LockGoesThrough | CCEH-PMDK/src/CCEH.h:83-91 | a lock attempt that nobody disturbs succeeds exactly when nobody has suspended, and is refused otherwise |
| SuspendLock.LockCatchesUp | CCEH-PMDK/src/CCEH.h:83-91 | one that was overtaken since it read sema succeeds with the value it reads next |
| SuspendLock.SuspendGoesThrough | CCEH-PMDK/src/CCEH.h:68-75 | a suspend that nobody disturbs takes sema exactly when nobody else has |
| SuspendLock.WaitEnds | CCEH-PMDK/src/CCEH.h:77-81 | its wait ends at its first look after the last holder has left |
| TurboCell.FilledSpec | src/turbo/turbo_hash.h:2117-2122 | filling a deleted place, or a free one of a cell that is not Full, within reach, adds exactly the record and keeps every record reachable behind Full cells only and one place spare |
| TurboCell.MovedSpec | src/turbo/turbo_hash.h:2102-2116 | the update toggle exchanges exactly the old record for the new and leaves the occupancy as it was |
| TurboCell.MarkedSpec | src/turbo/turbo_hash.h:2465-2468 | marking a record deleted removes exactly it and keeps every other reachable |
| TurboCell.ReplaceKeepsReachable | src/turbo/turbo_hash.h:2396-2401 | since occupancy never falls, stopping at the first cell that is not Full stays right |
| TurboProbe.MissingIsUnbound | src/turbo/turbo_hash.h:2363-2409 | a key is unbound exactly when no record of it lies within the reach of the invariant |
| TurboProbe.GapEndsSearch | src/turbo/turbo_hash.h:2396-2401 | no record of a key lies at or beyond a cell that is not Full |
| TurboProbe.PutSpec | src/turbo/turbo_hash.h:2087-2126 | writing to the target that was chosen binds the key to the value in the map and nothing else |
| TurboProbe.MarkSpec | src/turbo/turbo_hash.h:2455-2468 | marking a record unbinds its key and nothing else |
| TurboProbe.FreePlace | src/turbo/turbo_hash.h:2284-2305 | every cell has a free place for an update |
| TurboProbe.ProbeStopped | src/turbo/turbo_hash.h:2311-2342 | a probe that stops at a cell that is not Full has seen every deleted place it could reuse |
| TurboProbe.ProbeExhausted | src/turbo/turbo_hash.h:2344-2355 | a probe that runs to its end fails only if all probed cells are Full with nothing deleted |
| TurboBucket.Bucket.FindSlot | src/turbo/turbo_hash.h:2363-2409 | finds a key exactly when a record of it lies fewer than MAX_PROBE_LEN steps from home, and then returns the value the map binds |
| TurboBucket.Bucket.FindSlotForInsert | src/turbo/turbo_hash.h:2262-2355 | an equal key is updated into its cell's lowest free place; otherwise the lowest deleted place of the last probed cell that has one, or else the first free place; it fails only with neither |
| TurboBucket.Bucket.InsertToSlotAndGC | src/turbo/turbo_hash.h:2087-2126 | the map gains exactly the binding, and an old record of the key is retired once |
| TurboBucket.Bucket.DeleteSlot | src/turbo/turbo_hash.h:2411-2483 | true exactly for a bound key, which is then unbound and its record retired once; no cell's occupancy changes |
| TurboBucket.Bucket.InsertSlot | src/turbo/turbo_hash.h:2128-2232 | terminates because each retry doubles a bounded cell count; binds exactly the key; rehashes only when all probed cells are Full with nothing deleted; stops with ProbeLimit only if the last doubling gave up, which takes more than eight cells, and with CellLimit only if it would exceed the limit |
| TurboBucket.Bucket.FindNextSlotInRehash | src/turbo/turbo_hash.h:1711-1735 | the loop takes the nearest new cell with room at most fifteen steps from home, or gives up |
| TurboBucket.Bucket.Transfer | src/turbo/turbo_hash.h:1771-1812 | the walk fills the new bucket with exactly the live records |
| TurboBucket.Bucket.MinorRehash | src/turbo/turbo_hash.h:1737-1823 | garbage collection keeps the number of cells and a rehash doubles it; refused exactly when that exceeds the limit, and never given up with up to sixteen new cells; carries each live record over exactly once with its hash word, tag and entry, drops deleted ones, leaves cells dense with a place spare and only Full cells before a record; every record is in reach of lookups if and only if none settles fifteen steps out, which none does with up to fifteen cells |
| TurboRuns.Step | src/turbo/turbo_hash.h:1852-1878 | one put, find or delete is answered as a plain map answers it; the only call that may stop a run is a put that found neither a match nor a place, and it stops it only by exceeding the cell limit, by a rehash that gave up, or by taking a record out of reach, which needs more than fifteen cells |
| TurboRuns.Replay | src/turbo/turbo_hash.h:1852-1878 | every sequence of puts, finds and deletes is answered as a plain map answers it, up to the first call that stops it in this way, doublings included |
| TurboRehash.LandSound | src/turbo/turbo_hash.h:1711-1735 | a record lands in the nearest cell with room, all cells before it being used up, or all sixteen are used up |
| TurboRehash.SmallBucketsSettle | src/turbo/turbo_hash.h:1711-1735 | with at most sixteen cells a rehash never gives up while the records fit, and no record travels the whole ring |
| TurboRehash.SmallRehash | src/turbo/turbo_hash.h:1737-1823 | doubling or collecting into at most fifteen cells keeps every record within reach of lookups, and into at most sixteen never fails |
| TurboRehash.CalmRehash | src/turbo/turbo_hash.h:1711-1735 | with more than fifteen new cells of which no 29 consecutive ones are home to more records than fifteen cells take, a rehash settles every record within reach of lookups |
| TurboRehash.CalmIgnoresOrder | src/turbo/turbo_hash.h:1771-1812 | that condition depends only on how many records each new cell is home to, not on the order of the walk |
| TurboMove.MoveKeeps | src/turbo/turbo_hash.h:2066-2081 | moveSlot adds exactly the record in the next place of the cell chosen, and puts a record out of reach exactly when it lands fifteen steps out |
| TurboMove.WalkIsComplete | src/turbo/turbo_hash.h:1516-1590 | the bucket iterator meets every live record exactly once |
| TurboMove.ReachSplits | src/turbo/turbo_hash.h:1722-2373 | what separates the invariant after a rehash from that of lookups is exactly a record fifteen steps out |
| TurboOverreach.CrowdedIsValid | src/turbo/turbo_hash.h:2363-2409 | a concrete bucket of sixteen cells and 96 records meets every invariant |
| TurboOverreach.DoublingCanOverreach | src/turbo/turbo_hash.h:1711-1735 | doubling that bucket, which any new key forces, puts a record out of reach |
| PmemCell.ProgramStep | src/turbo/turbo_hash_pmem.h:2239-2284 | the store sequence of a write takes the cached cell through the contents that the invariant speaks of |
| PmemCell.MemoryStep | src/turbo/turbo_hash_pmem.h:1276-1283 | stores alone leave memory as the cell was; the first flush makes the slot durable before the version word can be |
| PmemCell.WriteBackMidway | src/turbo/turbo_hash_pmem.h:2239-2284 | any cache line written back at any step leaves memory showing the cell before or after the write, dead places aside |
| PmemCrash.InitialisedInv | src/turbo/turbo_hash_pmem.h:1513-1519 | Init leaves a bucket that satisfies the crash invariant and is recovered as it is |
| PmemCrash.ProceedWriteInv | src/turbo/turbo_hash_pmem.h:2239-2284 | each instruction of an insert, update or delete keeps the crash invariant |
| PmemCrash.CopyStep | src/turbo/turbo_hash_pmem.h:2046-2048 | copying and flushing the new region keeps it, the old bucket staying what recovery finds |
| PmemCrash.SwitchStep | src/turbo/turbo_hash_pmem.h:1522-1543 | setting the other slot, flushing, switching the version and flushing keep it |
| PmemCrash.EvictLineInv | src/turbo/turbo_hash_pmem.h:90-96 | any line of any region written back at any time keeps it |
| PmemCrash.EvictFieldInv | src/turbo/turbo_hash_pmem.h:1510-1557 | any field of the bucket meta written back at any time keeps it |
| PmemCrash.RunIsCrashSafe | src/turbo/turbo_hash_pmem.h:1754-1787 | over every run with write-backs anywhere, a crash at any point recovers the committed bucket or what the operation in flight will leave |
| PmemCrash.RestartInv | src/turbo/turbo_hash_pmem.h:1754-1787 | what Recover extracts satisfies the invariant again, so runs may contain any number of crashes |
| PmemCrash.CommitsPending | src/turbo/turbo_hash_pmem.h:2239-2284 | what is committed changes only when an operation completes, to what that operation promised |
| PmemRecovery.SameLiveBucket | src/turbo/turbo_hash_pmem.h:1546-1557 | buckets that agree on their live places hold the same records and can be searched alike, whatever dead places hold |
| PmemRecovery.PutRecovers | src/turbo/turbo_hash_pmem.h:2239-2284 | after a crash during an insert or update the recovered bucket holds exactly the map before or exactly the map after |
| PmemRecovery.DeleteRecovers | src/turbo/turbo_hash_pmem.h:2628-2633 | after a crash during a delete likewise |
| PmemRecovery.RehashRecovers | src/turbo/turbo_hash_pmem.h:2046-2056 | after a crash during a rehash the recovered bucket holds exactly the map |
| PmemRecovery.PutIsWrite | src/turbo/turbo_hash_pmem.h:2239-2284 | writing to the target that was chosen is a write of one dead place, as the crash protocol assumes |
| PmemRecovery.AfterSound | src/turbo/turbo_hash_pmem.h:1754-2633 | inserts, deletes, rehashes within reach, single instructions, write-backs and crashes with recovery all keep: committed and pending bucket are searchable and hold the maps of completed operations without and with the one in flight |
| PmemRecovery.LifeIsDurable | src/turbo/turbo_hash_pmem.h:1513-1787 | at every point of every life of a bucket from its creation on, with any number of crashes, what a crash leaves can be extracted and searched and holds the map of all completed operations, without or with the one in flight |
| PmemProgress.WriteCompletes | src/turbo/turbo_hash_pmem.h:2239-2284 | an insert or update is committed and in memory after its six instructions and a delete after its two, with anything written back in between |
| PmemProgress.RehashCompletes | src/turbo/turbo_hash_pmem.h:2046-2056 | a rehash into a region allocated for it is committed and what recovery finds after two instructions for each cell and the five of the version switch |
| PmemProgress.OperationCompletes | src/turbo/turbo_hash_pmem.h:1754-2633 | from every reachable moment each operation that is allowed runs to its end with anything written back in between; the map is then as the operation makes it, none is in flight, and memory holds that map |
| PmemProgress.LineWrittenBack | src/turbo/turbo_hash_pmem.h:90-96 | any line can be written back at any time, and memory then holds the cache's words of that line and its own of the others |
| PmemProgress.FieldWrittenBack | src/turbo/turbo_hash_pmem.h:1510-1557 | so can any field of the bucket meta, by itself |
| ReadProtocol.WritesSpareLivePlaces | src/turbo/turbo_hash.h:2087-2126 | no write touches a place that is live in the published version |
| ReadProtocol.AnswersAreSound | src/turbo/turbo_hash.h:2377-2394 | over every run, an answer accepted with slack one under atomic writes, or slack zero under any, is the record the key had when the version was loaded |
| ReadProtocol.SlackOneCanTear | src/turbo/turbo_hash.h:2377-2394 | a run with stores visible one by one in which the lookup of a key answers with another key's value |
| ReadProtocol.SoundExactly | src/turbo/turbo_hash.h:2377-2394 | all runs answer soundly if and only if the slack is zero or writes are atomic |
| ReadProtocol.AnsweredExactly | src/turbo/turbo_hash.h:2377-2394 | in every run a lookup is answered if and only if at most slack writes were published between its load of the version and its check, counting the writers' stores, and starts over otherwise |
| ReadProtocol.QuietLookup | src/turbo/turbo_hash.h:2377-2394 | with no store in between a lookup can always go through, and answers with key and value of the place it matched |
| ReadProtocol.WriteGoesThrough | src/turbo/turbo_hash.h:2087-2126 | a write may begin whenever none is under way, and its four stores leave exactly the cell it was to leave |
| EpochReclamation.AddPending | src/turbo/turbo_epoche.h:133-156 | adding a node to a batch keeps added = deleted + size and adds exactly that node |
| EpochReclamation.RemovePending | src/turbo/turbo_epoche.h:119-131 | removing a label takes exactly its nodes and keeps the counters |
| EpochReclamation.StepInv | src/turbo/turbo_epoche.h:160-207 | every atomic access of any thread keeps the epoch invariant, re-stamped labels included |
| EpochReclamation.RunInv | src/turbo/turbo_epoche.h:160-207 | so does every schedule of any number of threads |
| EpochReclamation.StepConserved | src/turbo/turbo_epoche.h:133-207 | each node retired is owed by exactly one thread or has been freed, and added = deleted + size for every thread |
| EpochReclamation.ReclamationIsSafe | src/turbo/turbo_epoche.h:160-207 | no node is freed while a thread that entered before its retirement is inside, and none is freed twice |
| EpochReclamation.KeptAndFreed | src/turbo/turbo_epoche.h:185-204 | the cleanup keeps exactly the labels not older than the oldest epoch, frees exactly the nodes of the others, and loses none between them |
| EpochReclamation.KeptInOrder | src/turbo/turbo_epoche.h:185-204 | the labels that are kept stay in order, each once |
| EpochCleanup.CleanupFrees | src/turbo/turbo_epoche.h:171-207 | a cleanup during which nobody else moves frees exactly the nodes of those labels whose epoch is below every epoch that another thread has published, keeps exactly the others, and loses none between them; if nobody else has published any, it frees everything |
| EpochCleanup.Enters | src/turbo/turbo_epoche.h:160-163 | entering publishes the epoch that was current |
| EpochCleanup.Retires | src/turbo/turbo_epoche.h:134-169 | retiring puts the node into the newest label, or into a new one when that one is full, and stamps the label with the current epoch |
| EpochCleanup.Leaves | src/turbo/turbo_epoche.h:171-175 | leaving moves the epoch on exactly when the thread's counter is one above a multiple of 64 |
| EpochCleanup.LeavesUncleaned | src/turbo/turbo_epoche.h:176-180 | up to the threshold, or with nothing pending, leaving cleans nothing up |
| EpochCleanup.GuardFrees | src/turbo/turbo_epoche.h:84-207 | a guard from end to end: with nobody else moving and no other epoch published, a node that is retired is freed when its thread leaves, with all that the thread had pending |
| EpochReclamation.DeletionListObject.Add | src/turbo/turbo_epoche.h:133-156 | the list object's add refines the function of the protocol |
| EpochReclamation.DeletionListObject.Remove | src/turbo/turbo_epoche.h:119-131 | the list object's remove refines it |
| EpochReclamation.DeletionListObject.Cleanup | src/turbo/turbo_epoche.h:185-206 | the cleanup loop frees and keeps exactly what KeptAndFreed says |

## Left out

- Builds: the persistent-memory builds are modelled, in which the bulk clear after a Dash split is compiled, CCEH splits in place and linear hashing expands in doubling segment arrays.
- Locks, version checks and retries inside the tables: writers run one at a time, as the bucket lock makes them; the -2 answers, directory re-reads and lock-free stash reads are not modelled.
- Negative lock-free lookups, deleteSlot's read before its lock, and the PIN_KEY_TO_THREAD variants.
- Hash functions are arbitrary functions; SIMD comparison is equality per slot; keys and values are integers, and variable-length keys and record encoding are left out.
- Recovery code of Dash and CCEH, crash_version tags, shrinking of linear hashing, TryMerge's outer loop, linear hashing and CCEH as a map.
- Counters that only serve statistics (capacity_, size_), except Dash's number of pairs; 32-bit and 64-bit wrap-around of sequence numbers, epochs and table counts; the overflow counter byte is modelled with its width.
- DashTable.Table: its buckets are values in a sequence; PackedBucket gives the same bucket in its packed form, and the two meet in the functions of DashMarks and DashUpdates.
- TurboBucket.Bucket: bit maps are one bit per place rather than packed words; the bucket iterator appears as the nested loop it performs; the number of cells need not be a power of two, so the mask is a remainder.
- PmemCrash: slots are those of flat keys and values; pointers to separate records are not modelled. Flushing a bucket meta is taken to persist all of it although it may straddle two lines; a region is taken to be line-aligned.
- PmemProgress, EpochCleanup and the locks: what gets done is stated for one thread's uninterrupted turns; fairness of the scheduler is not modelled.
- ReadProtocol: one cell and one reader; a lookup that goes on to the next cell repeats the protocol there.
- EpochReclamation: the step that runs a label's callbacks frees the whole label at once; a node retired twice is not modelled, and nodes are taken to be unreachable when they are retired.
- LhExpansion.Linear: one caller of Expand at a time; the fixed length of the directory array is not modelled.
- CcehDirectory.Directory: the pattern of a segment, which CCEH does not store, is kept beside its local depth.
- DashDirectoryOps.Directory.Merge: the directory does not know what its segments hold, so TryMerge's other condition, that one of the two is empty, is not part of it.
- DashHash: of TryMerge the case is modelled in which the right segment is empty; moving the pairs of a nonempty right segment is left out. Hashes are 64 bits wide.
- LhTable.Table.Split: that a split is aborted is stated exactly for what the new table takes, and in one direction, by the 255 pairs of a home, for what goes back to the source; there the marks that unset_indicator happens to clear decide. The source table is taken to be initialised, so the recursive initialisation is not modelled; the overflow chain is a sequence.
- TurboRuns.Replay: after a doubling that takes a record out of reach lookups may miss, and the run is not followed further.
