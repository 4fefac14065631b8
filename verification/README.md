# A verified model of CSCDB

CSCDB is a relational engine in C++.  This project models five of its cores in Dafny and proves what
they are for.  `dafny verify dfyconfig.toml` checks everything.

**The B+ tree index** (`IndexPages`, `IndexTree`, `IndexShape`, `IndexRemoval`, `IndexHandle`,
`IndexKeys`, `IndexScan`, `IndexRuns`).  `Handle` is a class whose pages, root, leaf cache and pins
are changed in place as the C++ class changes them, with the two mutually recursive repairs after a
deletion.  Its invariant `Shape` says that levels, parent pointers, separators, node sizes, the leaf
ring and the last leaf fit together; every public operation keeps it and acts on the key-rid map the
tree stands for.  Keys are integers in the tree; `IndexKeys` shows that comparing real keys column by
column is an order of that kind.  `IndexScan` walks the leaf ring between two positions.

**The write-ahead log** (`LogFormat`, `LogWorker`, `LogDelta`, `LogRecords`).  `LogWorker` is a step
system of clients and one flush worker over two buffers, two mutexes and three condition variables;
its theorems hold in every interleaving.  `LogFormat` has the CRC-32, the frames and the recovery
scan that reads them; `LogDelta` and `LogRecords` the byte diff and the record codecs.

**Access paths** (`ScanBounds`, `ScanExec`, `JoinQuery`, `JoinDerive`, `JoinPlanner`, `JoinExec`,
`IndexJoin`, `JoinExact`, `JoinBags`, `JoinRun`, `ExplainPlan`, `ExplainBuild`).  Index scan, full
scan, both joins, the planner and EXPLAIN ANALYZE are all measured against one thing: the cross
product filtered by the conditions.

**Record file and statements** (`Bitmaps`, `HeapFile`, `HeapRuns`, `TableStore`, `Statements`).  The record file
gives no slot to two live or pending rows; INSERT, UPDATE and DELETE keep every unique index equal to
the key-rid map of the records.

**Grouping and prepared INSERTs** (`Aggregation`, `InsertTemplate`), with `Streams`, `Sequences` and
`Options` as helpers.

## Where the code does not meet its promise

- A client that waits for log space can be left waiting: another client's record may fill the buffer
  that was just emptied before the waiter wakes up, and nobody raises the flush flag again
  (`LogWorker.SpaceWaiterStalls`).  In every reachable state, a step leaves a client stuck exactly if
  it ends an append that takes the space the client waits for while the worker rests and the flag is
  down (`LogWorker.OnlyAppendsStall`); the client stays stuck until another client raises the flag,
  by asking for persistence or by finding no space itself (`LogWorker.StuckUntilFlag`,
  `LogWorker.StuckForGood`).
- The planner's `pop_conds` hands a comparison of two columns of one table to the first table's scan,
  even if it is about another table.  A full scan does not apply it (`JoinRun.SelfComparisonDropped`);
  the constructor of an index scan ends the program at it (`JoinRun.SelfComparisonAborts`), and does
  so exactly if the first table's conditions can use an index and some condition compares two columns
  of a later table (`JoinPlanner.BuildsExactly`).
- The planner may pick an index of which a join binds only some columns; the index join then returns
  nothing (`JoinRun.PartlyBoundProbe`).  `JoinRun.QueryExact` says for all queries what comes out, and
  `JoinRun.QueryRight` exactly when it is what the query asks for.
- A multi-row INSERT that fails can keep rows (`Statements.SecondRowFails`).  It leaves the records as
  they were exactly if the number of values is wrong or the first row is refused against the records
  before the call (`TableStore.FailedInsertKeeps`, and the last clause of `TableStore.Store.Insert`).
- Storing a record at a given rid does not look whether the slot is in use; the file stays consistent
  exactly if it is not (`HeapFile.File.InsertRecordAt`).

## Model

| member | source | states |
|---|---|---|
| IndexHandle.Handle.constructor | src/index/ix_manager.h:98-127 | a new index is a valid tree with the empty map |
| IndexHandle.Handle.InsertEntry | src/index/ix_index_handle.cpp:345-424 | the tree stays valid and denotes the old map, with the pair added exactly if the key was absent; the returned page is the leaf responsible for the key; no pin is left over |
| IndexHandle.Handle.DeleteEntry | src/index/ix_index_handle.cpp:431-462 | true exactly if the key was present; the tree stays valid and denotes the old map without the key; an absent key leaves the tree as it was |
| IndexHandle.Handle.GetValue | src/index/ix_index_handle.cpp:218-229 | finds the rid of a key exactly if the map has the key; the tree and its pins are unchanged |
| IndexHandle.Handle.FindLeafPage | src/index/ix_index_handle.cpp:198-208 | descent ends at the leaf responsible for the key, with one pin on it |
| IndexHandle.Handle.PickLeaf | src/index/ix_index_handle.cpp:345-380 | the remembered rightmost leaf and the descent from the root pick the same leaf |
| IndexShape.CoversUnique | src/index/ix_index_handle.cpp:352-372 | at most one leaf is responsible for a key, which is why the shortcut agrees with the descent |
| IndexHandle.Handle.Split | src/index/ix_index_handle.cpp:238-280 | the right half moves to a new page, leaf links and child parents included; the entries are unchanged and the new page waits for its parent entry |
| IndexHandle.Handle.InsertIntoParent | src/index/ix_index_handle.cpp:295-337 | enters a split-off page into its parent, splitting on as far as needed, up to a new root; shape and entries hold again |
| IndexHandle.Handle.CoalesceOrRedistribute | src/index/ix_index_handle.cpp:475-528 | repairs an underfull node by borrowing or merging up the tree; true exactly if the node it was given is gone; shape and entries hold again |
| IndexHandle.Handle.AdjustRoot | src/index/ix_index_handle.cpp:536-555 | a root with one child is replaced by it, and an empty root leaf stays |
| IndexHandle.Handle.Redistribute | src/index/ix_index_handle.cpp:571-596 | one entry moves over from the neighbour and the separators follow; shape and entries hold again |
| IndexHandle.Handle.Coalesce | src/index/ix_index_handle.cpp:612-662 | the right page of a pair is taken into the left one and out of the tree, the ring and its parent |
| IndexHandle.Handle.MaintainParent | src/index/ix_index_handle.cpp:818-837 | after the first key of a node changed, every separator above it equals its child's first key again |
| IndexShape.SplitStep | src/index/ix_index_handle.cpp:238-280 | splitting any overfull node keeps every part of the tree invariant except for the missing parent entry |
| IndexRemoval.BorrowStep | src/index/ix_index_handle.cpp:571-596 | borrowing restores the whole tree invariant and keeps the entries |
| IndexRemoval.MergeStep | src/index/ix_index_handle.cpp:612-662 | merging moves the only possible underflow one level up and keeps the entries |
| IndexRemoval.DropRootStep | src/index/ix_index_handle.cpp:536-550 | dropping a root with one child restores the whole tree invariant |
| IndexRuns.Run | src/index/ix_index_handle.cpp:218-462 | after any run of insertions, deletions and lookups on a new index, the tree denotes the map the run describes and every answer was right |
| IndexRuns.RootReachesLeaves | src/index/ix_index_handle.h:76-101 | following child entries down from the root takes the same number of steps everywhere and gives exactly the leaves |
| IndexRuns.LeafRing | src/index/ix_index_handle.cpp:253-271 | from page 2 the next links visit every leaf once in key order and end at the header page; the previous links undo them; the last leaf is the remembered one |
| IndexPages.NodeLowerBound | src/index/ix_index_handle.cpp:21-33 | binary search finds the first position whose key is not below the target |
| IndexPages.NodeUpperBound | src/index/ix_index_handle.cpp:41-53 | binary search over an internal node finds the first position after the first whose key is above the target |
| IndexPages.FindChild | src/index/ix_index_handle.h:150-158 | the loop finds the entry that points to a child |
| IndexKeys.CompareKeys | src/index/ix_index_handle.h:40-50 | column-by-column comparison orders keys as one integer order does, and gives 0 only for equal keys |
| IndexKeys.NodeFits | src/index/ix_manager.h:64-84 | for every key length up to the limit a node of order + 1 entries fits its page, and one entry more would not |
| IndexKeys.CreateIndex | src/index/ix_manager.h:67-88 | refuses exactly the key lengths over the limit, and otherwise derives a capacity that fits a page |
| IndexScan.LowerBound | src/index/ix_index_handle.cpp:696-713 | the position of the first entry whose key is not below the given one |
| IndexScan.UpperBound | src/index/ix_index_handle.cpp:721-742 | the position of the first entry whose key is above the given one |
| IndexScan.LeafBegin | src/index/ix_index_handle.cpp:765-769 | the position of the first entry |
| IndexScan.LeafEnd | src/index/ix_index_handle.cpp:750-757 | the position after the last entry |
| IndexScan.Cursor.NormalizePosition | src/index/ix_scan.cpp:59-72 | a position past the last entry is turned into the end; nothing is skipped |
| IndexScan.Cursor.Advance | src/index/ix_scan.cpp:74-84 | the rest of the walk loses its first entry, across leaf borders too |
| IndexScan.Cursor.CurrentRid | src/index/ix_scan.cpp:86-97 | the rid of the first entry of the rest, or an invalid rid at the end |
| IndexScan.Drain | src/index/ix_scan.cpp:22-97 | a cursor visits the entries of its rest once, in order, and terminates even if it starts behind its end |
| IndexScan.RangeScan | src/index/ix_scan.cpp:22-97 | between any two bounds the scan visits exactly the entries between them; if the bounds cross over an entry, it runs from the lower bound to the last entry |
| IndexScan.WithinIsSlice | src/index/ix_index_handle.cpp:696-742 | the entries between two bounds, picked one by one, are the slice between their positions |
| LogWorker.StepInv | src/recovery/log_manager.cpp:119-278 | every step of every client and of the flush worker keeps the log invariant |
| LogWorker.RunInv | src/recovery/log_manager.cpp:119-278 | the invariant holds in every interleaving, and the persistent LSN never decreases |
| LogWorker.PersistGrows | src/recovery/log_manager.cpp:255-262 | no step lowers the persistent LSN |
| LogWorker.Durability | src/recovery/log_manager.cpp:181-278 | after a crash anywhere in any run, the recovery scan of the synced file gives back every record up to the published LSN, in LSN order |
| LogWorker.ReturnedIsDurable | src/recovery/log_manager.cpp:152-175 | a client whose wait returned finds its record durable, at that moment and in every later state |
| LogWorker.FileShape | src/recovery/log_manager.cpp:231-250 | the file is whole frames with at most one being written; the append offset counts frames, frame in flight and active buffer; the buffer to be swapped in is empty and none overflows |
| LogWorker.NoLostRequest | src/recovery/log_manager.cpp:140-175 | an open request has its flag up, or the worker is not waiting, or the requester has yet to raise the flag |
| LogWorker.FlushGoesOn | src/recovery/log_manager.cpp:205-275 | a flush that has begun can always take its next step |
| LogWorker.OnlyAppendsStall | src/recovery/log_manager.cpp:119-130 | in every reachable state, a step leaves a client stuck waiting for space exactly if it ends an append that takes the space the client waits for, with the worker at rest and the flush flag down |
| LogWorker.StuckUntilFlag | src/recovery/log_manager.cpp:119-150 | a stuck client gets free exactly if another client raises the flush flag, by asking for persistence or by finding no space itself |
| LogWorker.StuckForGood | src/recovery/log_manager.cpp:119-150 | a stuck client stays stuck through every run in which nobody raises the flag |
| LogWorker.SpaceWaiterStalls | src/recovery/log_manager.cpp:122-130 | a concrete run in which a client that waits for space is left waiting with nobody about to wake the worker |
| LogFormat.WalCrc32 | src/recovery/log_defs.h:43-59 | the table-driven checksum is the bit-by-bit CRC-32 (section 8 of RFC 1952) |
| LogFormat.TableStep | src/recovery/log_defs.h:46-57 | one table lookup stands for eight shifts of the register |
| LogFormat.Scan | src/recovery/log_recovery.cpp:33-73 | the recovery scan over offsets reads the batches at the front of the file, and stops at the first that is not whole |
| LogFormat.FrameBack | src/recovery/log_manager.cpp:231-250 | a frame, whatever follows it, is read back as its body |
| LogFormat.ScanRecordsBack | src/recovery/log_recovery.cpp:55-73 | records written one after the other are read back one after the other |
| LogDelta.WalByteDiff | src/recovery/log_manager.h:66-97 | the diff is the list of ranges of the marks, and -1 exactly when there are more than eight |
| LogDelta.RunsIsDiff | src/recovery/log_manager.h:66-97 | the ranges start and end on a difference, cover all differences, have no eight equal bytes inside and at least eight between them |
| LogDelta.DiffUnique | src/recovery/log_manager.h:66-97 | no other list of ranges has these properties |
| LogDelta.DeltaPatches | src/recovery/log_manager.h:402-446 | the new bytes of the ranges turn the old image into the new one, and the old bytes turn it back |
| LogDelta.Patch | src/recovery/log_recovery.cpp:196-216 | the loop over the ranges patches the image, skipping ranges that do not fit |
| LogRecords.MakeDelta | src/recovery/log_manager.h:402-446 | a delta is built exactly if it is useful, with the ranges of the diff and a cut table name |
| LogRecords.SerializeDelta | src/recovery/log_manager.h:448-463 | the writing loop produces the encoding of the record |
| LogRecords.RecordBack | src/recovery/log_manager.h:99-133 | every record type is read back as it was written, consuming exactly its bytes |
| LogRecords.RecordLength | src/recovery/log_manager.h:99-133 | the length field is the length of the encoding |
| LogRecords.DeltaRecordWorks | src/recovery/log_manager.h:383-481 | a useful delta record survives writing and reading in exactly its stated length, and then turns old into new and new into old |
| ScanBounds.AnalyzeConditions | src/execution/executor_index_scan.h:182-201 | collects equality constants for the longest possible prefix of the index columns |
| ScanBounds.RangeBounds | src/execution/executor_index_scan.h:396-420 | keeps the tightest lower and the tightest upper bound that a condition gives |
| ScanBounds.FillExtremeFrom | src/execution/executor_index_scan.h:353-370 | columns from a place on become the extreme of their type; the columns before stay |
| ScanBounds.FilledMin | src/execution/executor_index_scan.h:346-370 | a prefix filled with minima is not above any key with that prefix |
| ScanBounds.FilledMax | src/execution/executor_index_scan.h:346-370 | a prefix filled with maxima is not below any key with that prefix |
| ScanBounds.BuildRange | src/execution/executor_index_scan.h:385-490 | the key range holds every key the conditions can want, starts at the prefix and does not run backwards; it is marked empty exactly for contradictory bounds |
| ScanBounds.GuardExact | src/execution/executor_index_scan.h:481-490 | comparing the two filled keys tells contradictory bounds from all others |
| ScanBounds.PrefixLeft | src/execution/executor_index_scan.h:249-262 | once a key of the range has left the equality prefix, so have all later ones |
| ScanExec.IndexScanExecutor.BeginTuple | src/execution/executor_index_scan.h:372-500 | what the scan will return are the matches among all entries, in key order |
| ScanExec.IndexScanExecutor.PositionToMatch | src/execution/executor_index_scan.h:220-281 | moves to the next match and loses none |
| ScanExec.IndexScanExecutor.NextTuple | src/execution/executor_index_scan.h:502-506 | one match further |
| ScanExec.IndexScanAll | src/execution/executor_index_scan.h:353-508 | the index scan returns exactly the records that satisfy the conditions, each once, in key order |
| ScanExec.SeqScanExecutor.PositionToNextMatch | src/execution/executor_seq_scan.h:117-150 | moves to the next record that satisfies the conditions and loses none |
| ScanExec.SeqScanAll | src/execution/executor_seq_scan.h:206-226 | the full scan returns exactly the records that satisfy the conditions, in rid order |
| ScanExec.CompareScans | src/execution/executor_index_scan.h:372-508 | index scan and full scan return the same bag of records |
| ScanExec.MatchingContents | src/execution/executor_index_scan.h:220-281 | the matches are the satisfying records of the entries, without repetition |
| HeapFile.LayoutFits | src/record/rm_manager.h:46-49 | for every record size from 1 to 512, headers, bitmap and slots fit a page, and a page holds at least one record |
| Bitmaps.NextBit | src/record/bitmap.h:36-43 | the first position after the current one with the wanted bit, or the limit |
| Bitmaps.SetOne | src/record/bitmap.h:17-18 | setting a bit changes that bit and no other |
| Bitmaps.ResetOne | src/record/bitmap.h:20-21 | resetting a bit changes that bit and no other |
| Bitmaps.CountSet | src/record/bitmap.h:17-18 | the number of set bits grows by one exactly if the bit was clear |
| HeapFile.RidKeyInverse | src/record/rm_file_handle.h:53-56 | a rid can be read back from the key it is remembered by |
| HeapFile.File.FindFreeSlot | src/record/rm_file_handle.cpp:39-49 | finds a slot that is neither used nor reserved, or shows that the page has none |
| HeapFile.File.EnsureInsertPageCached | src/record/rm_file_handle.cpp:51-86 | afterwards the cached page has a slot to give away, so allocation never fails |
| HeapFile.File.constructor | src/record/rm_manager.h:36-58 | a new file has no records and no reservations |
| HeapFile.File.CreatePage | src/record/rm_file_handle.cpp:79-85 | the appended page has only free slots and becomes the head of the free list; no record changes |
| HeapFile.File.Occupy | src/record/rm_file_handle.cpp:101-117 | one unused slot becomes a record; a page this fills gives its place at the head of the free list to its successor |
| HeapFile.File.Free | src/record/rm_file_handle.cpp:211-220 | one record goes; a page that was full becomes the head of the free list |
| HeapFile.File.InsertRecord | src/record/rm_file_handle.cpp:94-120 | the record gets a rid that was neither live nor reserved; no other record and no reservation changes |
| HeapFile.File.ReserveInsertSlot | src/record/rm_file_handle.cpp:122-132 | the reserved rid was neither live nor reserved; the records stay as they are |
| HeapFile.File.PublishInsertSlot | src/record/rm_file_handle.cpp:134-167 | publishing succeeds exactly for reserved rids, which become live records |
| HeapFile.File.CancelInsertSlot | src/record/rm_file_handle.cpp:169-172 | the reservation is gone and nothing else changes |
| HeapFile.File.InsertRecordAt | src/record/rm_file_handle.cpp:179-194 | puts a record at the rid, or reports a page that does not exist; the file stays valid exactly if the slot was neither live nor reserved |
| HeapFile.File.DeleteRecord | src/record/rm_file_handle.cpp:201-223 | removes exactly the record of the rid, or reports which part of the rid does not exist |
| HeapFile.File.UpdateRecord | src/record/rm_file_handle.cpp:232-245 | overwrites exactly the record of the rid, or reports which part of the rid does not exist |
| HeapFile.File.GetRecord | src/record/rm_file_handle.cpp:19-36 | the record of the rid exactly if there is one |
| HeapFile.Scan.Next | src/record/rm_scan.cpp:27-49 | the rest of the scan loses its first record |
| HeapFile.ScanAll | src/record/rm_scan.cpp:18-56 | the scan visits exactly the published records, each once, in rid order |
| HeapRuns.Run | src/record/rm_file_handle.cpp:39-223 | any run of insertions, reservations, publications, cancellations, deletions and updates on a new file goes through allowed states only: a rid that is given out was in no use; the scan then visits exactly the published records in rid order |
| HeapRuns.NeverBoth | src/record/rm_file_handle.cpp:94-172 | in no state of a run is a slot both published and set aside |
| HeapRuns.GivenOnce | src/record/rm_file_handle.cpp:94-223 | a slot is given out a second time only after a deletion or a cancellation of it in between |
| HeapFile.RecordsFromExact | src/record/rm_scan.cpp:27-56 | the records from any position on are those at or after it, in ascending order |
| TableStore.Store.InsertRow | src/execution/executor_insert.h:101-168 | a row is refused, and nothing changes, exactly if its key is taken in some index; otherwise one record is added and every index still is the key-rid map of the records |
| TableStore.Store.Insert | src/execution/executor_insert.h:47-171 | rows are inserted in order until the first that has a bad value or a taken key; what was inserted before it stays, and the outcome names the reason; a failing statement leaves the records as they were exactly if it was refused at once |
| TableStore.FailedInsertKeeps | src/execution/executor_insert.h:47-171 | an INSERT that fails leaves the records as they were exactly if its first row is refused against the records before the call; otherwise the rows before the failing one stay |
| Statements.SecondRowFails | src/execution/executor_insert.h:47-171 | the INSERT of two rows with one key into an empty table fails and keeps the first row |
| TableStore.Store.Delete | src/execution/executor_delete.h:71-156 | exactly the given records are gone from the file and from every index |
| TableStore.Store.UpdateRow | src/execution/executor_update.h:205-370 | a record is left alone exactly if its new key belongs to another record; otherwise it and all indexes move to the new row |
| TableStore.Store.Update | src/execution/executor_update.h:138-372 | records are updated one after the other in rid order, each against the state its predecessors left |
| TableStore.ApplySetLoop | src/execution/executor_update.h:70-88 | every assigned column has the value its last clause gives on the old row; the other columns keep theirs |
| TableStore.AppliedUnique | src/execution/executor_update.h:70-88 | this leaves no choice for the new row |
| TableStore.UntouchedKey | src/execution/executor_update.h:248-260 | an index none of whose columns is assigned keeps the key of the row |
| TableStore.TouchedClash | src/execution/executor_update.h:241-290 | looking only at indexes with an assigned column finds a clash exactly if there is one in any index |
| TableStore.AgreeClash | src/execution/executor_insert.h:82-92 | an index lookup finds another record exactly if one has the same key columns |
| TableStore.SortRidsSorts | src/execution/executor_update.h:139-143 | sorting keeps the set of rids and makes it ascending |
| TableStore.MakeRow | src/execution/executor_insert.h:52-60 | a row is built exactly if every value has its column's type and width; else the first bad value names the error |
| Statements.Select | src/execution/executor_index_scan.h:372-508 | whatever the access path, the selected rids are those of the satisfying records, each once |
| Statements.Execute | src/execution/executor_update.h:138-372 | every statement has the effect its text describes on the records and leaves file and indexes consistent |
| Statements.Run | src/execution/executor_insert.h:47-171 | any run of INSERT, UPDATE and DELETE goes through the states the statements describe and keeps every index equal to the key-rid map |
| Statements.UpdateAllRows | src/execution/executor_update.h:70-88 | an UPDATE leaves unselected records alone and makes each selected one its old self or the assignments applied to its old values |
| Statements.UpdateAllUnique | src/execution/executor_update.h:241-290 | an UPDATE never makes two records share a key |
| ExplainPlan.Execution.Stream | src/execution/explain_plan.h:105-148 | the emitted rows are those the tree denotes, and every counter grows by the passes times the rows of its node |
| ExplainPlan.Execution.StreamJoin | src/execution/explain_plan.h:133-147 | the right child is passed over once for every left row |
| ExplainPlan.JoinCounters | src/execution/explain_plan.h:133-147 | the right child of a join counts left rows times its one-pass rows; counters inside it scale the same way, those on the left count one pass |
| ExplainPlan.OwnCounter | src/execution/explain_plan.h:105-148 | one pass over a node adds its own rows to its own counter |
| ExplainBuild.BuildBranch | src/execution/explain_plan.h:180-209 | a branch emits the table's rows that satisfy the table's own conditions; it has a filter with exactly these, and a projection on the needed columns where one belongs |
| ExplainBuild.NeededCols | src/execution/explain_plan.h:164-177 | the projected columns are those a join condition or the output needs, each once |
| ExplainBuild.BuildTree | src/execution/explain_plan.h:213-244 | the left-deep tree in FROM order, each join with exactly the conditions whose later table it brings, emits the filtered cross product in nested-loop order |
| ExplainBuild.AllPlaced | src/execution/explain_plan.h:180-244 | every condition of the query is attached to exactly one node |
| ExplainBuild.Explain | src/execution/explain_plan.h:247-257 | the whole run: rows in nested-loop order, every condition on one node, every counter exact |
| JoinQuery.JoinStep | src/execution/explain_plan.h:225-242 | filtering table by table and join by join keeps exactly the rows that filtering the product keeps, in the same order |
| JoinQuery.KnownIsAll | src/execution/explain_plan.h:213-244 | with all tables joined, all conditions have been applied |
| JoinDerive.DerivePass | src/analyze/analyze.cpp:218-246 | one pass derives only conditions that follow, and one for every column an equality ties to a constant |
| JoinDerive.DeriveEqualities | src/analyze/analyze.cpp:217-250 | the derived conditions follow from the given ones, and every tied column has a constant |
| JoinDerive.ImpliedKeeps | src/analyze/analyze.cpp:217-250 | adding derived conditions filters nothing out |
| JoinPlanner.PopConds | src/optimizer/planner.cpp:149-164 | takes out the conditions a scan takes and keeps the rest, both in order |
| JoinPlanner.LaterTakes | src/optimizer/planner.cpp:274-281 | the scan of a later table takes exactly the conditions on that table |
| JoinPlanner.FirstTakes | src/optimizer/planner.cpp:149-164 | the scan of the first table applies exactly its own conditions among those it takes |
| JoinPlanner.WaitingStep | src/optimizer/planner.cpp:289-304 | each join takes exactly the conditions whose later table it brings |
| JoinPlanner.GetIndexCols | src/optimizer/planner.cpp:28-67 | the first index with the longest usable prefix |
| JoinPlanner.GetJoinIndexCols | src/optimizer/planner.cpp:74-126 | the first index with the longest bound prefix, if a join condition binds one of its columns |
| JoinPlanner.FullMatch | src/optimizer/planner.cpp:87-106 | an index is bound in all its columns exactly if its bound prefix is the whole index |
| JoinPlanner.MakeOneRel | src/optimizer/planner.cpp:269-313 | a left-deep plan with every condition in its place; nothing is left for the final push-down |
| JoinExec.NestedLoopJoin.FindNextMatch | src/execution/executor_nestedloop_join.h:146-163 | moves to the next pair that satisfies the conditions and loses none |
| JoinExec.NestedLoopJoin.BeginTuple | src/execution/executor_nestedloop_join.h:165-180 | what will be returned is the filtered product in nested-loop order |
| JoinExec.DrainNestedLoop | src/execution/executor_nestedloop_join.h:146-195 | running the join gives the filtered product in nested-loop order |
| IndexJoin.BuildLookupKey | src/execution/executor_index_nestedloop_join.h:35-70 | a key is built exactly if all index columns are bound, and every right row that passes the conditions has it |
| IndexJoin.LookupExact | src/execution/executor_index_nestedloop_join.h:106-114 | the lookup finds the only right row that can pass, if there is one |
| IndexJoin.DrainIndexJoin | src/execution/executor_index_nestedloop_join.h:131-188 | running the index join gives its result for all left rows |
| IndexJoin.ProbedBound | src/execution/executor_index_nestedloop_join.h:35-150 | with all index columns bound the index join returns exactly the nested-loop join with all conditions |
| IndexJoin.ProbedUnbound | src/execution/executor_index_nestedloop_join.h:66-67 | with an unbound column it returns nothing, whatever the tables hold |
| JoinExact.PlanExact | src/optimizer/planner.cpp:269-313 | a plan whose probes are all fully bound returns the filtered cross product of its effective conditions, and any other plan nothing |
| JoinBags.JoinBag | src/execution/executor_nestedloop_join.h:146-195 | reordering the inputs of a join reorders its output and does no more |
| JoinPlanner.BuildPlan | src/execution/executor_index_scan.h:88-98 | the executors of a plan can be built exactly if no index scan carries a condition that neither starts nor ends with its own table |
| JoinPlanner.BuildsExactly | src/execution/executor_index_scan.h:88-98 | a query's executors can be built exactly if no index of the first table is usable or no condition compares two columns of a later table |
| JoinRun.ScanTable | src/optimizer/planner.cpp:274-283 | a planned scan that can be built returns the table's rows that satisfy the table's conditions, in some order |
| JoinRun.RunPlan | src/optimizer/planner.cpp:269-313 | a plan over stored tables returns what it denotes, in some order, and leaves the tables as they are |
| JoinRun.QueryExact | src/optimizer/planner.cpp:269-313 | for all queries, what the plan comes to: the filtered cross product if no condition compares two columns of one later table and all probes are bound; otherwise the end of the program, the product filtered by the remaining conditions, or nothing, and exactly when which |
| JoinRun.QueryRight | src/optimizer/planner.cpp:269-313 | the plan's rows are the filtered cross product exactly if, with an unbound probe, no combination satisfies the conditions, and otherwise every combination that satisfies the applied conditions satisfies all |
| JoinRun.RunQuery | src/analyze/analyze.cpp:217-250 | analysis, planning and execution together: the bag of rows of the filtered cross product if no condition compares two columns of one later table and all probes are bound; else what comes out instead, and exactly when it is right all the same |
| JoinRun.SelfComparisonDropped | src/optimizer/planner.cpp:156 | for a query with a comparison inside its second table and no index, every plan returns a row that does not satisfy it |
| JoinRun.SelfComparisonAborts | src/execution/executor_index_scan.h:88-98 | for a query with a usable index on its first table and a comparison inside its second, no plan's executors can be built |
| JoinRun.PartlyBoundProbe | src/optimizer/planner.cpp:108-114 | for a query with a half-bound index, every plan returns nothing though a row satisfies the condition |
| Aggregation.KeysEqual | src/execution/executor_aggregation.h:124-149 | group keys are equal exactly if all grouping columns are |
| Aggregation.GroupColumns | src/execution/executor_aggregation.h:466-473 | the grouping columns are read back from the key unchanged |
| Aggregation.FirstAppearance | src/execution/executor_aggregation.h:336-342 | the keys come once each, in the order of their first rows |
| Aggregation.FoldDistinct | src/execution/executor_aggregation.h:360-366 | counting distinct bytes counts distinct values |
| Aggregation.FoldInts | src/execution/executor_aggregation.h:386-396 | sum, maximum and minimum of an integer column |
| Aggregation.FoldStrings | src/execution/executor_aggregation.h:407-416 | maximum and minimum of a string column, cut at the first zero byte |
| Aggregation.AggMeaning | src/execution/executor_aggregation.h:450-523 | every aggregate of a group has its textbook value over the rows of the group |
| Aggregation.AggExecutor.BeginTuple | src/execution/executor_aggregation.h:326-431 | after the pass every group has the accumulators of its rows; without grouping there is one group even on empty input |
| Aggregation.AggExecutor.BuildCur | src/execution/executor_aggregation.h:450-523 | the output row has the columns every row of the group shares, and the aggregates over its rows |
| Aggregation.GroupOfKey | src/execution/executor_aggregation.h:124-149 | the rows with the key of a row are the rows that agree with it in all grouping columns |
| Aggregation.KeyStarts | src/execution/executor_aggregation.h:336-342 | the keys in order belong to the places where groups start, all of them and in input order |
| Aggregation.Aggregate | src/execution/executor_aggregation.h:326-523 | one output row for every group, in order of first appearance: its grouping columns and the textbook aggregates over the rows that agree with its first row; without grouping columns one row for the whole input, be it empty |
| InsertTemplate.SubstituteParams | src/rmdb.cpp:670-697 | the loop replaces markers outside quotes and copies everything else |
| InsertTemplate.TryFastParseInsert | src/rmdb.cpp:350-406 | the walking parser accepts and reads the texts of the grammar it is specified by |
| InsertTemplate.ParamReads | src/rmdb.cpp:702-737 | a printed parameter reads as the parameter, whatever ends it |
| InsertTemplate.SlotsBound | src/rmdb.cpp:670-697 | substitution replaces every marker of a list of values and does not look into what it put in |
| InsertTemplate.SlotsRead | src/rmdb.cpp:376-399 | the list of values reads as the values of its places |
| InsertTemplate.SlotValues | src/rmdb.cpp:376-399 | every place of the list has its value, unless some used string holds a zero byte |
| InsertTemplate.PreparedInsert | src/rmdb.cpp:670-737 | for every template and parameter list, the statement parsed has exactly the given values, even if a string holds marker text; it is rejected exactly if a used string has a zero byte |
| InsertTemplate.BindAndParse | src/rmdb.cpp:824-834 | printing, substituting and parsing together; refused exactly if some string has a quote or some used string a zero byte |

## Left out

- Versioned rows: the MVCC chains, snapshot visibility, SSI checks, row locks, commit and abort.  Every executor is modelled with versioning and serialisability tracking off.
- Redo and undo over the tables; of recovery only the scan of the log and the patching of an image are modelled.
- The buffer pool, the disk manager and their failures: pages are a map, a write and a sync are steps, and page requests succeed.
- Floating-point columns, literals and AVG; keys are bounded integers and byte strings of fixed width.
- Column lookup by name: columns are numbers, and tables are named by their place in the FROM list, so two tables never share a name.
- Byte images of rows in pages: `HeapFile` keeps rows as lists of column values, one for each slot; `Aggregation` and `LogRecords` do go down to bytes.
- Indexes and files changing while a cursor or scan is open; cursor page pins and the lazily cached node of a cursor.
- The log worker's shutdown path after `stop_` is set, the timing of the group-commit windows, and write errors.
- `Handle` objects themselves: a node handle is a page number plus a pin; heap allocation of handles is not modelled.
- Exact contents of the record file's free list; the model keeps the links within the file, which is what slot safety needs.
- HeapFile.File.DeleteRecord: rids on the file header page are excluded, because the source would take the header for a record page.
- HeapFile.File.UpdateRecord: rids on the file header page are excluded, for the same reason.
- HeapFile.File.GetRecord: rids on the file header page are excluded, for the same reason.
- TableStore.ApplySetLoop: arithmetic SET clauses are modelled on integer columns; overflow, undefined in C++, wraps in two's complement.
- Builds without assertions: the program is taken as CMakeLists.txt builds it, so that a failed assertion in the constructor of an index scan ends it.
- JoinExec.NestedLoopJoin.BeginTuple: a child executor is the list of rows it returns; the interleaving of calls to the children is not modelled.
- ExplainPlan.Execution.Stream: rows are collected instead of passed to a callback, so that a join's left child is finished before its right child starts; counters and the order of the output do not depend on that.
- HAVING, ORDER BY, LIMIT, projection, and the formatting of EXPLAIN's output.
- InsertTemplate.TryFastParseInsert: floating-point literals keep their text; integer literals beyond 32 bits, undefined for the C++ conversion, keep their value.
- The full SQL grammar, the network protocol, the unused planner functions, and the LRU replacer.
- The planner's choice of a full scan for serialisable transactions; both access paths return the same rows.
