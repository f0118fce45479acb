# GeneralFramework in Dafny

This project models the concurrent and the storage half of GeneralFramework and proves what it is meant to
do.  Every file is one component; a component with state is a class, proved against a specification on
values, and the properties are lemmas about that specification.

- `HoareMonitor.dfy`: the signal-and-urgent-wait monitor, as a transition system with one step for each
  statement that touches shared state, over any number of threads and conditions.  An invariant follows the
  single permission to be inside, and every run refines a monitor whose calls take effect at once.
- `TripleBuffer.dfy`: the lock-free triple buffer, with the gap between each exchange and the assignment of
  the local index, and with relaxed loads that may be stale.
- `IntervalTree.dfy`, `Workers.dfy`, `ThreadPool.dfy`: the augmented tree on values and on nodes, the admission
  test of a worker with its 32-bit end time, and the placement of tasks on normal and late workers.
- `QuickSort.dfy`, `FileLRUCache.dfy`, `ExternalMergeSort.dfy`: run generation, the in-place sort, the k-way
  merge and the bounded set of open files.
- `Blocks.dfy`, `BlockFile.dfy`: the file of 1024-byte blocks at the level of bytes, for both record layouts.
- `DeltaLog.dfy`, `CsvConverter.dfy`, `Pipeline.dfy`: the logger that writes changed fields, the converter that
  fills rows forward, and what they do together with the sort and the block file; `LogInputs.dfy` holds the inputs
  on which they fail.
- `RunLength.dfy`, `CursorMerge.dfy`, `IntervalFiles.dfy`: samples compressed into validity intervals, the merge
  of interval files along a time line, and both together through the bytes of the files.
- `Flattening.dfy`: nested structures as lists of fields.  `Option.dfy` holds the one shared helper type.

The main results are `HoareMonitor.RunRefines`, `OnePermission`, `HandOff` and `StuckOnlyOnConditions`;
`TripleBuffer.NoTornRead` and `UpdatedIsLatest`; `IntervalTrees.SearchAfterInserts`; `Workers.ServeIsGreedy`;
`ThreadPools.NormalWorkersStayDisjoint` and `LateRoundRobin`; `ExternalSort.ExternalMergeSort.Start`;
`FileCache.CacheIsMostRecent`; `BlockFiles.FileRoundTrip`; `DeltaLog.RecordedIff`; `CsvConverter.ConvertIsRows`;
`Pipeline.RowsPrintHistories`, `AlwaysPrintsIff` and `LogSortAndConvert`; `RunLength.HistoryIsRightIff`,
`DisjointIff` and `RecordsAreFiled`; `CursorMerge.MultibinaryToCsv`; `IntervalFiles.MergeFiles` with
`GoesWrongIff`; and `Flattening.EveryLeafMeetsItsMonitor` with `MonitorsAreLeaves`.

## Conventions

Times that are only compared are `real`; where `nextafter` matters they are ranks of finite doubles, so that
the predecessor is one less.  Not-a-number is not a time.  A word of a field is an `int`, and the text of a cell
is a function parameter.  Clock readings, the byte layout of a log record and the names in the description file are
parameters; the byte layout of an interval record is written out.  A C++ container of values is a Dafny value in a
field that methods reassign; the file system, the tree nodes, the vector to sort and the block buffer are heap
objects or arrays.

The contracts of the classes name the function on values that they implement.  What these functions mean is
stated by the lemmas, which are the properties to read.

## Where the code differs from its comments or from what one would expect

The model follows the code.

- The traversal that is called in-order visits left, right, node.  It is this order that makes `clear` safe.
- `submitJob(task)` of the pool computes the next worker but asks the same one at each attempt
  (`ThreadPools.IdleWorkerIsIgnored`), and answers false although the job was placed on a late worker.
- The end of a job is a 32-bit sum.  When it wraps below the submission time, the interval starts at the wrapped
  end, and a job may be refused although the worker is idle (`Workers.StartIsNow`, `LateJobIsRefusedIff`,
  `WrappedEndIsRefused`).
- A relaxed load may miss a publication (`TripleBuffer.StaleLoadMissesNews`).
- The reader of a block file keeps the index of the first block with records.  A flush in the middle of a file
  makes later, fuller blocks unreadable (`BlockFiles.FlushedEarlyIsUnreadable`); `BlockFiles.FileRoundTrip` and
  `CursorMerge.MultibinaryToCsv` give the exact condition.
- The log compares the time and the value of a field with the latest change that its monitor accepted, recorded or
  not, but takes the changed fields from the copy of the structure, which every update replaces.  After a late
  update the two differ: an update can be dropped although it comes after the last record of its field and brings
  a new value (`LogInputs.UpdateIsLost`), and a dropped field takes its end mark with it (`LogInputs.EndIsLost`).
  `DeltaLog.RecordedIff` gives the exact condition.
- Equal times: the sort breaks ties by the word, so that the value that was set last need not be printed
  (`LogInputs.SameTimeIsAmbiguous`); `Pipeline.AlwaysPrintsIff` gives the exact condition.
- A column that is broken once stays n/a until its next record (`CsvConverter.ConvertIsRows`).  The last row of
  the converted log is written without looking at the marks (`CsvConverter.LastRowIgnoresMarks`);
  `CsvConverter.LastRowDiffersIff` says when this matters.
- The merge of interval files copies the pair of header positions and never stores it.  The former header is known
  only in the step that moves the cursor, and across a block boundary it is read from the reloaded buffer: a gap
  there shows the former value when the new block is at least as full (`CursorMerge.HiddenGapPrints`).  It never
  advances past an empty block, which a second flush leaves behind (`CursorMerge.EmptyBlockHides`).
  `CursorMerge.RightCellIff` and `IntervalFiles.GoesWrongIff` give the exact conditions.
- Clearing the file of an any-typed monitor emits the current interval even when it is invalid
  (`RunLength.CloseShowsInvalid`) and sets the clock of the monitor back to zero
  (`RunLength.CloseTurnsTimeBack`); the typed monitor emits neither its memory nor its current interval.
  `RunLength.HistoryIsRightIff` and `DisjointIff` give the exact conditions.

## Model

| member | source | states |
|---|---|---|
| HoareMonitor.StepKeepsInv | include/jackbergus/concurrency/HoareMonitor.h:48-96 | every step of every thread keeps the permission-token invariant: the single permission is in the mutex, in one private semaphore or with one thread, and queues, stack and owners agree with it |
| HoareMonitor.OnePermission | include/jackbergus/concurrency/HoareMonitor.h:48-96 | in every interleaving of any number of threads, mutex count + values of all private semaphores + number of threads inside is exactly 1 |
| HoareMonitor.RunRefines | include/jackbergus/concurrency/HoareMonitor.h:48-96 | every run of any number of threads refines the monitor whose calls take effect at once: who has called `mutex_in`, who is inside, the stack of suspended signallers, the queue of each condition and the data are at every step what the calls so far say, and every call is made by the one inside |
| HoareMonitor.StepRefines | include/jackbergus/concurrency/HoareMonitor.h:48-96 | one step of any thread is one call of that monitor, or none |
| HoareMonitor.InsideIsTheOne | include/jackbergus/concurrency/HoareMonitor.h:48-96 | a thread that executes its own code inside is the one that the calls have let in |
| HoareMonitor.SignalWithoutWaiter | include/jackbergus/concurrency/HoareMonitor.h:72-85 | in every run a signal on a condition that nobody waits for leaves every part of the state as it was, the signaller inside included |
| HoareMonitor.DataIsLastWrite | include/jackbergus/concurrency/HoareMonitor.h:48-96 | the protected data is what was written last |
| HoareMonitor.NoUseAfterFree | include/jackbergus/concurrency/HoareMonitor.h:52-86 | no step of any run waits on, signals or deletes a semaphore that has been deleted |
| HoareMonitor.DeleteIsSafe | include/jackbergus/concurrency/HoareMonitor.h:68-82 | when a call deletes its semaphore, no queue, no stack entry and no other thread refers to it |
| HoareMonitor.QueuedOnce | include/jackbergus/concurrency/HoareMonitor.h:35-37 | over all queues every semaphore is queued once, belongs to a waiting call on that very condition and is not on the stack; the same for the stack |
| HoareMonitor.PermissionWaits | include/jackbergus/concurrency/HoareMonitor.h:57-66 | once the permission is in a private semaphore, no other thread changes the protected state, the queues or the stack until the owner moves |
| HoareMonitor.HandOff | include/jackbergus/concurrency/HoareMonitor.h:72-96 | each V on a private semaphore goes to a blocked call, which resumes alone and finds the protected state as its resumer left it |
| HoareMonitor.SignallersBeforeNewcomers | include/jackbergus/concurrency/HoareMonitor.h:88-96 | while a signaller is suspended the mutex is 0 and nobody can acquire it |
| HoareMonitor.SignallersResumeLifo | include/jackbergus/concurrency/HoareMonitor.h:57-65 | as long as the upper of two suspended signallers is suspended, so is the lower one |
| HoareMonitor.WaitersResumeFifo | include/jackbergus/concurrency/HoareMonitor.h:72-79 | as long as the earlier of two waiters of a condition has not been resumed, the later one is still queued |
| HoareMonitor.StuckOnlyOnConditions | include/jackbergus/concurrency/HoareMonitor.h:48-96 | nobody inside a call can step if and only if the mutex is free and every call waits on a condition that nobody signalled; then no signaller is suspended |
| HoareMonitor.PermissionCanMove | include/jackbergus/concurrency/HoareMonitor.h:48-96 | unless the mutex is free, some call can step: the permission is never lost |
| HoareMonitor.Monitor.MutexIn | include/jackbergus/concurrency/HoareMonitor.h:48-50 | the method is the acquiring step of the protocol, and lets the caller in |
| HoareMonitor.Monitor.WaitCond | include/jackbergus/concurrency/HoareMonitor.h:52-66 | up to the block in P, the method is the three steps push, test and release, keeps the invariant, and is one call `wait` of the atomic monitor |
| HoareMonitor.Monitor.WaitCondResume | include/jackbergus/concurrency/HoareMonitor.h:66-70 | from P on, the method is the steps take and delete |
| HoareMonitor.Monitor.SignalCond | include/jackbergus/concurrency/HoareMonitor.h:72-86 | the method blocks exactly when somebody waits, and is then the steps pop, push and V; otherwise no field changes; either way it is one call `signal` of the atomic monitor |
| HoareMonitor.Monitor.SignalCondResume | include/jackbergus/concurrency/HoareMonitor.h:80-83 | from P on, the method is the steps take and delete |
| HoareMonitor.Monitor.MutexOut | include/jackbergus/concurrency/HoareMonitor.h:88-96 | the method passes the permission to the last suspended signaller, or frees the mutex, and is one call `leave` of the atomic monitor |
| TripleBuffer.StepKeepsInv | examples/test_triple_buffer.cpp:25-53 | every step of reader and writer, between an exchange and the index assignment too, keeps the slot invariant |
| TripleBuffer.SlotsArePermuted | examples/test_triple_buffer.cpp:67-72 | reader-owned, spare and writer-owned slot are always a permutation of 0, 1, 2 |
| TripleBuffer.LogIsPublications | examples/test_triple_buffer.cpp:13-17 | in every run the log is the sequence of the values that the writer was given and published, and the publication that the reader holds is the last one before its last exchange |
| TripleBuffer.NoTornRead | examples/test_triple_buffer.cpp:42-53 | the writer only ever changes its own slot, which is unreadable meanwhile, never that of the reader, and the slot of the reader is completely written and holds the value that the writer was given for that publication |
| TripleBuffer.ReadIsStable | examples/test_triple_buffer.cpp:25-35 | between two calls the slot of the reader keeps its contents, however often the writer publishes |
| TripleBuffer.HeldNeverDecreases | examples/test_triple_buffer.cpp:25-35 | the publication number held by the reader never decreases |
| TripleBuffer.UpdateStaysVisible | examples/test_triple_buffer.cpp:25-53 | the update flag is not lost before the next exchange of the reader |
| TripleBuffer.LoadReportsNews | examples/test_triple_buffer.cpp:26-28 | a load reports an update if and only if it is not stale and more was published than at the last exchange of the reader |
| TripleBuffer.UpdatedIsLatest | examples/test_triple_buffer.cpp:25-34 | when `updated` is true the reader gets the value that the writer was given last before the exchange and published, even one published after its load |
| TripleBuffer.NotUpdatedMeansNoNews | examples/test_triple_buffer.cpp:25-34 | when `updated` is false after a load that is not stale, nothing was published since the last exchange |
| TripleBuffer.StaleLoadMissesNews | examples/test_triple_buffer.cpp:26-26 | with a stale relaxed load that claim is false: a concrete run misses a publication |
| TripleBuffer.Buffer.Update | examples/test_triple_buffer.cpp:13-17 | one undisturbed update appends one publication, leaves the slot of the reader alone and keeps the invariant |
| TripleBuffer.Buffer.GetForReader | examples/test_triple_buffer.cpp:25-35 | undisturbed, the reader gets the latest publication and learns whether it is new |
| IntervalTrees.MakeInterval | include/jackbergus/data_structures/IntervalTree.h:23-24 | bounds given the wrong way round are exchanged |
| IntervalTrees.OverlapIff | include/jackbergus/data_structures/IntervalTree.h:115-122 | intervals overlap if and only if they have a point in common |
| IntervalTrees.InsertAddsOne | include/jackbergus/data_structures/IntervalTree.h:53-84 | insertion adds exactly the one interval to the contents |
| IntervalTrees.InsertKeepsRouting | include/jackbergus/data_structures/IntervalTree.h:63-73 | insertion keeps left lows < key <= right lows, for any truncation |
| IntervalTrees.InsertKeepsMaxExact | include/jackbergus/data_structures/IntervalTree.h:75-77 | insertion keeps the maximum of every subtree exact |
| IntervalTrees.LeftDecides | include/jackbergus/data_structures/IntervalTree.h:135-142 | if the left subtree reaches far enough but has no overlap, the right one has none: a single path suffices |
| IntervalTrees.SearchIsSound | include/jackbergus/data_structures/IntervalTree.h:126-143 | a found interval is stored and overlaps |
| IntervalTrees.SearchEqualsScan | include/jackbergus/data_structures/IntervalTree.h:126-143 | the pruned search finds something if and only if a linear scan does |
| IntervalTrees.SearchAfterInserts | include/jackbergus/data_structures/IntervalTree.h:53-143 | the same for every sequence of insertions and every truncation |
| IntervalTrees.InsertNode | include/jackbergus/data_structures/IntervalTree.h:53-84 | the pointer version adds one new node to the old ones and represents the tree of the value version |
| IntervalTrees.OverlapSearch | include/jackbergus/data_structures/IntervalTree.h:126-143 | the pointer version returns what the value version returns |
| IntervalTrees.VisitedOnce | include/jackbergus/data_structures/IntervalTree.h:145-155 | the traversal visits no node twice |
| IntervalTrees.ChildrenVisitedFirst | include/jackbergus/data_structures/IntervalTree.h:145-155 | a node is visited after both of its children, so that `clear` follows no deleted pointer |
| IntervalTrees.IntervalTree.InsertInterval | include/jackbergus/data_structures/IntervalTree.h:167-169 | the tree of the object is that of all insertions so far |
| IntervalTrees.IntervalTree.Lookup | include/jackbergus/data_structures/IntervalTree.h:171-173 | finds a stored overlapping interval if and only if there is one |
| IntervalTrees.IntervalTree.Clear | include/jackbergus/data_structures/IntervalTree.h:175-179 | deletes every node exactly once |
| Workers.AcceptedAreDisjoint | src/jackbergus/concurrency/thread_pool/EDF.cpp:64-85 | over any sequence of requests, a worker that is never forced has accepted pairwise disjoint intervals |
| Workers.IntervalIsSpan | src/jackbergus/concurrency/thread_pool/EDF.cpp:64-65 | the accepted interval reaches from now to the later of the deadline and now plus the duration; when that sum exceeds 32 bits it is the ordered pair of now and the later of the deadline and the sum less 2^32 |
| Workers.ServeIsGreedy | src/jackbergus/concurrency/thread_pool/EDF.cpp:64-85 | over any requests, forced or not, the tree holds the spans of exactly the granted requests and the queue their stamped tasks, and the next request is granted if and only if it is forced or its span meets none of theirs |
| Workers.InactiveRefuses | src/jackbergus/concurrency/thread_pool/EDF.cpp:59-62 | a worker that is not started or is to terminate refuses everything and stays as it is |
| Workers.StampedOrder | src/jackbergus/concurrency/thread_pool/EDF.cpp:72-81 | the stamp changes the submission time and the priority only; delayed tasks come before all others, and among tasks of one kind the later deadline comes first |
| Workers.TreeTestIsMaxEndTest | src/jackbergus/concurrency/thread_pool/EDF.cpp:64-66 | with a clock that never goes back, the tree test holds if and only if the new interval starts after the largest accepted end, forced insertions included |
| Workers.StartIsNow | src/jackbergus/concurrency/thread_pool/EDF.cpp:64-65 | the interval starts at the submission time if and only if the 32-bit end does not wrap or the deadline has not passed |
| Workers.LateJobIsRefusedIff | src/jackbergus/concurrency/thread_pool/EDF.cpp:64-68 | a job submitted after every accepted end is refused if and only if its end wraps, and both the deadline and the wrapped end are not after all of them |
| Workers.EDF.Start | src/jackbergus/concurrency/thread_pool/EDF.cpp:15-17 | a worker starts unless it was told to terminate |
| Workers.EDF.SubmitJob | src/jackbergus/concurrency/thread_pool/EDF.cpp:54-94 | the object with its tree and queue does what the value version does |
| ThreadPools.SubmitPlacesOnce | include/jackbergus/concurrency/ThreadPool.h:66-83 | on a started pool every task goes to exactly one queue; the answer is true if and only if the normal worker under the cursor admits the task at one of the readings, and then that worker received it at the first of them, otherwise the late worker whose turn it is |
| ThreadPools.SubmitToPlacesOnce | include/jackbergus/concurrency/ThreadPool.h:52-64 | a task with a worker of choice goes to that worker if it admits the task at once, and otherwise to the late worker whose turn it is; a late index is refused without any change |
| ThreadPools.ForcePlacesOnce | include/jackbergus/concurrency/ThreadPool.h:93-113 | a delayed task goes to exactly one worker, the late one whose turn it is, at the first reading at which that worker admits it or else by force at the last |
| ThreadPools.PlacementConserves | include/jackbergus/concurrency/ThreadPool.h:52-113 | all queues together gain the task once |
| ThreadPools.NormalWorkersStayDisjoint | include/jackbergus/concurrency/ThreadPool.h:52-113 | whatever is submitted in whatever order, every normal worker has accepted pairwise disjoint intervals |
| ThreadPools.RoundRobin | include/jackbergus/concurrency/ThreadPool.h:66-76 | over any sequence of tasks that are admitted at once the cursor takes one turn for each task |
| ThreadPools.TurnIs | include/jackbergus/concurrency/ThreadPool.h:74-74 | after any number of turns the cursor has advanced by that number, modulo the number of normal workers |
| ThreadPools.NormalTurns | include/jackbergus/concurrency/ThreadPool.h:69-76 | a task that is first admitted at attempt k turns the normal cursor k + 1 times and leaves the late one alone |
| ThreadPools.LateTurns | include/jackbergus/concurrency/ThreadPool.h:93-113 | a delayed task that is first admitted at attempt k turns the late cursor k + 1 times, one that comes to force once, and the normal cursor stays |
| ThreadPools.LateRoundRobin | include/jackbergus/concurrency/ThreadPool.h:93-113 | over any sequence of delayed tasks, each taken at the first attempt or by force, the late cursor takes one turn for each task |
| ThreadPools.LateTaskGoesRound | include/jackbergus/concurrency/ThreadPool.h:93-113 | after such a sequence the next delayed task goes to the late worker that many turns on |
| ThreadPools.IdleWorkerIsIgnored | include/jackbergus/concurrency/ThreadPool.h:69-79 | the loop asks one worker only: a concrete task goes to a late worker although another normal worker would admit it at every reading |
| ThreadPools.ThreadPool.ForceComputationThatWillBeDelayedNevertheless | include/jackbergus/concurrency/ThreadPool.h:93-113 | the object does what the value version does |
| ThreadPools.ThreadPool.SubmitJob | include/jackbergus/concurrency/ThreadPool.h:66-83 | the object does what the value version does |
| ThreadPools.ThreadPool.SubmitJobTo | include/jackbergus/concurrency/ThreadPool.h:52-64 | the object does what the value version does |
| Records.HeapOrderReversesRunOrder | include/jackbergus/algorithms/ExternalMergeSort.h:82-98 | the order of the heap is exactly the reverse of the lexicographic order of the runs, which is total and transitive |
| QuickSorts.Partition | include/jackbergus/algorithms/QuickSort.h:33-44 | the pivot ends in the middle of what is at most and at least the pivot, and nothing outside the range moves |
| QuickSorts.QuickSortRange | include/jackbergus/algorithms/QuickSort.h:47-57 | the range ends up sorted and rearranged, nothing outside it changes, `p - 1` does not underflow, and it terminates |
| QuickSorts.QuickSort | include/jackbergus/algorithms/QuickSort.h:60-69 | the vector ends up sorted and with the same records |
| ExternalSort.MergeStep | include/jackbergus/algorithms/ExternalMergeSort.h:221-243 | the merge invariant over one round: the heap holds the head of each unexhausted fragment, nothing left is below the output, nothing is lost, and less is left |
| ExternalSort.ExternalMergeSort.MakeRuns | include/jackbergus/algorithms/ExternalMergeSort.h:150-197 | what was read is in sorted fragments of exactly `slot` records or in a buffer that is not full |
| ExternalSort.ExternalMergeSort.Merge | include/jackbergus/algorithms/ExternalMergeSort.h:214-243 | the output is sorted, has exactly the records of the fragments, no file stays open and every fragment file has been removed |
| ExternalSort.ExternalMergeSort.Start | include/jackbergus/algorithms/ExternalMergeSort.h:111-251 | for every input and slot size the output is the sorted input, it is sorted in memory if and only if no slot fills, every opened file has been closed, and no fragment file is left |
| FileCache.FileLRUCache.MoveToFront | include/jackbergus/data_structures/LRUCache.h:31-35 | list and map keep agreeing and the entry moves to the front |
| FileCache.FileLRUCache.GetFile | include/jackbergus/algorithms/ExternalMergeSort.h:37-56 | the handle is open on the right file, the cache is the least-recently-used one, and only the evicted handle is closed |
| FileCache.FileLRUCache.Close | include/jackbergus/algorithms/ExternalMergeSort.h:58-70 | the entry and its handle, and no other, are gone |
| FileCache.OpenIsBounded | include/jackbergus/algorithms/ExternalMergeSort.h:45-50 | at most `capacity` files are open |
| FileCache.CacheIsMostRecent | include/jackbergus/algorithms/ExternalMergeSort.h:37-56 | over any sequence of requests the cached names are the `capacity` most recently requested distinct names, the latest request first |
| FileCache.EvictsTheOldest | include/jackbergus/algorithms/ExternalMergeSort.h:45-50 | over any requests and closes the list is in the order of the last requests, and a request pushes out a name only from a full cache, and then the one whose last request is oldest |
| BlockFiles.LERoundTrip | include/jackbergus/framework/ndp/FileSerializer.h:168-168 | a record count survives being written as a little-endian word |
| BlockFiles.FileRoundTrip | include/jackbergus/framework/ndp/FileSerializer.h:119-175 | whatever records of one size are written, flushed at any point and closed, the reader gets exactly them if and only if no block has more records than the first one with any |
| BlockFiles.PlainRoundTrip | include/jackbergus/framework/ndp/FileBlockWrapper.h:67-142 | records written without a flush in between are read back as they are, in both layouts, with or without a flush before the close |
| BlockFiles.MixedFileResult | include/jackbergus/framework/ndp/FileBlockWrapper.h:119-142 | records of different sizes are read back when those of every block begin where those of the first block do, for which the index is made |
| BlockFiles.OversizedIsIgnored | include/jackbergus/framework/ndp/FileSerializer.h:119-123 | after any calls a write to an open file is accepted if and only if the record fits into a block, and refused writes have made no difference |
| BlockFiles.ClosedIsFinal | include/jackbergus/framework/ndp/FileSerializer.h:155-163 | a closed file takes nothing more, and closing it again changes nothing |
| BlockFiles.TailIsIgnored | include/jackbergus/framework/ndp/FileBlockWrapper.h:67-77 | bytes after the last whole block are not read |
| Blocks.ReadableIff | include/jackbergus/framework/ndp/FileBlockWrapper.h:120-141 | the index of the first block with records fits all blocks if and only if none has more records |
| BlockFiles.FlushedEarlyIsUnreadable | include/jackbergus/framework/ndp/FileBlockWrapper.h:107-110 | it fails: a record, a flush and two records cannot be read back |
| BlockFiles.ClosedBlocks | include/jackbergus/framework/ndp/FileBlockReader.h:55-60 | after any run of puts and flushes the reader of the closed file gets the packed blocks, one by one, or an access beyond the index |
| BlockFiles.ReadFileResult | include/jackbergus/framework/ndp/FileBlockWrapper.h:67-107 | the reader on every well-formed file: all the blocks, or an access beyond the index |
| BlockFiles.RunPacks | include/jackbergus/framework/ndp/FileSerializer.h:119-153 | after any run the file holds the packed blocks and the buffer the records of the next one |
| BlockFiles.FullBlocks | include/jackbergus/framework/ndp/FileSerializer.h:125-127 | every block that the writer completes on its own is full |
| BlockFiles.FileLeavesOld | include/jackbergus/framework/ndp/FileSerializer.h:165-175 | the buffer is never cleared: a block shorter than the one before it ends in the records of that one |
| BlockFiles.InPlace | include/jackbergus/framework/ndp/FileBlockWrapper.h:107-116 | in the bytes of a file every record of every block is at the place that the index gives |
| BlockFiles.FileSerializer.Write | include/jackbergus/framework/ndp/FileSerializer.h:137-153 | the buffered object does what the value version does; an oversized record is refused |
| BlockFiles.FileSerializer.WriteWithHeader | include/jackbergus/framework/ndp/FileSerializer.h:119-135 | writes header and payload as one record |
| BlockFiles.FileSerializer.Flush | include/jackbergus/framework/ndp/FileSerializer.h:165-175 | appends one block to the file |
| BlockFiles.FileSerializer.Close | include/jackbergus/framework/ndp/FileSerializer.h:155-163 | flushes once and closes |
| BlockFiles.FileBlockWrapper.Next | include/jackbergus/framework/ndp/FileBlockWrapper.h:67-77 | reads one block and computes the index only if there is none yet |
| BlockFiles.ReadAll | include/jackbergus/framework/ndp/FileBlockReader.h:55-60 | the read loop returns what the value version returns |
| DeltaLog.RecordedIff | include/jackbergus/framework/monitor/AnyFundamentalVariableMonitoringWithSharedFile.h:343-405 | after any run of registrations and updates in any order, a field of an update is recorded if and only if the update changes the field, comes no earlier than the latest change of it so far, sets another value than that change, and is not at time zero; the records of the update are given by the history alone |
| DeltaLog.LogTracks | include/jackbergus/framework/monitor/AnyFundamentalVariableMonitoringWithSharedFile.h:343-405 | in every run each monitor holds the latest change of its field, with its time and its value, as the history of the structure gives them |
| LogInputs.UpdateIsLost | include/jackbergus/framework/monitor/AnyFundamentalVariableMonitoringWithSharedFile.h:380-405 | an update after the last record of its field, with a new value, is lost: 1 at 5, 0 at 3, 1 at 7, then 2 at 6 |
| LogInputs.EndIsLost | include/jackbergus/framework/monitor/deserializer/FileLogger.h:111-143 | an update in which one of two changed fields is dropped leaves a start mark without an end mark |
| LogInputs.LostEndHidesField | src/jackbergus/monitor/serializer/binary_to_csv_serializer.cpp:162-173 | sorted and converted, that log shows n/a for the recorded field, and still at the next time |
| DeltaLog.UpdateInStep | include/jackbergus/framework/monitor/deserializer/FileLogger.h:73-152 | an update no earlier than all before it keeps the monitors in step and records exactly the fields that changed, the first and the last marked |
| DeltaLog.InitInStep | include/jackbergus/framework/monitor/deserializer/FileLogger.h:32-64 | registration records every field at time zero, the first and the last marked |
| DeltaLog.LogMatchesHistories | include/jackbergus/framework/monitor/deserializer/FileLogger.h:167-229 | for updates whose times never go back for a structure, in any interleaving, the log holds exactly the records of the histories of the structures |
| DeltaLog.LatestIsValue | include/jackbergus/framework/monitor/AnyFundamentalVariableMonitoringWithSharedFile.h:343-405 | the last record of a field up to any time holds the value of the structure at that time |
| DeltaLog.RecordIffSet | include/jackbergus/framework/monitor/deserializer/FileLogger.h:111-143 | after time zero there is a record of a field with a value at a time if and only if some update at that time changes the field to that value |
| DeltaLog.StructLogUnique | include/jackbergus/framework/monitor/AnyFundamentalVariableMonitoringWithSharedFile.h:87-121 | a structure is recorded at most once per field and time when no field is changed twice at one time |
| DeltaLog.StructLogComplete | include/jackbergus/framework/monitor/AnyFundamentalVariableMonitoringWithSharedFile.h:99-116 | whatever has a record at some time has one at that time that is marked as an end |
| DeltaLog.RecordedIffChanged | include/jackbergus/framework/monitor/deserializer/FileLogger.h:111-143 | there is a record at a time after zero if and only if an update at that time changes a field |
| DeltaLog.NothingHeldBack | include/jackbergus/framework/monitor/AnyFundamentalVariableMonitoringWithSharedFile.h:87-121 | in every run, in whatever order, no record is held back until the close |
| DeltaLog.AnswersIff | include/jackbergus/framework/monitor/deserializer/FileLogger.h:167-229 | after any events a registration is accepted if and only if its name is new, and gets the next number; an update if and only if its name is registered with the same type and size; what is refused changes nothing |
| DeltaLog.RegistrationRecords | include/jackbergus/framework/monitor/deserializer/FileLogger.h:32-64 | a registration appends one record for each field at time zero, the first marked as the start and the last as the end |
| DeltaLog.MarksOfUpdate | include/jackbergus/framework/monitor/deserializer/FileLogger.h:111-143 | among the records of an update exactly that of the least field has the start mark and exactly that of the greatest field the end mark |
| DeltaLog.FileLogger.RegisterObjectWithName | include/jackbergus/framework/monitor/deserializer/FileLogger.h:167-179 | a new name is registered under the next number; a known one is refused |
| DeltaLog.FileLogger.UpdateStruct | include/jackbergus/framework/monitor/deserializer/FileLogger.h:222-229 | the object does what the value version does; an unknown name or a wrong type is refused |
| DeltaLog.FileLogger.Close | include/jackbergus/framework/monitor/deserializer/FileLogger.h:234-240 | closing adds no record |
| CsvConverter.ColumnsAreSeparate | src/jackbergus/monitor/serializer/binary_to_csv_serializer.cpp:77-115 | fields with different names have different columns, each of which knows its structure |
| CsvConverter.EntriesArePlaced | src/jackbergus/monitor/serializer/binary_to_csv_serializer.cpp:95-107 | without requested headers every field gets the column of its turn; with them, the last column of its name if and only if the name was requested |
| CsvConverter.ConvertIsRows | src/jackbergus/monitor/serializer/binary_to_csv_serializer.cpp:153-282 | on every log in order of time, complete or not, the rows are those of the cells after the records up to each time: the word of the last record of the column, or n/a if its structure was started and not ended at the time of that record or at a later one; in the last row its own time does not count |
| CsvConverter.CellAtRow | src/jackbergus/monitor/serializer/binary_to_csv_serializer.cpp:162-173 | where a row is written under the marks, a column is n/a instead of its text if and only if its structure was started and not ended at that time |
| CsvConverter.LastRowDiffersIff | src/jackbergus/monitor/serializer/binary_to_csv_serializer.cpp:279-282 | the last row differs from what the marks demand if and only if some column is broken at the last time and its text is not n/a already |
| CsvConverter.LastRowIgnoresMarks | src/jackbergus/monitor/serializer/binary_to_csv_serializer.cpp:279-282 | it does: a log of one record that is started and not ended prints its value |
| CsvConverter.RowIsCut | src/jackbergus/monitor/serializer/binary_to_csv_serializer.cpp:156-182 | every row shows the cells after exactly the records up to its time |
| CsvConverter.RowsInOrder | src/jackbergus/monitor/serializer/binary_to_csv_serializer.cpp:160-177 | the rows come in strictly increasing order of time |
| CsvConverter.RowTimesIff | src/jackbergus/monitor/serializer/binary_to_csv_serializer.cpp:153-182 | there is a row at a time if and only if it is zero or the time of a record |
| CsvConverter.CellIsLatest | src/jackbergus/monitor/serializer/binary_to_csv_serializer.cpp:183-276 | in a complete log the cell of a field shows the word of its latest record |
| CsvConverter.CellWithoutRecord | src/jackbergus/monitor/serializer/binary_to_csv_serializer.cpp:144-144 | the cell of a field without a record is n/a |
| CsvConverter.ConvertBinaryToCsv | src/jackbergus/monitor/serializer/binary_to_csv_serializer.cpp:153-282 | the loops do what the value version does; an unknown structure is an exception |
| Pipeline.RowsPrintHistories | src/jackbergus/monitor/serializer/binary_to_csv_serializer.cpp:32-40 | end to end: one row for time zero and for each time at which a structure changes, in order, and each cell renders the value of the field in the last update at or before the time of the row, for every interleaving and every sorted copy of the log, if the updates that set a printed field at one time set it to words that show the same |
| Pipeline.AlwaysPrintsIff | include/jackbergus/algorithms/ExternalMergeSort.h:149-149 | this condition is exact: every sorted copy of the log prints the histories if and only if it holds |
| Pipeline.ChangedOnceSuffices | include/jackbergus/algorithms/ExternalMergeSort.h:149-149 | it holds when no field is changed twice at one time |
| Pipeline.CellIsValue | src/jackbergus/monitor/serializer/binary_to_csv_serializer.cpp:183-276 | after the records up to a time, the cell of a field is its value at that time |
| Pipeline.SortedLogIsWellFormed | src/jackbergus/monitor/serializer/binary_to_csv_serializer.cpp:153-154 | every sorted copy of a log starts at time zero or later, is in order, and ends whatever it starts |
| LogInputs.SameTimeIsAmbiguous | include/jackbergus/algorithms/ExternalMergeSort.h:149-149 | it fails: a field that is set to 5 and then to 7 at time 1 has a sorted log that prints 5 |
| Pipeline.LogSortAndConvert | src/jackbergus/monitor/serializer/binary_to_csv_serializer.cpp:32-40 | logger, block file, sort, block file and converter, chained through the objects, print the histories |
| RunLength.NothingIsLost | include/jackbergus/framework/monitor/AnyFundamentalVariableMonitoring.h:77-99 | over any updates, invalidations and changes of file, every emitted record is once in a file or in memory, in order |
| RunLength.RecordsAreFiled | include/jackbergus/framework/monitor/ContinuousVariableMonitoring.h:61-98 | for both monitors and all calls: a record emitted while a file is open is in that file, together with everything that was held in memory before it, and memory holds exactly the records emitted since the last such moment; files are numbered as they were opened |
| RunLength.AnswersIff | include/jackbergus/framework/monitor/AnyFundamentalVariableMonitoring.h:155-243 | after any calls an update or an invalidation is accepted if and only if it comes no earlier than the last accepted call, and one that is refused changes nothing |
| RunLength.HistoryIsRightIff | include/jackbergus/framework/monitor/AnyFundamentalVariableMonitoring.h:132-260 | for all calls, changes of file included, of both monitors, constructed with a value or without one: after every call looking up any time gives what was said about it, if and only if no call invalidates a time about which a value was told and no file of an any-typed monitor is closed while nothing is valid and the last value was not said of that time |
| RunLength.CloseShowsInvalid | include/jackbergus/framework/monitor/AnyFundamentalVariableMonitoring.h:132-148 | it fails: a value at 5, a file, an invalidation at 6, the file closed; the history shows the value at 6 |
| RunLength.HistoryRefinesSamples | include/jackbergus/framework/monitor/AnyFundamentalVariableMonitoring.h:155-243 | for strictly increasing samples, with or without a first value and an open file, the history is ordered and apart, and looking up any time up to the last sample gives what the samples say |
| RunLength.FileHoldsHistory | include/jackbergus/framework/monitor/AnyFundamentalVariableMonitoring.h:132-148 | when the first file of an any-typed monitor is closed it holds the whole history |
| RunLength.DisjointIff | include/jackbergus/framework/monitor/ContinuousVariableMonitoring.h:113-221 | for all calls, changes of file included, of both monitors: the intervals are in order and apart if and only if no call adds one that starts no later than the last one ends |
| RunLength.CloseTurnsTimeBack | include/jackbergus/framework/monitor/AnyFundamentalVariableMonitoring.h:132-148 | it fails: a value at 5, a file opened and closed, and a value at 3, which is accepted |
| RunLength.VariableMonitoring.PushRecord | include/jackbergus/framework/monitor/AnyFundamentalVariableMonitoring.h:77-99 | with a file, what was kept in memory is written first |
| RunLength.VariableMonitoring.UpdateValue | include/jackbergus/framework/monitor/AnyFundamentalVariableMonitoring.h:217-243 | the object does what the value version does |
| RunLength.VariableMonitoring.SetInvalidValue | include/jackbergus/framework/monitor/ContinuousVariableMonitoring.h:156-172 | the object does what the value version does |
| RunLength.VariableMonitoring.ClearFile | include/jackbergus/framework/monitor/AnyFundamentalVariableMonitoring.h:132-148 | the object does what the value version does |
| RunLength.VariableMonitoring.SetFile | include/jackbergus/framework/monitor/ContinuousVariableMonitoring.h:150-154 | closes the open file before the next one |
| CursorMerge.NextTakesOne | src/jackbergus/monitor/deserializer/RecordFileDeserializer.cpp:78-103 | one advance takes one record from what is left, across blocks |
| CursorMerge.StepKeepsInStep | src/jackbergus/monitor/serializer/multibinary_to_csv_serializer.cpp:140-259 | on a file that can be read, after every step a cursor is exhausted or its interval ends at or after the time: one advance suffices, the record index is never exceeded, and exactly one cell is printed |
| CursorMerge.GapAfterNext | src/jackbergus/monitor/serializer/multibinary_to_csv_serializer.cpp:164-169 | the gap test sees a gap if and only if the new block is not at least as full as the old one |
| CursorMerge.InStepShows | src/jackbergus/monitor/serializer/multibinary_to_csv_serializer.cpp:166-198 | the cell is the value of the covering interval; in a gap it is n/a, unless the gap lies before a block that is at least as full; records behind an empty block are not shown |
| CursorMerge.RightCellIff | src/jackbergus/monitor/serializer/multibinary_to_csv_serializer.cpp:151-198 | the cells are what the intervals demand if and only if no hidden gap repeats a value and no covering interval lies behind an empty block |
| CursorMerge.HiddenGapPrints | src/jackbergus/monitor/serializer/multibinary_to_csv_serializer.cpp:164-169 | it fails: two blocks of one record each, a time between them, and the first value is printed |
| CursorMerge.EmptyBlockHides | src/jackbergus/monitor/deserializer/RecordFileDeserializer.cpp:78-103 | it fails: a record behind an empty block is never printed |
| CursorMerge.InvalidIsNotShown | src/jackbergus/monitor/serializer/multibinary_to_csv_serializer.cpp:151-170 | whenever the cursor is left on nothing or on an invalid record, the cell is n/a |
| CursorMerge.StaysForGood | src/jackbergus/monitor/serializer/multibinary_to_csv_serializer.cpp:151-153 | from then on all cells of the column are n/a and the cursor stays |
| CursorMerge.NestedIsOmitted | src/jackbergus/monitor/serializer/multibinary_to_csv_serializer.cpp:173-174 | with intervals that are not apart a row can lack a cell: 0 to 10, 2 to 3 and 11 to 12 at time 11 |
| CursorMerge.MultibinaryToCsv | src/jackbergus/monitor/serializer/multibinary_to_csv_serializer.cpp:114-259 | the merge stays within the record index if and only if no block of a file has more records than the first one with any; then there is one row for each start and end of an interval, in order, with exactly one cell for each column, and the one described above |
| CursorMerge.CollectTimes | src/jackbergus/monitor/deserializer/RecordFileDeserializer.cpp:31-45 | the first pass stays within the record index under the same condition, and the time line is then the set of all starts and ends |
| IntervalFiles.RecordRoundTrip | include/jackbergus/framework/ndp/FileSerializer.h:61-67 | a packed header with its payload is read as it was written and holds its own length |
| IntervalFiles.FileIsColumn | include/jackbergus/framework/monitor/AnyFundamentalVariableMonitoring.h:61-75 | a file of intervals written without a flush can be read to its end, and the merge sees exactly these intervals |
| IntervalFiles.OldHeaderIsInFile | src/jackbergus/monitor/serializer/multibinary_to_csv_serializer.cpp:164-169 | the former header in the reloaded buffer is the one decoded from the bytes of the file at the old place of the new block, for every run of puts and flushes |
| IntervalFiles.ColumnApartIff | include/jackbergus/framework/monitor/AnyFundamentalVariableMonitoring.h:132-243 | the intervals in the file of a monitor are apart if and only if no call adds one before the last has ended |
| IntervalFiles.CellIsSaid | src/jackbergus/monitor/serializer/multibinary_to_csv_serializer.cpp:140-259 | calls, header layout, blocks and merge together: a cell is what the client said of that time if and only if the file does not go wrong there |
| IntervalFiles.GoesWrongIff | src/jackbergus/monitor/serializer/multibinary_to_csv_serializer.cpp:164-169 | such a file goes wrong at a time if and only if the time lies in a gap between two full blocks and the value before the gap is not printed as n/a |
| IntervalFiles.SampledRecording | include/jackbergus/framework/monitor/AnyFundamentalVariableMonitoring.h:155-243 | a file opened first, increasing samples and a close while a value holds meet these conditions, and what is said of a time is what the samples say |
| IntervalFiles.MergeFiles | src/jackbergus/monitor/serializer/multibinary_to_csv_serializer.cpp:92-261 | end to end: the files of any number of monitors, read and merged, give one row for each start and end, whose cells are what the clients said except in those gaps |
| Flattening.EveryLeafMeetsItsMonitor | include/jackbergus/framework/monitor/AnyFundamentalVariableMonitoringWithSharedFile.h:479-595 | for every nested structure the index of a leaf in the update is the position of its monitor, and the accumulator ends at the number of leaves |
| Flattening.FromAligned | include/jackbergus/framework/monitor/AnyFundamentalVariableMonitoringWithSharedFile.h:553-595 | the same from any member and any accumulator on |
| Flattening.MonitorsAreLeaves | include/jackbergus/framework/monitor/AnyFundamentalVariableMonitoringWithSharedFile.h:479-551 | there is a monitor for each leaf of the structure, however nested, and for nothing else |
| Flattening.MonitorsInOrder | include/jackbergus/framework/monitor/AnyFundamentalVariableMonitoringWithSharedFile.h:479-551 | the monitors come in the order of the members and elements, so that no two stand for the same leaf |

## Left out

- Entering the monitor through `HighLevelHoareMonitor::lock`: it never calls `mutex_in`, so the claims are about threads that do.
- Finite semaphore timeouts: a `P` that times out deletes a semaphore that is still queued.  The inner workings of `Semaphore` are not part of this model.
- Memory orders other than the stale relaxed load of the triple buffer; its slots are written in one step that begins and one that ends.
- Deleting the `Interval` that a tree node points to: the source never does, and the model keeps it inside the node.
- The second insertion function of the tree, which no object calls.
- The worker thread of EDF, `terminate`, and the order in which its priority queue serves tasks: it pops the largest priority, which `Workers.StampedOrder` shows to be the latest deadline, so no claim of earliest deadline first is made.  The queue is a multiset.
- SubmitPlacesOnce: needs a late worker.  The source also compiles without one, and would then divide by zero in the first delayed task.
- Concurrent submitters of the pool: submissions come one after the other.
- The raw bytes of a sort fragment and of a log record: the file system of the sort stores records, and the pipeline takes a codec that must be right for the records of the log.
- Failing system calls (opening, reading, writing, removing) and the names of temporary files.
- Fields of a log record that are never read back (type, size, continuation mark), and the check byte, which is written and never checked.
- `deltaFromIntervalTreeSlot` and the bit offsets of fields, which live in code that is not part of this model: the differing fields come in increasing order.   With no difference the source reads the first element of an empty container, which is undefined; the model writes nothing.
- The numeric conversion of initial values, as opposed to the copied bits of later ones: a word stands for both.
- Field types and sizes that the converter skips or rejects by an exception, and the text of numbers.
- The YAML description files, directories, sockets and the MVC classes.
- Records of a validity interval that do not fit into a block; the writer refuses them and nobody looks.
- The two monitor classes as two classes: they are one class with a `kind`, since they differ in two places only.
- MultibinaryToCsv: is stated for interval files whose records, up to the first empty block, are marked valid, ordered and apart, as the writers leave them when `RunLength.DisjointIff` holds.  For the others `StaysForGood` and `NestedIsOmitted` say what happens at a record that is not valid and to nested intervals.
- RowsPrintHistories: is stated for updates whose times never go back and for identifiers that fit in a byte.  `RecordedIff` says what is recorded of any other update.  An update that changes nothing is harmless in the model, where the source reads the first element of an empty container.
- HistoryRefinesSamples: is stated for strictly increasing times; `HistoryIsRightIff` and `DisjointIff` cover all calls.
- MergeFiles: is stated for the first file of any-typed monitors; the typed monitor does not write its current interval when it closes a file.
- Schemas with multi-dimensional arrays or arrays of enumerations.
- `LRUCache::get`, which cannot be instantiated, and `put`, which nothing calls.
