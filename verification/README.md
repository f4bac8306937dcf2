# A verified model of the key-value store and of the file tree on it

The repository has two cores. `kvstore/` is a replicated, write-back, checkpointed key-value store with a master that
watches the nodes. `frontend/files.cc` encodes a directory tree of chunked files in the columns of one row of that store.
This project models both in Dafny and proves what they do: what each operation keeps, what whole runs, crashes and
interleavings can and cannot lead to, and that the imperative code does what its specification says.

The code is modelled as it is. Where it departs from its evident intent the model departs with it, and a lemma says exactly
when (`...Iff`) the intended property holds, or shows the input on which it fails.

## How it is laid out

- One node. `Extents` (block files and the bump allocator), `Memtable` (what each method of `KVCache` does to its table),
  `Checkpointing` (the block writes), `StorageNode` (the handlers as functions of a node's state), `NodeRuns` (refinement of a
  plain map, validity over runs), `NodeLayout` (layout determinism), `BlankDisk` (space not yet used), `Memory` (the counters,
  operation by operation), `Budget` (the counters over requests and runs), `Timing` (when a request checkpoints and what it
  evicts). `KVCache` and `KVStore` are the classes: fields updated in place, each method proved to do what `Memtable` and
  `StorageNode` say of it.
- Crashes. `LogReplay` (what a log means and what its replay makes of it), `Durability` (what is on disk at every boundary
  between requests), `Recovery`, `CrashPoints` (crashes inside a checkpoint and inside a write), `LogFormat` and
  `MetadataFormat` (the files as text and the log's transfer), `RestartText` (the restart from the texts), `Lifetimes` (requests
  and crashes in any order), `ServerRecovery` (the restart as methods).
- Several nodes. `OrderedLock` (the fair lock), `Replication` (interleaved handlers of a primary and its secondaries), `Lockstep`
  (a group's nodes side by side, checkpoints and all), `Interruption` (a write within which a secondary runs out of memory),
  `Rejoining` (a node that comes back to its group).
- The master. `Routing`, `Failover`, `FailoverHistory` (the master's state told from the events), and the class in `Master`.
- The file tree. `ListString` (lists in strings), `Decimal`, `Paths`, `FileColumns` (columns and the tree invariant), `FileTree`
  (chunks, files, the walk, pruning), `RowFrame` (the row's other columns), and the class in `Drive`, which carries the file
  system it stands for as a ghost field.
- `Options` and `Numbers` are helpers.

## How the code is represented

- The constants `BLOCK_SIZE`, `RPC_MSG_SIZE`, `GROUP_SIZE` and `CHUNK_SIZE_BYTES` are any positive numbers, and
  `CHECKPOINT_THRESHOLD` any number above 1; the comments give the source's values.
- A row of the store is flattened into keys (row, column) together with the set of rows present in `cache`. Entries of
  `disk_map` for rows without columns have no effect and are not represented.
- A `char` is a byte. `available_memory` is a wrapping 64-bit number, and what is conserved is stated over the integers;
  `row_sizes`, counters and versions are unbounded. Where the counters matter, a string has at most 2^63 - 1 bytes,
  and capacities and tables stay below 2^60 bytes.
- A node's metadata file exists once a checkpoint has written it (`saved`).
- The order in which hash tables are walked is either proved not to matter (`Checkpointing.FlushAny`) or a parameter: the
  eviction order is `queue`, the member that takes over from a dead primary is `heir`, the order of the metadata file is `order`.
- A handler that would take the front of an empty eviction queue has the outcome `Undefined`; `Budget.StepDefinedIff` says
  when that happens.
- A crash falls between two requests, or inside one: while blocks are written, before the log is truncated (for a forced or
  for a counted checkpoint), after a forced checkpoint, or after the request is logged and before it is applied (`Lifetimes.Moment`).
- In `Replication` an action is what one handler does between two points where it may wait. In `Failover` a heartbeat round and an
  administrator's call are one step each, and servers are named by their ids.
- Recovery is modelled on the node's own block files with the primary's metadata and log;
  `Rejoining.EqualVersionsNeedNoCopy` is why that is right when a node that was in step has the primary's version.
- The invariants are not empty: `Lifetimes.FreshNodeStarts`, `Budget.FreshIsSound`, `Rejoining.FreshFollows`,
  `Lockstep.NewGroupInStep`, `Routing.NoUsersAreEven`, `Failover.AllStartingIsInformed`, `MasterImplementation.LaidOutIsFit` and
  `FileTree.InitialisedIsEmpty` give the states in which the system starts.
- `Drive` works on one row of a store that answers like a plain map, one operation at a time. A path is a sequence of
  proper names: not empty and without `/`, `,` or `;`. The leading slash of a name is optional.

## What does not hold of the code

- A checkpoint re-creates a deleted column as empty if the column is still in `modified` (kvstore/kv_store.cpp:307), and a client
  then finds it: `NodeRuns.StepRefinesIff`, `NodeRuns.ResurrectedIsFound`, `CrashPoints.DeletedColumnComesBack`. A row in which that
  happens to the columns of a deleted file encodes no file system: `DriveImplementation.BroughtBackEncodesNothingIff`.
- A delete of such a column, and a conditional put on it, are logged as done and not done: `Durability.StepDurableIff`. On
  nodes that do not all have it in the same state they do different things: `Lockstep.CPutKeepsStepIff`,
  `Lockstep.DeleteKeepsStepIff`.
- A delete is logged as "DELETE" and looked for as "DELE" (kvstore/kv_store.cpp:494, 820), so a replay passes over it; and an empty
  value has no fragment, so reading the metadata file does not re-create its column (kvstore/kv_store.cpp:262-272):
  `Recovery.RecoverIff`, `Recovery.EmptyValueIsLost`. The replay marks a deleted column modified without loading its row:
  `Recovery.RecoveredIsCleanIff`.
- A mismatched conditional put is logged (kvstore/kv_store.cpp:562-568). Replaying it on the state from which it mismatched does
  nothing, but on the log's final state, after a crash before the log is truncated, it may succeed:
  `CrashPoints.MismatchedCPutComesBack`.
- A log chunk ends at its first NUL byte (kvstore/kv_store.cpp:662), so a value that holds one comes back cut:
  `LogFormat.ReceivedIff`, `RestartText.NulComesBackCut`. A newline in a row or column name breaks the log: `LogFormat.LogReadIff`.
- Before the first checkpoint there is no metadata file to restart from (kvstore/kv_store.cpp:693-698):
  `RestartText.UnsavedNeverRestarts`.
- `cput` moves `available_memory` the wrong way, `evict_users` credits a row that is not in the cache, `dele` leaves `row_sizes` alone
  when the row is not in the cache, and a restart forgets `row_sizes`: `Budget.StepBooksIff`, the `...Iff` lemmas of `Memory` and
  `Memory.EvictedTwiceIsCreditedTwice`.
- A secondary that runs out of memory within a replicated write has the group take a checkpoint that finds the write on some
  nodes and not on others (kvstore/kv_store.cpp:436-437, 709-719): the group is out of step (`Lockstep.PutKeepsStepIff`,
  `Interruption.InterruptedLeaves`), and versions can be equal although the bytes are not (`Rejoining.InterruptedWriteSurvivesIff`).
- A restarted node starts to count from 0 and takes every logged column for modified, so it is in step again only with a
  primary whose log is empty: `Rejoining.RejoinsInStepIff`.
- A delete that finds no column returns with the lock held (kvstore/kv_store.cpp:489-492, 510-516): the phase `Stuck` of
  `Replication`, `Replication.MissingDeleteStopsWrites`. Two secondaries that serve clients at once can wait for each
  other: `Replication.TwoClientsCanDeadlock`.
- An unlock too many admits a second holder (kvstore/kv_store.cpp:659, 705): `OrderedLock.StrayUnlockAdmitsASecond`.
- `GROUP_SIZE` is also used as the number of groups: `MasterImplementation.ChoiceIsConfiguredIff`. After a total loss the return of
  a member other than the recorded primary elects nobody: `Failover.ReturnDoesNotElect`.
- `move_file` leaves the old file when its name lacks the leading slash, and may delete another column instead
  (`DriveImplementation.DeletedOutside`); `delete_dir` reads its argument up to the first `&`, and on the root it empties the tree
  and answers `false`: the contracts of `MoveFile` and `DeleteDir`.

## Model

| member | source | states |
|---|---|---|
| Extents.PlaceIsExact | kvstore/kv_cache.cpp:76-96 | the fragments of a value are in bounds, linearly contiguous from the pointer, apart, and hold exactly its bytes; the pointer moves by its size; the allocation ends even when the pointer is at the end of a block |
| Extents.ReadAfterWrite | kvstore/kv_store.cpp:307-315 | a value written to its extent is read back from it |
| Extents.WriteLeavesOthers | kvstore/kv_store.cpp:307-315 | writing an extent changes no extent apart from it |
| Extents.ExtentsCommute | kvstore/kv_store.cpp:302-318 | writes of two extents that are apart can be exchanged |
| Extents.WriteExtentAgrees | kvstore/kv_store.cpp:307-315 | writing an extent beyond a position changes no byte before the position |
| Extents.RecreatedAgrees | kvstore/kv_cache.cpp:86-91 | re-creating block files beyond the pointer changes no byte before the pointer |
| Memtable.LoadRowKeeps | kvstore/kv_cache.cpp:54-74 | loading a row changes neither the plain map nor the layout, and keeps the table valid |
| Memtable.PutColumnKeeps | kvstore/kv_cache.cpp:98-109 | a put sets one column of the plain map, places it beyond the old pointer, changes nothing below it, and keeps live extents disjoint |
| Memtable.GetColumnKeeps | kvstore/kv_cache.cpp:111-121 | a get returns the column's bytes wherever they are and changes neither map nor layout |
| Memtable.CPutColumnKeeps | kvstore/kv_cache.cpp:123-139 | a conditional put swaps exactly when the column is there with the expected value, and otherwise changes nothing |
| Memtable.DeleteColumnKeeps | kvstore/kv_cache.cpp:141-159 | a delete removes one column, in the cache or not, except where the resident row does not have it |
| Memtable.EvictKeeps | kvstore/kv_cache.cpp:36-52 | with nothing dirty, eviction changes no column, never evicts `user`, and ends with enough memory |
| CacheImplementation.KVCache.constructor | kvstore/kv_cache.cpp:16-18 | a new cache is empty, with the whole capacity available |
| CacheImplementation.KVCache.ReadColumn | kvstore/kv_cache.cpp:58-69 | the loop over a column's blocks reads its extent |
| CacheImplementation.KVCache.LoadUserFromDisk | kvstore/kv_cache.cpp:54-74 | in place, does what `Memtable.LoadRow` says |
| CacheImplementation.KVCache.UpdateDiskMap | kvstore/kv_cache.cpp:76-96 | the allocation loop ends and places the value as `Extents.Place` says, re-creating the block files it enters |
| CacheImplementation.KVCache.EvictUsers | kvstore/kv_cache.cpp:36-52 | the eviction loop does what `Memtable.Evict` says; it answers whether there was too little memory |
| CacheImplementation.KVCache.Put | kvstore/kv_cache.cpp:98-109 | does what `Memtable.PutColumn` says |
| CacheImplementation.KVCache.Get | kvstore/kv_cache.cpp:111-121 | does what `Memtable.GetColumn` says |
| CacheImplementation.KVCache.CPut | kvstore/kv_cache.cpp:123-139 | does what `Memtable.CPutColumn` says |
| CacheImplementation.KVCache.Dele | kvstore/kv_cache.cpp:141-159 | does what `Memtable.DeleteColumn` says |
| Checkpointing.FlushAny | kvstore/kv_store.cpp:300-319 | the block writes of a checkpoint have one result whatever the order of the columns |
| Checkpointing.FlushWrites | kvstore/kv_store.cpp:300-319 | every flushed column can be read back from its extent |
| Checkpointing.FlushAgrees | kvstore/kv_store.cpp:300-319 | a checkpoint of columns beyond a position changes no byte before it |
| Checkpointing.FlushedKeeps | kvstore/kv_store.cpp:298-319 | after the block writes everything is on disk; the plain map gains exactly the deleted columns still in `modified`, empty |
| NodeRuns.StepExact | kvstore/kv_store.cpp:378-625 | every request is answered as by a plain map, and leaves the plain map's own result plus the columns its checkpoint brought back |
| NodeRuns.StepRefinesIff | kvstore/kv_store.cpp:298-319 | the node stands for the plain map after a request exactly when its checkpoint, if it takes one, finds no deleted column in `modified` |
| NodeRuns.ResurrectedIsFound | kvstore/kv_store.cpp:307 | a column brought back is found, empty, where the plain map has none |
| NodeRuns.GetAnswers | kvstore/kv_store.cpp:454-479 | on every valid state a get answers the column's bytes, after whatever checkpoint, eviction and reload |
| NodeRuns.RunRefinesIff | kvstore/kv_store.cpp:378-625 | write-back refinement: over every run the node stands for the plain map throughout if and only if no checkpoint brings a column back, and then all replies are the plain map's |
| NodeRuns.RunValid | kvstore/kv_store.cpp:298-625 | every run, whatever its checkpoints bring back, keeps the table valid: extents, cache, dirty columns and disk fit together |
| NodeRuns.LiveExtentsStayApart | kvstore/kv_cache.cpp:76-109 | in every state a new node can reach the live extents are in bounds, below the bump pointer, in files that exist, and no two share a byte |
| NodeLayout.RunAlike | kvstore/kv_cache.cpp:54-139 | over every run, whatever is brought back, the bump pointer and the fragments of every column are a function of what was written |
| NodeLayout.LayoutIsDeterministic | kvstore/kv_cache.cpp:54-139 | nodes that start alike and write the same end with the same pointer and the same fragments of every column, whatever they read, evicted, reloaded or brought back, and with the same `disk_map` if and only if they name the same columns |
| NodeLayout.CleanDeletesResurrectNothing | kvstore/kv_store.cpp:481-527 | a run whose deletes name no column in `modified` brings nothing back |
| BlankDisk.RunBlank | kvstore/kv_cache.cpp:76-96 | over every run no byte at or beyond the bump pointer has been written: it is NUL |
| StoreImplementation.KVStore.constructor | kvstore/kv_store.cpp:888-899 | a server that has been set up is the fresh node, which has a log and no metadata file |
| StoreImplementation.KVStore.WriteColumn | kvstore/kv_store.cpp:306-315 | the loop over a column's blocks writes the value to its extent |
| StoreImplementation.KVStore.WriteModified | kvstore/kv_store.cpp:299-319 | the loop over `modified` has the effect of `Checkpointing.Flushed` |
| StoreImplementation.KVStore.Checkpoint | kvstore/kv_store.cpp:298-355 | writes the blocks, the metadata and a new log, and starts a new version |
| StoreImplementation.KVStore.TryCheckpoint | kvstore/kv_store.cpp:357-374 | checkpoints when forced or when `CHECKPOINT_THRESHOLD` writes have been counted |
| StoreImplementation.KVStore.MakeRoom | kvstore/kv_store.cpp:390-401 | the checkpoint and eviction before a write, as `StorageNode.Reserve` has them; `Timing.StepCheckpointsExactly` and `Timing.StepEvictsLeast` say what that is |
| StoreImplementation.KVStore.Put | kvstore/kv_store.cpp:387-407 | on the node itself, does what `StorageNode.Step` says of a put |
| StoreImplementation.KVStore.Get | kvstore/kv_store.cpp:454-479 | does what `StorageNode.Step` says of a get |
| StoreImplementation.KVStore.Delete | kvstore/kv_store.cpp:488-497 | on the node itself, does what `StorageNode.Step` says of a delete |
| StoreImplementation.KVStore.CPut | kvstore/kv_store.cpp:539-571 | on the node itself, does what `StorageNode.Step` says of a conditional put |
| LogReplay.AgreesIff | kvstore/kv_store.cpp:788-824 | column by column, nothing differs between a log's history and its replay from a start that lacks some columns if and only if every column that it lacks is put or deleted in the log, and never put if it ends deleted, and no other column ends deleted |
| LogReplay.ReplayIsHistoryIff | kvstore/kv_store.cpp:788-824 | replaying a log on such a start gives the history's result if and only if the log makes every column good in that sense |
| LogReplay.ReplayOnResultIff | kvstore/kv_store.cpp:346-354 | replaying a log on the state it produced, less some columns, gives that state if and only if those columns were put in the log and no column that ends deleted was; conditional puts may have mismatched on columns that the log puts |
| Durability.StepDurableIff | kvstore/kv_store.cpp:290-355 | on any valid durable state a request leaves the log's history on what the metadata file names equal to the plain map if and only if it does not delete, or swap a value into, a column its resident row lacks without a checkpoint following |
| Durability.RunDurableIff | kvstore/kv_store.cpp:290-355 | over every run the files determine the plain map all along if and only if no request does that, and none does when nothing is brought back |
| Durability.StepShadows | kvstore/kv_store.cpp:298-319 | on any valid state a request keeps what the next checkpoint has to write beyond every extent the metadata file names |
| Durability.RunShadows | kvstore/kv_store.cpp:298-319 | so does every run, whatever its checkpoints bring back |
| Recovery.RedoAllOk | kvstore/kv_store.cpp:788-824 | replaying a log on the table is replaying it on the plain map, and never writes below the recovered pointer |
| Recovery.DiskRecoversIff | kvstore/kv_store.cpp:752-825 | a restart from files whose log explains a map gives that map back if and only if the log makes every column good |
| Recovery.RecoverIff | kvstore/kv_store.cpp:752-825 | at every boundary between requests the recovery gives the plain map back if and only if the log makes every column good: one that the metadata file names without a fragment is put or deleted in the log, and never put if it ends deleted, and no other column ends deleted (the texts of the files are the matter of `RestartText.LegibleRestarts`) |
| Recovery.EmptyValueIsLost | kvstore/kv_store.cpp:262-272 | an empty value saved by a checkpoint is missing after a restart |
| Recovery.RecoveredIsCleanIff | kvstore/kv_store.cpp:823 | the recovered node is a clean node if and only if every row in the log was written by one of its puts or conditional puts |
| Recovery.RecoveredIsDurableIff | kvstore/kv_store.cpp:752-825 | its files determine its map again if and only if the log explains that map |
| Recovery.RecoversWellIff | kvstore/kv_store.cpp:752-825 | a restart gives a clean, durable node standing for a map if and only if the log explains the map, makes every column good and loads every row |
| CrashPoints.FlushIsTorn | kvstore/kv_store.cpp:300-319 | wherever a checkpoint has got to, only bytes of extents not yet on disk have changed |
| CrashPoints.TornCheckpointRecovers | kvstore/kv_store.cpp:300-322 | shadow writes: a crash anywhere among the block writes, however torn, recovers what a crash before the checkpoint would |
| CrashPoints.RecreatedIsRecreating | kvstore/kv_cache.cpp:86-91 | however many block files a put has re-created, no byte of the others has changed |
| CrashPoints.LoggedRequestRecoversIff | kvstore/kv_store.cpp:403-404 | shadow writes, the other half: a crash after the request is logged, at any moment of the re-creation of block files, recovers the plain map with the request applied if and only if the longer log makes every column good |
| CrashPoints.CrashBeforeTruncationIff | kvstore/kv_store.cpp:346-354 | with the new metadata and the old log, where mismatched conditional puts are on columns that the log puts, the plain map is recovered if and only if no column that ends deleted was put in it and every column without a fragment was |
| CrashPoints.UntruncatedReplay | kvstore/kv_store.cpp:346-354 | whatever the log, such a restart replays it on the state it produced, less the columns without a fragment |
| CrashPoints.MismatchedCPutComesBack | kvstore/kv_store.cpp:562-568 | a node, two conditional puts and a crash before the log is truncated: the one that mismatched is applied by the restart |
| CrashPoints.DeletedColumnComesBack | kvstore/kv_store.cpp:307 | a put and a delete of one column, the delete being the last write before a checkpoint: the column is then found |
| Lifetimes.MomentsLeadOn | kvstore/kv_store.cpp:298-407 | the moments at which a request can crash lead from the files before it to those after it, each step writing block files, the metadata file or the log, and nothing else |
| Lifetimes.MomentExplained | kvstore/kv_store.cpp:378-625 | at every crash point of a request but those before the log is truncated (between requests, inside either checkpoint, after the forced one, after logging) the files determine a map |
| Lifetimes.HeldIff | kvstore/kv_store.cpp:378-625 | that map is the plain map, with the logged request if there is one, if and only if the forced checkpoint of the request brings nothing back |
| Lifetimes.CrashIff | kvstore/kv_store.cpp:752-825 | a crash at any of the seven kinds of moment, from whose files the node can be restarted, is survived if and only if it is safe |
| Lifetimes.LifetimeRefinesIff | kvstore/kv_store.cpp:378-825 | over every lifetime of requests and crashes the node is clean, durable and stands for the plain map throughout if and only if every event is safe, and then all replies are the plain map's; a safe crash finds a metadata file, no NUL in the log and no newline in a name |
| Lifetimes.CrashRestartsFromText | kvstore/kv_store.cpp:752-825 | the restart in such a lifetime is the restart from the texts of the metadata file and of the log as it was received |
| Lifetimes.FreshNodeStarts | kvstore/kv_store.cpp:888-899 | a fresh node is clean, durable and empty |
| LogFormat.LogReadIff | kvstore/kv_store.cpp:290-296 | parsing inverts printing of the log, for values of any bytes, if and only if no row or column name holds a newline |
| LogFormat.RecordRead | kvstore/kv_store.cpp:790-822 | one record is read back and nothing of what follows it is touched |
| LogFormat.SendChunk | kvstore/kv_store.cpp:652-662 | one message carries a prefix of its piece of the log without a NUL, which stops short only before one, and says whether the piece is the last |
| LogFormat.ReceivedIff | kvstore/kv_store.cpp:187-205 | what arrives of a log is the log if and only if it holds no NUL byte |
| LogFormat.FetchLog | kvstore/kv_store.cpp:187-205 | the loop puts together what the messages carry, which is the log if and only if it holds no NUL, in max(1, ceil(n/M)) rounds |
| MetadataFormat.Tokenize | kvstore/utils.cpp:57-79 | gives the non-empty pieces of the string; fails exactly when there are none |
| MetadataFormat.MetadataBack | kvstore/kv_store.cpp:320-345 | reading the metadata file gives back the pointer and exactly the columns that have a fragment, in whatever order they were written |
| MetadataFormat.ReadColumns | kvstore/kv_store.cpp:257-272 | the parsing loop computes `ParseColumns` |
| MetadataFormat.ReadMetadata | kvstore/kv_store.cpp:243-275 | the pointer from the first line, then the columns |
| RestartText.EntriesAreRecords | kvstore/kv_store.cpp:790-824 | redoing the parsed entries is redoing the records, and marks the same columns modified |
| RestartText.LegibleRestarts | kvstore/kv_store.cpp:752-825 | from legible files (a metadata file, no NUL in the log, no newline in a name) the restart from the texts is the recovery, in whatever order the columns were written |
| RestartText.UnsavedNeverRestarts | kvstore/kv_store.cpp:693-698 | before the first checkpoint there is no metadata file, and the restart fails |
| RestartText.CutIff | kvstore/kv_store.cpp:652-662 | a value cut at its first NUL is the value if and only if nothing but NULs follows |
| RestartText.NulComesBackCut | kvstore/kv_store.cpp:652-662 | a put whose value holds a NUL comes back cut at it, where the log says otherwise |
| ServerRecovery.ReplayLog | kvstore/kv_store.cpp:786-824 | the replay loop over the log's text redoes its entries in place and fails where a parse does |
| ServerRecovery.LoadTable | kvstore/kv_store.cpp:243-275 | the new process's table is the metadata file's, read back |
| ServerRecovery.Restart | kvstore/kv_store.cpp:752-825 | fetches the log through `FetchLog`, loads the table and replays: the outcome is `RestartText.RestartFrom`, and from legible files `Recovery.Recover` |
| Memory.LoadRowConservesIff | kvstore/kv_cache.cpp:54-74 | loading a row keeps `available_memory` plus the cached bytes equal to the capacity, over the integers, if and only if there is room for it |
| Memory.PutColumnConservesIff | kvstore/kv_cache.cpp:98-109 | so does a put, if and only if the value and what must be loaded fit into what is available and what the old value frees |
| Memory.CPutColumnConservesIff | kvstore/kv_cache.cpp:123-139 | so does a conditional put, if and only if there is room to load its row and it fails or the two values are equally long |
| Memory.DeleteColumnConserves | kvstore/kv_cache.cpp:141-159 | a delete always does |
| Memory.DropRowExcess | kvstore/kv_cache.cpp:46-48 | one eviction moves the sum by the row's recorded size less its cached bytes |
| Memory.EvictedTwiceIsCreditedTwice | kvstore/kv_cache.cpp:37-49 | with right sizes one eviction conserves memory if and only if the row is in the cache or empty |
| Memory.EvictConservesIff | kvstore/kv_cache.cpp:36-52 | a whole eviction does if and only if every row that it drops is in the cache or empty |
| Memory.DeleteColumnAccurateIff | kvstore/kv_cache.cpp:141-159 | a delete keeps `row_sizes` right if and only if the row is in the cache or the value is empty |
| Memory.PutColumnAccurate | kvstore/kv_cache.cpp:98-109 | a put keeps `row_sizes` right |
| Memory.CPutColumnAccurate | kvstore/kv_cache.cpp:123-139 | a conditional put keeps `row_sizes` right |
| Memory.RestartAccurateIff | kvstore/kv_store.cpp:243-275 | after a restart `row_sizes` are right if and only if nothing on disk has a byte |
| Memory.EvictSucceedsIff | kvstore/kv_cache.cpp:36-52 | `evict_users` never takes the front of an empty queue if and only if the other rows are recorded to hold enough |
| Memory.CreditCoversQueue | kvstore/kv_cache.cpp:36-52 | with right sizes, evicting the queue credits exactly the bytes of its rows |
| Memory.EvictSucceedsExactly | kvstore/kv_cache.cpp:36-52 | with right sizes it succeeds if and only if what is available and what the other rows hold, in the cache or on disk, come to the size asked for |
| Memory.EvictSucceeds | kvstore/kv_cache.cpp:36-52 | in particular whenever the size plus `user`'s cached bytes fit in the capacity |
| Budget.PutNeverWraps | kvstore/kv_store.cpp:390-404 | from right counters, after the checkpoint and eviction that precede it, a put lowers the counter by exactly what it adds, without wrapping |
| Budget.StepBooksIff | kvstore/kv_store.cpp:378-625 | a request leaves both counters right (memory conserved over the integers, `row_sizes` the bytes of the rows) if and only if it keeps the books: the rows it evicts are in the cache or empty, its delete is of a resident row or an empty value, its swap leaves the length or makes good half of what the eviction credited too much |
| Budget.RunConservesIff | kvstore/kv_store.cpp:378-625 | over every run both counters are right after every request if and only if every request keeps the books |
| Budget.StepDefinedIff | kvstore/kv_cache.cpp:36-52 | from right counters a request never takes the front of an empty queue if and only if the value and what it must load of its row fit into the capacity beside what is cached, once all other rows are credited with what they hold |
| Budget.RunDefinedIff | kvstore/kv_cache.cpp:36-52 | a run that keeps the books is defined if and only if every request is affordable in that sense, and then the counter never leaves the range from 0 to the capacity |
| Budget.FittingIsAffordable | kvstore/kv_cache.cpp:36-52 | in particular a request is affordable whenever that fits into the capacity beside what is cached of its own row |
| Budget.FreshIsSound | kvstore/kv_store.cpp:888-899 | a fresh node has right counters |
| Timing.StepCheckpointsExactly | kvstore/kv_store.cpp:357-374 | with right counters a put, and a conditional put of a column that is there, takes a checkpoint before it is logged if and only if the value and the bytes of its row still on disk do not fit into the capacity beside the cached bytes, and a get if and only if its row is not in the cache; a write that was answered with success takes one afterwards if and only if `CHECKPOINT_THRESHOLD` have then been counted; no request takes another, and version, counter and log are what follows from that |
| Timing.RunKeepsLogVersion | kvstore/kv_store.cpp:349-353 | over every run the version line of the log is the node's version |
| Timing.EvictIsLeast | kvstore/kv_cache.cpp:36-52 | `evict_users` drops the rows of the queue other than `user` up to the first point at which enough is available, and no more |
| Timing.StepEvictsLeast | kvstore/kv_store.cpp:390-401 | after a request its own row is in the cache, if it needed it there, and so are all others that were, but when it ran short those first in the queue, the least number with which its cost fits into the capacity beside what is cached |
| OrderedLock.LockIsFair | kvstore/utils.cpp:6-27 | over every balanced history there is at most one holder, nobody waits for a free lock, and threads go on in order of arrival |
| OrderedLock.FairFromTheStart | kvstore/utils.cpp:6-27 | in particular from a new lock |
| OrderedLock.StrayUnlockAdmitsASecond | kvstore/utils.cpp:19-27 | an unlock by a thread without the lock lets a second one in |
| OrderedLock.Mutex.Acquire | kvstore/utils.cpp:8-17 | `lock` as a method does what the specification says |
| OrderedLock.Mutex.Release | kvstore/utils.cpp:19-27 | `unlock` hands over without clearing `locked` |
| Replication.NextKeeps | kvstore/kv_store.cpp:378-625 | every action of every handler keeps the invariant of the group |
| Replication.ReplicationIsSafe | kvstore/kv_store.cpp:380-451 | over every interleaving of clients at any nodes, what a secondary has applied is a prefix of what the primary has, at most two writes shorter, and a plain map carries out every one of these writes with success |
| Replication.AcceptsIsSuccess | kvstore/kv_store.cpp:543-568 | the primary's test is that the plain map answers success, and its write is the plain map's |
| Replication.PrimaryDecidesExactly | kvstore/kv_store.cpp:387-413 | in any state the primary applies a write and goes on to push it if and only if the plain map of the writes before it carries it out with success: a conditional put if it holds the expected value, a delete if it has the column; otherwise nothing is applied anywhere, the secondary that forwarded the write is told so, and the lock goes to the next in line, but a delete keeps it |
| Replication.SuccessIsEverywhere | kvstore/kv_store.cpp:430-451 | when a secondary answers success the write is at the same place in every node's sequence |
| Replication.DeadlockIsForever | kvstore/kv_store.cpp:380-451 | once a replica's lock is held by a request that waits for a primary that waits for the replica, the primary never applies a write again |
| Replication.MissingDeleteStopsWrites | kvstore/kv_store.cpp:489-492 | after a delete of a column that the primary lacks, the primary never applies a write again, whatever happens |
| Replication.TwoClientsCanDeadlock | kvstore/kv_store.cpp:380-451 | two secondaries that serve clients at once can get there |
| Lockstep.PutKeepsStepIff | kvstore/kv_store.cpp:378-452 | a put sent to any node keeps the group in step (versions, counters, `modified`, layout, plain map, metadata and what is on disk agree) if and only if no secondary forces a checkpoint of its own within it (`Interruption.InterruptedLeaves` says what such a put leaves) |
| Lockstep.CPutKeepsStepIff | kvstore/kv_store.cpp:529-625 | a conditional put that the primary turns down does; one that it accepts does if and only if no secondary forces a checkpoint of its own and the nodes agree on the column being missing from its resident row, or something is expected, or nothing is stored |
| Lockstep.DeleteKeepsStepIff | kvstore/kv_store.cpp:481-527 | a delete of a column that is there does if and only if the nodes agree on it being missing from its resident row, or the checkpoint due after it brings it back |
| Lockstep.GetKeepsStep | kvstore/kv_store.cpp:454-479 | a get does, whose forced checkpoint every node takes |
| Lockstep.GroupStaysInStepIff | kvstore/kv_store.cpp:357-719 | over every run of requests one at a time, with any checkpoints, evictions and columns brought back, the group is in step throughout if and only if every request is undisturbed in these senses |
| Lockstep.NewGroupInStep | kvstore/kv_store.cpp:888-899 | a new group is in step |
| Interruption.WriteLeaves | kvstore/kv_store.cpp:378-625 | after a put or an accepted conditional put that is not interrupted every node has the version that follows and the plain map with the write in it, where its table lets it take place, and with the deleted columns that a checkpoint brought back; the write is in its log unless a counted checkpoint followed |
| Interruption.DeleteLeaves | kvstore/kv_store.cpp:481-527 | after a delete the column is gone from every node whose resident row does not lack it, unless the checkpoint that follows brings it back; if none follows it is in every node's log |
| Interruption.InterruptedLeaves | kvstore/kv_store.cpp:428-450 | after an interrupted write every node holds it: the primary and the secondaries served before the one that asked for the checkpoint on disk, with nothing counted or logged; that one and those served after it one version further, in the cache and the log only, with one write counted and NULs in the new extent |
| Interruption.SmallerCacheFallsOut | kvstore/kv_store.cpp:428-440 | two puts to a group of three of which the last has the smaller cache: every node finds the second value, and the last, with the secondary that the client called, is out of step and without its bytes |
| Rejoining.RunOnwards | kvstore/kv_store.cpp:343-354 | over every run the version never goes back, and while it stays the metadata file and what it names stay |
| Rejoining.EqualVersionsNeedNoCopy | kvstore/kv_store.cpp:207-213 | a node that stopped in step and has the primary's version recovers from its own block files to what the primary would, which, if the primary's log explains its map, is that map if and only if the log makes every column good; from legible files this is the restart from their texts |
| Rejoining.RunFollows | kvstore/kv_store.cpp:290-355 | over every run that brings nothing back a node's counter and dirty set are those that its log tells |
| Rejoining.RejoinsInStepIff | kvstore/kv_store.cpp:752-825 | a restarted node is in step with its primary if and only if the primary has logged nothing since its last checkpoint and its metadata file names no column without a fragment |
| Rejoining.InterruptedVersionsIff | kvstore/kv_store.cpp:428-450 | after an interrupted write the versions of the primary and of a secondary that wrote late are equal if and only if the write was not one that a counted checkpoint follows |
| Rejoining.InterruptedWriteSurvivesIff | kvstore/kv_store.cpp:428-450 | when they are, that secondary is without the bytes of the write: a restart gives the primary's map if and only if the value is all NULs and the metadata file names no column without a fragment |
| Routing.ChooseFailsIff | kvstore/master.cpp:182-211 | the router fails if and only if every member of the group is dead, and otherwise answers with a live member |
| Routing.ChoiceIsNext | kvstore/master.cpp:189-208 | one call, whatever has died or come back since the last, is answered by the first live member from the counter on, and the counter goes to the place after it; if there is none the counter has gone once around |
| Routing.AnswersInOrder | kvstore/master.cpp:189-208 | with a fixed dead set consecutive calls are answered by the live members in cyclic order from the counter |
| Routing.EachLiveMemberOnce | kvstore/master.cpp:189-208 | m consecutive calls for a group with m live members are answered by each of them exactly once |
| Routing.GroupsStayEven | kvstore/master.cpp:185-188 | over every sequence of calls a user's group never changes and group populations differ by at most one |
| Failover.NextInformed | kvstore/master.cpp:84-166 | one round or admin call keeps every started node up to date or flagged |
| Failover.NodesStayInformed | kvstore/master.cpp:84-295 | over every run of answered, late and lost heartbeats, turn-offs, turn-ons and restarts each started node holds the current primary, and an unflagged primary every live replica |
| Failover.ToldIsUpToDate | kvstore/kv_store.cpp:829-855 | what a node makes of an answered heartbeat |
| Failover.PrimaryLivesIff | kvstore/master.cpp:138-166 | a step from a live primary leaves a live primary if and only if it leaves a live member |
| Failover.PrimaryAlwaysLivesIff | kvstore/master.cpp:138-166 | over a run the recorded primary is alive throughout if and only if the group never loses all members |
| Failover.ReturnDoesNotElect | kvstore/master.cpp:158-165 | after a total loss another member's return leaves the dead primary recorded |
| Failover.ReplicasStayPeers | kvstore/kv_store.cpp:838-848 | over every run no node counts itself or a stranger among its replicas |
| FailoverHistory.DeadIff | kvstore/master.cpp:126-162 | over every run a server is in the dead set if and only if the last of its rounds since its start and of its turn-offs was an unanswered round or a turn-off; it is turned off if and only if the last of its turn-offs and turn-ons was a turn-off; it is awaited if and only if it has never answered |
| FailoverHistory.RequestTells | kvstore/master.cpp:84-101 | the heartbeat after a run says `recover` exactly to a server that is down and `updated` exactly to one that is flagged, and carries the primary and as replicas exactly the other members that are not down |
| FailoverHistory.HeartbeatPossibleIff | kvstore/master.cpp:114-117 | a heartbeat of a member can take place again after its turn-on, and cannot between its turn-off and its turn-on |
| FailoverHistory.EventsTell | kvstore/master.cpp:84-295 | dead set, turned-off set, awaited set, flags and primaries are what the events say of them |
| FailoverHistory.NodesTell | kvstore/kv_store.cpp:829-855 | over every run a node takes itself for the primary if and only if the last round that reached it since its start, answered in time or not, named it; it awaits its first round if and only if none has; and it forwards and replicates as the rounds sent to it while it was flagged or starting said |
| MasterImplementation.Master.Configure | kvstore/master.cpp:321-349 | the loop lays the servers out in groups of `GROUP_SIZE`, the first of each its primary |
| MasterImplementation.LaidOutIsFit | kvstore/master.cpp:321-349 | groups so laid out are disjoint, have a primary among their members, and are what the router takes them to be |
| MasterImplementation.ChoiceIsConfiguredIff | kvstore/master.cpp:185-200 | a choice has an address if and only if its group is full, or is the last one and a configured member of it is live from the counter on |
| MasterImplementation.Master.Probe | kvstore/master.cpp:189-200 | the probing loop finds what `Routing.Skip` says |
| MasterImplementation.Master.Which | kvstore/master.cpp:182-211 | assigns and answers as module Routing says |
| MasterImplementation.Master.Elect | kvstore/master.cpp:143-155 | the search finds a live member exactly when there is one |
| MasterImplementation.Master.Heartbeat | kvstore/master.cpp:111-166 | a turn of the loop does nothing for a server that is turned off, and otherwise sends and does what module Failover says (`FailoverHistory.RequestTells`, `FailoverHistory.DeadIff`) |
| MasterImplementation.Master.NodeTurnOff | kvstore/master.cpp:230-270 | does what module Failover says |
| MasterImplementation.Master.NodeTurnOn | kvstore/master.cpp:272-295 | does what module Failover says (`FailoverHistory.HeartbeatPossibleIff`) |
| ListString.AppendAddsIff | frontend/common_mail_files.cc:82-100 | appending to a list string adds exactly `x` to the list if and only if `x` is not empty and has no delimiter |
| ListString.RemoveDrops | frontend/common_mail_files.cc:103-125 | deleting from a list string drops every `x` from the list and nothing else |
| ListString.SeparateString | frontend/common_mail_files.cc:143-159 | the loop gives the non-empty pieces in order |
| ListString.DeleteHash | frontend/common_mail_files.cc:103-125 | the two loops compute `Removed` |
| Decimal.RoundTrip | frontend/files.cc:119 | a printed number is read back |
| Paths.PathTokens | frontend/files.cc:302-322 | splitting a path at its slashes gives its names back |
| Paths.OneLevelUp | frontend/files.cc:302-322 | the method computes `Up` |
| Paths.UpIsParent | frontend/files.cc:302-322 | one level up from a path is its parent |
| FileColumns.NameInjective | frontend/files.cc:116-119 | different cells of the tree have different column names |
| FileColumns.AddDir | frontend/files.cc:325-339 | `create_dir` keeps the tree: the new directory is listed once, by its parent, and lists nothing |
| FileColumns.AddFileEntry | frontend/files.cc:89-98 | appending a new file to its directory's list keeps the tree |
| FileColumns.RemoveFileEntry | frontend/files.cc:441-448 | taking a file off its directory's list keeps the tree |
| FileTree.InitialisedIsEmpty | frontend/files.cc:10-20 | on a row without columns of the tree initialisation makes the empty root |
| FileTree.AllChunks | frontend/files.cc:108-137 | the chunks together are the data, for every length |
| FileTree.CreateDirEncodes | frontend/files.cc:325-339 | `create_dir` adds one directory and touches no file |
| FileTree.EraseChunk | frontend/files.cc:434-437 | one turn of the loop that deletes chunks |
| FileTree.FinishErasing | frontend/files.cc:439-448 | after the loop the row encodes the file system without the file |
| FileTree.WriteChunk | frontend/files.cc:116-126 | one turn of the loop that writes chunks |
| FileTree.FinishWriting | frontend/files.cc:101-137 | after the loops the row encodes the file system with the file, all others as before |
| FileTree.StepFound | frontend/files.cc:247-281 | one turn of the walk: what is on the stack and in the lists stays exact and without repetition |
| FileTree.EndFound | frontend/files.cc:247-281 | an empty stack means that the lists are complete |
| FileTree.FinishPruning | frontend/files.cc:403-422 | with the subtree's files and lists gone, the change of the parent's list leaves exactly the rest of the tree |
| FileTree.PruneRoot | frontend/files.cc:396-404 | deleting the root leaves a row without columns of the tree |
| RowFrame.UnslashedIsOther | frontend/files.cc:10-20 | a column whose name has no leading slash, such as the password, is none of the tree's |
| DriveImplementation.Drive.constructor | frontend/files.cc:10-20 | a row without columns of the tree stands for the empty file system |
| DriveImplementation.Drive.CPutLoop | frontend/common_mail_files.cc:49-79 | succeeds if and only if the column exists, and then replaces its value |
| DriveImplementation.Drive.AppendToMetadata | frontend/common_mail_files.cc:82-100 | appends to an existing list; a missing one stays missing |
| DriveImplementation.Drive.InitFilesMetadata | frontend/files.cc:10-20 | initialises the row once, the list of shared files with it; every column outside the tree stays |
| DriveImplementation.Drive.CreateDir | frontend/files.cc:325-339 | leaves the columns of `WithDir`; every column outside the tree stays |
| DriveImplementation.Drive.BuildOutDirectoryPath | frontend/files.cc:342-375 | exactly the missing directories on the way are added, and the tree is kept; every column outside the tree stays |
| DriveImplementation.Drive.DeleteFile | frontend/files.cc:426-491 | does to the row, for any name, what `Deleted` says: the column goes with every column that it lists, and the list above it no longer lists the name; on the full name of a file this removes exactly the file; answers whether the column was there; no column outside the tree changes but that one, those that it lists and the list above it |
| DriveImplementation.DeletedFile | frontend/files.cc:426-491 | on a file's full name, the row then encodes the file system without the file |
| DriveImplementation.DeletedOutside | frontend/files.cc:426-491 | on a name without its slash another column goes and the tree stays as it is |
| DriveImplementation.BroughtBackEncodesNothingIff | frontend/files.cc:426-491 | after `delete_file` the row encodes a file system if and only if the store brings none of the file's columns back |
| DriveImplementation.Drive.WriteFile | frontend/files.cc:76-140 | afterwards the file holds the data, its directories exist, and neither another file nor a column outside the tree has changed, whatever was there before; the list of shared files is made empty with a first initialisation |
| DriveImplementation.Drive.GetFileData | frontend/files.cc:157-202 | returns exactly the file's data, for every length, or says there is no such file; every column outside the tree stays |
| DriveImplementation.Drive.FileExists | frontend/files.cc:494-511 | answers whether the file exists; every column outside the tree stays |
| DriveImplementation.Drive.MoveFile | frontend/files.cc:514-526 | the result code tells the cases; on success the target holds the old data, and the source is gone if and only if its name began with a slash; every column outside the tree stays, but for a source without its slash the column of that name and those that it lists |
| DriveImplementation.Drive.GetAllFiles | frontend/files.cc:237-298 | the walk ends and lists exactly the files and directories under the root, each once; every column outside the tree stays |
| DriveImplementation.Drive.DeleteDir | frontend/files.cc:378-423 | removes exactly the subtree of the directory named up to the first `&`; answers true if and only if that is not the root and its parent exists; every column outside the tree stays |
| DriveImplementation.Drive.Unlink | frontend/files.cc:408-422 | the last part of `delete_dir` |
| DriveImplementation.WriteThenRead | frontend/files.cc:76-202 | on any valid drive a file written is read back exactly, after another file was written too |
| DriveImplementation.MoveThenRead | frontend/files.cc:514-526 | on any valid drive a file moved to a free path is read there with its content, and its old name is free |

## Left out

- StoreImplementation.KVStore.Put: the lock and the pushes to the replicas are not in this contract; they are the matter of
  `Replication` and `Lockstep`.
- StoreImplementation.KVStore.Delete: the same, and so is the lock that is kept when the key is missing.
- StoreImplementation.KVStore.CPut: the same.
- DriveImplementation.Drive.MoveFile: where the source is named without its slash, a column of that very name must not list names
  with one; the columns of this tree never do, but other users of the row might.
- CrashPoints.CrashBeforeTruncationIff: a conditional put that mismatched on a column that the log never puts is not covered by
  the closed form; `CrashPoints.UntruncatedReplay` says for every log what is recovered, and `Lifetimes.CrashIff` when it is right.
- Lifetimes end at a crash whose files are not legible; `RestartText.RestartFrom` says what such a restart gives.
- gRPC, sockets, deadlines and threads: a call is a step that succeeds or fails, and a failed status is modelled in `Failover` only.
- The HTTP server, JSON, cookies, sessions, admin pages, SMTP, POP3 and external mail: input and output with little state.
- The `Disk` block copy and the lock choreography across `Recover`, `Disk` and `Metadata` (kvstore/kv_store.cpp:216-241, 628-707): the
  locks are unbalanced there and the copy can miss part of a block; recovery is modelled for matching versions.
- `ColumnsForRow`, `NodeStatus` and `GetRows`: plain listings.
- File sharing, `rename_dir` and `replace_in_path`.
- Concurrent writers to one list: `append_to_metadata` overwrites with a stale read, so `Drive` is sequential.
- Names that are not normalised, such as ones with doubled slashes.
- The branch of `file_exists` and the other readers that looks at `error()`: the storage node never sets it.
- A log that ends within the lines at the head of a record, and logs and metadata files that were not written by the program: the
  parsers answer `None`, and what the source makes of them is not modelled.
- A crash while the metadata file or the log is itself being rewritten or fetched, which leaves a file cut short.
- Spurious wake-ups of `ordered_lock`, and races inside a heartbeat round of the master (the flag is cleared outside `map_lock`).
- Overflow of version, round-robin, user and `row_sizes` counters.
- The eviction order is a parameter rather than the order of a hash table.
- `Replication` does not model checkpoints and eviction, and `Lockstep` takes one client request at a time.
- Progress of replicated writes: only safety holds.
