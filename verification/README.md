# EzRaft: storage, locks and timestamps, verified

A Dafny model of the parts of EzRaft that other guarantees rest on, with proofs of what its comments and
documentation promise. Three subjects:

**The storage stack.** `FileStorage` turns four operations (metadata, log entry, snapshot, delete range)
into creates, writes, fsyncs, renames and unlinks. `LogStore` turns openraft's append, truncate, purge and
vote into sequences of those operations, and `StateMachineStore` keeps an application, a cached snapshot
and a stored one in step. The model has one layer for each:

| file | layer |
|---|---|
| `FileSystem.dfy` | contents and names, each with a volatile and a durable side; `Os.exposed` collects every file system a power loss could have left at any instant so far |
| `Framing.dfy`, `LogNames.dfy` | the bytes of the snapshot file, the names of log files |
| `FileStorage.dfy` | the storage methods over that file system, refined to an atomic `Disk` with a precise account of what a cut-short operation leaves (`Torn`) |
| `LogStore.dfy` | the log a disk holds (`Holds`), what each operation means for it (`Logged`), and the methods that write metadata and entries in order |
| `StateMachine.dfy` | sequential replay, the stream `apply` consumes, snapshots, and the methods over them |
| `Adapter.dfy` | opening both stores over one storage; every call of openraft's is a step of the node |
| `Node.dfy` | whole runs of one node: calls, builds and installs in any interleaving, power losses anywhere |
| `DirChain.dfy` | creating the directories themselves |

**Concurrency of the adapter.** `Locks.dfy` has the four locks and every call that takes them, as any
number of tasks: no deadlock, exclusive access, every run ends. `LogTasks.dfy` interleaves readers and
writers of one log between any two lock or storage operations.

**The two examples.** `Oracle.dfy` and `OracleRun.dfy` model the timestamp oracle: a replicated
high-water mark, what each process reserved of it, and runs of any number of processes whose writes may
commit after failing, whose leaders change and whose clocks read anything. `KvStore.dfy` is the ordered
map and its early-stopping prefix scan.

`Types.dfy` holds the shared values. Requests, responses, application states and memberships are abstract
types, so every theorem holds for all of them.

## What is assumed

- **A crash is a power loss.** Unsynced contents become arbitrary bytes; any subset of the unsynced
  changes to a directory survives; a rename is one change, atomic; an fsync that returned holds.
- **The operating system may refuse any call.** `Os.faults` and `Tree.faults` count its refusals. An
  operation answers with an I/O error if and only if a call it made was refused; every other error has a
  cause that its contract names.
- **A storage error is the end of a node.** After an `Err` the methods promise only what a power loss can
  find, which is all that openraft relies on: it shuts down. The cache may then differ from the disk.
- **openraft keeps its contract** (`LogStore.Asked`, `Node.Allowed`, `Node.Sent`): it appends contiguously
  with terms that do not go back, purges only what the stored snapshot covers, truncates nothing committed
  that no snapshot has, keeps every index below `u64::MAX`, and installs no snapshot that is behind what the
  node knows committed. `RepairedRangeIsWellFormed` shows what the position repair does without such a
  contract. One build and one install are in progress at a time; they may overlap each other, and applies,
  at will.
- **A published build reaches the purge point** (`Node.Reaches`), for coverage and the restart theorem only.
  Nothing in the adapter enforces it. It is exact: `RunsAreCoveredExactly` has both directions,
  `LateBuildLosesAnEntry` is a run that breaks it and loses an entry, and `ApartReaches` shows that keeping
  installs out of the time between a build's capture and its publication is enough.
- **serde round-trips** (`Codec.RoundTrips`, `App.RoundTrips`): it may fail to write or to read, but what
  it wrote reads back. The same initial application value is passed on each start. `usize` is 64 bits wide
  where a stored snapshot must load again.
- **The lease, for the order of timestamps only** (`OracleRun.LeaseHolds`): successful checks return terms
  that do not go back, and there is one leader per term. Nothing is assumed of how a check relates to the
  committed log, and entries may commit under any term. Uniqueness needs none of this;
  `WithoutLeaseOrderFails` shows that order does.

## Where the code and its documentation differ

The model follows the code.

- `docs/guide.md:255-258` and `examples/kvstore.rs:166` say that `FileStorage` does not fsync. It does.
- `src/storage/file_storage.rs:57-58` says that each directory created is fsynced into its own parent. The
  first component of a bare relative path (`data/node1`, not `./data/node1`) is not: its parent is the
  empty path, which is skipped (line 306). `DirChain.CreateDirDurable` has the exact condition.
- `src/storage/file_storage.rs:283-284` says that an existing directory needs no flush. One that another
  process, or a failed earlier start, created and did not flush does; the same condition covers it.
- `examples/timestamp_oracle.rs:200-202` argues that a stale tag is safe because the committed log then holds
  a newer term. The tag is safe even without that: the order is proved from the lease checks alone.
- `src/storage/mod.rs:104-105` says that `read_logs` returns nothing where no entries exist. `FileStorage`
  refuses the whole range instead (`src/storage/file_storage.rs:239-244`).

## Model

| member | source | states |
|---|---|---|
| Framing.FrameRoundTrips | src/storage/file_storage.rs:218-229 | a snapshot file gives back its metadata and its state unchanged, whatever bytes they are |
| Framing.UnframeInvertsFrame | src/storage/file_storage.rs:175-192 | a file reads as two halves if and only if it is those halves framed |
| Framing.FrameIsInjective | src/storage/file_storage.rs:218-229 | two snapshots with the same file are the same snapshot |
| Framing.CutFileIsRefused | src/storage/file_storage.rs:316-336 | a file cut short is refused if and only if the cut falls inside the length or the metadata; a later cut shortens the state undetected |
| Framing.BigEndianReadsBack | src/storage/file_storage.rs:221 | the eight length bytes read back as the length written |
| Framing.BigEndianIsOnto | src/storage/file_storage.rs:328 | every eight bytes are the length bytes of exactly the number read from them |
| Framing.BigEndianByte | src/storage/file_storage.rs:221 | the bytes of a number come most significant first: byte `k` of `w` is the number over 256 to the power `w - 1 - k`, modulo 256 |
| Framing.FramedBytes | src/storage/file_storage.rs:218-227 | the snapshot file byte by byte: the length of the metadata in eight big-endian bytes, the metadata, the state |
| LogNames.NameRoundTrips | src/storage/file_storage.rs:102-104 | a log file is found again in a listing under the index it was written for |
| LogNames.NamesAreDistinct | src/storage/file_storage.rs:102-104 | two indices never share a file |
| LogNames.OwnNamesArePlain | src/storage/file_storage.rs:138-144 | a listed name that parses to an index is that index's own file if and only if it has no sign and no leading zero |
| LogNames.NamesRead | src/storage/file_storage.rs:138-144 | a listed name reads as an index if and only if the index fits a `u64` and the name is `log-`, a plus sign or not, any zeros, and the index in decimal; every other name is refused |
| FileSystem.SurvivesTwo | src/storage/file_storage.rs:260-264 | what is left of two unsynced changes to a directory: either, both or neither |
| FileSystem.SettledCrashesToItself | src/storage/file_storage.rs:44-51 | once contents and names are fsynced a power loss takes nothing |
| FileStorage.CrashWhileWriting | src/storage/file_storage.rs:254-258 | losing power while a file is written leaves every other file as it was |
| FileStorage.CrashAfterRename | src/storage/file_storage.rs:111-115 | losing power around the rename leaves the previous file or the whole new one, never half of each |
| FileStorage.RenameAloneCanBeLost | src/storage/file_storage.rs:124-125 | without the fsync of the directory the new file can be read and still be taken back by a power loss |
| FileStorage.CrashWhileRemoving | src/storage/file_storage.rs:129-159 | losing power while log files are deleted loses files of the range and nothing else |
| FileStorage.SavedSnapshotLoads | src/storage/file_storage.rs:166-198 | a persisted snapshot loads back as it was |
| FileStorage.PersistReadsBack | src/storage/file_storage.rs:200-247 | after each storage operation what was written reads back equal, an entry of a deleted range is not found, and everything else reads as before |
| FileStorage.FileStorage.WriteDurable | src/storage/file_storage.rs:254-258 | on success the file holds exactly the bytes, fsynced; at no instant does a power loss touch another file; it fails only if a call was refused |
| FileStorage.FileStorage.Replace | src/storage/file_storage.rs:116-126 | on success the path reads as the new bytes and everything is durable; at every instant a power loss leaves the old file or the new one, all other files untouched |
| FileStorage.FileStorage.RemoveLogs | src/storage/file_storage.rs:129-159 | on success exactly the log files of the range are gone, durably, and the directory held nothing else; a power loss inside leaves some of them; it fails only for a refused call or an unexpected name |
| FileStorage.FileStorage.RemoveListed | src/storage/file_storage.rs:137-151 | the loop over the listing removes every log file of the range and no other, and says whether it removed any; it fails on a name that is no log entry |
| FileStorage.FileStorage.Persist | src/storage/file_storage.rs:200-234 | refines an atomic disk: on success the disk is the operation applied whole and durable, and every power loss inside leaves a torn form: metadata and snapshot whole, one log entry arbitrary, or part of a deletion; it fails only for a refused call, a value serde cannot write, or an unexpected name |
| FileStorage.FileStorage.Load | src/storage/file_storage.rs:166-198 | with no metadata on disk there is no node id, vote or position, else the metadata is what the bytes decode to; the snapshot is none or the two halves the file frames; it fails only for a refused call, bytes that do not decode, or a short frame |
| FileStorage.FileStorage.ReadLogs | src/storage/file_storage.rs:236-247 | returns the entry of each index of the range, in order; it fails only for a refused call, or an index of the range whose file is missing or does not decode |
| LogStore.PositionsAlike | src/storage/adapter/log.rs:77-83 | in a well-formed log the purge point and the last position are ordered by id and by index |
| LogStore.HoldsIsRecovered | src/storage/file_storage.rs:166-198 | a disk holds a log if and only if a restart finds that log on it |
| LogStore.LoggedIsWellFormed | src/storage/adapter/log.rs:112-188 | every operation openraft may ask for leaves consecutive entries between the two positions |
| LogStore.TruncationDrops | src/storage/adapter/log.rs:155-170 | a truncation keeps exactly the entries up to its position, and the log ends at the later of that position and the purge point |
| LogStore.PurgeDrops | src/storage/adapter/log.rs:172-188 | a purge keeps exactly the entries past its position, and a log that stopped short ends there |
| LogStore.FilesDropped | src/storage/adapter/log.rs:169-187 | the writes of a truncation leave no file past its position below `u64::MAX`, those of a purge none up to its position, and each leaves every other file as it was |
| LogStore.WholeIsLogged | src/storage/adapter/log.rs:112-188 | the storage operations of an append, truncation, purge or vote, all done, leave a disk that holds exactly the log the operation means, and the same snapshot |
| LogStore.AppendTorn | src/storage/adapter/log.rs:112-153 | a power loss anywhere inside an append leaves all of the batch or none of it |
| LogStore.CrashAtomic | src/storage/adapter/log.rs:85-188 | a power loss anywhere inside any operation leaves the log before it or the log after it, and the snapshot alone |
| LogStore.DeletionTorn | src/storage/adapter/log.rs:163-169 | once the position is written, a truncation or purge has happened, however little of the deletion reached the disk |
| LogStore.PositionsStayOrdered | src/storage/adapter/log.rs:85-90 | after every metadata write of any run of operations `last_purged <= last_log_id`, whatever was asked, a truncation below the purge point and a purge past the end included |
| LogStore.RepairedRangeIsWellFormed | src/storage/adapter/log.rs:85-90 | the repaired range is well formed by index if and only if the log did not end at a later term and a lower index than the purge point |
| LogStore.RangeCanInvert | src/storage/adapter/log.rs:215-216 | a pair of positions, ordered by id, whose index range is inverted |
| LogStore.WithinIsSlice | src/storage/adapter/log.rs:214-236 | filtering consecutive entries by a range of indices is slicing them |
| LogStore.Clamped | src/storage/adapter/log.rs:218-232 | the clamped bounds select, of what the log has, exactly the indices of the range the bounds stand for, for every kind of bound, a bound stepped past `u64::MAX` wrapping to 0 |
| LogStore.ClampedIsWithin | src/storage/adapter/log.rs:214-239 | reading the clamped range gives every entry of the log whose index that range contains, and refuses nothing |
| LogStore.BoundedIsAnswered | src/storage/adapter/log.rs:218-232 | what a bounded range is answered is one stretch of the log: the entries on the right side of both bounds, included, excluded or open |
| LogStore.WrappingIsHarmless | src/storage/adapter/log.rs:218-228 | a read answers the range asked for if and only if no bound that is stepped past `u64::MAX` opens an empty range or empties an open one |
| LogStore.LogStore.PersistMeta | src/storage/adapter/log.rs:85-90 | writes the metadata with its positions repaired, whole or not at all |
| LogStore.LogStore.SaveMeta | src/storage/adapter/log.rs:62-68 | updates the cached metadata and persists it repaired |
| LogStore.LogStore.SaveVote | src/storage/adapter/log.rs:108-110 | on success the vote, and nothing else of the log, has changed on disk and in the cache; every power loss inside leaves the log before or after; it fails only for a refused call or metadata serde cannot write |
| LogStore.LogStore.SaveNodeId | src/storage/adapter/log.rs:62-68 | the same for the node id |
| LogStore.LogStore.NodeId | src/storage/adapter/log.rs:71-73 | returns the node id last saved |
| LogStore.LogStore.GetLogState | src/storage/adapter/log.rs:97-106 | returns the two positions of the log, never the wrong way round |
| LogStore.LogStore.ReadVote | src/storage/adapter/log.rs:198-200 | returns the vote last saved |
| LogStore.LogStore.WriteEntries | src/storage/adapter/log.rs:123-129 | writes the batch one entry at a time and returns the id of the last, each instant a power-loss outcome of the append that calls it |
| LogStore.LogStore.CountEntries | src/storage/adapter/log.rs:131-135 | recording the last id makes all of the batch just written count, or, cut short, none of it |
| LogStore.LogStore.Append | src/storage/adapter/log.rs:112-153 | on success the batch follows the old entries in the log, durable; the callback is told Ok exactly when the call returns Ok; every power loss inside leaves all of the batch or none; it fails only for a refused call, or an entry or metadata serde cannot write |
| LogStore.LogStore.TruncateAfter | src/storage/adapter/log.rs:155-170 | on success the log has exactly the old entries up to the position, ends there or at the purge point, and no file past it is on disk, every other one untouched; every power loss inside leaves the log before or after; it fails only for a refused call, metadata serde cannot write, or an unexpected name |
| LogStore.LogStore.Purge | src/storage/adapter/log.rs:172-188 | on success the log has exactly the old entries past the position, a log that stopped short ends there, and no file up to it is on disk, every other one untouched; every power loss inside leaves the log before or after; it fails only as a truncation does |
| LogStore.LogStore.TryGetLogEntries | src/storage/adapter/log.rs:202-240 | returns exactly the entries of the log whose index the range its bounds stand for contains; for a bounded range, one stretch of the log, those on the right side of both bounds; it fails only if a call was refused |
| StateMachine.ReplayInBatches | src/storage/adapter/state_machine.rs:126-155 | applying one stretch and then another is applying both, state and replies |
| StateMachine.ReplayReaches | src/storage/adapter/state_machine.rs:136-139 | the applied position is that of the last entry, of every kind |
| StateMachine.ReplayFolds | src/storage/adapter/state_machine.rs:141-147 | the application a replay reaches is the fold of `apply` over the requests among the entries, and nothing else |
| StateMachine.RepliesFold | src/storage/adapter/state_machine.rs:141-147 | the reply to a request is what the application answers after exactly the requests ahead of it; a blank or membership entry has none |
| StateMachine.ReplayKeepsLastMembers | src/storage/adapter/state_machine.rs:143-146 | the membership a replay reaches is the last among the entries, with its log id, or the one before them if there is none |
| StateMachine.ResumedStream | src/storage/adapter/state_machine.rs:132-134 | a stream stopped between items and resumed delivers and answers as one that was not stopped |
| StateMachine.DeliveredIsAPrefix | src/storage/adapter/state_machine.rs:133-134 | what is applied is every item before the first stream error |
| StateMachine.AnswersAreReplies | src/storage/adapter/state_machine.rs:141-152 | each delivered entry's responder gets, once and in order, the reply of the sequential replay: nothing for blank and membership entries |
| StateMachine.AddressedOnce | src/storage/adapter/state_machine.rs:150-152 | the positions answered are, in ascending order, exactly those a responder waits at, each once and with the reply of that position |
| StateMachine.AnswersServe | src/storage/adapter/state_machine.rs:132-153 | every responder of a delivered entry is sent, once and in order, what the application answers to that entry after the requests ahead of it |
| StateMachine.SnapshotRestores | src/storage/adapter/state_machine.rs:83-89 | a snapshot of a state restores that state, position and membership included |
| StateMachine.StateMachineStore.constructor | src/storage/adapter/state_machine.rs:80-102 | with a snapshot, starts with the application its bytes decode to, at its position, with its membership; without one, with the initial application, no position and no members |
| StateMachine.StateMachineStore.Read | src/storage/adapter/state_machine.rs:105-109 | a read sees the applied application state |
| StateMachine.StateMachineStore.AppliedState | src/storage/adapter/state_machine.rs:119-124 | returns the position and the membership of the live state |
| StateMachine.StateMachineStore.Apply | src/storage/adapter/state_machine.rs:126-155 | the application becomes the fold of `apply` over the delivered requests, the position that of the last entry, the membership the last one delivered; every responder of a delivered entry is answered once, in order, with the answer to that entry; the call succeeds exactly when the stream had no error |
| StateMachine.StateMachineStore.InstallSnapshot | src/storage/adapter/state_machine.rs:161-199 | on success the live application is what the bytes decode to, at the snapshot's position and membership, and the stored and cached snapshot are that one; bytes that do not decode change nothing, on disk or in memory; every power loss inside leaves the old snapshot or the new one; it fails only for a refused call, such bytes, or metadata serde cannot write |
| StateMachine.StateMachineStore.GetCurrentSnapshot | src/storage/adapter/state_machine.rs:203-206 | returns the snapshot the storage holds, without reading it |
| StateMachine.StateMachineStore.BuildSnapshot | src/storage/adapter/state_machine.rs:214-237 | on success the snapshot returned is the encoded live application with its position and membership, durable, cached, and restores exactly the live state; it fails only for a refused call, or an application or metadata serde cannot write |
| Adapter.Open | src/storage/adapter/mod.rs:34-51 | opens the stores of a node just started on that disk: the metadata as stored, or none of it; the application the stored snapshot decodes to, or the initial one; it fails only for a refused call, or as the load or the snapshot's decoding fails |
| Adapter.CallLog | src/storage/adapter/log.rs:62-188 | each call on the log is a step of the node, and a power loss inside it is a power loss inside that step; it fails only for a refused call, something serde cannot write, or an unexpected name |
| Adapter.CallApply | src/storage/adapter/state_machine.rs:126-155 | applying committed entries is a step of the node, as far as the stream went, an install half done or not |
| Adapter.CallCapture | src/storage/adapter/state_machine.rs:216-225 | the first half of a build is a capture: it changes nothing but what the build has in hand |
| Adapter.CallPublish | src/storage/adapter/state_machine.rs:229-234 | the second half of a build, whatever happened since the first, is a publication, and a power loss inside it is one inside the publication |
| Adapter.CallBuild | src/storage/adapter/state_machine.rs:214-237 | a build nothing comes between is a capture and a publication |
| Adapter.CallReceive | src/storage/adapter/state_machine.rs:161-183 | the first half of an install stores the snapshot and leaves the live state alone; a power loss inside it leaves the old snapshot or the new |
| Adapter.CallSwap | src/storage/adapter/state_machine.rs:190-195 | the second half of an install, whatever happened since the first, makes the stored snapshot's state the live one |
| Adapter.CallInstall | src/storage/adapter/state_machine.rs:161-199 | an install nothing comes between is both halves, with no change to live state or cache on an error |
| Node.LeftHolds | src/storage/adapter/log.rs:85-188 | whatever is in flight, a power loss leaves the log, and the snapshot, as the operation began or as it would have ended |
| Node.PowerLossRestarts | src/storage/adapter/mod.rs:34-51 | after a power loss anywhere the node starts again, with a log and a snapshot from before or after the operation in flight |
| Node.RestartIsDetermined | src/storage/adapter/mod.rs:41-50 | the disk alone decides everything a node has in memory after a start |
| Node.StartedIsEmpty | src/storage/adapter/state_machine.rs:83-89 | an empty disk starts a node with no node id, no vote, no positions, no entries, no snapshot, and the initial application with no members |
| Node.ConsistentStays | src/storage/adapter/state_machine.rs:126-237 | through any interleaving of applies, two-phase builds, installs, log calls and power losses, the live state and the stored, cached and pending snapshots each pair a position with exactly the fold and membership of that position |
| Node.CoveredExactly | src/storage/adapter/state_machine.rs:227-234 | every step, power losses included and whatever overlaps, keeps each committed entry in the stored snapshot or the log and the purge point behind the snapshot, if and only if it does not put a build that does not reach in the place of the stored snapshot |
| Node.ReachesWhen | src/storage/adapter/state_machine.rs:229-234 | what to check before publishing: with the log purged up to the stored snapshot a build reaches if and only if it captured no less than the purge point, and one that captured no less than the stored snapshot covers always reaches |
| Node.RestartReplaysEverything | src/storage/adapter/state_machine.rs:80-102 | restoring the stored snapshot and applying the retained committed tail, every entry of which can be read, is the fold of the whole committed log |
| Node.RunsAreConsistent | src/storage/adapter/state_machine.rs:126-237 | the pairing holds in every state of every run, with no rule about builds and installs |
| Node.RunsKeepHistory | src/storage/adapter/state_machine.rs:126-237 | in every state of every run the live application, and the one the stored snapshot decodes to, is the fold of `apply` over the committed requests up to its position, and its membership the last one among those entries |
| Node.RunsAreCovered | src/storage/adapter/state_machine.rs:178-188 | coverage holds in every state of every run whose published builds reach |
| Node.RunsAreCoveredExactly | src/storage/adapter/state_machine.rs:178-234 | coverage holds in every state of a run if and only if every build it publishes reaches, one kept by a power loss inside its publication included |
| Node.ApartReaches | src/storage/adapter/state_machine.rs:216-234 | in a run with no install between the capture and the publication of a build, every build reaches |
| Node.RestartTheorem | src/storage/adapter/state_machine.rs:80-102 | wherever a run stands whose published builds reach, and wherever in an operation the power goes, the node starts, has lost nothing committed, and replays to the fold of `apply` over every committed request, with the last committed membership |
| Node.LateBuildLosesAnEntry | src/storage/adapter/state_machine.rs:216-234 | a run in which a build captured before an install is published after the purge: the committed entry is in neither the snapshot nor the log |
| Locks.ProgramsAreOrdered | src/storage/adapter/mod.rs:22-28 | every call of both stores takes its locks upwards only, works on what it has locked and drops all of them, even when the stream `apply` consumes reads the log |
| Locks.ProgramsMakeTheWrites | src/storage/adapter/log.rs:118-187 | the one section of each log call works on the storage exactly as many times as the call issues storage operations |
| Locks.UnwoundIsOrdered | src/storage/adapter/log.rs:118-137 | a call that fails anywhere drops its guards in an order that keeps the rule |
| Locks.UseIsExclusive | src/storage/adapter/log.rs:118-121 | what a task works on it has locked, and no other task has |
| Locks.SomeoneSteps | src/storage/adapter/mod.rs:22-28 | from any blocked task, following who holds what it waits for ends at a task that can go on |
| Locks.NoDeadlock | src/storage/adapter/mod.rs:22-28 | in every reachable state of any number of calls, an unfinished call means some call can go on |
| Locks.RunsEnd | src/storage/adapter/mod.rs:22-28 | every step, failures included, is progress, so every run ends |
| Locks.ReverseOrderDeadlocks | src/storage/adapter/mod.rs:25-27 | a call that took the storage before its cache could block for good against an append |
| LogTasks.InvStays | src/storage/adapter/log.rs:112-240 | each lock or storage operation of any task keeps the two locks, the cache and the disk as the log demands |
| LogTasks.NoReadMisses | src/storage/adapter/log.rs:209-212 | in no interleaving does a reader ask the storage for an entry that is not there |
| LogTasks.ReadsAreAtomic | src/storage/adapter/log.rs:202-240 | what a read returns is its range out of the log as it stands at one instant between its call and its return |
| LogTasks.PeeksAreWhole | src/storage/adapter/log.rs:97-106 | reading the cached metadata alone gives that of a whole log, never of a write half done |
| LogTasks.WritesAreSerial | src/storage/adapter/log.rs:112-188 | whenever no task has the storage, the disk holds and the cache describes exactly the log that the finished writes give one at a time, in the order they finished |
| LogTasks.ReadsAreSerial | src/storage/adapter/log.rs:202-240 | a read returns its range out of the log that the writes finished before it give one at a time |
| LogTasks.StaleClampMisses | src/storage/adapter/log.rs:209-210 | any range clamped before a purge and read after it is refused if and only if the purge reached into that range |
| DirChain.CreateDirDurable | src/storage/file_storage.rs:282-313 | on success every component exists and each one past the ancestor the walk stopped at is durable, save the first of a bare relative path; that ancestor existed at the start or another node created it since, and nothing longer did; so the directory outlives a power loss if and only if that ancestor does, and the first component of a bare path, other nodes at work or not; alone on the machine, if and only if what existed of its path did and something of a bare path existed, and on the way at most one component is in doubt; it fails exactly when a call of its own was refused |
| DirChain.FindMissing | src/storage/file_storage.rs:285-295 | the walk up collects exactly the components below the first ancestor that exists, none of which existed at the start; it fails exactly when a look was refused |
| DirChain.CreateOne | src/storage/file_storage.rs:297-310 | one component created, or found created by another node, and its parent flushed unless it is the empty path; it fails exactly when the creation or the flush was refused, not because another node was first |
| DirChain.FlushedSurvives | src/storage/file_storage.rs:297-310 | with everything past an ancestor flushed, the path survives a power loss if and only if that ancestor does, and the first component of a bare path |
| DirChain.AloneSurvives | src/storage/file_storage.rs:282-313 | with every missing component made and flushed as the loop does it, the path survives a power loss if and only if it was safe to create |
| DirChain.BareFirstComponentIsLost | src/storage/file_storage.rs:306-308 | `data/node1` on an empty machine: both components exist, `data` is not on disk, and the path does not survive |
| DirChain.DottedFirstComponentIsKept | src/storage/file_storage.rs:306-309 | `./data/node1` on an empty machine survives |
| Oracle.MarkIsGreatest | examples/timestamp_oracle.rs:98-103 | the replicated mark is the greatest bound committed |
| Oracle.IntervalsAreOrdered | examples/timestamp_oracle.rs:98-103 | a later interval starts where or after an earlier one ends |
| Oracle.IntervalsTile | examples/timestamp_oracle.rs:98-103 | each timestamp below the mark lies in exactly one committed interval |
| Oracle.TimeState.Apply | examples/timestamp_oracle.rs:98-103 | returns the interval from the mark before to the mark after, empty when the bound is no advance |
| Oracle.TakeTakes | examples/timestamp_oracle.rs:126-133 | a take returns the least timestamp held that the clock has reached, in the leader's own term, and it is not held again; it returns none if and only if there is none |
| Oracle.InstallHolds | examples/timestamp_oracle.rs:141-147 | after an install exactly the interval is held, and what it extends |
| Oracle.Reserved.Take | examples/timestamp_oracle.rs:126-133 | does what `TakeTakes` describes, and `timestamp + 1` does not overflow |
| Oracle.CoveringMeans | examples/timestamp_oracle.rs:136-138 | `covers` answers whether something is held in this term and every timestamp from the next one to the given one is |
| Oracle.Reserved.Install | examples/timestamp_oracle.rs:141-147 | does what `InstallHolds` describes, keeping `next <= end` |
| Oracle.TimeService.NextTimestamp | examples/timestamp_oracle.rs:162-168 | a timestamp is returned exactly when the lease check succeeds and a take under its term does; otherwise nothing held changes |
| Oracle.TimeService.RefillBound | examples/timestamp_oracle.rs:188-203 | proposes a bound exactly when the lease check succeeds and what is held does not reach half a width past the clock; the bound is the clock plus the width, or `u64::MAX` if that does not fit |
| Oracle.RefillServes | examples/timestamp_oracle.rs:188-205 | once the proposed bound commits and is installed, every clock short of it that is not below what is held is served with its own reading, and a take succeeds if and only if the clock is short of the committed end |
| Oracle.TimeService.RefillAnswered | examples/timestamp_oracle.rs:204-205 | installs the committed interval under the term checked before the write; a failed write changes nothing |
| OracleRun.SeparateStays | examples/timestamp_oracle.rs:124-147 | no step puts a timestamp in two places: returned, held by one process, or in an interval still due to one |
| OracleRun.NoTimestampTwice | examples/timestamp_oracle.rs:188-205 | in no run, lease or no lease, is a timestamp returned twice, by any processes |
| OracleRun.BoundedByAClock | examples/timestamp_oracle.rs:126-133 | every returned timestamp is below some committed bound, which fits a `u64` |
| OracleRun.BelowAClock | examples/timestamp_oracle.rs:188-204 | every returned timestamp is below what some refill, sent before the take that returned it, read off its clock plus its width |
| OracleRun.AnsweredIsAhead | examples/timestamp_oracle.rs:200-205 | an installed interval lies past everything returned, if its process could still serve it, whatever term it committed under: a stale tag is harmless |
| OracleRun.OrderedStays | examples/timestamp_oracle.rs:200-202 | with a lease that holds, every step keeps what is returned in order, stale interval tags and leader changes included |
| OracleRun.LaterRequestsGetGreater | examples/timestamp_oracle.rs:162-168 | with a lease that holds, a request that arrives after a timestamp was returned gets a strictly greater one |
| OracleRun.WithoutLeaseOrderFails | examples/timestamp_oracle.rs:207-210 | a run without a trusted lease in which a later request gets a smaller timestamp |
| KvStore.PrefixedLieTogether | examples/kvstore.rs:110-115 | no key between a prefix and a key that has it lacks it |
| KvStore.ScanIsFilter | examples/kvstore.rs:110-115 | starting at the prefix and stopping at the first mismatch finds what looking at every key finds |
| KvStore.ScanCollects | examples/kvstore.rs:110-116 | the scan collects exactly the entries of the map whose key starts with the prefix |
| KvStore.SpliceCollects | examples/kvstore.rs:91-99 | putting a pair, or none, in the place of its key changes the map at that key only |
| KvStore.KvApp.Apply | examples/kvstore.rs:86-101 | a set or delete changes the map at its key only, and answers with the value that was there |
| KvStore.KvApp.Read | examples/kvstore.rs:107-117 | a get returns the one entry of its key or none, a prefix query exactly the entries that have the prefix |

## Left out

- HTTP transport, routing, redirects and administration (`src/network.rs`, `src/server.rs`, `src/admin`): they move requests and keep no state of their own.
- openraft itself: elections, replication and membership changes are its contract here, stated as guards, not proved.
- `src/raft.rs`, `src/config.rs`: thin calls into openraft.
- The format serde writes: a codec that may fail and round-trips.
- A process killed and started again, and only then a power loss: a restart fsyncs nothing it finds. `FileStorage.RenameAloneCanBeLost` shows what is then at stake.
- The Windows branch of `sync_dir`, which fsyncs nothing.
- The `logs` directory missing when logs are deleted: it is created on opening.
- FileSystem.Path: a name that parses to an index but has a sign or a leading zero is no file of this storage and is not in the modelled directory; a deletion in its range would take it too.
- Adapter.CallLog: models one call at a time; tasks and locks are in `Locks` and `LogTasks`, over the same operations.
- LogTasks.ReadsAreAtomic: writes that fail part of the way are not interleaved with readers, since a storage error ends the node; reads that fail with an I/O error are not steps.
- FileStorage.FileStorage.RemoveListed: the directory is listed once before the loop, where the source takes one entry at a time; nothing else changes the directory meanwhile.
- FileStorage.FileStorage.RemoveEntry: one iteration of that loop as a method of its own, as `FileStorage.FileStorage.PersistEntry` is one case of `persist`, `LogStore.LogStore.WriteNext`, `LogStore.LogStore.WriteEntries` and `LogStore.LogStore.CountEntries` are the two halves of `append`, `LogStore.LogStore.PersistAs` and `LogStore.LogStore.PersistThenDelete` what several log calls end with, `StateMachine.StateMachineStore.StoreSnapshot` what an install and a build share, and `DirChain.FindMissing`, `DirChain.CreateMissing` and `DirChain.CreateOne` are the two loops of `create_dir_durable`.
- DirChain.Dir: paths with `.` or `..` in the middle, symbolic links, and directories that are removed.
- KvStore.KvApp.Apply: the map is kept as its pairs in order; the tree behind `BTreeMap` is not modelled. Strings are their bytes.
- Oracle.TimeService.NextTimestamp: what Raft answers, the lease check and the clock are parameters; the timing loop of `run_reserver`, sleeps and liveness are not modelled, nor is `format_timestamp`.
- LogStore.Successor: a range bound stepped past `u64::MAX` wraps, as in a release build; a debug build panics there instead.
- Types.Next: `index + 1` of a log position does not wrap, since openraft keeps indices below `u64::MAX` (`LogStore.Asked`).
