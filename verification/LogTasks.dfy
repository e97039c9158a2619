/** Readers and writers of one log, interleaved between any two lock or storage operations. */
module LogTasks {
  import opened Types
  import opened FileStorage
  import opened LogStore

  /** `Peek` reads the cached metadata only; `Store` is the other store writing a snapshot, which takes
      the storage and not the metadata. */
  datatype Call = Write(op: LogOp) | Read(range: Range) | Peek | Store(snapshot: Snapshot)

  datatype Pc =
    | Outside                                            // holds nothing
    | Waiting                                            // holds the metadata
    | Writing(writes: seq<Persist>, done: nat)           // holds the storage too
    | Reading(got: seq<Entry>, next: nat, end: nat)      // holds the storage too
    | Read(entries: seq<Entry>)                          // returned
    | Peeked(seen: EzMeta)
    | Wrote
    | Missed                                             // an index storage could not read

  datatype Task = Task(call: Call, pc: Pc) {
    predicate HoldsMeta() {
      pc.Waiting? || (!call.Store? && HoldsStorage())
    }

    predicate HoldsStorage() {
      pc.Writing? || pc.Reading?
    }

    /** A task only does what its call does. */
    predicate Fits() {
      match pc
      case Outside => true
      case Waiting => !call.Store?
      case Writing(_, _) => call.Write? || call.Store?
      case Reading(_, _, _) => call.Read?
      case Read(_) => call.Read?
      case Peeked(_) => call.Peek?
      case Wrote => call.Write? || call.Store?
      case Missed => call.Read?
    }
  }

  /** `log` is the log as of the last write that finished, `base` the disk that last held it. Both are
      history. */
  datatype System = System(
    disk: Disk,
    meta: EzMeta,
    metaOwner: Option<nat>,
    storageOwner: Option<nat>,
    tasks: seq<Task>,
    log: Log,
    base: Disk)
  {
    function At(i: nat, pc: Pc): System
      requires i < |tasks|
    {
      this.(tasks := tasks[i := tasks[i].(pc := pc)])
    }

    /** A task returns, and drops what it held. */
    function Return(i: nat, pc: Pc): System
      requires i < |tasks|
    {
      At(i, pc).(metaOwner := if metaOwner == Some(i) then None else metaOwner,
                 storageOwner := if storageOwner == Some(i) then None else storageOwner)
    }
  }

  datatype Action = LockMeta(i: nat) | LockStorage(i: nat) | Issue(i: nat) | ReadNext(i: nat) | Finish(i: nat)

  /** What a task sets out to do once it holds the storage. */
  function Entered(m: EzMeta, call: Call): Pc
    requires !call.Peek?
  {
    match call
    case Write(op) => Writing(Writes(m, op), 0)
    case Read(range) =>
      var (start, end) := Clamped(range, Next(m.lastPurged), Next(m.lastLogId));
      Reading([], start, end)
    case Store(snapshot) => Writing([WriteSnapshot(snapshot)], 0)
  }

  ghost predicate StepTo(codec: Codec, s: System, a: Action, s': System) {
    && a.i < |s.tasks|
    && var (call, pc) := (s.tasks[a.i].call, s.tasks[a.i].pc);
    match a
    case LockMeta(i) =>
      && pc.Outside? && !call.Store? && s.metaOwner.None?
      && s' == s.At(i, Waiting).(metaOwner := Some(i))
    case LockStorage(i) =>
      && s.storageOwner.None?
      && (if call.Store? then pc.Outside? else pc.Waiting? && !call.Peek?)
      // openraft's own rule, at the moment its write gets to the log.
      && (call.Write? ==> s.log.WellFormed() && Asked(s.log, call.op))
      && s' == s.At(i, Entered(s.meta, call)).(storageOwner := Some(i), base := s.disk)
    case Issue(i) =>
      && pc.Writing? && pc.done < |pc.writes| && Encodable(codec, pc.writes[pc.done])
      && s' == s.At(i, pc.(done := pc.done + 1)).(
                 disk := Applied(codec, pc.writes[pc.done], s.disk),
                 meta := if pc.writes[pc.done].WriteMeta? then pc.writes[pc.done].meta else s.meta)
    case ReadNext(i) =>
      && pc.Reading? && pc.next < pc.end
      && var read := ReadEntry(codec, s.disk, pc.next);
      && s' == if read.Ok? then s.At(i, Reading(pc.got + [read.value], pc.next + 1, pc.end))
               else s.Return(i, Missed)
    case Finish(i) =>
      match pc
      case Writing(writes, done) =>
        && done == |writes| && s.log.WellFormed()
        && s' == s.Return(i, Wrote).(log := if call.Write? then Logged(s.log, call.op) else s.log)
      case Reading(got, next, end) => next >= end && s' == s.Return(i, Pc.Read(got))
      case Waiting => call.Peek? && s' == s.Return(i, Peeked(s.meta))
      case _ => false
  }

  // ----- the invariant -------------------------------------------------------------------------

  ghost predicate Owned(s: System) {
    && (s.metaOwner.Some? ==> s.metaOwner.value < |s.tasks|)
    && (s.storageOwner.Some? ==> s.storageOwner.value < |s.tasks|)
    && forall i: nat :: i < |s.tasks| ==> OwnedBy(s, i)
  }

  ghost predicate OwnedBy(s: System, i: nat)
    requires i < |s.tasks|
  {
    && s.tasks[i].Fits()
    && (s.tasks[i].HoldsMeta() <==> s.metaOwner == Some(i))
    && (s.tasks[i].HoldsStorage() <==> s.storageOwner == Some(i))
  }

  /** The storage holds the log, and the cache agrees. */
  ghost predicate Still(codec: Codec, s: System) {
    Holds(codec, s.disk, s.log) && s.meta == MetaOf(s.log)
  }

  /** The metadata in the cache after the first `done` writes. */
  function Cached(m: EzMeta, writes: seq<Persist>, done: nat): EzMeta
    requires done <= |writes|
  {
    if done == 0 then m
    else if writes[done - 1].WriteMeta? then writes[done - 1].meta
    else Cached(m, writes, done - 1)
  }

  ghost predicate MidWrite(codec: Codec, s: System, op: LogOp, writes: seq<Persist>, done: nat) {
    && Holds(codec, s.base, s.log) && Asked(s.log, op)
    && writes == Writes(MetaOf(s.log), op) && done <= |writes|
    && AllEncodable(codec, writes[..done])
    && s.disk == AppliedAll(codec, writes[..done], s.base)
    && s.meta == Cached(MetaOf(s.log), writes, done)
  }

  /** The `n` entries from position `from` on. */
  function Part(entries: seq<Entry>, from: nat, n: nat): seq<Entry>
    requires from + n <= |entries|
  {
    if n == 0 then [] else Part(entries, from, n - 1) + [entries[from + n - 1]]
  }

  lemma {:induction false} PartIsSlice(entries: seq<Entry>, from: nat, n: nat)
    requires from + n <= |entries|
    ensures Part(entries, from, n) == entries[from..from + n]
  {
    if n > 0 {
      PartIsSlice(entries, from, n - 1);
    }
  }

  /** A reader part of the way through the range it clamped. */
  ghost predicate MidRead(entries: seq<Entry>, lo: nat, range: Range, got: seq<Entry>, next: nat, end: nat) {
    var (start, stop) := Clamped(range, lo, lo + |entries|);
    && end == stop && start <= next
    && (if start < stop then next <= stop && got == Part(entries, start - lo, next - start)
        else got == [] && next == start)
  }

  ghost predicate Sound(codec: Codec, s: System)
    requires s.storageOwner.Some? ==> s.storageOwner.value < |s.tasks|
  {
    if s.storageOwner.None? then
      Still(codec, s)
    else
      var t := s.tasks[s.storageOwner.value];
      match t.pc
      case Writing(writes, done) =>
        if t.call.Write? then MidWrite(codec, s, t.call.op, writes, done)
        else Still(codec, s) && t.call.Store? && writes == [WriteSnapshot(t.call.snapshot)]
      case Reading(got, next, end) =>
        Still(codec, s) && t.call.Read? && MidRead(s.log.entries, s.log.Lo(), t.call.range, got, next, end)
      case _ => false
  }

  ghost predicate Inv(codec: Codec, s: System) {
    && Owned(s) && Sound(codec, s)
    && forall i: nat :: i < |s.tasks| ==> !s.tasks[i].pc.Missed?
  }

  // ----- steps ---------------------------------------------------------------------------------

  lemma OwnedStays(codec: Codec, s: System, a: Action, s': System)
    requires Owned(s) && StepTo(codec, s, a, s')
    ensures Owned(s')
  {
    assert OwnedBy(s, a.i);
    forall i: nat | i < |s'.tasks|
      ensures OwnedBy(s', i)
    {
      assert OwnedBy(s, i);
    }
  }

  /** One more write of a write operation. */
  lemma IssueKeepsMidWrite(codec: Codec, s: System, i: nat, s': System)
    requires Owned(s) && StepTo(codec, s, Issue(i), s') && s.tasks[i].call.Write?
    requires var t := s.tasks[i]; MidWrite(codec, s, t.call.op, t.pc.writes, t.pc.done)
    ensures var t := s'.tasks[i]; MidWrite(codec, s', t.call.op, t.pc.writes, t.pc.done)
  {
    var writes, done := s.tasks[i].pc.writes, s.tasks[i].pc.done;
    assert writes[..done + 1] == writes[..done] + [writes[done]];
    OneMoreEncodable(codec, writes[..done], writes[done]);
    AppliedSnoc(codec, writes[..done], writes[done], s.base);
  }

  lemma StoringKeepsLog(codec: Codec, d: Disk, l: Log, snapshot: Snapshot)
    requires Holds(codec, d, l) && Encodable(codec, WriteSnapshot(snapshot))
    ensures Holds(codec, Applied(codec, WriteSnapshot(snapshot), d), l)
  {
    var d' := Applied(codec, WriteSnapshot(snapshot), d);
    forall i | l.Lo() <= i < l.Hi()
      ensures ReadEntry(codec, d', i) == Ok(l.entries[i - l.Lo()])
    {
      assert ReadEntry(codec, d', i) == ReadEntry(codec, d, i);
    }
  }

  /** A reader inside its range is inside the log, and goes on. */
  lemma NextIsThere(entries: seq<Entry>, lo: nat, range: Range, got: seq<Entry>, next: nat, end: nat)
    requires MidRead(entries, lo, range, got, next, end) && next < end
    ensures lo <= next < lo + |entries|
    ensures MidRead(entries, lo, range, got + [entries[next - lo]], next + 1, end)
  {
  }

  lemma CachedAtEnd(m: EzMeta, op: LogOp)
    ensures Cached(m, Writes(m, op), |Writes(m, op)|) == MetaAfter(m, op)
  {
    if op.TruncateAfter? || op.Purge? {
      assert Cached(m, Writes(m, op), 1) == MetaAfter(m, op);
    }
  }

  /** A write that has issued everything has done what the operation means. */
  lemma WrittenIsStill(codec: Codec, s: System, op: LogOp, writes: seq<Persist>, done: nat)
    requires codec.RoundTrips() && MidWrite(codec, s, op, writes, done) && done == |writes|
    ensures Holds(codec, s.disk, Logged(s.log, op)) && s.meta == MetaOf(Logged(s.log, op))
  {
    assert writes[..done] == writes;
    WholeIsLogged(codec, s.base, s.log, op);
    MetaIsLogged(s.log, op);
    CachedAtEnd(MetaOf(s.log), op);
  }

  lemma SoundAfterLocking(codec: Codec, s: System, i: nat, s': System)
    requires Inv(codec, s) && StepTo(codec, s, LockStorage(i), s')
    ensures Sound(codec, s')
  {
    assert OwnedBy(s, i);
    var t := s'.tasks[i];
    if t.call.Write? {
      assert t.pc.writes[..0] == [];
    }
  }

  lemma SoundAfterIssue(codec: Codec, s: System, i: nat, s': System)
    requires Inv(codec, s) && StepTo(codec, s, Issue(i), s')
    ensures Sound(codec, s')
  {
    assert OwnedBy(s, i);
    if s.tasks[i].call.Write? {
      IssueKeepsMidWrite(codec, s, i, s');
    } else {
      StoringKeepsLog(codec, s.disk, s.log, s.tasks[i].call.snapshot);
    }
  }

  lemma EntryIsRead(codec: Codec, d: Disk, l: Log, i: nat)
    requires Holds(codec, d, l) && l.Lo() <= i < l.Hi()
    ensures ReadEntry(codec, d, i) == Ok(l.entries[i - l.Lo()])
  {
  }

  lemma SoundWhileReading(codec: Codec, s: System, i: nat, range: Range, got: seq<Entry>, next: nat, end: nat)
    requires s.storageOwner == Some(i) && i < |s.tasks| && Still(codec, s)
    requires s.tasks[i] == Task(Call.Read(range), Reading(got, next, end))
    requires MidRead(s.log.entries, s.log.Lo(), range, got, next, end)
    ensures Sound(codec, s)
  {
  }

  /** The next entry is there, so the reader goes on rather than misses. */
  lemma ReadNextReads(codec: Codec, s: System, i: nat, s': System, e: Entry)
    requires StepTo(codec, s, ReadNext(i), s')
    requires ReadEntry(codec, s.disk, s.tasks[i].pc.next) == Ok(e)
    ensures var pc := s.tasks[i].pc; s' == s.At(i, Reading(pc.got + [e], pc.next + 1, pc.end))
  {
  }

  lemma SoundReader(codec: Codec, s: System, i: nat)
    requires s.storageOwner == Some(i) && i < |s.tasks| && Sound(codec, s) && s.tasks[i].pc.Reading?
    ensures var t := s.tasks[i];
            && Still(codec, s) && t.call.Read?
            && MidRead(s.log.entries, s.log.Lo(), t.call.range, t.pc.got, t.pc.next, t.pc.end)
  {
  }

  lemma SoundAfterReading(codec: Codec, s: System, i: nat, s': System)
    requires s.storageOwner == Some(i) && i < |s.tasks| && Sound(codec, s)
    requires StepTo(codec, s, ReadNext(i), s')
    ensures Sound(codec, s') && s'.tasks[i].pc.Reading?
  {
    SoundReader(codec, s, i);
    var pc, range, lo := s.tasks[i].pc, s.tasks[i].call.range, s.log.Lo();
    NextIsThere(s.log.entries, lo, range, pc.got, pc.next, pc.end);
    EntryIsRead(codec, s.disk, s.log, pc.next);
    ReadNextReads(codec, s, i, s', s.log.entries[pc.next - lo]);
    StillAfterReading(codec, s, i, s', s.log.entries[pc.next - lo]);
  }

  lemma StillAfterReading(codec: Codec, s: System, i: nat, s': System, e: Entry)
    requires s.storageOwner == Some(i) && i < |s.tasks| && Still(codec, s)
    requires s.tasks[i].call.Read? && s.tasks[i].pc.Reading?
    requires var pc := s.tasks[i].pc; s' == s.At(i, Reading(pc.got + [e], pc.next + 1, pc.end))
    requires var t := s.tasks[i];
             MidRead(s.log.entries, s.log.Lo(), t.call.range, t.pc.got + [e], t.pc.next + 1, t.pc.end)
    ensures Sound(codec, s') && s'.tasks[i].pc.Reading?
  {
    var t := s.tasks[i];
    SoundWhileReading(codec, s', i, t.call.range, t.pc.got + [e], t.pc.next + 1, t.pc.end);
  }

  lemma SoundAfterFinish(codec: Codec, s: System, i: nat, s': System)
    requires codec.RoundTrips() && Inv(codec, s) && StepTo(codec, s, Finish(i), s')
    ensures Sound(codec, s')
  {
    assert OwnedBy(s, i);
    var t := s.tasks[i];
    if t.pc.Writing? && t.call.Write? {
      WrittenIsStill(codec, s, t.call.op, t.pc.writes, t.pc.done);
    } else if t.pc.Waiting? && s.storageOwner.Some? {
      assert OwnedBy(s, s.storageOwner.value);
      assert s.storageOwner.value != i;
    }
  }

  /** While a task only holds or wants the metadata, whoever has the storage goes on undisturbed. */
  lemma SoundAfterLockMeta(codec: Codec, s: System, i: nat, s': System)
    requires Inv(codec, s) && StepTo(codec, s, LockMeta(i), s')
    ensures Sound(codec, s')
  {
    assert OwnedBy(s, i);
  }

  lemma SoundStays(codec: Codec, s: System, a: Action, s': System)
    requires codec.RoundTrips() && Inv(codec, s) && Owned(s') && StepTo(codec, s, a, s')
    ensures Sound(codec, s')
  {
    match a
    case LockMeta(i) => SoundAfterLockMeta(codec, s, i, s');
    case LockStorage(i) => SoundAfterLocking(codec, s, i, s');
    case Issue(i) => SoundAfterIssue(codec, s, i, s');
    case ReadNext(i) => ReaderKeepsSound(codec, s, i, s');
    case Finish(i) => SoundAfterFinish(codec, s, i, s');
  }

  lemma ReaderKeepsSound(codec: Codec, s: System, i: nat, s': System)
    requires Inv(codec, s) && StepTo(codec, s, ReadNext(i), s')
    ensures Sound(codec, s') && s'.tasks[i].pc.Reading?
  {
    assert OwnedBy(s, i);
    SoundAfterReading(codec, s, i, s');
  }

  lemma NothingMissed(codec: Codec, s: System, a: Action, s': System)
    requires Inv(codec, s) && StepTo(codec, s, a, s')
    ensures forall i: nat :: i < |s'.tasks| ==> !s'.tasks[i].pc.Missed?
  {
    if a.ReadNext? {
      ReaderKeepsSound(codec, s, a.i, s');
    }
    assert !s'.tasks[a.i].pc.Missed?;
    forall i: nat | i < |s'.tasks|
      ensures !s'.tasks[i].pc.Missed?
    {
      assert i != a.i ==> s'.tasks[i] == s.tasks[i];
    }
  }

  lemma InvStays(codec: Codec, s: System, a: Action, s': System)
    requires codec.RoundTrips() && Inv(codec, s) && StepTo(codec, s, a, s')
    ensures Inv(codec, s')
  {
    OwnedStays(codec, s, a, s');
    SoundStays(codec, s, a, s');
    NothingMissed(codec, s, a, s');
  }

  // ----- whole runs ----------------------------------------------------------------------------

  /** No call has begun, and the storage holds the log. */
  ghost predicate Started(codec: Codec, s: System) {
    && s.metaOwner.None? && s.storageOwner.None? && Still(codec, s)
    && forall i: nat :: i < |s.tasks| ==> s.tasks[i].pc.Outside?
  }

  lemma StartedKeepsInv(codec: Codec, s: System)
    requires Started(codec, s)
    ensures Inv(codec, s)
  {
    forall i: nat | i < |s.tasks|
      ensures OwnedBy(s, i)
    {
    }
  }

  ghost predicate Steps(codec: Codec, run: seq<System>, actions: seq<Action>) {
    && |run| == |actions| + 1
    && forall k :: 0 <= k < |actions| ==> StepTo(codec, run[k], actions[k], run[k + 1])
  }

  ghost predicate Run(codec: Codec, run: seq<System>, actions: seq<Action>) {
    Steps(codec, run, actions) && Started(codec, run[0])
  }

  lemma InvAlong(codec: Codec, run: seq<System>, actions: seq<Action>, k: nat)
    requires codec.RoundTrips() && Steps(codec, run, actions) && k < |actions| && Inv(codec, run[k])
    ensures Inv(codec, run[k + 1])
  {
    InvStays(codec, run[k], actions[k], run[k + 1]);
  }

  lemma {:induction false} StepsKeepInv(codec: Codec, run: seq<System>, actions: seq<Action>, k: nat)
    requires codec.RoundTrips() && Steps(codec, run, actions) && Inv(codec, run[0]) && k < |run|
    ensures Inv(codec, run[k])
  {
    if k > 0 {
      StepsKeepInv(codec, run, actions, k - 1);
      InvAlong(codec, run, actions, k - 1);
    }
  }

  lemma RunsKeepInv(codec: Codec, run: seq<System>, actions: seq<Action>, k: nat)
    requires codec.RoundTrips() && Run(codec, run, actions) && k < |run|
    ensures Inv(codec, run[k])
  {
    StartedKeepsInv(codec, run[0]);
    StepsKeepInv(codec, run, actions, k);
  }

  /** No interleaving makes a reader ask for an entry that is not there. */
  lemma NoReadMisses(codec: Codec, run: seq<System>, actions: seq<Action>, k: nat, i: nat)
    requires codec.RoundTrips() && Run(codec, run, actions) && k < |run| && i < |run[k].tasks|
    ensures !run[k].tasks[i].pc.Missed?
  {
    RunsKeepInv(codec, run, actions, k);
  }

  /** What a read returns is the range it asked for, out of the log as it stands when the read returns;
      what a peek returns is the metadata of that log. */
  lemma ReadsAreAtomic(codec: Codec, run: seq<System>, actions: seq<Action>, k: nat, i: nat)
    requires codec.RoundTrips() && Run(codec, run, actions) && k < |actions| && actions[k] == Finish(i)
    ensures i < |run[k].tasks| == |run[k + 1].tasks|
    ensures run[k].tasks[i].call.Read? ==>
              && run[k + 1].tasks[i].pc == Pc.Read(Within(run[k].log.entries, run[k].tasks[i].call.range.Wrapped()))
              && run[k + 1].log == run[k].log
    ensures run[k].tasks[i].call.Peek? ==>
              run[k + 1].tasks[i].pc.Peeked? && run[k + 1].log == run[k].log
  {
    RunsKeepInv(codec, run, actions, k);
    assert StepTo(codec, run[k], actions[k], run[k + 1]);
    assert OwnedBy(run[k], i);
    var s, t := run[k], run[k].tasks[i];
    if t.call.Read? {
      ReadIsWithin(s.log.entries, s.log.Lo(), t.call.range, t.pc.got, t.pc.next, t.pc.end);
    }
  }

  /** A reader past its range has all of it. */
  lemma ReadIsPart(entries: seq<Entry>, lo: nat, range: Range, got: seq<Entry>, next: nat, end: nat)
    requires MidRead(entries, lo, range, got, next, end) && next >= end
    ensures var (start, stop) := Clamped(range, lo, lo + |entries|);
            got == if start < stop then Part(entries, start - lo, stop - start) else []
  {
  }

  lemma WithinIsPart(entries: seq<Entry>, lo: nat, range: Range)
    requires forall k :: 0 <= k < |entries| ==> entries[k].logId.index == lo + k
    ensures var (start, stop) := Clamped(range, lo, lo + |entries|);
            Within(entries, range.Wrapped()) == if start < stop then Part(entries, start - lo, stop - start) else []
  {
    var (start, stop) := Clamped(range, lo, lo + |entries|);
    if start < stop {
      PartIsSlice(entries, start - lo, stop - start);
      assert start - lo + (stop - start) == stop - lo;
    }
    WithinWindow(entries, lo, range.Wrapped(), start, stop);
  }

  lemma ReadIsWithin(entries: seq<Entry>, lo: nat, range: Range, got: seq<Entry>, next: nat, end: nat)
    requires forall k :: 0 <= k < |entries| ==> entries[k].logId.index == lo + k
    requires MidRead(entries, lo, range, got, next, end) && next >= end
    ensures got == Within(entries, range.Wrapped())
  {
    ReadIsPart(entries, lo, range, got, next, end);
    WithinIsPart(entries, lo, range);
  }

  /** Peeking needs no storage, yet never sees metadata of a write half done. */
  lemma PeeksAreWhole(codec: Codec, run: seq<System>, actions: seq<Action>, k: nat, i: nat)
    requires codec.RoundTrips() && Run(codec, run, actions) && k < |actions| && actions[k] == Finish(i)
    requires i < |run[k].tasks| && run[k].tasks[i].call.Peek?
    ensures run[k + 1].tasks[i].pc == Peeked(MetaOf(run[k].log))
  {
    RunsKeepInv(codec, run, actions, k);
    var s := run[k];
    assert StepTo(codec, s, actions[k], run[k + 1]);
    assert OwnedBy(s, i);
    if s.storageOwner.Some? {
      assert OwnedBy(s, s.storageOwner.value);
    }
  }

  // ----- the order of the writes ---------------------------------------------------------------

  /** The write operation an action finishes, if it finishes one. */
  function FinishedBy(s: System, a: Action): Option<LogOp> {
    if a.Finish? && a.i < |s.tasks| && s.tasks[a.i].call.Write? then Some(s.tasks[a.i].call.op) else None
  }

  /** `step` does what openraft may ask for as it is meant. */
  ghost predicate Means(step: (Log, LogOp) -> Log) {
    forall l: Log, op: LogOp :: l.WellFormed() && Asked(l, op) ==> step(l, op) == Logged(l, op)
  }

  /** One such step. */
  function Done(l: Log, op: LogOp): Log {
    if l.Lo() + |l.entries| == l.Hi() then Logged(l, op) else l
  }

  lemma DoneMeans()
    ensures Means(Done)
  {
  }

  /** The first log, and then the write operations that finish among the first `k` actions, one at a
      time, in the order they finish. */
  function Serially(step: (Log, LogOp) -> Log, run: seq<System>, actions: seq<Action>, k: nat): Log
    requires k <= |actions| < |run|
  {
    if k == 0 then
      run[0].log
    else
      var before, op := Serially(step, run, actions, k - 1), FinishedBy(run[k - 1], actions[k - 1]);
      if op.Some? then step(before, op.value) else before
  }

  /** A finished write found the log it was asked of, and leaves the log it means; any other action
      leaves the log alone. */
  lemma FinishedMovesLog(codec: Codec, s: System, a: Action, s': System)
    requires Inv(codec, s) && StepTo(codec, s, a, s')
    ensures var op := FinishedBy(s, a);
            if op.None? then s'.log == s.log
            else s.log.WellFormed() && Asked(s.log, op.value) && s'.log == Logged(s.log, op.value)
  {
    assert OwnedBy(s, a.i);
  }

  ghost predicate SerialStep(step: (Log, LogOp) -> Log, s: System, op: Option<LogOp>, s': System) {
    s'.log == if op.Some? then step(s.log, op.value) else s.log
  }

  ghost predicate SerialSteps(step: (Log, LogOp) -> Log, run: seq<System>, actions: seq<Action>) {
    && |run| == |actions| + 1
    && forall k :: 0 <= k < |actions| ==> SerialStep(step, run[k], FinishedBy(run[k], actions[k]), run[k + 1])
  }

  lemma {:induction false} StepsAreSerial(step: (Log, LogOp) -> Log, run: seq<System>, actions: seq<Action>, k: nat)
    requires SerialSteps(step, run, actions) && k <= |actions|
    ensures run[k].log == Serially(step, run, actions, k)
  {
    if k > 0 {
      StepsAreSerial(step, run, actions, k - 1);
      assert SerialStep(step, run[k - 1], FinishedBy(run[k - 1], actions[k - 1]), run[k - 1 + 1]);
    }
  }

  lemma RunIsSerialSteps(codec: Codec, step: (Log, LogOp) -> Log, run: seq<System>, actions: seq<Action>)
    requires codec.RoundTrips() && Run(codec, run, actions) && Means(step)
    ensures SerialSteps(step, run, actions)
  {
    forall k | 0 <= k < |actions|
      ensures SerialStep(step, run[k], FinishedBy(run[k], actions[k]), run[k + 1])
    {
      RunsKeepInv(codec, run, actions, k);
      FinishedMovesLog(codec, run[k], actions[k], run[k + 1]);
    }
  }

  lemma LogIsSerial(codec: Codec, step: (Log, LogOp) -> Log, run: seq<System>, actions: seq<Action>, k: nat)
    requires codec.RoundTrips() && Run(codec, run, actions) && Means(step) && k <= |actions|
    ensures run[k].log == Serially(step, run, actions, k)
  {
    RunIsSerialSteps(codec, step, run, actions);
    StepsAreSerial(step, run, actions, k);
  }

  /** Writers are serial. However the storage operations of all tasks were interleaved, whenever nobody
      has the storage the disk holds, and the cache describes, exactly the log that the finished writes
      give when done one at a time, in the order they finished. */
  lemma WritesAreSerial(codec: Codec, step: (Log, LogOp) -> Log, run: seq<System>, actions: seq<Action>, k: nat)
    requires codec.RoundTrips() && Run(codec, run, actions) && Means(step)
    requires k <= |actions| && run[k].storageOwner.None?
    ensures var l := Serially(step, run, actions, k);
            Holds(codec, run[k].disk, l) && run[k].meta == MetaOf(l)
  {
    LogIsSerial(codec, step, run, actions, k);
    RunsKeepInv(codec, run, actions, k);
  }

  /** Readers see that order: what a read returns is its range out of the log the writes finished before
      it give, one at a time. */
  lemma ReadsAreSerial(codec: Codec, step: (Log, LogOp) -> Log, run: seq<System>, actions: seq<Action>,
                       k: nat, i: nat)
    requires codec.RoundTrips() && Run(codec, run, actions) && Means(step)
    requires k < |actions| && actions[k] == Finish(i) && i < |run[k].tasks| && run[k].tasks[i].call.Read?
    ensures i < |run[k + 1].tasks|
    ensures run[k + 1].tasks[i].pc
            == Pc.Read(Within(Serially(step, run, actions, k).entries, run[k].tasks[i].call.range.Wrapped()))
  {
    LogIsSerial(codec, step, run, actions, k);
    ReadsAreAtomic(codec, run, actions, k, i);
  }

  // ----- why a reader keeps both locks until it is done -----------------------------------------

  /** A range clamped before a purge and read after it asks for entries that are gone, exactly when the
      purge reached into it. */
  lemma StaleClampMisses(codec: Codec, d: Disk, l: Log, upto: LogId, start: nat, end: nat)
    requires codec.RoundTrips() && Holds(codec, d, l) && Asked(l, LogOp.Purge(upto))
    requires l.Lo() <= start < end <= l.Hi()
    requires AllEncodable(codec, Writes(MetaOf(l), LogOp.Purge(upto)))
    ensures var d' := AppliedAll(codec, Writes(MetaOf(l), LogOp.Purge(upto)), d);
            ReadEntries(codec, d', start, end).Err? <==> start <= upto.index
  {
    if start <= upto.index {
      FirstIsGone(codec, d, MetaOf(l), upto, start, end);
    } else {
      RestIsThere(codec, d, l, upto, start, end);
    }
  }

  lemma RestIsThere(codec: Codec, d: Disk, l: Log, upto: LogId, start: nat, end: nat)
    requires codec.RoundTrips() && Holds(codec, d, l) && Asked(l, LogOp.Purge(upto))
    requires l.Lo() <= start < end <= l.Hi() && upto.index < start
    requires AllEncodable(codec, Writes(MetaOf(l), LogOp.Purge(upto)))
    ensures var d' := AppliedAll(codec, Writes(MetaOf(l), LogOp.Purge(upto)), d);
            ReadEntries(codec, d', start, end).Ok?
  {
    WholeIsLogged(codec, d, l, LogOp.Purge(upto));
    PurgeKeepsRest(l, upto, start, end);
    ReadsPart(codec, AppliedAll(codec, Writes(MetaOf(l), LogOp.Purge(upto)), d), Logged(l, LogOp.Purge(upto)),
              start, end);
  }

  lemma PurgeKeepsRest(l: Log, upto: LogId, start: nat, end: nat)
    requires l.WellFormed() && Asked(l, LogOp.Purge(upto))
    requires l.Lo() <= start < end <= l.Hi() && upto.index < start
    ensures var l' := Logged(l, LogOp.Purge(upto)); l'.Lo() <= start && end <= l'.Hi()
  {
  }

  lemma ReadsPart(codec: Codec, d: Disk, l: Log, start: nat, end: nat)
    requires Holds(codec, d, l) && l.Lo() <= start <= end <= l.Hi()
    ensures ReadEntries(codec, d, start, end).Ok?
  {
    HeldEntriesAreRead(codec, d, l);
    ReadsSlice(codec, d, l.entries, l.Lo(), start, end);
  }

  lemma FirstIsGone(codec: Codec, d: Disk, m: EzMeta, upto: LogId, i: nat, end: nat)
    requires AllEncodable(codec, Writes(m, LogOp.Purge(upto))) && i <= upto.index && i < end
    ensures ReadEntries(codec, AppliedAll(codec, Writes(m, LogOp.Purge(upto)), d), i, end).Err?
  {
    var writes := Writes(m, LogOp.Purge(upto));
    assert Encodable(codec, writes[0]) && Encodable(codec, writes[1]);
    AppliedTwo(codec, writes[0], writes[1], d);
    assert writes == [writes[0], writes[1]];
    assert i !in AppliedAll(codec, writes, d).logs;
  }
}
