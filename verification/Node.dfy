/** Whole runs of one node: the two stores over one disk, openraft's calls in any order it allows, and
    power losses anywhere. */
module Node {
  import opened Types
  import opened FileStorage
  import opened LogStore
  import opened StateMachine

  datatype Env = Env(codec: Codec, app: App) {
    ghost predicate Good() {
      codec.RoundTrips() && app.RoundTrips()
    }
  }

  /** One node between two critical sections.
      `log` is what the disk holds of the log, `committed` every entry this node knows committed, from
      index 0 on: history, kept by no store. A build that has captured the state and not yet published
      it is `building`; a snapshot stored and not yet restored is `installing`. */
  datatype Node = Node(
    disk: Disk,
    log: Log,
    meta: EzMeta,
    sm: State,
    cached: Option<Snapshot>,
    building: Option<Snapshot>,
    installing: Option<Snapshot>,
    committed: seq<Entry>)

  /** How many entries a snapshot covers. */
  function Covers(snapshot: Option<Snapshot>): nat {
    if snapshot.Some? then Next(snapshot.value.meta.lastLogId) else 0
  }

  /** A state and its position are the fold of the committed log up to that position. */
  ghost predicate Folds(env: Env, s: State, committed: seq<Entry>) {
    && Next(s.lastApplied) <= |committed|
    && s == Replay(env.app, Initial(env.app), committed[..Next(s.lastApplied)])
  }

  /** A snapshot pairs its position with the state, and the membership, of that position. */
  ghost predicate Pairs(env: Env, snapshot: Option<Snapshot>, committed: seq<Entry>) {
    && Restored(env.app, snapshot).Ok?
    && Next(Restored(env.app, snapshot).value.lastApplied) == Covers(snapshot)
    && Folds(env, Restored(env.app, snapshot).value, committed)
  }

  ghost predicate Indexed(committed: seq<Entry>) {
    forall i :: 0 <= i < |committed| ==> committed[i].logId.index == i
  }

  // ----- steps ---------------------------------------------------------------------------------

  datatype InFlight =
    | Nothing
    | Logging(op: LogOp)
    | Publishing
    | Receiving(snapshot: Snapshot, history: seq<Entry>)

  datatype Event =
    | LogCall(op: LogOp)
    | Commit(upto: nat)
    | ApplyUpto(upto: nat)
    | Capture
    | Publish
    | Receive(snapshot: Snapshot, history: seq<Entry>)
    | Swap
    | PowerLoss(inFlight: InFlight)

  /** openraft's own rules: it truncates nothing committed unless a snapshot has it, and purges only
      what the stored snapshot covers. */
  ghost predicate Allowed(s: Node, op: LogOp)
    requires s.log.Lo() + |s.log.entries| == s.log.Hi()
  {
    && Asked(s.log, op)
    && (op.TruncateAfter? && Next(op.after) < |s.committed| ==> |s.committed| <= Covers(s.cached))
    && (op.Purge? ==> op.upto.index + 1 <= Covers(s.cached))
  }

  /** A snapshot a leader sends: at least as far as what this node knows committed, and the fold of a
      history that extends it. */
  ghost predicate Sent(env: Env, s: Node, snapshot: Snapshot, history: seq<Entry>) {
    && s.installing.None?
    && s.committed <= history && Indexed(history)
    && Covers(Some(snapshot)) == |history|
    && Pairs(env, Some(snapshot), history)
    && Encodable(env.codec, WriteSnapshot(snapshot))
  }

  ghost predicate StepTo(env: Env, s: Node, e: Event, s': Node) {
    match e
    case LogCall(op) =>
      && s.log.WellFormed() && Allowed(s, op) && AllEncodable(env.codec, Writes(s.meta, op))
      && s' == s.(disk := AppliedAll(env.codec, Writes(s.meta, op), s.disk),
                  log := Logged(s.log, op), meta := MetaAfter(s.meta, op))
    case Commit(upto) =>
      && s.log.WellFormed() && s.log.Lo() <= |s.committed| <= upto <= s.log.Hi()
      && s' == s.(committed := s.committed
                    + s.log.entries[|s.committed| - s.log.Lo()..upto - s.log.Lo()])
    case ApplyUpto(upto) =>
      && Next(s.sm.lastApplied) <= upto <= |s.committed|
      && s' == s.(sm := Replay(env.app, s.sm, s.committed[Next(s.sm.lastApplied)..upto]))
    case Capture =>
      && s.building.None? && env.app.encode(s.sm.app).Some?
      && s' == s.(building := Some(SnapshotOf(s.sm, env.app.encode(s.sm.app).value)))
    case Publish =>
      && s.building.Some? && Encodable(env.codec, WriteSnapshot(s.building.value))
      && s' == s.(disk := Applied(env.codec, WriteSnapshot(s.building.value), s.disk),
                  cached := s.building, building := None)
    case Receive(snapshot, history) =>
      && Sent(env, s, snapshot, history)
      && s' == s.(disk := Applied(env.codec, WriteSnapshot(snapshot), s.disk),
                  cached := Some(snapshot), installing := Some(snapshot), committed := history)
    case Swap =>
      && s.installing.Some? && Restored(env.app, s.installing).Ok?
      && s' == s.(sm := Restored(env.app, s.installing).value, installing := None)
    case PowerLoss(inFlight) =>
      && Left(env, s, inFlight, s'.disk)
      && s'.committed == Known(s, inFlight, s'.disk)
      && Restarted(env, s')
  }

  /** What a power loss leaves on the disk, with `inFlight` under way. */
  ghost predicate Left(env: Env, s: Node, inFlight: InFlight, disk: Disk) {
    match inFlight
    case Nothing => disk == s.disk
    case Logging(op) =>
      s.log.WellFormed() && Allowed(s, op) && TornAll(env.codec, Writes(s.meta, op), s.disk, disk)
    case Publishing =>
      s.building.Some? && Torn(env.codec, WriteSnapshot(s.building.value), s.disk, disk)
    case Receiving(snapshot, history) =>
      Sent(env, s, snapshot, history) && Torn(env.codec, WriteSnapshot(snapshot), s.disk, disk)
  }

  /** What is known committed afterwards: a received snapshot brings its history with it once stored. */
  function Known(s: Node, inFlight: InFlight, disk: Disk): seq<Entry> {
    if inFlight.Receiving? && disk != s.disk then inFlight.history else s.committed
  }

  /** A node just started: everything in memory comes from the disk. */
  ghost predicate Restarted(env: Env, s: Node) {
    && LoadDisk(env.codec, s.disk, U64_MAX) == Ok(Loaded(s.meta, s.cached))
    && Recovered(env.codec, s.disk) == Some(s.log)
    && Restored(env.app, s.cached) == Ok(s.sm)
    && s.building.None? && s.installing.None?
  }

  /** A node on an empty disk. */
  ghost predicate Started(env: Env, s: Node) {
    && s.disk.meta.None? && s.disk.snapshot.None?
    && s.committed == []
    && Restarted(env, s)
  }

  /** An empty disk starts a node with no identity, no vote, no log and the application's initial value. */
  lemma StartedIsEmpty(env: Env, s: Node)
    requires Started(env, s)
    ensures s.log == Log(None, None, None, None, [])
    ensures s.meta == EzMeta(None, None, None, None) && s.cached.None?
    ensures s.sm == State(env.app.initial, None, StoredMembership(None, env.app.noMembers))
  {
    assert s.log.entries == [];
  }

  // ----- self-consistency ----------------------------------------------------------------------

  /** The memory agrees with the disk, and the live state, the cached and stored snapshot, and the ones
      on their way each pair a position with exactly the fold of that position. */
  ghost predicate Consistent(env: Env, s: Node) {
    && Indexed(s.committed)
    && Holds(env.codec, s.disk, s.log) && s.meta == MetaOf(s.log)
    && LoadSnapshot(env.codec, s.disk, U64_MAX) == Ok(s.cached)
    && Folds(env, s.sm, s.committed)
    && Pairs(env, s.cached, s.committed)
    && (s.building.Some? ==> Pairs(env, s.building, s.committed))
    && (s.installing.Some? ==> Pairs(env, s.installing, s.committed))
  }

  lemma FoldsFurther(env: Env, s: State, committed: seq<Entry>, more: seq<Entry>)
    requires Folds(env, s, committed) && committed <= more
    ensures Folds(env, s, more)
  {
    assert more[..Next(s.lastApplied)] == committed[..Next(s.lastApplied)];
  }

  lemma PairsFurther(env: Env, snapshot: Option<Snapshot>, committed: seq<Entry>, more: seq<Entry>)
    requires Pairs(env, snapshot, committed) && committed <= more
    ensures Pairs(env, snapshot, more)
  {
    FoldsFurther(env, Restored(env.app, snapshot).value, committed, more);
  }

  /** Applying the next committed entries keeps the state a fold. */
  lemma ApplyFolds(env: Env, s: State, committed: seq<Entry>, upto: nat)
    requires Indexed(committed) && Folds(env, s, committed)
    requires Next(s.lastApplied) <= upto <= |committed|
    ensures var s' := Replay(env.app, s, committed[Next(s.lastApplied)..upto]);
            Next(s'.lastApplied) == upto && Folds(env, s', committed)
  {
    var k := Next(s.lastApplied);
    var s' := Replay(env.app, s, committed[k..upto]);
    ReplayReaches(env.app, s, committed[k..upto]);
    ReplayInBatches(env.app, Initial(env.app), committed[..k], committed[k..upto]);
    assert committed[..k] + committed[k..upto] == committed[..upto];
  }

  lemma WriteSnapshotKeepsLog(env: Env, d: Disk, l: Log, snapshot: Snapshot)
    requires env.Good() && Holds(env.codec, d, l) && Encodable(env.codec, WriteSnapshot(snapshot))
    ensures var d' := Applied(env.codec, WriteSnapshot(snapshot), d);
            Holds(env.codec, d', l) && LoadSnapshot(env.codec, d', U64_MAX) == Ok(Some(snapshot))
  {
    var d' := Applied(env.codec, WriteSnapshot(snapshot), d);
    SavedSnapshotLoads(env.codec, d, snapshot, U64_MAX);
    forall i: nat
      ensures ReadEntry(env.codec, d', i) == ReadEntry(env.codec, d, i)
    {
    }
  }

  lemma StartedIsConsistent(env: Env, s: Node)
    requires env.Good() && Started(env, s)
    ensures Consistent(env, s)
  {
    assert s.log.entries == [];
    HoldsIsRecovered(env.codec, s.disk, s.log);
  }

  lemma LogCallKeepsConsistent(env: Env, s: Node, op: LogOp, s': Node)
    requires env.Good() && Consistent(env, s) && StepTo(env, s, LogCall(op), s')
    ensures Consistent(env, s')
  {
    WholeIsLogged(env.codec, s.disk, s.log, op);
    MetaIsLogged(s.log, op);
  }

  lemma CommitKeepsConsistent(env: Env, s: Node, upto: nat, s': Node)
    requires env.Good() && Consistent(env, s) && StepTo(env, s, Commit(upto), s')
    ensures Consistent(env, s') && s.committed <= s'.committed
  {
    forall i | 0 <= i < |s'.committed|
      ensures s'.committed[i].logId.index == i
    {
      if i >= |s.committed| {
        assert s'.committed[i] == s.log.entries[i - s.log.Lo()];
      }
    }
    FoldsFurther(env, s.sm, s.committed, s'.committed);
    PairsFurther(env, s.cached, s.committed, s'.committed);
    if s.building.Some? {
      PairsFurther(env, s.building, s.committed, s'.committed);
    }
    if s.installing.Some? {
      PairsFurther(env, s.installing, s.committed, s'.committed);
    }
  }

  lemma ReceiveKeepsConsistent(env: Env, s: Node, snapshot: Snapshot, history: seq<Entry>, s': Node)
    requires env.Good() && Consistent(env, s) && StepTo(env, s, Receive(snapshot, history), s')
    ensures Consistent(env, s')
  {
    WriteSnapshotKeepsLog(env, s.disk, s.log, snapshot);
    FoldsFurther(env, s.sm, s.committed, history);
    if s.building.Some? {
      PairsFurther(env, s.building, s.committed, history);
    }
  }

  /** What any power loss leaves: the log before or after the operation in flight, the snapshot before
      or after the one being stored. */
  lemma LeftHolds(env: Env, s: Node, inFlight: InFlight, disk: Disk)
    requires env.Good() && Consistent(env, s) && Left(env, s, inFlight, disk)
    ensures || Holds(env.codec, disk, s.log)
            || (inFlight.Logging? && Holds(env.codec, disk, Logged(s.log, inFlight.op)))
    ensures !inFlight.Publishing? && !inFlight.Receiving? ==> disk.snapshot == s.disk.snapshot
    ensures inFlight.Publishing? && disk != s.disk ==>
              LoadSnapshot(env.codec, disk, U64_MAX) == Ok(s.building)
    ensures inFlight.Receiving? && disk != s.disk ==>
              LoadSnapshot(env.codec, disk, U64_MAX) == Ok(Some(inFlight.snapshot))
  {
    match inFlight
    case Nothing =>
    case Logging(op) =>
      CrashAtomic(env.codec, s.disk, s.log, op, disk);
    case Publishing =>
      if disk != s.disk {
        WriteSnapshotKeepsLog(env, s.disk, s.log, s.building.value);
      }
    case Receiving(snapshot, _) =>
      if disk != s.disk {
        WriteSnapshotKeepsLog(env, s.disk, s.log, snapshot);
      }
  }

  /** The snapshot a restart loads. */
  function LoadedSnapshot(s: Node, inFlight: InFlight, disk: Disk): Option<Snapshot> {
    if disk == s.disk then s.cached
    else if inFlight.Publishing? then s.building
    else if inFlight.Receiving? then Some(inFlight.snapshot)
    else s.cached
  }

  /** The snapshot a restart loads still pairs, with what is known committed by then. */
  lemma LoadedPairs(env: Env, s: Node, inFlight: InFlight, disk: Disk)
    requires env.Good() && Consistent(env, s) && Left(env, s, inFlight, disk)
    ensures LoadSnapshot(env.codec, disk, U64_MAX) == Ok(LoadedSnapshot(s, inFlight, disk))
    ensures Indexed(Known(s, inFlight, disk))
    ensures Pairs(env, LoadedSnapshot(s, inFlight, disk), Known(s, inFlight, disk))
  {
    LeftHolds(env, s, inFlight, disk);
    if disk.snapshot == s.disk.snapshot {
      assert LoadSnapshot(env.codec, disk, U64_MAX) == LoadSnapshot(env.codec, s.disk, U64_MAX);
    }
  }

  /** A disk that holds a log and loads a snapshot starts a node. */
  lemma StartsFrom(env: Env, disk: Disk, log: Log, cached: Option<Snapshot>, committed: seq<Entry>)
    returns (s: Node)
    requires env.Good() && Holds(env.codec, disk, log)
    requires LoadSnapshot(env.codec, disk, U64_MAX) == Ok(cached)
    requires Indexed(committed) && Pairs(env, cached, committed)
    ensures Restarted(env, s) && Consistent(env, s)
    ensures s.disk == disk && s.log == log && s.cached == cached && s.committed == committed
  {
    HoldsIsRecovered(env.codec, disk, log);
    s := Node(disk, log, MetaOf(log), Restored(env.app, cached).value, cached, None, None, committed);
  }

  /** The log a restart finds, and the snapshot it loads, are as the operation in flight began or as it
      would have ended. Both load, so the node starts. */
  lemma PowerLossRestarts(env: Env, s: Node, inFlight: InFlight, disk: Disk) returns (s': Node)
    requires env.Good() && Consistent(env, s) && Left(env, s, inFlight, disk)
    ensures StepTo(env, s, PowerLoss(inFlight), s') && s'.disk == disk
    ensures s'.log == s.log || (inFlight.Logging? && s'.log == Logged(s.log, inFlight.op))
    ensures s'.cached == LoadedSnapshot(s, inFlight, disk)
    ensures Consistent(env, s')
  {
    LoadedPairs(env, s, inFlight, disk);
    var log := LogLeft(env, s, inFlight, disk);
    s' := StartsFrom(env, disk, log, LoadedSnapshot(s, inFlight, disk), Known(s, inFlight, disk));
  }

  lemma LogLeft(env: Env, s: Node, inFlight: InFlight, disk: Disk) returns (log: Log)
    requires env.Good() && Consistent(env, s) && Left(env, s, inFlight, disk)
    ensures Holds(env.codec, disk, log)
    ensures log == s.log || (inFlight.Logging? && log == Logged(s.log, inFlight.op))
  {
    LeftHolds(env, s, inFlight, disk);
    log := if Holds(env.codec, disk, s.log) then s.log else Logged(s.log, inFlight.op);
  }

  /** A restart has no choice: the disk decides everything in memory. */
  lemma RestartIsDetermined(env: Env, s: Node, s': Node)
    requires Restarted(env, s) && Restarted(env, s') && s.disk == s'.disk && s.committed == s'.committed
    ensures s == s'
  {
  }

  /** No step of any kind, build and install interleaved at will, breaks a pair. */
  lemma ConsistentStays(env: Env, s: Node, e: Event, s': Node)
    requires env.Good() && Consistent(env, s) && StepTo(env, s, e, s')
    ensures Consistent(env, s')
  {
    match e
    case LogCall(op) => LogCallKeepsConsistent(env, s, op, s');
    case Commit(upto) => CommitKeepsConsistent(env, s, upto, s');
    case ApplyUpto(upto) => ApplyFolds(env, s.sm, s.committed, upto);
    case Capture => SnapshotRestores(env.app, s.sm);
    case Publish => WriteSnapshotKeepsLog(env, s.disk, s.log, s.building.value);
    case Receive(snapshot, history) => ReceiveKeepsConsistent(env, s, snapshot, history, s');
    case Swap =>
    case PowerLoss(inFlight) =>
      var restarted := PowerLossRestarts(env, s, inFlight, s'.disk);
      RestartIsDetermined(env, s', restarted);
  }

  // ----- coverage, and the restart theorem -----------------------------------------------------

  /** Every committed entry is in the stored snapshot or in the log, and the purge point has not passed
      the stored snapshot. */
  ghost predicate Covered(s: Node) {
    && s.log.Lo() <= Covers(s.cached)
    && forall i :: Covers(s.cached) <= i < |s.committed| ==> InLog(s.log, i, s.committed[i])
  }

  ghost predicate InLog(l: Log, i: nat, e: Entry) {
    l.Lo() <= i < l.Lo() + |l.entries| && l.entries[i - l.Lo()] == e
  }

  lemma LogCallKeepsPurgeCovered(s: Node, op: LogOp)
    requires s.log.WellFormed() && Allowed(s, op) && s.log.Lo() <= Covers(s.cached)
    ensures Logged(s.log, op).Lo() <= Covers(s.cached)
  {
  }

  lemma DropKeepsEntry(l: Log, upto: LogId, i: nat, e: Entry)
    requires l.Lo() + |l.entries| == l.Hi() && l.Lo() <= upto.index + 1 <= i && InLog(l, i, e)
    ensures InLog(Logged(l, LogOp.Purge(upto)), i, e)
  {
  }

  lemma CutKeepsEntry(l: Log, after: Option<LogId>, i: nat, e: Entry)
    requires l.Lo() + |l.entries| == l.Hi() && i < Next(after) && InLog(l, i, e)
    ensures InLog(Logged(l, LogOp.TruncateAfter(after)), i, e)
  {
  }

  lemma LogCallKeepsEntry(s: Node, op: LogOp, i: nat)
    requires s.log.WellFormed() && Allowed(s, op)
    requires Covers(s.cached) <= i < |s.committed| && InLog(s.log, i, s.committed[i])
    ensures InLog(Logged(s.log, op), i, s.committed[i])
  {
    match op
    case Purge(upto) => DropKeepsEntry(s.log, upto, i, s.committed[i]);
    case TruncateAfter(after) => CutKeepsEntry(s.log, after, i, s.committed[i]);
    case _ =>
  }

  lemma CoveredAfterLogging(s: Node, op: LogOp, s': Node)
    requires s.log.WellFormed() && Allowed(s, op) && Covered(s)
    requires s'.log == Logged(s.log, op) && s'.cached == s.cached && s'.committed == s.committed
    ensures Covered(s')
  {
    LogCallKeepsPurgeCovered(s, op);
    forall i | Covers(s'.cached) <= i < |s'.committed|
      ensures InLog(s'.log, i, s'.committed[i])
    {
      assert InLog(s.log, i, s.committed[i]);
      LogCallKeepsEntry(s, op, i);
    }
  }

  lemma CoveredAfterCommit(env: Env, s: Node, upto: nat, s': Node)
    requires s.log.WellFormed() && Covered(s) && StepTo(env, s, Commit(upto), s')
    ensures Covered(s')
  {
    forall i | Covers(s'.cached) <= i < |s'.committed|
      ensures InLog(s'.log, i, s'.committed[i])
    {
      if i < |s.committed| {
        assert InLog(s.log, i, s.committed[i]);
        assert s'.committed[i] == s.committed[i];
      } else {
        assert s'.committed[i] == s.log.entries[i - s.log.Lo()];
      }
    }
  }

  /** Replacing the stored snapshot by one that covers as much keeps everything covered. */
  lemma CoveredAfterStoring(s: Node, s': Node)
    requires Covered(s) && s'.log == s.log && Covers(s.cached) <= Covers(s'.cached)
    requires s'.committed == s.committed || |s'.committed| <= Covers(s'.cached)
    ensures Covered(s')
  {
    forall i | Covers(s'.cached) <= i < |s'.committed|
      ensures InLog(s'.log, i, s'.committed[i])
    {
      assert InLog(s.log, i, s.committed[i]);
    }
  }

  /** The step put the build in progress in the place of the stored snapshot: it published it, or lost
      power in the middle of publishing and kept it. */
  predicate Publishes(s: Node, e: Event, s': Node) {
    e.Publish? || (e.PowerLoss? && e.inFlight.Publishing? && s'.disk != s.disk)
  }

  /** The build in progress reaches the purge point, and the log still has whatever the stored snapshot
      covers beyond the build. */
  ghost predicate Reaches(s: Node) {
    && s.log.Lo() <= Covers(s.building)
    && forall i :: Covers(s.building) <= i < Covers(s.cached) && i < |s.committed| ==>
         InLog(s.log, i, s.committed[i])
  }

  /** What can be checked before publishing: with the log purged up to the stored snapshot, a build
      reaches exactly when it captured no less than the purge point; and one that captured no less than
      the stored snapshot covers always reaches. */
  lemma ReachesWhen(s: Node)
    requires Covered(s)
    ensures s.log.Lo() == Covers(s.cached) ==> (Reaches(s) <==> s.log.Lo() <= Covers(s.building))
    ensures Covers(s.cached) <= Covers(s.building) ==> Reaches(s)
  {
  }

  lemma PublishedCoverage(s: Node, s': Node)
    requires Covered(s) && s'.log == s.log && s'.cached == s.building && s'.committed == s.committed
    ensures Covered(s') <==> Reaches(s)
  {
    forall i | Covers(s.cached) <= i < |s.committed|
      ensures InLog(s.log, i, s.committed[i])
    {
    }
    if Covered(s') {
      forall i | Covers(s.building) <= i < Covers(s.cached) && i < |s.committed|
        ensures InLog(s.log, i, s.committed[i])
      {
        assert InLog(s'.log, i, s'.committed[i]);
      }
    }
    if Reaches(s) {
      forall i | Covers(s'.cached) <= i < |s'.committed|
        ensures InLog(s'.log, i, s'.committed[i])
      {
        assert InLog(s.log, i, s.committed[i]);
      }
    }
  }

  /** A power loss while nothing is being published keeps everything covered. */
  lemma CoveredAfterPowerLoss(env: Env, s: Node, inFlight: InFlight, s': Node)
    requires env.Good() && Consistent(env, s) && Covered(s) && StepTo(env, s, PowerLoss(inFlight), s')
    ensures !Publishes(s, PowerLoss(inFlight), s') ==> Covered(s')
    ensures Publishes(s, PowerLoss(inFlight), s') ==> (Covered(s') <==> Reaches(s))
  {
    var restarted := PowerLossRestarts(env, s, inFlight, s'.disk);
    RestartIsDetermined(env, s', restarted);
    if Publishes(s, PowerLoss(inFlight), s') {
      PublishedCoverage(s, s');
    } else if s'.log != s.log {
      CoveredAfterLogging(s, inFlight.op, s');
    } else {
      CoveredAfterStoring(s, s');
    }
  }

  /** Exactly what keeps coverage, for every step, power losses included, whatever builds and installs
      overlap: nothing but putting a build that does not reach in the place of the stored snapshot can
      uncover an entry, and that always does. */
  lemma CoveredExactly(env: Env, s: Node, e: Event, s': Node)
    requires env.Good() && Consistent(env, s) && Covered(s) && StepTo(env, s, e, s')
    ensures Covered(s') <==> (Publishes(s, e, s') ==> Reaches(s))
  {
    match e
    case LogCall(op) => CoveredAfterLogging(s, op, s');
    case Commit(upto) => CoveredAfterCommit(env, s, upto, s');
    case ApplyUpto(upto) => CoveredAfterStoring(s, s');
    case Capture => CoveredAfterStoring(s, s');
    case Publish => PublishedCoverage(s, s');
    case Receive(snapshot, history) => CoveredAfterStoring(s, s');
    case Swap => CoveredAfterStoring(s, s');
    case PowerLoss(inFlight) => CoveredAfterPowerLoss(env, s, inFlight, s');
  }

  /** The entries a log holds from one index up to another; none when it does not hold them. */
  function Retained(l: Log, from: nat, to: nat): seq<Entry> {
    if l.Lo() <= from <= to <= l.Lo() + |l.entries| then l.entries[from - l.Lo()..to - l.Lo()] else []
  }

  /** The committed entries past the snapshot, read from the log. */
  function Tail(s: Node): seq<Entry> {
    Retained(s.log, Covers(s.cached), |s.committed|)
  }

  lemma RetainedIsCommitted(l: Log, committed: seq<Entry>, from: nat)
    requires l.Lo() <= from < |committed|
    requires forall i :: from <= i < |committed| ==> InLog(l, i, committed[i])
    ensures |committed| <= l.Lo() + |l.entries|
    ensures Retained(l, from, |committed|) == committed[from..]
  {
    var lo, last := l.Lo(), |committed| - 1;
    assert InLog(l, last, committed[last]);
    forall k | 0 <= k < |committed| - from
      ensures l.entries[from - lo..|committed| - lo][k] == committed[from..][k]
    {
      assert InLog(l, from + k, committed[from + k]);
    }
  }

  lemma TailIsCommitted(s: Node)
    requires Covered(s) && Covers(s.cached) <= |s.committed|
    ensures Tail(s) == s.committed[Covers(s.cached)..]
  {
    if Covers(s.cached) < |s.committed| {
      RetainedIsCommitted(s.log, s.committed, Covers(s.cached));
    } else {
      assert Tail(s) == [] && s.committed[Covers(s.cached)..] == [];
    }
  }

  lemma RetainedIsRead(codec: Codec, d: Disk, l: Log, from: nat, to: nat)
    requires Holds(codec, d, l) && l.Lo() <= from
    requires from < to ==> to <= l.Hi()
    ensures from <= to ==> ReadEntries(codec, d, from, to) == Ok(Retained(l, from, to))
  {
    if from < to {
      ReadsSlice(codec, d, l.entries, l.Lo(), from, to);
    } else {
      assert Retained(l, from, to) == [];
    }
  }

  lemma TailIsRead(env: Env, s: Node)
    requires Holds(env.codec, s.disk, s.log) && Covered(s) && Covers(s.cached) <= |s.committed|
    ensures ReadEntries(env.codec, s.disk, Covers(s.cached), |s.committed|) == Ok(Tail(s))
  {
    if Covers(s.cached) < |s.committed| {
      RetainedIsCommitted(s.log, s.committed, Covers(s.cached));
    }
    RetainedIsRead(env.codec, s.disk, s.log, Covers(s.cached), |s.committed|);
  }

  /** Replaying what a snapshot does not cover, from what it restores, is replaying everything. */
  lemma ReplayFromSnapshot(env: Env, snapshot: Option<Snapshot>, committed: seq<Entry>)
    requires Pairs(env, snapshot, committed)
    ensures Replay(env.app, Restored(env.app, snapshot).value, committed[Covers(snapshot)..])
            == Replay(env.app, Initial(env.app), committed)
  {
    var from := Covers(snapshot);
    ReplayInBatches(env.app, Initial(env.app), committed[..from], committed[from..]);
    assert committed[..from] + committed[from..] == committed;
  }

  /** Restoring the stored snapshot and applying the retained committed tail gives the fold of the whole
      committed log, membership included; every entry of that tail can be read. */
  lemma RestartReplaysEverything(env: Env, s: Node)
    requires env.Good() && Consistent(env, s) && Covered(s)
    ensures Restored(env.app, s.cached).Ok?
    ensures Replay(env.app, Restored(env.app, s.cached).value, Tail(s))
            == Replay(env.app, Initial(env.app), s.committed)
    ensures |Tail(s)| == |s.committed| - Covers(s.cached)
    ensures ReadEntries(env.codec, s.disk, Covers(s.cached), |s.committed|) == Ok(Tail(s))
  {
    TailIsCommitted(s);
    TailIsRead(env, s);
    ReplayFromSnapshot(env, s.cached, s.committed);
  }

  // ----- whole runs ----------------------------------------------------------------------------

  /** A run: an empty disk, then any number of steps. */
  ghost predicate Run(env: Env, nodes: seq<Node>, events: seq<Event>) {
    && |nodes| == |events| + 1
    && Started(env, nodes[0])
    && forall k :: 0 <= k < |events| ==> StepTo(env, nodes[k], events[k], nodes[k + 1])
  }

  lemma ConsistentAlong(env: Env, nodes: seq<Node>, events: seq<Event>, k: nat)
    requires env.Good() && Run(env, nodes, events) && k < |events| && Consistent(env, nodes[k])
    ensures Consistent(env, nodes[k + 1])
  {
    ConsistentStays(env, nodes[k], events[k], nodes[k + 1]);
  }

  lemma {:induction false} RunsAreConsistent(env: Env, nodes: seq<Node>, events: seq<Event>, k: nat)
    requires env.Good() && Run(env, nodes, events) && k < |nodes|
    ensures Consistent(env, nodes[k])
  {
    if k == 0 {
      StartedIsConsistent(env, nodes[0]);
    } else {
      RunsAreConsistent(env, nodes, events, k - 1);
      ConsistentAlong(env, nodes, events, k - 1);
    }
  }

  /** Whenever a run puts a build in the place of the stored snapshot, the build reaches. */
  ghost predicate AllReach(nodes: seq<Node>, events: seq<Event>) {
    forall k :: 0 <= k < |events| < |nodes| && Publishes(nodes[k], events[k], nodes[k + 1]) ==> Reaches(nodes[k])
  }

  lemma CoveredAlong(env: Env, nodes: seq<Node>, events: seq<Event>, k: nat)
    requires env.Good() && Run(env, nodes, events) && k < |events|
    requires Consistent(env, nodes[k]) && Covered(nodes[k])
    ensures Covered(nodes[k + 1]) <==> (Publishes(nodes[k], events[k], nodes[k + 1]) ==> Reaches(nodes[k]))
  {
    CoveredExactly(env, nodes[k], events[k], nodes[k + 1]);
  }

  lemma ReachingAlong(env: Env, nodes: seq<Node>, events: seq<Event>, k: nat)
    requires env.Good() && Run(env, nodes, events) && AllReach(nodes, events) && k < |events|
    requires Consistent(env, nodes[k]) && Covered(nodes[k])
    ensures Covered(nodes[k + 1])
  {
    CoveredAlong(env, nodes, events, k);
  }

  lemma StartedIsCovered(env: Env, s: Node)
    requires Started(env, s)
    ensures Covered(s)
  {
    assert s.log.entries == [];
  }

  /** From covered to covered, across one step. */
  ghost predicate StaysCovered(nodes: seq<Node>, k: nat)
    requires k + 1 < |nodes|
  {
    Covered(nodes[k]) ==> Covered(nodes[k + 1])
  }

  lemma {:induction false} CoveredOnward(nodes: seq<Node>, k: nat)
    requires k < |nodes| && Covered(nodes[0])
    requires forall j: nat :: j + 1 < |nodes| ==> StaysCovered(nodes, j)
    ensures Covered(nodes[k])
  {
    if k > 0 {
      CoveredOnward(nodes, k - 1);
      assert StaysCovered(nodes, k - 1);
    }
  }

  lemma RunsAreCovered(env: Env, nodes: seq<Node>, events: seq<Event>, k: nat)
    requires env.Good() && Run(env, nodes, events) && AllReach(nodes, events) && k < |nodes|
    ensures Covered(nodes[k])
  {
    StartedIsCovered(env, nodes[0]);
    forall j: nat | j + 1 < |nodes|
      ensures StaysCovered(nodes, j)
    {
      RunsAreConsistent(env, nodes, events, j);
      if Covered(nodes[j]) {
        ReachingAlong(env, nodes, events, j);
      }
    }
    CoveredOnward(nodes, k);
  }

  /** A run keeps every committed entry covered in each of its states if and only if each build it puts in
      the place of the stored snapshot reaches. */
  lemma RunsAreCoveredExactly(env: Env, nodes: seq<Node>, events: seq<Event>)
    requires env.Good() && Run(env, nodes, events)
    ensures (forall k :: 0 <= k < |nodes| ==> Covered(nodes[k])) <==> AllReach(nodes, events)
  {
    if AllReach(nodes, events) {
      forall k | 0 <= k < |nodes|
        ensures Covered(nodes[k])
      {
        RunsAreCovered(env, nodes, events, k);
      }
    } else {
      var k :| 0 <= k < |events| && Publishes(nodes[k], events[k], nodes[k + 1]) && !Reaches(nodes[k]);
      RunsAreConsistent(env, nodes, events, k);
      if Covered(nodes[k]) {
        CoveredAlong(env, nodes, events, k);
      }
    }
  }

  /** In every state of a run, the live application and the stored snapshot are the application's own
      history: its initial value after the committed requests up to their position, in order, with the
      last membership among those entries. */
  lemma RunsKeepHistory(env: Env, nodes: seq<Node>, events: seq<Event>, k: nat)
    requires env.Good() && Run(env, nodes, events) && k < |nodes|
    ensures var s := nodes[k];
            && Next(s.sm.lastApplied) <= |s.committed|
            && History(env, s.committed[..Next(s.sm.lastApplied)], s.sm.app, s.sm.membership)
            && (s.cached.Some? ==>
                 && Covers(s.cached) <= |s.committed| && env.app.decode(s.cached.value.data).Some?
                 && History(env, s.committed[..Covers(s.cached)], env.app.decode(s.cached.value.data).value,
                            s.cached.value.meta.lastMembership))
  {
    var s := nodes[k];
    RunsAreConsistent(env, nodes, events, k);
    ReplayComesTo(env.app, Initial(env.app), s.committed[..Next(s.sm.lastApplied)]);
    ReplayComesTo(env.app, Initial(env.app), s.committed[..Covers(s.cached)]);
  }

  /** What the application comes to over these entries, from its initial value and no members. */
  ghost predicate History(env: Env, entries: seq<Entry>, value: AppState, members: StoredMembership) {
    && value == Folded(env.app, env.app.initial, Requests(entries))
    && LastMembers(entries, StoredMembership(None, env.app.noMembers), members)
  }

  /** The restart theorem. Wherever a run stands whose published builds reach, and wherever in an operation
      the power goes, the node starts again, and what it starts with plus the committed entries it
      retained replays to the whole committed log. Installs, builds and applies may overlap at will. */
  lemma RestartTheorem(env: Env, nodes: seq<Node>, events: seq<Event>, inFlight: InFlight, disk: Disk)
    returns (s': Node)
    requires env.Good() && Run(env, nodes, events) && AllReach(nodes, events)
    requires Left(env, nodes[|events|], inFlight, disk)
    requires inFlight.Publishing? && disk != nodes[|events|].disk ==> Reaches(nodes[|events|])
    ensures StepTo(env, nodes[|events|], PowerLoss(inFlight), s') && s'.disk == disk
    ensures nodes[|events|].committed <= s'.committed
    ensures Replay(env.app, s'.sm, Tail(s')) == Replay(env.app, Initial(env.app), s'.committed)
    ensures var replayed := Replay(env.app, s'.sm, Tail(s'));
            History(env, s'.committed, replayed.app, replayed.membership)
    ensures ReadEntries(env.codec, disk, Covers(s'.cached), |s'.committed|) == Ok(Tail(s'))
  {
    var s := nodes[|events|];
    RunsAreConsistent(env, nodes, events, |events|);
    RunsAreCovered(env, nodes, events, |events|);
    s' := PowerLossRestarts(env, s, inFlight, disk);
    CoveredExactly(env, s, PowerLoss(inFlight), s');
    RestartReplaysEverything(env, s');
    ReplayComesTo(env.app, Initial(env.app), s'.committed);
  }

  // ----- a rule that is enough: builds and installs apart --------------------------------------

  /** A build in progress captured nothing older than the stored snapshot, and nothing yet to apply. */
  ghost predicate Forward(s: Node) {
    && (s.building.Some? ==> Covers(s.cached) <= Covers(s.building) <= Next(s.sm.lastApplied))
    && (s.installing.None? ==> Covers(s.cached) <= Next(s.sm.lastApplied))
    && (s.building.Some? ==> s.installing.None?)
    && (s.installing.Some? ==> s.installing == s.cached)
  }

  /** No install between the capture and the publication of a build. */
  predicate Apart(s: Node, e: Event) {
    match e
    case Capture => s.installing.None?
    case Receive(_, _) => s.building.None?
    case PowerLoss(inFlight) => inFlight.Receiving? ==> s.building.None?
    case _ => true
  }

  ghost predicate KeepsApart(nodes: seq<Node>, events: seq<Event>) {
    forall k :: 0 <= k < |events| < |nodes| ==> Apart(nodes[k], events[k])
  }

  lemma ForwardStays(env: Env, s: Node, e: Event, s': Node)
    requires env.Good() && Consistent(env, s) && Forward(s) && StepTo(env, s, e, s') && Apart(s, e)
    ensures Forward(s')
  {
    match e
    case ApplyUpto(upto) => ApplyFolds(env, s.sm, s.committed, upto);
    case PowerLoss(inFlight) =>
      var restarted := PowerLossRestarts(env, s, inFlight, s'.disk);
      RestartIsDetermined(env, s', restarted);
    case _ =>
  }

  lemma ForwardAlong(env: Env, nodes: seq<Node>, events: seq<Event>, k: nat)
    requires env.Good() && Run(env, nodes, events) && k < |events| && Apart(nodes[k], events[k])
    requires Consistent(env, nodes[k]) && Forward(nodes[k])
    ensures Forward(nodes[k + 1])
  {
    ForwardStays(env, nodes[k], events[k], nodes[k + 1]);
  }

  /** In a run that keeps builds and installs apart everything stays covered, and every build in progress
      has captured no less than the stored snapshot covers. */
  lemma {:induction false} ApartIsForward(env: Env, nodes: seq<Node>, events: seq<Event>, k: nat)
    requires env.Good() && Run(env, nodes, events) && KeepsApart(nodes, events) && k < |nodes|
    ensures Covered(nodes[k]) && Forward(nodes[k])
  {
    if k == 0 {
      StartedIsCovered(env, nodes[0]);
    } else {
      ApartIsForward(env, nodes, events, k - 1);
      RunsAreConsistent(env, nodes, events, k - 1);
      ForwardAlong(env, nodes, events, k - 1);
      CoveredAlong(env, nodes, events, k - 1);
      if Publishes(nodes[k - 1], events[k - 1], nodes[k]) {
        ForwardReaches(env, nodes[k - 1], events[k - 1], nodes[k]);
      }
    }
  }

  lemma ForwardReaches(env: Env, s: Node, e: Event, s': Node)
    requires Covered(s) && Forward(s) && StepTo(env, s, e, s') && Publishes(s, e, s')
    ensures Reaches(s)
  {
    ReachesWhen(s);
  }

  /** So its builds reach: keeping builds and installs apart is enough for all of the above. */
  lemma ApartReaches(env: Env, nodes: seq<Node>, events: seq<Event>)
    requires env.Good() && Run(env, nodes, events) && KeepsApart(nodes, events)
    ensures AllReach(nodes, events)
  {
    forall k | 0 <= k < |events| && Publishes(nodes[k], events[k], nodes[k + 1])
      ensures Reaches(nodes[k])
    {
      ApartIsForward(env, nodes, events, k);
      ForwardReaches(env, nodes[k], events[k], nodes[k + 1]);
    }
  }

  // ----- why builds must reach -----------------------------------------------------------------

  /** A codec and an application that can write any metadata, any application state, and the two
      snapshots the run below stores. */
  ghost predicate WritesEnough(env: Env) {
    && (forall m :: env.codec.encodeMeta(m).Some?)
    && (forall a :: env.app.encode(a).Some?)
    && var members := StoredMembership(None, env.app.noMembers);
    && env.codec.encodeSnapshotMeta(SnapshotMeta(None, members)).Some?
    && env.codec.encodeSnapshotMeta(SnapshotMeta(Some(LogId(1, 0)), members)).Some?
  }

  /** The snapshot of a state, encoded. */
  function Taken(env: Env, s: State): Snapshot
    requires env.app.encode(s.app).Some?
  {
    SnapshotOf(s, env.app.encode(s.app).value)
  }

  lemma TakenIsSent(env: Env, s: Node, history: seq<Entry>)
    requires env.Good() && WritesEnough(env) && s.installing.None?
    requires s.committed <= history && Indexed(history)
    requires env.codec.encodeSnapshotMeta(
               Taken(env, Replay(env.app, Initial(env.app), history)).meta).Some?
    ensures Sent(env, s, Taken(env, Replay(env.app, Initial(env.app), history)), history)
  {
    var state := Replay(env.app, Initial(env.app), history);
    ReplayReaches(env.app, Initial(env.app), history);
    SnapshotRestores(env.app, state);
    assert history[..|history|] == history;
  }

  /** The run's middle: a build captures the state as it is, the node installs a snapshot of one entry
      over it, and both are under way or done. */
  lemma InstallOverBuild(env: Env, start: Node, only: Entry) returns (nodes: seq<Node>, events: seq<Event>)
    requires env.Good() && WritesEnough(env) && Started(env, start) && only == Entry(LogId(1, 0), Blank)
    ensures Run(env, nodes, events) && nodes[0] == start && !KeepsApart(nodes, events)
    ensures var s := nodes[|events|];
            && s.log == start.log && s.meta == start.meta && s.committed == [only] && s.installing.None?
            && s.building == Some(Taken(env, start.sm)) && Covers(s.cached) == 1
  {
    var snapshot := Taken(env, Replay(env.app, Initial(env.app), [only]));
    events := [Capture, Receive(snapshot, [only]), Swap];
    var captured := start.(building := Some(Taken(env, start.sm)));
    TakenIsSent(env, captured, [only]);
    var received := captured.(disk := Applied(env.codec, WriteSnapshot(snapshot), start.disk),
                              cached := Some(snapshot), installing := Some(snapshot), committed := [only]);
    var swapped := received.(sm := Restored(env.app, Some(snapshot)).value, installing := None);
    nodes := [start, captured, received, swapped];
    assert !Apart(nodes[1], events[1]);
  }

  lemma OneMoreStep(env: Env, nodes: seq<Node>, events: seq<Event>, e: Event, s': Node)
    requires Run(env, nodes, events) && StepTo(env, nodes[|events|], e, s')
    ensures Run(env, nodes + [s'], events + [e])
  {
    var more, moreEvents := nodes + [s'], events + [e];
    forall k | 0 <= k < |moreEvents|
      ensures StepTo(env, more[k], moreEvents[k], more[k + 1])
    {
      if k < |events| {
        assert more[k] == nodes[k] && more[k + 1] == nodes[k + 1] && moreEvents[k] == events[k];
      }
    }
  }

  lemma StillNotApart(nodes: seq<Node>, events: seq<Event>, e: Event, s': Node)
    requires !KeepsApart(nodes, events) && |nodes| == |events| + 1
    ensures !KeepsApart(nodes + [s'], events + [e])
  {
    var k :| 0 <= k < |events| < |nodes| && !Apart(nodes[k], events[k]);
    assert (nodes + [s'])[k] == nodes[k] && (events + [e])[k] == events[k];
  }

  /** A run that keeps every other rule. A build captures the empty state; the node installs a snapshot
      of one entry and purges up to it; the build is published over that snapshot. The committed entry
      is then in neither the stored snapshot nor the log. */
  lemma LateBuildLosesAnEntry(env: Env, start: Node) returns (nodes: seq<Node>, events: seq<Event>)
    requires env.Good() && WritesEnough(env) && Started(env, start)
    ensures Run(env, nodes, events) && nodes[0] == start && !KeepsApart(nodes, events)
    ensures var s := nodes[|events|];
            s.committed != [] && Covers(s.cached) == 0 && !exists e :: InLog(s.log, 0, e)
    ensures !Covered(nodes[|events|]) && !AllReach(nodes, events)
  {
    var only := Entry(LogId(1, 0), Blank);
    nodes, events := InstallOverBuild(env, start, only);
    var purged := PurgeStep(env, nodes[|events|], only.logId);
    OneMoreStep(env, nodes, events, LogCall(LogOp.Purge(only.logId)), purged);
    StillNotApart(nodes, events, LogCall(LogOp.Purge(only.logId)), purged);
    nodes, events := nodes + [purged], events + [LogCall(LogOp.Purge(only.logId))];
    var published := purged.(disk := Applied(env.codec, WriteSnapshot(purged.building.value), purged.disk),
                             cached := purged.building, building := None);
    OneMoreStep(env, nodes, events, Publish, published);
    StillNotApart(nodes, events, Publish, published);
    nodes, events := nodes + [published], events + [Publish];
    if AllReach(nodes, events) {
      RunsAreCovered(env, nodes, events, |events|);
    }
  }

  lemma PurgeStep(env: Env, s: Node, upto: LogId) returns (s': Node)
    requires WritesEnough(env) && s.log.WellFormed() && Allowed(s, LogOp.Purge(upto))
    ensures StepTo(env, s, LogCall(LogOp.Purge(upto)), s')
    ensures s' == s.(disk := s'.disk, log := Logged(s.log, LogOp.Purge(upto)), meta := s'.meta)
  {
    var op := LogOp.Purge(upto);
    s' := s.(disk := AppliedAll(env.codec, Writes(s.meta, op), s.disk),
             log := Logged(s.log, op), meta := MetaAfter(s.meta, op));
  }
}
