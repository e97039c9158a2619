/** The two stores opened over one storage, and openraft's calls on them as steps of the node. */
module Adapter {
  import opened Types
  import opened FileSystem
  import opened FileStorage
  import opened LogStore
  import opened StateMachine
  import opened Node

  /** The stores, between two calls, are the node `s`: same disk, same log, same state, same snapshot. */
  ghost predicate Represents(env: Env, log: LogStore, sm: StateMachineStore, s: Node)
    reads log, sm, log.storage.os`fs, log.storage.os`exposed, sm.storage.os`fs, sm.storage.os`exposed
  {
    && log.storage == sm.storage && log.storage.codec == env.codec && sm.app == env.app
    && log.storage.usizeMax == U64_MAX
    && log.Valid() && sm.Valid()
    && s.disk == log.storage.Disk() && s.log == log.log && s.meta == log.meta
    && s.sm == sm.Current() && s.cached == sm.snapshot
  }

  /** One load, two stores. The disk decides the answer: the stores of a node just started, or the error the
      disk deserves. */
  method Open(storage: FileStorage, app: App) returns (r: Result<(LogStore, StateMachineStore)>)
    requires storage.Ready() && app.RoundTrips() && storage.usizeMax == U64_MAX
    modifies storage.os`faults
    ensures r == Err(Io) <==> storage.os.faults > old(storage.os.faults)
    ensures r.Err? && r.error != Io ==>
              var loaded := LoadDisk(storage.codec, storage.Disk(), U64_MAX);
              if loaded.Err? then r.error == loaded.error
              else && r.error == Decode && loaded.value.snapshot.Some?
                   && app.decode(loaded.value.snapshot.value.data).None?
    ensures storage.os.faults >= old(storage.os.faults)
    ensures r.Ok? ==>
              match storage.Disk().meta
              case None => r.value.0.meta == EzMeta(None, None, None, None)
              case Some(bytes) => storage.codec.decodeMeta(bytes) == Some(r.value.0.meta)
    ensures r.Ok? ==>
              match r.value.1.snapshot
              case None => && storage.Disk().snapshot.None?
                           && r.value.1.Current() == State(app.initial, None, StoredMembership(None, app.noMembers))
              case Some(snapshot) => && storage.Disk().snapshot.Some?
                                     && app.decode(snapshot.data) == Some(r.value.1.value)
                                     && r.value.1.lastApplied == snapshot.meta.lastLogId
                                     && r.value.1.membership == snapshot.meta.lastMembership
    ensures r.Ok? ==> fresh(r.value.0) && fresh(r.value.1)
    ensures r.Ok? ==> LoadDisk(storage.codec, storage.Disk(), U64_MAX)
                      == Ok(Loaded(r.value.0.meta, r.value.1.snapshot))
    ensures r.Ok? ==> forall s :: Restarted(Env(storage.codec, app), s) && s.disk == storage.Disk()
                                  && s.log.WellFormed() ==>
                        Represents(Env(storage.codec, app), r.value.0, r.value.1, s)
  {
    var loaded := storage.Load();
    if loaded.Err? {
      return Err(loaded.error);
    }
    ghost var found := Recovered(storage.codec, storage.Disk());
    var log := new LogStore(storage, loaded.value.meta,
                            if found.Some? then found.value else Log(None, None, None, None, []));
    var restored := Restored(app, loaded.value.snapshot);
    if restored.Err? {
      return Err(restored.error);
    }
    var sm := new StateMachineStore(storage, app, loaded.value.snapshot, restored.value);
    forall s | Restarted(Env(storage.codec, app), s) && s.disk == storage.Disk() && s.log.WellFormed()
      ensures Represents(Env(storage.codec, app), log, sm, s)
    {
      HoldsIsRecovered(storage.codec, storage.Disk(), s.log);
    }
    r := Ok((log, sm));
  }

  // ----- calls as steps ------------------------------------------------------------------------

  /** A call of openraft's on the log is a step of the node, and losing power inside it is that node
      losing power inside that step. */
  method CallLog(ghost env: Env, log: LogStore, sm: StateMachineStore, ghost s: Node, op: LogOp)
    returns (r: Result<()>, ghost s': Node)
    requires Represents(env, log, sm, s) && Allowed(s, op)
    modifies log, log.storage.os
    ensures r.Ok? ==> StepTo(env, s, LogCall(op), s') && Represents(env, log, sm, s')
    ensures r == Err(Io) <==> log.storage.os.faults > old(log.storage.os.faults)
    ensures r.Err? && r.error != Io ==>
              || (r.error == Encode && env.codec.encodeMeta(log.meta).None?)
              || (r.error == Encode && op.Append? && SomeUnwritable(env.codec, op.entries))
              || (r.error == Unexpected && (op.TruncateAfter? || op.Purge?) && HasStray(old(log.storage.os.fs)))
    ensures forall c :: c in log.storage.os.exposed ==>
              c in old(log.storage.os.exposed) || (c.Settled() && Left(env, s, Logging(op), DiskOf(c)))
  {
    LoggingOutcomes(env, s, op);
    match op {
      case SaveVote(vote) => r := log.SaveVote(vote);
      case SaveNodeId(id) => r := log.SaveNodeId(id);
      case Append(entries) =>
        var flushed;
        r, flushed := log.Append(entries);
      case TruncateAfter(after) => r := log.TruncateAfter(after);
      case Purge(upto) => r := log.Purge(upto);
    }
    s' := s;
    if r.Ok? {
      s' := s.(disk := AppliedAll(env.codec, Writes(s.meta, op), s.disk),
               log := Logged(s.log, op), meta := MetaAfter(s.meta, op));
      LoggingKeepsSnapshot(env, s, op);
      MetaIsLogged(s.log, op);
    }
  }

  lemma LoggingOutcomes(env: Env, s: Node, op: LogOp)
    requires s.log.WellFormed() && Allowed(s, op) && s.meta == MetaOf(s.log)
    ensures forall c :: CrashOutcome(env.codec, s.disk, s.log, op, c) ==>
              c.Settled() && Left(env, s, Logging(op), DiskOf(c))
  {
  }

  lemma LoggingKeepsSnapshot(env: Env, s: Node, op: LogOp)
    requires env.codec.RoundTrips() && Holds(env.codec, s.disk, s.log) && Allowed(s, op)
    requires AllEncodable(env.codec, Writes(MetaOf(s.log), op))
    ensures var d' := AppliedAll(env.codec, Writes(MetaOf(s.log), op), s.disk);
            LoadSnapshot(env.codec, d', U64_MAX) == LoadSnapshot(env.codec, s.disk, U64_MAX)
  {
    WholeIsLogged(env.codec, s.disk, s.log, op);
  }

  /** Applying committed entries, however the stream ends, is a step as far as it was delivered. */
  method CallApply(ghost env: Env, log: LogStore, sm: StateMachineStore, ghost s: Node, items: seq<Item>)
    returns (r: Result<()>, sent: seq<(nat, Option<Response>)>, ghost s': Node)
    requires Represents(env, log, sm, s)
    requires Next(s.sm.lastApplied) + |Delivered(items)| <= |s.committed|
    requires Delivered(items)
             == s.committed[Next(s.sm.lastApplied)..Next(s.sm.lastApplied) + |Delivered(items)|]
    modifies sm
    ensures StepTo(env, s, ApplyUpto(Next(s.sm.lastApplied) + |Delivered(items)|), s')
    ensures Represents(env, log, sm, s') && sent == Answers(env.app, s.sm, items)
    ensures r.Ok? <==> Unbroken(items)
  {
    r, sent := sm.Apply(items);
    s' := s.(sm := Replay(env.app, s.sm, Delivered(items)));
  }

  // ----- builds and installs, half by half -----------------------------------------------------

  /** Storing a snapshot over the disk of a node: the log stays, and the snapshot loads. */
  ghost predicate Stored(env: Env, s: Node, snapshot: Snapshot, log: LogStore, sm: StateMachineStore)
    reads log, sm, log.storage.os`fs, log.storage.os`exposed, sm.storage.os`fs, sm.storage.os`exposed
  {
    && log.storage == sm.storage && log.storage.codec == env.codec && sm.app == env.app
    && log.storage.usizeMax == U64_MAX
    && sm.Valid() && sm.snapshot == Some(snapshot)
    && log.log == s.log && log.meta == s.meta
    && Encodable(env.codec, WriteSnapshot(snapshot))
    && log.storage.Disk() == Applied(env.codec, WriteSnapshot(snapshot), s.disk)
  }

  lemma StoredIsRepresented(env: Env, s: Node, snapshot: Snapshot, log: LogStore, sm: StateMachineStore,
                            s': Node)
    requires env.Good() && Stored(env, s, snapshot, log, sm)
    requires Holds(env.codec, s.disk, s.log) && s.meta == MetaOf(s.log)
    requires s'.disk == Applied(env.codec, WriteSnapshot(snapshot), s.disk)
    requires s'.log == s.log && s'.meta == s.meta
    requires s'.sm == sm.Current() && s'.cached == Some(snapshot)
    ensures Represents(env, log, sm, s')
  {
    WriteSnapshotKeepsLog(env, s.disk, s.log, snapshot);
  }

  /** The first half of a build: nothing changes but what the build has in hand. */
  method CallCapture(ghost env: Env, log: LogStore, sm: StateMachineStore, ghost s: Node)
    returns (r: Result<Snapshot>, ghost s': Node)
    requires Represents(env, log, sm, s) && s.building.None?
    ensures r.Ok? ==> && StepTo(env, s, Capture, s') && Represents(env, log, sm, s')
                      && s'.building == Some(r.value)
    ensures r == match env.app.encode(s.sm.app)
                 case None => Err(Encode)
                 case Some(data) => Ok(SnapshotOf(s.sm, data))
    ensures r.Err? ==> s' == s
  {
    r := sm.CaptureSnapshot();
    s' := if r.Ok? then s.(building := Some(r.value)) else s;
  }

  ghost function Published(env: Env, s: Node): Node
    requires s.building.Some? && Encodable(env.codec, WriteSnapshot(s.building.value))
  {
    s.(disk := Applied(env.codec, WriteSnapshot(s.building.value), s.disk), cached := s.building, building := None)
  }

  lemma PublishOutcomes(env: Env, s: Node, built: Snapshot)
    requires s.building == Some(built)
    ensures forall c :: SnapshotOutcome(env.codec, s.disk, built, c) ==>
              c.Settled() && Left(env, s, Publishing, DiskOf(c))
  {
  }

  /** The second half of a build, whatever happened since the first: it publishes what was captured. */
  method CallPublish(ghost env: Env, log: LogStore, sm: StateMachineStore, ghost s: Node, built: Snapshot)
    returns (r: Result<()>, ghost s': Node)
    requires env.Good() && Represents(env, log, sm, s) && s.building == Some(built)
    modifies sm`snapshot, log.storage.os
    ensures r.Ok? ==> StepTo(env, s, Publish, s') && Represents(env, log, sm, s')
    ensures r == Err(Io) <==> log.storage.os.faults > old(log.storage.os.faults)
    ensures r.Err? && r.error != Io ==> r.error == Encode && env.codec.encodeSnapshotMeta(built.meta).None?
    ensures log.storage.os.faults >= old(log.storage.os.faults)
    ensures forall c :: c in log.storage.os.exposed ==>
              c in old(log.storage.os.exposed) || (c.Settled() && Left(env, s, Publishing, DiskOf(c)))
  {
    r := sm.StoreSnapshot(built);
    PublishOutcomes(env, s, built);
    s' := s;
    if r.Ok? {
      assert Stored(env, s, built, log, sm);
      s' := Published(env, s);
      StoredIsRepresented(env, s, built, log, sm, s');
    }
  }

  ghost function Received(env: Env, s: Node, snapshot: Snapshot, history: seq<Entry>): Node
    requires Encodable(env.codec, WriteSnapshot(snapshot))
  {
    s.(disk := Applied(env.codec, WriteSnapshot(snapshot), s.disk),
       cached := Some(snapshot), installing := Some(snapshot), committed := history)
  }

  lemma ReceiveOutcomes(env: Env, s: Node, snapshot: Snapshot, history: seq<Entry>)
    requires Sent(env, s, snapshot, history)
    ensures forall c :: SnapshotOutcome(env.codec, s.disk, snapshot, c) ==>
              c.Settled() && Left(env, s, Receiving(snapshot, history), DiskOf(c))
  {
  }

  /** The first half of an install: the snapshot is stored, and the live state not touched yet. */
  method CallReceive(ghost env: Env, log: LogStore, sm: StateMachineStore, ghost s: Node,
                     snapshot: Snapshot, ghost history: seq<Entry>)
    returns (r: Result<AppState>, ghost s': Node)
    requires env.Good() && Represents(env, log, sm, s) && Sent(env, s, snapshot, history)
    modifies sm`snapshot, log.storage.os
    ensures r.Ok? ==> && StepTo(env, s, Receive(snapshot, history), s') && Represents(env, log, sm, s')
                      && s'.installing == Some(snapshot) && env.app.decode(snapshot.data) == Some(r.value)
    ensures r.Err? ==> sm.snapshot == s.cached && r.error == Io
    ensures r == Err(Io) <==> log.storage.os.faults > old(log.storage.os.faults)
    ensures forall c :: c in log.storage.os.exposed ==>
              || c in old(log.storage.os.exposed)
              || (c.Settled() && Left(env, s, Receiving(snapshot, history), DiskOf(c)))
  {
    r := sm.ReceiveSnapshot(snapshot.meta, snapshot.data);
    ReceiveOutcomes(env, s, snapshot, history);
    s' := s;
    if r.Ok? {
      assert Stored(env, s, snapshot, log, sm);
      s' := Received(env, s, snapshot, history);
      StoredIsRepresented(env, s, snapshot, log, sm, s');
    }
  }

  /** The second half of an install, whatever happened since the first: the stored snapshot's state becomes
      the live one. */
  method CallSwap(ghost env: Env, log: LogStore, sm: StateMachineStore, ghost s: Node,
                  snapshot: Snapshot, decoded: AppState)
    returns (ghost s': Node)
    requires Represents(env, log, sm, s) && s.installing == Some(snapshot)
    requires env.app.decode(snapshot.data) == Some(decoded)
    modifies sm`value, sm`lastApplied, sm`membership
    ensures StepTo(env, s, Swap, s') && Represents(env, log, sm, s')
  {
    sm.SwapIn(snapshot.meta, decoded);
    s' := s.(sm := sm.Current(), installing := None);
  }

  /** A build nothing comes between: both halves. */
  method CallBuild(ghost env: Env, log: LogStore, sm: StateMachineStore, ghost s: Node)
    returns (r: Result<Snapshot>, ghost captured: Node, ghost s': Node)
    requires env.Good() && Represents(env, log, sm, s) && s.building.None?
    modifies sm`snapshot, log.storage.os
    ensures r.Ok? ==> && StepTo(env, s, Capture, captured) && StepTo(env, captured, Publish, s')
                      && Represents(env, log, sm, s')
    ensures r == Err(Io) <==> log.storage.os.faults > old(log.storage.os.faults)
    ensures r.Err? && r.error != Io ==>
              && r.error == Encode
              && (env.app.encode(s.sm.app).None?
                  || env.codec.encodeSnapshotMeta(SnapshotMeta(s.sm.lastApplied, s.sm.membership)).None?)
    ensures forall c :: c in log.storage.os.exposed ==>
              || c in old(log.storage.os.exposed)
              || (captured.building.Some? && c.Settled() && Left(env, captured, Publishing, DiskOf(c)))
  {
    r, captured := CallCapture(env, log, sm, s);
    s' := captured;
    if r.Err? {
      return;
    }
    var published;
    published, s' := CallPublish(env, log, sm, captured, r.value);
    if published.Err? {
      r := Err(published.error);
    }
  }

  /** An install nothing comes between: both halves; on an error nothing of the live state has changed. */
  method CallInstall(ghost env: Env, log: LogStore, sm: StateMachineStore, ghost s: Node,
                     snapshot: Snapshot, ghost history: seq<Entry>)
    returns (r: Result<()>, ghost received: Node, ghost s': Node)
    requires env.Good() && Represents(env, log, sm, s) && Sent(env, s, snapshot, history)
    modifies sm, log.storage.os
    ensures r.Ok? ==> && StepTo(env, s, Receive(snapshot, history), received) && StepTo(env, received, Swap, s')
                      && Represents(env, log, sm, s')
    ensures r.Err? ==> sm.Current() == s.sm && sm.snapshot == s.cached && r.error == Io
    ensures r == Err(Io) <==> log.storage.os.faults > old(log.storage.os.faults)
    ensures forall c :: c in log.storage.os.exposed ==>
              || c in old(log.storage.os.exposed)
              || (c.Settled() && Left(env, s, Receiving(snapshot, history), DiskOf(c)))
  {
    var decoded;
    decoded, received := CallReceive(env, log, sm, s, snapshot, history);
    s' := received;
    if decoded.Err? {
      return Err(decoded.error), received, s';
    }
    s' := CallSwap(env, log, sm, received, snapshot, decoded.value);
    r := Ok(());
  }
}
