/** What openraft keeps through its state machine interface: a replay of the log so far, and snapshots of
    it. */
module StateMachine {
  import opened Types
  import opened FileSystem
  import opened FileStorage

  // ----- sequential replay ---------------------------------------------------------------------

  /** The application, the last log id applied, and the last membership applied. */
  datatype State = State(app: AppState, lastApplied: Option<LogId>, membership: StoredMembership)

  function Initial(app: App): State {
    State(app.initial, None, StoredMembership(None, app.noMembers))
  }

  /** One entry: every entry moves the position, only a request reaches the application. */
  function Step(app: App, s: State, e: Entry): State {
    match e.payload
    case Normal(request) => State(app.apply(s.app, request).0, Some(e.logId), s.membership)
    case Members(membership) => State(s.app, Some(e.logId), StoredMembership(Some(e.logId), membership))
    case Blank => s.(lastApplied := Some(e.logId))
  }

  /** What one entry is answered: nothing, unless it is a request. */
  function Reply(app: App, s: State, e: Entry): Option<Response> {
    match e.payload
    case Normal(request) => Some(app.apply(s.app, request).1)
    case Members(_) => None
    case Blank => None
  }

  function Replay(app: App, s: State, entries: seq<Entry>): State
    decreases |entries|
  {
    if entries == [] then s else Replay(app, Step(app, s, entries[0]), entries[1..])
  }

  function Replies(app: App, s: State, entries: seq<Entry>): (replies: seq<Option<Response>>)
    ensures |replies| == |entries|
    decreases |entries|
  {
    if entries == [] then []
    else [Reply(app, s, entries[0])] + Replies(app, Step(app, s, entries[0]), entries[1..])
  }

  /** Batches do not matter: replaying one stretch and then the next is replaying both. */
  lemma {:induction false} ReplayInBatches(app: App, s: State, first: seq<Entry>, second: seq<Entry>)
    ensures Replay(app, s, first + second) == Replay(app, Replay(app, s, first), second)
    ensures Replies(app, s, first + second)
            == Replies(app, s, first) + Replies(app, Replay(app, s, first), second)
    decreases |first|
  {
    if first == [] {
      assert first + second == second;
    } else {
      assert (first + second)[1..] == first[1..] + second;
      ReplayInBatches(app, Step(app, s, first[0]), first[1..], second);
    }
  }

  lemma ReplayOneMore(app: App, s: State, entries: seq<Entry>, e: Entry)
    ensures Replay(app, s, entries + [e]) == Step(app, Replay(app, s, entries), e)
    ensures Replies(app, s, entries + [e]) == Replies(app, s, entries) + [Reply(app, Replay(app, s, entries), e)]
  {
    ReplayInBatches(app, s, entries, [e]);
    assert [e][1..] == [];
  }

  /** The position a replay reaches is that of its last entry. */
  lemma ReplayReaches(app: App, s: State, entries: seq<Entry>)
    ensures Replay(app, s, entries).lastApplied
            == if entries == [] then s.lastApplied else Some(entries[|entries| - 1].logId)
  {
    if entries != [] {
      var last := |entries| - 1;
      assert entries == entries[..last] + [entries[last]];
      ReplayOneMore(app, s, entries[..last], entries[last]);
    }
  }

  // ----- what a replay comes to ----------------------------------------------------------------

  /** The requests among the entries: what is left without the memberships and the blanks. */
  function Requests(entries: seq<Entry>): seq<Request> {
    if entries == [] then []
    else (if entries[0].payload.Normal? then [entries[0].payload.request] else []) + Requests(entries[1..])
  }

  /** The application's own history: one request after another, from `value`. */
  function Folded(app: App, value: AppState, requests: seq<Request>): AppState
    decreases |requests|
  {
    if requests == [] then value else Folded(app, app.apply(value, requests[0]).0, requests[1..])
  }

  lemma RequestsFront(entries: seq<Entry>)
    requires entries != []
    ensures entries[0].payload.Normal? ==>
              Requests(entries) != [] && Requests(entries)[0] == entries[0].payload.request
              && Requests(entries)[1..] == Requests(entries[1..])
    ensures !entries[0].payload.Normal? ==> Requests(entries) == Requests(entries[1..])
  {
  }

  /** The application a replay reaches is its history over the requests, whatever lies between them. */
  lemma {:induction false} ReplayFolds(app: App, s: State, entries: seq<Entry>)
    ensures Replay(app, s, entries).app == Folded(app, s.app, Requests(entries))
    decreases |entries|
  {
    if entries != [] {
      RequestsFront(entries);
      ReplayFolds(app, Step(app, s, entries[0]), entries[1..]);
    }
  }

  /** A request is answered by the application as the requests ahead of it left it, and nothing else is
      answered. */
  lemma {:induction false} RepliesFold(app: App, s: State, entries: seq<Entry>, k: nat)
    requires k < |entries|
    ensures Replies(app, s, entries)[k]
            == if entries[k].payload.Normal?
               then Some(app.apply(Folded(app, s.app, Requests(entries[..k])), entries[k].payload.request).1)
               else None
    decreases |entries|
  {
    if k > 0 {
      RepliesFold(app, Step(app, s, entries[0]), entries[1..], k - 1);
      assert entries[1..][..k - 1] == entries[..k][1..];
      RequestsFront(entries[..k]);
    }
  }

  /** `after` is the last membership among the entries, with its id; `before` if there is none. */
  ghost predicate LastMembers(entries: seq<Entry>, before: StoredMembership, after: StoredMembership) {
    || (after == before && forall k :: 0 <= k < |entries| ==> !entries[k].payload.Members?)
    || (exists k :: && 0 <= k < |entries| && entries[k].payload.Members?
                    && after == StoredMembership(Some(entries[k].logId), entries[k].payload.membership)
                    && forall j :: k < j < |entries| ==> !entries[j].payload.Members?)
  }

  lemma {:induction false} ReplayKeepsLastMembers(app: App, s: State, entries: seq<Entry>)
    ensures LastMembers(entries, s.membership, Replay(app, s, entries).membership)
  {
    if entries != [] {
      var last := |entries| - 1;
      var front, e := entries[..last], entries[last];
      assert entries == front + [e];
      ReplayOneMore(app, s, front, e);
      ReplayKeepsLastMembers(app, s, front);
      if !e.payload.Members? {
        MembersStay(front, e, s.membership, Replay(app, s, front).membership);
      }
    }
  }

  lemma MembersStay(front: seq<Entry>, e: Entry, before: StoredMembership, after: StoredMembership)
    requires LastMembers(front, before, after) && !e.payload.Members?
    ensures LastMembers(front + [e], before, after)
  {
    var entries := front + [e];
    if exists k :: 0 <= k < |front| && front[k].payload.Members? {
      var k :| && 0 <= k < |front| && front[k].payload.Members?
               && after == StoredMembership(Some(front[k].logId), front[k].payload.membership)
               && forall j :: k < j < |front| ==> !front[j].payload.Members?;
      assert entries[k] == front[k];
      forall j | k < j < |entries|
        ensures !entries[j].payload.Members?
      {
        assert j < |front| ==> entries[j] == front[j];
      }
    }
  }

  // ----- the stream openraft feeds to `apply` --------------------------------------------------

  /** An entry and, where a client waits for it, whom to answer; or an error in its place. */
  datatype Item = Item(entry: Entry, responder: Option<nat>) | Broken

  /** The entries before the first error. */
  function Delivered(items: seq<Item>): seq<Entry> {
    if items == [] || items[0].Broken? then [] else [items[0].entry] + Delivered(items[1..])
  }

  predicate Unbroken(items: seq<Item>) {
    forall k :: 0 <= k < |items| ==> !items[k].Broken?
  }

  /** Each waiting client once, in order, with the reply of the sequential replay. */
  function Answers(app: App, s: State, items: seq<Item>): seq<(nat, Option<Response>)>
    decreases |items|
  {
    if items == [] || items[0].Broken? then
      []
    else
      (if items[0].responder.Some? then [(items[0].responder.value, Reply(app, s, items[0].entry))] else [])
      + Answers(app, Step(app, s, items[0].entry), items[1..])
  }

  /** Stopping at an error and resuming where it stopped is not stopping. */
  lemma {:induction false} ResumedStream(app: App, s: State, first: seq<Item>, second: seq<Item>)
    requires Unbroken(first)
    ensures Delivered(first + second) == Delivered(first) + Delivered(second)
    ensures Answers(app, s, first + second)
            == Answers(app, s, first) + Answers(app, Replay(app, s, Delivered(first)), second)
    decreases |first|
  {
    if first == [] {
      assert first + second == second;
    } else {
      assert (first + second)[1..] == first[1..] + second;
      var next := Step(app, s, first[0].entry);
      ResumedStream(app, next, first[1..], second);
      assert Delivered(first)[1..] == Delivered(first[1..]);
    }
  }

  /** What is delivered is every item before the first error. */
  lemma {:induction false} DeliveredIsAPrefix(items: seq<Item>)
    ensures |Delivered(items)| <= |items|
    ensures forall k :: 0 <= k < |Delivered(items)| ==> items[k].Item? && Delivered(items)[k] == items[k].entry
    ensures |Delivered(items)| < |items| ==> items[|Delivered(items)|].Broken?
    decreases |items|
  {
    if items != [] && !items[0].Broken? {
      DeliveredIsAPrefix(items[1..]);
      assert Delivered(items)[1..] == Delivered(items[1..]);
    }
  }

  /** One reply per item, each to the client that waits for that item, if any. */
  function Addressed(items: seq<Item>, replies: seq<Option<Response>>): seq<(nat, Option<Response>)>
    requires |replies| <= |items|
  {
    if replies == [] then []
    else
      (if items[0].Item? && items[0].responder.Some? then [(items[0].responder.value, replies[0])] else [])
      + Addressed(items[1..], replies[1..])
  }

  /** The answers are the replies of the sequential replay, one to each client that waits, in order. */
  lemma {:induction false} AnswersAreReplies(app: App, s: State, items: seq<Item>)
    ensures |Delivered(items)| <= |items|
    ensures Answers(app, s, items) == Addressed(items, Replies(app, s, Delivered(items)))
    decreases |items|
  {
    if items != [] && !items[0].Broken? {
      AnswersAreReplies(app, Step(app, s, items[0].entry), items[1..]);
      assert Delivered(items)[1..] == Delivered(items[1..]);
      assert Replies(app, s, Delivered(items))[1..]
          == Replies(app, Step(app, s, items[0].entry), Delivered(items[1..]));
    }
  }

  ghost predicate Awaited(items: seq<Item>, k: nat) {
    k < |items| && items[k].Item? && items[k].responder.Some?
  }

  /** `answer` is reply `k`, to the client that waits for it. */
  ghost predicate HandedOut(items: seq<Item>, replies: seq<Option<Response>>, answer: (nat, Option<Response>), k: nat) {
    Awaited(items, k) && k < |replies| && answer == (items[k].responder.value, replies[k])
  }

  /** `who` are the positions of the replies that a client waits for, and `sent` hands out exactly those,
      in their order. */
  ghost predicate HandsOut(items: seq<Item>, replies: seq<Option<Response>>, sent: seq<(nat, Option<Response>)>,
                           who: seq<nat>)
  {
    && |who| == |sent|
    && (forall i, j :: 0 <= i < j < |who| ==> who[i] < who[j])
    && (forall k :: 0 <= k < |replies| && Awaited(items, k) ==> k in who)
    && (forall j :: 0 <= j < |who| ==> HandedOut(items, replies, sent[j], who[j]))
  }

  /** Every client that waits is answered once. */
  lemma {:induction false} AddressedOnce(items: seq<Item>, replies: seq<Option<Response>>) returns (who: seq<nat>)
    requires |replies| <= |items|
    ensures HandsOut(items, replies, Addressed(items, replies), who)
    decreases |replies|
  {
    who := [];
    if replies != [] {
      var front := |replies| - 1;
      who := AddressedOnce(items, replies[..front]);
      AddressedOneMore(items, replies);
      if Awaited(items, front) {
        who := who + [front];
      }
    }
  }

  lemma {:induction false} AddressedOneMore(items: seq<Item>, replies: seq<Option<Response>>)
    requires 0 < |replies| <= |items|
    ensures var last := |replies| - 1;
            Addressed(items, replies)
            == Addressed(items, replies[..last])
               + (if Awaited(items, last) then [(items[last].responder.value, replies[last])] else [])
    decreases |replies|
  {
    if |replies| > 1 {
      assert replies[1..][..|replies| - 2] == replies[..|replies| - 1][1..];
      AddressedOneMore(items[1..], replies[1..]);
    }
  }

  /** Each reply is what the application says to that request after the requests ahead of it. */
  ghost predicate RepliesTo(app: App, value: AppState, entries: seq<Entry>, replies: seq<Option<Response>>) {
    && |replies| == |entries|
    && forall k :: 0 <= k < |entries| ==>
         replies[k] == if entries[k].payload.Normal?
                       then Some(app.apply(Folded(app, value, Requests(entries[..k])), entries[k].payload.request).1)
                       else None
  }

  /** `sent` answers each client that waits for a delivered item, once and in order. */
  ghost predicate Served(app: App, value: AppState, items: seq<Item>, sent: seq<(nat, Option<Response>)>) {
    exists replies, who ::
      RepliesTo(app, value, Delivered(items), replies) && HandsOut(items, replies, sent, who)
  }

  lemma AnswersServe(app: App, s: State, items: seq<Item>)
    ensures Served(app, s.app, items, Answers(app, s, items))
  {
    var replies := Replies(app, s, Delivered(items));
    AnswersAreReplies(app, s, items);
    var who := AddressedOnce(items, replies);
    forall k | 0 <= k < |replies|
      ensures replies[k] == if Delivered(items)[k].payload.Normal?
                            then Some(app.apply(Folded(app, s.app, Requests(Delivered(items)[..k])),
                                                Delivered(items)[k].payload.request).1)
                            else None
    {
      RepliesFold(app, s, Delivered(items), k);
    }
  }

  /** What a replay comes to, in the application's own terms. */
  lemma ReplayComesTo(app: App, s: State, entries: seq<Entry>)
    ensures var s' := Replay(app, s, entries);
            && s'.app == Folded(app, s.app, Requests(entries))
            && LastMembers(entries, s.membership, s'.membership)
            && s'.lastApplied == if entries == [] then s.lastApplied else Some(entries[|entries| - 1].logId)
  {
    ReplayFolds(app, s, entries);
    ReplayKeepsLastMembers(app, s, entries);
    ReplayReaches(app, s, entries);
  }

  // ----- snapshots -----------------------------------------------------------------------------

  /** The state a snapshot restores. */
  function Restored(app: App, snapshot: Option<Snapshot>): Result<State> {
    match snapshot
    case None => Ok(Initial(app))
    case Some(s) =>
      match app.decode(s.data)
      case None => Err(Decode)
      case Some(value) => Ok(State(value, s.meta.lastLogId, s.meta.lastMembership))
  }

  /** The snapshot of a state, with its application already encoded. */
  function SnapshotOf(s: State, data: Bytes): Snapshot {
    Snapshot(SnapshotMeta(s.lastApplied, s.membership), data)
  }

  /** A snapshot of a state restores that state. */
  lemma SnapshotRestores(app: App, s: State)
    requires app.RoundTrips() && app.encode(s.app).Some?
    ensures Restored(app, Some(SnapshotOf(s, app.encode(s.app).value))) == Ok(s)
  {
  }

  /** A file system some power loss while a snapshot is stored can leave: the snapshot before it or the
      new one, whole, and the rest untouched. */
  ghost predicate SnapshotOutcome(codec: Codec, d: Disk, snapshot: Snapshot, c: Fs) {
    && c.Settled()
    && (DiskOf(c) == d
        || (Encodable(codec, WriteSnapshot(snapshot))
            && DiskOf(c) == Applied(codec, WriteSnapshot(snapshot), d)))
  }

  /** A live state, and a cache of the stored snapshot. */
  class StateMachineStore {
    const storage: FileStorage
    const app: App

    var value: AppState
    var lastApplied: Option<LogId>
    var membership: StoredMembership

    var snapshot: Option<Snapshot>

    function Current(): State
      reads this
    {
      State(value, lastApplied, membership)
    }

    /** The cached snapshot is the stored one. */
    ghost predicate Valid()
      reads this, storage.os`fs, storage.os`exposed
    {
      && storage.Ready() && app.RoundTrips()
      && storage.usizeMax >= U64_MAX
      && LoadSnapshot(storage.codec, storage.Disk(), storage.usizeMax) == Ok(snapshot)
    }

    /** Start from a snapshot that decodes, or from the initial value. */
    constructor (storage: FileStorage, app: App, snapshot: Option<Snapshot>, restored: State)
      requires Restored(app, snapshot) == Ok(restored)
      ensures this.storage == storage && this.app == app && this.snapshot == snapshot
      ensures Current() == restored
      ensures snapshot.None? ==> value == app.initial && lastApplied.None?
                                 && membership == StoredMembership(None, app.noMembers)
      ensures snapshot.Some? ==> app.decode(snapshot.value.data) == Some(value)
                                 && lastApplied == snapshot.value.meta.lastLogId
                                 && membership == snapshot.value.meta.lastMembership
    {
      this.storage := storage;
      this.app := app;
      this.snapshot := snapshot;
      value := restored.app;
      lastApplied := restored.lastApplied;
      membership := restored.membership;
    }

    /** What a reader computes from the live application. */
    method Read<R>(read: AppState -> R) returns (r: R)
      ensures r == read(Current().app)
    {
      r := read(value);
    }

    method AppliedState() returns (last: Option<LogId>, members: StoredMembership)
      ensures last == Current().lastApplied && members == Current().membership
    {
      last, members := lastApplied, membership;
    }

    /** Apply a stream of entries, answering those who wait, up to the first error. */
    method Apply(items: seq<Item>) returns (r: Result<()>, sent: seq<(nat, Option<Response>)>)
      modifies this`value, this`lastApplied, this`membership
      ensures Current() == Replay(app, old(Current()), Delivered(items))
      ensures sent == Answers(app, old(Current()), items)
      ensures value == Folded(app, old(value), Requests(Delivered(items)))
      ensures LastMembers(Delivered(items), old(membership), membership)
      ensures lastApplied == if Delivered(items) == [] then old(lastApplied)
                             else Some(Delivered(items)[|Delivered(items)| - 1].logId)
      ensures Served(app, old(value), items, sent)
      ensures r.Ok? <==> Unbroken(items)
      ensures r.Err? ==> r.error == Stream
    {
      AnswersServe(app, Current(), items);
      ReplayComesTo(app, Current(), Delivered(items));
      sent := [];
      var k := 0;
      ghost var start := Current();
      while k < |items|
        invariant 0 <= k <= |items|
        invariant Unbroken(items[..k])
        invariant Current() == Replay(app, start, Delivered(items[..k]))
        invariant sent == Answers(app, start, items[..k])
      {
        ResumedStream(app, start, items[..k], items[k..]);
        assert items == items[..k] + items[k..];
        if items[k].Broken? {
          assert Delivered(items[k..]) == [];
          assert Delivered(items) == Delivered(items[..k]) && Answers(app, start, items) == sent;
          return Err(Stream), sent;
        }
        var entry, responder := items[k].entry, items[k].responder;
        ghost var before := Current();
        lastApplied := Some(entry.logId);
        var resp: Option<Response> := None;
        match entry.payload {
          case Normal(request) =>
            var (next, response) := app.apply(value, request);
            value := next;
            resp := Some(response);
          case Members(members) =>
            membership := StoredMembership(Some(entry.logId), members);
          case Blank =>
        }
        if responder.Some? {
          sent := sent + [(responder.value, resp)];
        }
        assert Current() == Step(app, before, entry) && resp == Reply(app, before, entry);
        OneMoreItem(app, start, items, k);
        k := k + 1;
      }
      assert items[..k] == items;
      r := Ok(());
    }

    /** Persist a snapshot and cache it: the section of an install or a build that holds the cache and the
        storage. */
    method StoreSnapshot(stored: Snapshot) returns (r: Result<()>)
      requires Valid()
      modifies this`snapshot, storage.os
      ensures storage.Valid() && old(storage.os.exposed) <= storage.os.exposed
      ensures r.Ok? ==> && Valid() && snapshot == Some(stored)
                        && Encodable(storage.codec, WriteSnapshot(stored))
                        && storage.Disk() == Applied(storage.codec, WriteSnapshot(stored), old(storage.Disk()))
      ensures r.Err? ==> snapshot == old(snapshot)
      ensures r == Err(Io) <==> storage.os.faults > old(storage.os.faults)
      ensures r.Err? && r.error != Io ==>
                r.error == Encode && storage.codec.encodeSnapshotMeta(stored.meta).None?
      ensures storage.os.faults >= old(storage.os.faults)
      ensures forall c :: c in storage.os.exposed ==>
                c in old(storage.os.exposed) || SnapshotOutcome(storage.codec, old(storage.Disk()), stored, c)
    {
      r := storage.Persist(WriteSnapshot(stored));
      if r.Err? {
        return;
      }
      SavedSnapshotLoads(storage.codec, old(storage.Disk()), stored, storage.usizeMax);
      snapshot := Some(stored);
    }

    /** The first half of an install: decode the bytes, before anything keeps them, and store them. */
    method ReceiveSnapshot(meta: SnapshotMeta, data: Bytes) returns (r: Result<AppState>)
      requires Valid()
      modifies this`snapshot, storage.os
      ensures storage.Valid() && old(storage.os.exposed) <= storage.os.exposed
      ensures r.Ok? ==> && Valid() && snapshot == Some(Snapshot(meta, data)) && app.decode(data) == Some(r.value)
                        && Encodable(storage.codec, WriteSnapshot(Snapshot(meta, data)))
                        && storage.Disk()
                           == Applied(storage.codec, WriteSnapshot(Snapshot(meta, data)), old(storage.Disk()))
      ensures r.Err? ==> snapshot == old(snapshot)
      ensures r == Err(Io) <==> storage.os.faults > old(storage.os.faults)
      ensures r.Err? && r.error != Io ==>
                || (r.error == Decode && app.decode(data).None?)
                || (r.error == Encode && storage.codec.encodeSnapshotMeta(meta).None?)
      ensures storage.os.faults >= old(storage.os.faults)
      ensures app.decode(data).None? ==> r == Err(Decode) && storage.os.fs == old(storage.os.fs)
                                         && storage.os.exposed == old(storage.os.exposed)
      ensures forall c :: c in storage.os.exposed ==>
                || c in old(storage.os.exposed)
                || SnapshotOutcome(storage.codec, old(storage.Disk()), Snapshot(meta, data), c)
    {
      var decoded := app.decode(data);
      if decoded.None? {
        return Err(Decode);
      }
      var stored := StoreSnapshot(Snapshot(meta, data));
      r := if stored.Ok? then Ok(decoded.value) else Err(stored.error);
    }

    /** The second half of an install: put the decoded state in place of the live one. */
    method SwapIn(meta: SnapshotMeta, decoded: AppState)
      modifies this`value, this`lastApplied, this`membership
      ensures Current() == State(decoded, meta.lastLogId, meta.lastMembership)
    {
      lastApplied := meta.lastLogId;
      membership := meta.lastMembership;
      value := decoded;
    }

    /** Replace the state by a snapshot another node sent; bytes that do not decode change nothing. */
    method InstallSnapshot(meta: SnapshotMeta, data: Bytes) returns (r: Result<()>)
      requires Valid()
      modifies this, storage.os
      ensures storage.Valid() && old(storage.os.exposed) <= storage.os.exposed
      ensures r.Ok? ==> && Valid() && snapshot == Some(Snapshot(meta, data))
                        && Encodable(storage.codec, WriteSnapshot(Snapshot(meta, data)))
                        && storage.Disk()
                           == Applied(storage.codec, WriteSnapshot(Snapshot(meta, data)), old(storage.Disk()))
                        && Restored(app, snapshot) == Ok(Current())
      ensures r.Ok? ==> app.decode(data) == Some(value) && lastApplied == meta.lastLogId
                        && membership == meta.lastMembership
      ensures r.Err? ==> Current() == old(Current()) && snapshot == old(snapshot)
      ensures r == Err(Io) <==> storage.os.faults > old(storage.os.faults)
      ensures r.Err? && r.error != Io ==>
                || (r.error == Decode && app.decode(data).None?)
                || (r.error == Encode && storage.codec.encodeSnapshotMeta(meta).None?)
      ensures storage.os.faults >= old(storage.os.faults)
      ensures app.decode(data).None? ==> r == Err(Decode) && storage.os.fs == old(storage.os.fs)
                                         && storage.os.exposed == old(storage.os.exposed)
      ensures forall c :: c in storage.os.exposed ==>
                || c in old(storage.os.exposed)
                || SnapshotOutcome(storage.codec, old(storage.Disk()), Snapshot(meta, data), c)
    {
      var received := ReceiveSnapshot(meta, data);
      if received.Err? {
        return Err(received.error);
      }
      SwapIn(meta, received.value);
      r := Ok(());
    }

    method GetCurrentSnapshot() returns (r: Option<Snapshot>)
      requires Valid()
      ensures LoadSnapshot(storage.codec, storage.Disk(), storage.usizeMax) == Ok(r)
    {
      r := snapshot;
    }

    /** The first half of a build: the state as it is, encoded. */
    method CaptureSnapshot() returns (r: Result<Snapshot>)
      ensures r == match app.encode(Current().app)
                   case None => Err(Encode)
                   case Some(data) => Ok(SnapshotOf(Current(), data))
    {
      var data := app.encode(value);
      if data.None? {
        return Err(Encode);
      }
      r := Ok(Snapshot(SnapshotMeta(lastApplied, membership), data.value));
    }

    /** Write a snapshot of the current state, durable before it is handed back. */
    method BuildSnapshot() returns (r: Result<Snapshot>)
      requires Valid()
      modifies this`snapshot, storage.os
      ensures storage.Valid() && old(storage.os.exposed) <= storage.os.exposed
      ensures r.Ok? ==> && Valid() && snapshot == Some(r.value)
                        && app.encode(value).Some?
                        && r.value == SnapshotOf(Current(), app.encode(value).value)
                        && Restored(app, Some(r.value)) == Ok(Current())
                        && Encodable(storage.codec, WriteSnapshot(r.value))
                        && storage.Disk() == Applied(storage.codec, WriteSnapshot(r.value), old(storage.Disk()))
      ensures r.Ok? ==> app.encode(value) == Some(r.value.data) && r.value.meta == SnapshotMeta(lastApplied, membership)
      ensures r.Err? ==> snapshot == old(snapshot)
      ensures r == Err(Io) <==> storage.os.faults > old(storage.os.faults)
      ensures r.Err? && r.error != Io ==>
                && r.error == Encode
                && (app.encode(value).None?
                    || storage.codec.encodeSnapshotMeta(SnapshotMeta(lastApplied, membership)).None?)
      ensures storage.os.faults >= old(storage.os.faults)
      ensures forall c :: c in storage.os.exposed ==>
                || c in old(storage.os.exposed)
                || (app.encode(value).Some?
                    && SnapshotOutcome(storage.codec, old(storage.Disk()), SnapshotOf(Current(), app.encode(value).value), c))
    {
      r := CaptureSnapshot();
      if r.Err? {
        return;
      }
      var stored := StoreSnapshot(r.value);
      if stored.Err? {
        return Err(stored.error);
      }
    }
  }

  lemma OneMoreItem(app: App, s: State, items: seq<Item>, k: nat)
    requires k < |items| && Unbroken(items[..k]) && !items[k].Broken?
    ensures Unbroken(items[..k + 1])
    ensures var before := Replay(app, s, Delivered(items[..k]));
            && Replay(app, s, Delivered(items[..k + 1])) == Step(app, before, items[k].entry)
            && Answers(app, s, items[..k + 1])
               == Answers(app, s, items[..k])
                  + (if items[k].responder.Some?
                     then [(items[k].responder.value, Reply(app, before, items[k].entry))] else [])
  {
    var one := [items[k]];
    assert items[..k + 1] == items[..k] + one;
    ResumedStream(app, s, items[..k], one);
    assert one[1..] == [];
    assert Delivered(one) == [items[k].entry];
    ReplayOneMore(app, s, Delivered(items[..k]), items[k].entry);
  }
}
