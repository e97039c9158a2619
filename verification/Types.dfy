/** The values the storage stack exchanges: log ids, metadata, entries, snapshots, codecs. */
module Types {

  /** A request, a response, an application state and a membership are the user's or openraft's own
      types. Nothing is known of them, so every theorem holds for all of them. */
  type Request(!new, ==)
  type Response(!new, ==)
  type AppState(!new, ==)
  type Membership(!new, ==)

  newtype byte = x: int | 0 <= x < 256
  type Bytes = seq<byte>

  const U64_MAX: nat := 0xFFFF_FFFF_FFFF_FFFF

  datatype Option<+T> = None | Some(value: T)

  datatype Error =
    | Io          // the operating system refused
    | Encode      // a value serde cannot write
    | Decode      // bytes serde cannot read
    | Framing     // a snapshot file shorter than it claims
    | NotFound    // a file that is not there
    | Unexpected  // a file in the log directory that is no log entry
    | Stream      // the stream of entries to apply failed

  datatype Result<+T> = Ok(value: T) | Err(error: Error)

  datatype LogId = LogId(term: nat, index: nat)

  /** `None < Some(_)`, then term, then index: the derived order on `Option<(u64, u64)>`. */
  predicate IdLe(a: Option<LogId>, b: Option<LogId>) {
    match (a, b)
    case (None, _) => true
    case (Some(_), None) => false
    case (Some(x), Some(y)) => x.term < y.term || (x.term == y.term && x.index <= y.index)
  }

  function MaxId(a: Option<LogId>, b: Option<LogId>): Option<LogId> {
    if IdLe(a, b) then b else a
  }

  /** One past the index of a position; 0 for none. */
  function Next(id: Option<LogId>): nat {
    if id.Some? then id.value.index + 1 else 0
  }

  /** The term of a position; 0 for none. */
  function Term(id: Option<LogId>): nat {
    if id.Some? then id.value.term else 0
  }

  datatype Vote = Vote(term: nat, nodeId: nat, committed: bool)

  datatype EzMeta = EzMeta(
    nodeId: Option<nat>,
    vote: Option<Vote>,
    lastLogId: Option<LogId>,
    lastPurged: Option<LogId>)

  const DEFAULT_META := EzMeta(None, None, None, None)

  datatype Payload = Normal(request: Request) | Members(membership: Membership) | Blank

  datatype Entry = Entry(logId: LogId, payload: Payload)

  datatype StoredMembership = StoredMembership(logId: Option<LogId>, membership: Membership)

  datatype SnapshotMeta = SnapshotMeta(lastLogId: Option<LogId>, lastMembership: StoredMembership)

  datatype Snapshot = Snapshot(meta: SnapshotMeta, data: Bytes)

  /** serde, seen from outside: writing may fail, reading may fail, and what was written reads back. */
  datatype Codec = Codec(
    encodeMeta: EzMeta -> Option<Bytes>,
    decodeMeta: Bytes -> Option<EzMeta>,
    encodeEntry: Entry -> Option<Bytes>,
    decodeEntry: Bytes -> Option<Entry>,
    encodeSnapshotMeta: SnapshotMeta -> Option<Bytes>,
    decodeSnapshotMeta: Bytes -> Option<SnapshotMeta>)
  {
    ghost predicate RoundTrips() {
      && (forall m :: encodeMeta(m).Some? ==> decodeMeta(encodeMeta(m).value) == Some(m))
      && (forall e :: encodeEntry(e).Some? ==> decodeEntry(encodeEntry(e).value) == Some(e))
      && (forall s :: encodeSnapshotMeta(s).Some? ==>
           decodeSnapshotMeta(encodeSnapshotMeta(s).value) == Some(s))
      // A slice in memory is never longer than a `u64` can say.
      && (forall s :: encodeSnapshotMeta(s).Some? ==> |encodeSnapshotMeta(s).value| <= U64_MAX)
    }
  }

  /** The user's application, and the value it starts from. */
  datatype App = App(
    initial: AppState,
    noMembers: Membership,
    apply: (AppState, Request) -> (AppState, Response),
    encode: AppState -> Option<Bytes>,
    decode: Bytes -> Option<AppState>)
  {
    ghost predicate RoundTrips() {
      forall a :: encode(a).Some? ==> decode(encode(a).value) == Some(a)
    }
  }
}
