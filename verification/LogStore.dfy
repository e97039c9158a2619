/** What openraft keeps through its log interface, over `FileStorage`: entries that count only as far as
    one metadata record says. */
module LogStore {
  import opened Types
  import opened FileSystem
  import opened FileStorage

  // ----- the log a disk holds ------------------------------------------------------------------

  /** The log as openraft knows it: a vote, two positions, and the entries between them. */
  datatype Log = Log(
    nodeId: Option<nat>,
    vote: Option<Vote>,
    lastPurged: Option<LogId>,
    lastLogId: Option<LogId>,
    entries: seq<Entry>)
  {
    function Lo(): nat { Next(lastPurged) }

    function Hi(): nat { Next(lastLogId) }

    /** Consecutive indices from just past the purge point, terms that do not go back, and the last
        position naming the last entry, or the purge point of an empty log. */
    ghost predicate WellFormed() {
      && Lo() + |entries| == Hi()
      && (forall k :: 0 <= k < |entries| ==> entries[k].logId.index == Lo() + k)
      && (forall k :: 0 <= k < |entries| ==> Term(lastPurged) <= entries[k].logId.term)
      && (forall j, k :: 0 <= j <= k < |entries| ==> entries[j].logId.term <= entries[k].logId.term)
      && lastLogId == (if entries == [] then lastPurged else Some(entries[|entries| - 1].logId))
    }
  }

  /** The two positions of a well-formed log are ordered by id as well as by index. */
  lemma PositionsAlike(l: Log)
    requires l.WellFormed()
    ensures IdLe(l.lastPurged, l.lastLogId) && l.Lo() <= l.Hi()
  {
  }

  /** Every index the metadata counts has a file, and the file holds the entry of that index. */
  ghost predicate Held(codec: Codec, d: Disk, m: EzMeta) {
    && Next(m.lastPurged) <= Next(m.lastLogId)
    && forall i :: Next(m.lastPurged) <= i < Next(m.lastLogId) ==>
         ReadEntry(codec, d, i).Ok? && ReadEntry(codec, d, i).value.logId.index == i
  }

  ghost function LogOf(codec: Codec, d: Disk, m: EzMeta): (l: Log)
    requires Held(codec, d, m)
    ensures |l.entries| == Next(m.lastLogId) - Next(m.lastPurged)
    ensures forall k :: 0 <= k < |l.entries| ==>
              Ok(l.entries[k]) == ReadEntry(codec, d, Next(m.lastPurged) + k)
  {
    var lo, hi := Next(m.lastPurged), Next(m.lastLogId);
    Log(m.nodeId, m.vote, m.lastPurged, m.lastLogId,
        seq(hi - lo, k requires 0 <= k < hi - lo => ReadEntry(codec, d, lo + k).value))
  }

  /** What a restart finds: `load` reads the metadata, and every index it counts can be read. */
  ghost function Recovered(codec: Codec, d: Disk): Option<Log> {
    match LoadMeta(codec, d)
    case Err(_) => None
    case Ok(m) => if Held(codec, d, m) then Some(LogOf(codec, d, m)) else None
  }

  function MetaOf(l: Log): EzMeta {
    EzMeta(l.nodeId, l.vote, l.lastLogId, l.lastPurged)
  }

  /** From index `lo` on, the disk reads as these entries. */
  ghost predicate ReadsAs(codec: Codec, d: Disk, entries: seq<Entry>, lo: nat) {
    forall i :: lo <= i < lo + |entries| ==> ReadEntry(codec, d, i) == Ok(entries[i - lo])
  }

  /** The disk holds the log `l`. */
  ghost predicate Holds(codec: Codec, d: Disk, l: Log) {
    && l.WellFormed()
    && LoadMeta(codec, d) == Ok(MetaOf(l))
    && forall i :: l.Lo() <= i < l.Hi() ==> ReadEntry(codec, d, i) == Ok(l.entries[i - l.Lo()])
  }

  lemma HeldIsRecovered(codec: Codec, d: Disk, l: Log)
    requires Holds(codec, d, l)
    ensures Recovered(codec, d) == Some(l)
  {
    var m := MetaOf(l);
    assert Held(codec, d, m);
    assert LogOf(codec, d, m).entries == l.entries;
  }

  lemma RecoveredIsHeld(codec: Codec, d: Disk, l: Log)
    requires l.WellFormed() && Recovered(codec, d) == Some(l)
    ensures Holds(codec, d, l)
  {
    var m := LoadMeta(codec, d).value;
    assert LogOf(codec, d, m) == l;
    forall i | l.Lo() <= i < l.Hi()
      ensures ReadEntry(codec, d, i) == Ok(l.entries[i - l.Lo()])
    {
      assert Ok(LogOf(codec, d, m).entries[i - l.Lo()]) == ReadEntry(codec, d, l.Lo() + (i - l.Lo()));
    }
  }

  /** To hold a log is to recover it. */
  lemma HoldsIsRecovered(codec: Codec, d: Disk, l: Log)
    requires l.WellFormed()
    ensures Holds(codec, d, l) <==> Recovered(codec, d) == Some(l)
  {
    if Holds(codec, d, l) {
      HeldIsRecovered(codec, d, l);
    } else if Recovered(codec, d) == Some(l) {
      RecoveredIsHeld(codec, d, l);
    }
  }

  // ----- the operations ------------------------------------------------------------------------

  datatype LogOp =
    | SaveVote(vote: Vote)
    | SaveNodeId(nodeId: nat)
    | Append(entries: seq<Entry>)
    | TruncateAfter(after: Option<LogId>)
    | Purge(upto: LogId)

  /** What each operation means for the log. */
  function Logged(l: Log, op: LogOp): Log
    requires l.Lo() + |l.entries| == l.Hi()
  {
    match op
    case SaveVote(vote) => l.(vote := Some(vote))
    case SaveNodeId(nodeId) => l.(nodeId := Some(nodeId))
    case Append(entries) =>
      if entries == [] then l
      else l.(entries := l.entries + entries, lastLogId := Some(entries[|entries| - 1].logId))
    case TruncateAfter(after) =>
      if Next(after) <= l.Lo() then l.(entries := [], lastLogId := l.lastPurged)
      else if Next(after) <= l.Hi() then l.(entries := l.entries[..Next(after) - l.Lo()], lastLogId := after)
      else l
    case Purge(upto) =>
      if upto.index + 1 >= l.Hi() then l.(entries := [], lastPurged := Some(upto), lastLogId := Some(upto))
      else if upto.index + 1 >= l.Lo() then
        l.(entries := l.entries[upto.index + 1 - l.Lo()..], lastPurged := Some(upto))
      else l
  }

  /** What openraft asks for: it appends just past the end with ids that do not go back, truncates
      after an entry it holds or within what is purged, and purges up to an entry it holds or past
      the end of a log that stopped short. Indices leave room for one more. */
  ghost predicate Asked(l: Log, op: LogOp)
    requires l.Lo() + |l.entries| == l.Hi()
  {
    match op
    case SaveVote(_) => true
    case SaveNodeId(_) => true
    case Append(entries) =>
      && (forall k :: 0 <= k < |entries| ==> entries[k].logId.index == l.Hi() + k < U64_MAX)
      && (forall k :: 0 <= k < |entries| ==> Term(l.lastLogId) <= entries[k].logId.term)
      && (forall j, k :: 0 <= j <= k < |entries| ==> entries[j].logId.term <= entries[k].logId.term)
    case TruncateAfter(after) =>
      && Next(after) <= l.Hi()
      && (if Next(after) <= l.Lo() then IdLe(after, l.lastPurged)
          else after == Some(l.entries[Next(after) - l.Lo() - 1].logId))
    case Purge(upto) =>
      && upto.index < U64_MAX
      && l.Lo() <= upto.index + 1
      && (if upto.index + 1 == l.Lo() then Some(upto) == l.lastPurged
          else if upto.index + 1 <= l.Hi() then upto == l.entries[upto.index - l.Lo()].logId
          else Term(l.lastLogId) <= upto.term)
  }

  lemma LoggedIsWellFormed(l: Log, op: LogOp)
    requires l.WellFormed() && Asked(l, op)
    ensures Logged(l, op).WellFormed()
  {
    if op.Append? {
      AppendIsWellFormed(l, op.entries);
    } else if op.TruncateAfter? {
      TruncateIsWellFormed(l, op.after);
    } else if op.Purge? {
      PurgeIsWellFormed(l, op.upto);
    }
  }

  lemma AppendIsWellFormed(l: Log, more: seq<Entry>)
    requires l.WellFormed() && Asked(l, Append(more))
    ensures Logged(l, Append(more)).WellFormed()
  {
    var all := l.entries + more;
    forall j, k | 0 <= j <= k < |all|
      ensures all[j].logId.term <= all[k].logId.term
    {
      if j < |l.entries| <= k {
        assert all[j].logId.term <= Term(l.lastLogId);
      }
    }
  }

  lemma TruncateIsWellFormed(l: Log, after: Option<LogId>)
    requires l.WellFormed() && Asked(l, TruncateAfter(after))
    ensures Logged(l, TruncateAfter(after)).WellFormed()
  {
  }

  lemma PurgeIsWellFormed(l: Log, upto: LogId)
    requires l.WellFormed() && Asked(l, Purge(upto))
    ensures Logged(l, Purge(upto)).WellFormed()
  {
    if upto.index + 1 < l.Hi() {
      DropIsWellFormed(l, upto, upto.index + 1 - l.Lo());
    }
  }

  lemma DropKeepsTermOrder(entries: seq<Entry>, n: nat)
    requires n <= |entries|
    requires forall j, k :: 0 <= j <= k < |entries| ==> entries[j].logId.term <= entries[k].logId.term
    ensures forall j, k :: 0 <= j <= k < |entries[n..]| ==>
              entries[n..][j].logId.term <= entries[n..][k].logId.term
  {
    forall j, k | 0 <= j <= k < |entries[n..]|
      ensures entries[n..][j].logId.term <= entries[n..][k].logId.term
    {
      assert entries[n..][j] == entries[n + j] && entries[n..][k] == entries[n + k];
    }
  }

  lemma DropIsWellFormed(l: Log, upto: LogId, n: nat)
    requires l.WellFormed() && n < |l.entries| && upto.index + 1 == l.Lo() + n
    requires if n == 0 then Some(upto) == l.lastPurged else upto == l.entries[n - 1].logId
    ensures l.(entries := l.entries[n..], lastPurged := Some(upto)).WellFormed()
  {
    var kept := l.entries[n..];
    forall k | 0 <= k < |kept|
      ensures kept[k].logId.index == upto.index + 1 + k && upto.term <= kept[k].logId.term
    {
      assert kept[k] == l.entries[n + k];
    }
    DropKeepsTermOrder(l.entries, n);
  }

  /** The repair every metadata write makes. */
  function Repaired(m: EzMeta): EzMeta {
    m.(lastLogId := MaxId(m.lastLogId, m.lastPurged))
  }

  /** The metadata each operation writes. */
  function MetaAfter(m: EzMeta, op: LogOp): EzMeta {
    match op
    case SaveVote(vote) => Repaired(m.(vote := Some(vote)))
    case SaveNodeId(nodeId) => Repaired(m.(nodeId := Some(nodeId)))
    case Append(entries) =>
      if entries == [] then m else Repaired(m.(lastLogId := Some(entries[|entries| - 1].logId)))
    case TruncateAfter(after) => Repaired(m.(lastLogId := after))
    case Purge(upto) => Repaired(m.(lastPurged := Some(upto)))
  }

  function EntryWrites(entries: seq<Entry>): (writes: seq<Persist>)
    ensures |writes| == |entries|
    ensures forall k :: 0 <= k < |entries| ==> writes[k] == WriteEntry(entries[k])
  {
    seq(|entries|, k requires 0 <= k < |entries| => WriteEntry(entries[k]))
  }

  /** The storage operations each log operation issues, in order: a position before the deletion it
      bounds, entries before the position that counts them. */
  function Writes(m: EzMeta, op: LogOp): seq<Persist> {
    match op
    case SaveVote(_) => [WriteMeta(MetaAfter(m, op))]
    case SaveNodeId(_) => [WriteMeta(MetaAfter(m, op))]
    case Append(entries) =>
      if entries == [] then [] else EntryWrites(entries) + [WriteMeta(MetaAfter(m, op))]
    case TruncateAfter(after) => [WriteMeta(MetaAfter(m, op)), DeleteLogs(Next(after), U64_MAX)]
    case Purge(upto) => [WriteMeta(MetaAfter(m, op)), DeleteLogs(0, upto.index + 1)]
  }

  // ----- sequences of storage operations -------------------------------------------------------

  ghost predicate AllEncodable(codec: Codec, ops: seq<Persist>) {
    forall k :: 0 <= k < |ops| ==> Encodable(codec, ops[k])
  }

  ghost function AppliedAll(codec: Codec, ops: seq<Persist>, d: Disk): Disk
    requires AllEncodable(codec, ops)
  {
    if ops == [] then d else AppliedAll(codec, ops[1..], Applied(codec, ops[0], d))
  }

  /** What a power loss anywhere inside the sequence can leave. */
  ghost predicate TornAll(codec: Codec, ops: seq<Persist>, d: Disk, d': Disk)
    decreases |ops|
  {
    if ops == [] then
      d' == d
    else
      || Torn(codec, ops[0], d, d')
      || (Encodable(codec, ops[0]) && TornAll(codec, ops[1..], Applied(codec, ops[0], d), d'))
  }

  /** `d'` is `d` after every write of the operation. */
  ghost predicate Performed(codec: Codec, m: EzMeta, op: LogOp, d: Disk, d': Disk) {
    AllEncodable(codec, Writes(m, op)) && d' == AppliedAll(codec, Writes(m, op), d)
  }

  lemma AppliedOne(codec: Codec, op: Persist, d: Disk)
    requires Encodable(codec, op)
    ensures AppliedAll(codec, [op], d) == Applied(codec, op, d)
  {
    assert [op][1..] == [];
  }

  lemma AppliedTwo(codec: Codec, first: Persist, second: Persist, d: Disk)
    requires Encodable(codec, first) && Encodable(codec, second)
    ensures AppliedAll(codec, [first, second], d) == Applied(codec, second, Applied(codec, first, d))
  {
    assert [first, second][1..] == [second];
    AppliedOne(codec, second, Applied(codec, first, d));
  }

  lemma {:induction false} AppliedSnoc(codec: Codec, ops: seq<Persist>, op: Persist, d: Disk)
    requires AllEncodable(codec, ops + [op])
    ensures AllEncodable(codec, ops) && Encodable(codec, op)
    ensures AppliedAll(codec, ops + [op], d) == Applied(codec, op, AppliedAll(codec, ops, d))
  {
    assert (ops + [op])[|ops|] == op;
    assert forall k :: 0 <= k < |ops| ==> (ops + [op])[k] == ops[k];
    if ops == [] {
      assert (ops + [op])[1..] == [];
    } else {
      assert (ops + [op])[1..] == ops[1..] + [op];
      AppliedSnoc(codec, ops[1..], op, Applied(codec, ops[0], d));
    }
  }

  /** A sequence is torn when one of its operations is, after all the ones before it. */
  lemma {:induction false} TornInside(codec: Codec, ops: seq<Persist>, k: nat, d: Disk, d': Disk)
    requires k < |ops| && AllEncodable(codec, ops[..k])
    requires Torn(codec, ops[k], AppliedAll(codec, ops[..k], d), d')
    ensures TornAll(codec, ops, d, d')
  {
    if k == 0 {
      assert ops[..0] == [];
    } else {
      assert ops[..k][0] == ops[0] && ops[..k][1..] == ops[1..][..k - 1];
      TornInside(codec, ops[1..], k - 1, Applied(codec, ops[0], d), d');
    }
  }

  lemma {:induction false} TornSplits(codec: Codec, first: seq<Persist>, last: Persist, d: Disk, d': Disk)
    requires TornAll(codec, first + [last], d, d')
    ensures || TornAll(codec, first, d, d')
            || (AllEncodable(codec, first) && TornAll(codec, [last], AppliedAll(codec, first, d), d'))
    decreases |first|
  {
    if first == [] {
      assert first + [last] == [last];
    } else {
      assert (first + [last])[0] == first[0] && (first + [last])[1..] == first[1..] + [last];
      if !Torn(codec, first[0], d, d') {
        TornSplits(codec, first[1..], last, Applied(codec, first[0], d), d');
      }
    }
  }

  // ----- crash atomicity -----------------------------------------------------------------------

  /** Writing entries from `start` on changes those indices and nothing else. */
  lemma {:induction false} EntriesApplied(codec: Codec, entries: seq<Entry>, start: nat, d: Disk)
    requires codec.RoundTrips() && AllEncodable(codec, EntryWrites(entries))
    requires forall k :: 0 <= k < |entries| ==> entries[k].logId.index == start + k
    ensures var d' := AppliedAll(codec, EntryWrites(entries), d);
            && d'.meta == d.meta && d'.snapshot == d.snapshot
            && (forall i: nat :: i < start || i >= start + |entries| ==>
                 ReadEntry(codec, d', i) == ReadEntry(codec, d, i))
            && (forall k :: 0 <= k < |entries| ==> ReadEntry(codec, d', start + k) == Ok(entries[k]))
    decreases |entries|
  {
    if entries != [] {
      assert EntryWrites(entries)[1..] == EntryWrites(entries[1..]);
      var first := Applied(codec, WriteEntry(entries[0]), d);
      EntriesApplied(codec, entries[1..], start + 1, first);
      var d' := AppliedAll(codec, EntryWrites(entries), d);
      assert ReadEntry(codec, first, start) == Ok(entries[0]);
      forall k | 0 <= k < |entries|
        ensures ReadEntry(codec, d', start + k) == Ok(entries[k])
      {
        if k > 0 {
          assert ReadEntry(codec, d', start + 1 + (k - 1)) == Ok(entries[1..][k - 1]);
        }
      }
    }
  }

  /** Cut short, writing entries from `start` on disturbs nothing below `start`. */
  lemma {:induction false} EntriesTorn(codec: Codec, entries: seq<Entry>, start: nat, d: Disk, d': Disk)
    requires forall k :: 0 <= k < |entries| ==> entries[k].logId.index == start + k
    requires TornAll(codec, EntryWrites(entries), d, d')
    ensures d'.meta == d.meta && d'.snapshot == d.snapshot
    ensures forall i: nat :: i < start ==> ReadEntry(codec, d', i) == ReadEntry(codec, d, i)
    decreases |entries|
  {
    if entries != [] {
      assert EntryWrites(entries)[1..] == EntryWrites(entries[1..]);
      if !Torn(codec, WriteEntry(entries[0]), d, d') {
        EntriesTorn(codec, entries[1..], start + 1, Applied(codec, WriteEntry(entries[0]), d), d');
      }
    }
  }

  /** The metadata written is the metadata of the log the operation means: the repair is a repair. */
  lemma MetaIsLogged(l: Log, op: LogOp)
    requires l.WellFormed() && Asked(l, op)
    ensures MetaAfter(MetaOf(l), op) == MetaOf(Logged(l, op))
  {
    LoggedIsWellFormed(l, op);
  }

  /** Truncating `l` drops the entries past a position and no other. The log ends at whichever is later,
      that position or the purge point. */
  ghost predicate Truncated(l: Log, after: Option<LogId>, l': Log) {
    && l' == Log(l.nodeId, l.vote, l.lastPurged, l'.lastLogId, l'.entries)
    && l'.entries <= l.entries
    && (forall e :: e in l'.entries <==> e in l.entries && after.Some? && e.logId.index <= after.value.index)
    && l'.lastLogId == (if after.Some? && (l.lastPurged.Some? ==> l.lastPurged.value.index < after.value.index)
                        then after else l.lastPurged)
  }

  /** Purging `l` drops the entries up to a position and no other. A log that stopped short ends there. */
  ghost predicate Purged(l: Log, upto: LogId, l': Log) {
    && l' == Log(l.nodeId, l.vote, Some(upto), l'.lastLogId, l'.entries)
    && |l'.entries| <= |l.entries| && l'.entries == l.entries[|l.entries| - |l'.entries|..]
    && (forall e :: e in l'.entries <==> e in l.entries && e.logId.index > upto.index)
    && l'.lastLogId == (if l.lastLogId.Some? && l.lastLogId.value.index > upto.index
                        then l.lastLogId else Some(upto))
  }

  lemma TruncationWrites(m: EzMeta, after: Option<LogId>)
    ensures MetaAfter(m, TruncateAfter(after)) == Repaired(m.(lastLogId := after))
    ensures Writes(m, TruncateAfter(after))
            == [WriteMeta(MetaAfter(m, TruncateAfter(after))), DeleteLogs(Next(after), U64_MAX)]
  {
  }

  lemma PurgeWrites(m: EzMeta, upto: LogId)
    ensures MetaAfter(m, Purge(upto)) == Repaired(m.(lastPurged := Some(upto)))
    ensures Writes(m, Purge(upto)) == [WriteMeta(MetaAfter(m, Purge(upto))), DeleteLogs(0, upto.index + 1)]
  {
  }

  lemma AppendAdds(l: Log, more: seq<Entry>)
    requires l.Lo() + |l.entries| == l.Hi()
    ensures Logged(l, Append(more))
            == Log(l.nodeId, l.vote, l.lastPurged,
                   if more == [] then l.lastLogId else Some(more[|more| - 1].logId),
                   l.entries + more)
  {
    if more == [] {
      assert l.entries + more == l.entries;
    }
  }

  lemma TruncationDrops(l: Log, after: Option<LogId>)
    requires l.WellFormed() && Asked(l, TruncateAfter(after))
    ensures Truncated(l, after, Logged(l, TruncateAfter(after)))
  {
    var l' := Logged(l, TruncateAfter(after));
    forall e
      ensures e in l'.entries <==> e in l.entries && after.Some? && e.logId.index <= after.value.index
    {
      if e in l.entries {
        var k :| 0 <= k < |l.entries| && l.entries[k] == e;
        if k < |l'.entries| {
          assert l'.entries[k] == e;
        }
      }
    }
  }

  lemma PurgeDrops(l: Log, upto: LogId)
    requires l.WellFormed() && Asked(l, Purge(upto))
    ensures Purged(l, upto, Logged(l, Purge(upto)))
  {
    var l' := Logged(l, Purge(upto));
    HeadDropped(l.entries, l.Lo(), |l.entries| - |l'.entries|);
  }

  lemma HeadDropped(entries: seq<Entry>, lo: nat, gone: nat)
    requires gone <= |entries| && forall k :: 0 <= k < |entries| ==> entries[k].logId.index == lo + k
    ensures forall e :: e in entries[gone..] <==> e in entries && e.logId.index >= lo + gone
  {
    forall e | e in entries && e.logId.index >= lo + gone
      ensures e in entries[gone..]
    {
      var k :| 0 <= k < |entries| && entries[k] == e;
      assert entries[gone..][k - gone] == e;
    }
  }

  /** `d'` has none of the files of `[from, to)`, and all the others of `d`. */
  ghost predicate FilesGone(d: Disk, d': Disk, from: nat, to: nat) {
    forall i: nat :: if from <= i < to then i !in d'.logs
                     else (i in d'.logs <==> i in d.logs) && (i in d.logs ==> d'.logs[i] == d.logs[i])
  }

  /** The files a truncation or a purge leaves, whatever the metadata. */
  lemma FilesDropped(codec: Codec, m: EzMeta, op: LogOp, d: Disk, d': Disk)
    requires Performed(codec, m, op, d, d') && (op.TruncateAfter? || op.Purge?)
    ensures match op
            case TruncateAfter(None) => FilesGone(d, d', 0, U64_MAX)
            case TruncateAfter(Some(last)) => FilesGone(d, d', last.index + 1, U64_MAX)
            case Purge(upto) => FilesGone(d, d', 0, upto.index + 1)
            case _ => true
  {
    var writes := Writes(m, op);
    assert Encodable(codec, writes[0]) && Encodable(codec, writes[1]);
    AppliedTwo(codec, writes[0], writes[1], d);
  }

  /** No operation moves an entry: what is kept stays at its index. */
  lemma KeptStaysPut(l: Log, op: LogOp, i: nat)
    requires l.WellFormed() && Asked(l, op) && !op.Append?
    requires Logged(l, op).Lo() <= i < Logged(l, op).Hi()
    ensures l.Lo() <= i < l.Hi() && Logged(l, op).WellFormed()
    ensures Logged(l, op).entries[i - Logged(l, op).Lo()] == l.entries[i - l.Lo()]
  {
    LoggedIsWellFormed(l, op);
  }

  /** Once its metadata is written, an operation has happened, whatever becomes of the entries it no
      longer counts. */
  lemma CountedDecides(codec: Codec, d: Disk, l: Log, op: LogOp, d': Disk)
    requires Holds(codec, d, l) && Asked(l, op) && !op.Append?
    requires LoadMeta(codec, d') == Ok(MetaAfter(MetaOf(l), op))
    requires forall i :: Logged(l, op).Lo() <= i < Logged(l, op).Hi() ==>
               ReadEntry(codec, d', i) == ReadEntry(codec, d, i)
    ensures Holds(codec, d', Logged(l, op))
  {
    LoggedIsWellFormed(l, op);
    MetaIsLogged(l, op);
    var l' := Logged(l, op);
    forall i | l'.Lo() <= i < l'.Hi()
      ensures ReadEntry(codec, d', i) == Ok(l'.entries[i - l'.Lo()])
    {
      KeptStaysPut(l, op, i);
    }
  }

  /** What is left of a deletion, or of nothing, keeps every entry the new metadata counts. */
  lemma DeletedAreUncounted(codec: Codec, l: Log, op: LogOp, counted: Disk, d': Disk)
    requires l.WellFormed() && Asked(l, op) && (op.TruncateAfter? || op.Purge?)
    requires Torn(codec, Writes(MetaOf(l), op)[1], counted, d')
    ensures d'.meta == counted.meta && d'.snapshot == counted.snapshot
    ensures forall i :: Logged(l, op).Lo() <= i < Logged(l, op).Hi() ==>
              ReadEntry(codec, d', i) == ReadEntry(codec, counted, i)
  {
    LoggedIsWellFormed(l, op);
  }

  /** Cut anywhere after its metadata is written, an operation that deletes has happened. */
  lemma DeletionTorn(codec: Codec, d: Disk, l: Log, op: LogOp, d': Disk)
    requires codec.RoundTrips() && Holds(codec, d, l) && Asked(l, op)
    requires op.TruncateAfter? || op.Purge?
    requires Encodable(codec, Writes(MetaOf(l), op)[0])
    requires Torn(codec, Writes(MetaOf(l), op)[1], Applied(codec, Writes(MetaOf(l), op)[0], d), d')
    ensures Holds(codec, d', Logged(l, op)) && d'.snapshot == d.snapshot
  {
    var counted := Applied(codec, Writes(MetaOf(l), op)[0], d);
    DeletedAreUncounted(codec, l, op, counted, d');
    assert counted.logs == d.logs;
    CountedDecides(codec, d, l, op, d');
  }

  lemma MetaWritten(codec: Codec, d: Disk, l: Log, op: LogOp)
    requires codec.RoundTrips() && Holds(codec, d, l) && Asked(l, op) && !op.Append?
    requires Encodable(codec, WriteMeta(MetaAfter(MetaOf(l), op)))
    ensures Holds(codec, Applied(codec, WriteMeta(MetaAfter(MetaOf(l), op)), d), Logged(l, op))
  {
    CountedDecides(codec, d, l, op, Applied(codec, WriteMeta(MetaAfter(MetaOf(l), op)), d));
  }

  /** Entries, then the metadata that counts them: all of it is read back. */
  lemma AppendWritten(codec: Codec, d: Disk, had: seq<Entry>, more: seq<Entry>, lo: nat, m: EzMeta)
    requires codec.RoundTrips() && AllEncodable(codec, EntryWrites(more) + [WriteMeta(m)])
    requires ReadsAs(codec, d, had, lo)
    requires forall k :: 0 <= k < |more| ==> more[k].logId.index == lo + |had| + k
    ensures var d' := AppliedAll(codec, EntryWrites(more) + [WriteMeta(m)], d);
            && LoadMeta(codec, d') == Ok(m) && d'.snapshot == d.snapshot
            && ReadsAs(codec, d', had + more, lo)
  {
    AppliedSnoc(codec, EntryWrites(more), WriteMeta(m), d);
    var written := AppliedAll(codec, EntryWrites(more), d);
    EntriesApplied(codec, more, lo + |had|, d);
    AppendedAreRead(codec, written, had, more, lo);
    var d' := Applied(codec, WriteMeta(m), written);
    forall i: nat
      ensures ReadEntry(codec, d', i) == ReadEntry(codec, written, i)
    {
    }
  }

  lemma AppendedWhole(codec: Codec, d: Disk, l: Log, entries: seq<Entry>)
    requires entries != [] && codec.RoundTrips()
    requires AllEncodable(codec, Writes(MetaOf(l), Append(entries)))
    requires Holds(codec, d, l) && Asked(l, Append(entries))
    ensures var d' := AppliedAll(codec, Writes(MetaOf(l), Append(entries)), d);
            Holds(codec, d', Logged(l, Append(entries))) && d'.snapshot == d.snapshot
  {
    AppendedLog(l, entries);
    AppendedReads(codec, d, l, entries);
    NowHolds(codec, AppliedAll(codec, Writes(MetaOf(l), Append(entries)), d), Logged(l, Append(entries)));
  }

  lemma NowHolds(codec: Codec, d: Disk, l: Log)
    requires l.WellFormed() && LoadMeta(codec, d) == Ok(MetaOf(l)) && ReadsAs(codec, d, l.entries, l.Lo())
    ensures Holds(codec, d, l)
  {
  }

  lemma AppendedReads(codec: Codec, d: Disk, l: Log, entries: seq<Entry>)
    requires entries != [] && codec.RoundTrips()
    requires AllEncodable(codec, Writes(MetaOf(l), Append(entries)))
    requires Holds(codec, d, l) && Asked(l, Append(entries))
    ensures var d' := AppliedAll(codec, Writes(MetaOf(l), Append(entries)), d);
            && LoadMeta(codec, d') == Ok(MetaOf(Logged(l, Append(entries)))) && d'.snapshot == d.snapshot
            && ReadsAs(codec, d', l.entries + entries, l.Lo())
  {
    AppendedLog(l, entries);
    HeldEntriesAreRead(codec, d, l);
    AppendWritten(codec, d, l.entries, entries, l.Lo(), MetaOf(Logged(l, Append(entries))));
  }

  lemma AppendedLog(l: Log, entries: seq<Entry>)
    requires entries != [] && l.WellFormed() && Asked(l, Append(entries))
    ensures var l' := Logged(l, Append(entries));
            && l'.WellFormed() && l'.Lo() == l.Lo() && l'.entries == l.entries + entries
            && Writes(MetaOf(l), Append(entries)) == EntryWrites(entries) + [WriteMeta(MetaOf(l'))]
    ensures forall k :: 0 <= k < |entries| ==> entries[k].logId.index == l.Lo() + |l.entries| + k
  {
    LoggedIsWellFormed(l, Append(entries));
    MetaIsLogged(l, Append(entries));
  }

  lemma HeldEntriesAreRead(codec: Codec, d: Disk, l: Log)
    requires Holds(codec, d, l)
    ensures ReadsAs(codec, d, l.entries, l.Lo())
  {
  }

  lemma AppendedAreRead(codec: Codec, written: Disk, had: seq<Entry>, more: seq<Entry>, lo: nat)
    requires ReadsAs(codec, written, had, lo)
    requires forall k :: 0 <= k < |more| ==> ReadEntry(codec, written, lo + |had| + k) == Ok(more[k])
    ensures ReadsAs(codec, written, had + more, lo)
  {
    forall i | lo <= i < lo + |had| + |more|
      ensures ReadEntry(codec, written, i) == Ok((had + more)[i - lo])
    {
      if i >= lo + |had| {
        var k := i - lo - |had|;
        assert ReadEntry(codec, written, lo + |had| + k) == Ok(more[k]);
      }
    }
  }

  /** Done whole, an operation leaves exactly the log it means. */
  lemma WholeIsLogged(codec: Codec, d: Disk, l: Log, op: LogOp)
    requires codec.RoundTrips() && AllEncodable(codec, Writes(MetaOf(l), op))
    requires Holds(codec, d, l) && Asked(l, op)
    ensures var d' := AppliedAll(codec, Writes(MetaOf(l), op), d);
            Holds(codec, d', Logged(l, op)) && d'.snapshot == d.snapshot
  {
    var writes := Writes(MetaOf(l), op);
    if op.Append? {
      if op.entries != [] {
        AppendedWhole(codec, d, l, op.entries);
      }
    } else if op.SaveVote? || op.SaveNodeId? {
      assert Encodable(codec, writes[0]);
      AppliedOne(codec, writes[0], d);
      MetaWritten(codec, d, l, op);
    } else {
      assert Encodable(codec, writes[0]) && Encodable(codec, writes[1]);
      AppliedTwo(codec, writes[0], writes[1], d);
      WholeIsTorn(codec, writes[1], Applied(codec, writes[0], d));
      DeletionTorn(codec, d, l, op, AppliedAll(codec, writes, d));
    }
  }

  lemma LastTorn(codec: Codec, op: Persist, d: Disk, d': Disk)
    requires TornAll(codec, [op], d, d')
    ensures Torn(codec, op, d, d')
  {
    if !Torn(codec, op, d, d') {
      assert [op][1..] == [];
      WholeIsTorn(codec, op, d);
    }
  }

  /** Two disks that read alike below an index read as the same entries up to it. */
  lemma ReadsAsBelow(codec: Codec, d: Disk, d': Disk, entries: seq<Entry>, lo: nat)
    requires ReadsAs(codec, d, entries, lo)
    requires forall i: nat :: i < lo + |entries| ==> ReadEntry(codec, d', i) == ReadEntry(codec, d, i)
    ensures ReadsAs(codec, d', entries, lo)
  {
  }

  lemma AskedAppend(l: Log, entries: seq<Entry>)
    requires l.WellFormed() && Asked(l, Append(entries))
    ensures l.Hi() == l.Lo() + |l.entries|
    ensures forall k :: 0 <= k < |entries| ==> entries[k].logId.index == l.Hi() + k
  {
  }

  /** Cut inside its entries, an append has not happened. */
  lemma CutInsideEntries(codec: Codec, d: Disk, l: Log, entries: seq<Entry>, d': Disk)
    requires Holds(codec, d, l) && Asked(l, Append(entries))
    requires TornAll(codec, EntryWrites(entries), d, d')
    ensures Holds(codec, d', l) && d'.snapshot == d.snapshot
  {
    AskedAppend(l, entries);
    EntriesTorn(codec, entries, l.Hi(), d, d');
    HeldEntriesAreRead(codec, d, l);
    ReadsAsBelow(codec, d, d', l.entries, l.Lo());
    NowHolds(codec, d', l);
  }

  /** With its entries whole and not yet counted, an append has not happened either. */
  lemma EntriesUncounted(codec: Codec, d: Disk, l: Log, entries: seq<Entry>)
    requires codec.RoundTrips() && Holds(codec, d, l) && Asked(l, Append(entries))
    requires AllEncodable(codec, EntryWrites(entries))
    ensures var written := AppliedAll(codec, EntryWrites(entries), d);
            Holds(codec, written, l) && written.snapshot == d.snapshot
  {
    AskedAppend(l, entries);
    EntriesApplied(codec, entries, l.Hi(), d);
    HeldEntriesAreRead(codec, d, l);
    ReadsAsBelow(codec, d, AppliedAll(codec, EntryWrites(entries), d), l.entries, l.Lo());
    NowHolds(codec, AppliedAll(codec, EntryWrites(entries), d), l);
  }

  /** Cut inside the write that counts it, an append has happened or not. */
  lemma CutInsideCount(codec: Codec, d: Disk, l: Log, entries: seq<Entry>, d': Disk)
    requires entries != [] && codec.RoundTrips() && Holds(codec, d, l) && Asked(l, Append(entries))
    requires AllEncodable(codec, EntryWrites(entries))
    requires Torn(codec, WriteMeta(MetaAfter(MetaOf(l), Append(entries))),
                  AppliedAll(codec, EntryWrites(entries), d), d')
    ensures Holds(codec, d', l) || Holds(codec, d', Logged(l, Append(entries)))
    ensures d'.snapshot == d.snapshot
  {
    var last := WriteMeta(MetaAfter(MetaOf(l), Append(entries)));
    if d' == AppliedAll(codec, EntryWrites(entries), d) {
      EntriesUncounted(codec, d, l, entries);
    } else {
      OneMoreEncodable(codec, EntryWrites(entries), last);
      AppliedSnoc(codec, EntryWrites(entries), last, d);
      AppendedWhole(codec, d, l, entries);
    }
  }

  lemma OneMoreEncodable(codec: Codec, ops: seq<Persist>, op: Persist)
    requires AllEncodable(codec, ops) && Encodable(codec, op)
    ensures AllEncodable(codec, ops + [op])
  {
    var all := ops + [op];
    forall k | 0 <= k < |all|
      ensures Encodable(codec, all[k])
    {
    }
  }

  /** A power loss anywhere inside an append leaves all of the batch or none of it. */
  lemma AppendTorn(codec: Codec, d: Disk, l: Log, entries: seq<Entry>, d': Disk)
    requires entries != [] && codec.RoundTrips()
    requires Holds(codec, d, l) && Asked(l, Append(entries))
    requires TornAll(codec, Writes(MetaOf(l), Append(entries)), d, d')
    ensures Holds(codec, d', l) || Holds(codec, d', Logged(l, Append(entries)))
    ensures d'.snapshot == d.snapshot
  {
    var last := WriteMeta(MetaAfter(MetaOf(l), Append(entries)));
    TornSplits(codec, EntryWrites(entries), last, d, d');
    if TornAll(codec, EntryWrites(entries), d, d') {
      CutInsideEntries(codec, d, l, entries, d');
    } else {
      LastTorn(codec, last, AppliedAll(codec, EntryWrites(entries), d), d');
      CutInsideCount(codec, d, l, entries, d');
    }
  }

  /** A power loss anywhere inside an operation leaves the log before it or the log after it, and the
      snapshot alone. */
  lemma CrashAtomic(codec: Codec, d: Disk, l: Log, op: LogOp, d': Disk)
    requires codec.RoundTrips()
    requires Holds(codec, d, l) && Asked(l, op)
    requires TornAll(codec, Writes(MetaOf(l), op), d, d')
    ensures Holds(codec, d', l) || Holds(codec, d', Logged(l, op))
    ensures d'.snapshot == d.snapshot
  {
    var writes := Writes(MetaOf(l), op);
    if op.Append? {
      if op.entries != [] {
        AppendTorn(codec, d, l, op.entries, d');
      }
    } else if op.SaveVote? || op.SaveNodeId? {
      LastTorn(codec, writes[0], d, d');
      if d' != d {
        MetaWritten(codec, d, l, op);
      }
    } else {
      assert writes[1..] == [writes[1]];
      if Torn(codec, writes[0], d, d') {
        if d' != d {
          MetaWritten(codec, d, l, op);
        }
      } else {
        LastTorn(codec, writes[1], Applied(codec, writes[0], d), d');
        DeletionTorn(codec, d, l, op, d');
      }
    }
  }

  // ----- the two positions ---------------------------------------------------------------------

  /** The metadata after a run of operations, whatever they ask for. */
  function MetaAfterAll(m: EzMeta, ops: seq<LogOp>): EzMeta {
    if ops == [] then m else MetaAfter(MetaAfterAll(m, ops[..|ops| - 1]), ops[|ops| - 1])
  }

  /** In any run of operations, asked for by contract or not, a truncation below the purge point and a
      purge past the end of the log included, `last_purged <= last_log_id` after every one. */
  lemma {:induction false} PositionsStayOrdered(m: EzMeta, ops: seq<LogOp>)
    requires IdLe(m.lastPurged, m.lastLogId)
    ensures IdLe(MetaAfterAll(m, ops).lastPurged, MetaAfterAll(m, ops).lastLogId)
  {
    if ops != [] {
      PositionsStayOrdered(m, ops[..|ops| - 1]);
    }
  }

  /** The repair compares ids, reads clamp by index. The readable range comes out well formed exactly
      when the log does not end at a later term and a lower index than the purge point. */
  lemma RepairedRangeIsWellFormed(m: EzMeta)
    ensures Next(Repaired(m).lastPurged) <= Next(Repaired(m).lastLogId) <==>
            !(m.lastLogId.Some? && m.lastPurged.Some?
              && m.lastLogId.value.term > m.lastPurged.value.term
              && m.lastLogId.value.index < m.lastPurged.value.index)
  {
    if m.lastLogId.Some? && m.lastPurged.Some? {
      var last, purged := m.lastLogId.value, m.lastPurged.value;
      assert IdLe(m.lastLogId, m.lastPurged) <==>
             last.term < purged.term || (last.term == purged.term && last.index <= purged.index);
    }
  }

  /** Such a log: purged up to index 9 in term 1, ending at index 4 in term 2. */
  lemma RangeCanInvert()
    ensures var m := Repaired(EzMeta(None, None, Some(LogId(2, 4)), Some(LogId(1, 9))));
            IdLe(m.lastPurged, m.lastLogId) && Next(m.lastPurged) > Next(m.lastLogId)
  {
    RepairedRangeIsWellFormed(EzMeta(None, None, Some(LogId(2, 4)), Some(LogId(1, 9))));
  }

  // ----- reading -------------------------------------------------------------------------------

  datatype Bound = Included(at: nat) | Excluded(at: nat) | Unbounded

  datatype Range = Range(start: Bound, end: Bound) {
    predicate Contains(i: nat) {
      && (match start case Included(x) => x <= i case Excluded(x) => x < i case Unbounded => true)
      && (match end case Included(x) => i <= x case Excluded(x) => i < x case Unbounded => true)
    }

    /** No bound that is stepped to the next index is the last `u64`. */
    predicate Bounded() {
      start != Excluded(U64_MAX) && end != Included(U64_MAX)
    }

    /** The range the stepped bounds stand for: this one, if it is bounded. */
    function Wrapped(): (r: Range)
      ensures Bounded() ==> r == this
    {
      Range(if start == Excluded(U64_MAX) then Included(0) else start,
            if end == Included(U64_MAX) then Excluded(0) else end)
    }
  }

  /** One past an index, as a `u64`: past the last one it wraps to 0. */
  function Successor(x: nat): nat {
    if x == U64_MAX then 0 else x + 1
  }

  /** The part of `[lo, hi)` a range asks for, as `[start, end)`, with each bound stepped as a `u64`. */
  function Clamped(range: Range, lo: nat, hi: nat): (c: (nat, nat))
    ensures c.0 >= lo && c.1 <= hi
    ensures forall i :: lo <= i < hi ==> (range.Wrapped().Contains(i) <==> c.0 <= i < c.1)
  {
    var start := match range.start case Included(x) => x case Excluded(x) => Successor(x) case Unbounded => 0;
    var end := match range.end case Included(x) => Successor(x) case Excluded(x) => x case Unbounded => hi;
    (if start >= lo then start else lo, if end <= hi then end else hi)
  }

  /** The entries whose index lies in the range. */
  function Within(entries: seq<Entry>, range: Range): seq<Entry> {
    if entries == [] then
      []
    else
      (if range.Contains(entries[0].logId.index) then [entries[0]] else []) + Within(entries[1..], range)
  }

  lemma {:induction false} NoneWithin(entries: seq<Entry>, range: Range)
    requires forall k :: 0 <= k < |entries| ==> !range.Contains(entries[k].logId.index)
    ensures Within(entries, range) == []
  {
    if entries != [] {
      NoneWithin(entries[1..], range);
    }
  }

  lemma SliceOfRest(entries: seq<Entry>, from: nat, to: nat)
    requires 1 <= from <= to <= |entries|
    ensures entries[from..to] == entries[1..][from - 1..to - 1]
  {
    var a, b := entries[from..to], entries[1..][from - 1..to - 1];
    assert |a| == |b|;
    forall k | 0 <= k < |a|
      ensures a[k] == b[k]
    {
      assert a[k] == entries[from + k] && b[k] == entries[1..][from - 1 + k];
    }
  }

  /** Filtering consecutive entries by a range is slicing them. */
  lemma {:induction false} WithinIsSlice(entries: seq<Entry>, range: Range, lo: nat, start: nat, end: nat)
    requires forall k :: 0 <= k < |entries| ==> entries[k].logId.index == lo + k
    requires lo <= start <= end <= lo + |entries|
    requires forall i :: lo <= i < lo + |entries| ==> (range.Contains(i) <==> start <= i < end)
    ensures Within(entries, range) == entries[start - lo..end - lo]
    decreases |entries|
  {
    if start == end {
      NoneWithin(entries, range);
    } else {
      var rest := entries[1..];
      assert range.Contains(lo) <==> start == lo;
      if start == lo {
        WithinIsSlice(rest, range, lo + 1, lo + 1, end);
        assert entries[0..end - lo] == [entries[0]] + rest[0..end - (lo + 1)];
      } else {
        WithinIsSlice(rest, range, lo + 1, start, end);
        SliceOfRest(entries, start - lo, end - lo);
      }
    }
  }

  lemma {:induction false} ReadsSlice(codec: Codec, d: Disk, entries: seq<Entry>, lo: nat, start: nat, end: nat)
    requires ReadsAs(codec, d, entries, lo)
    requires lo <= start <= end <= lo + |entries|
    ensures ReadEntries(codec, d, start, end) == Ok(entries[start - lo..end - lo])
    decreases end - start
  {
    if start < end {
      ReadsSlice(codec, d, entries, lo, start + 1, end);
      var from, to := start - lo, end - lo;
      assert entries[from..to] == [entries[from]] + entries[from + 1..to];
    } else {
      assert entries[start - lo..end - lo] == [];
    }
  }

  /** Filtering consecutive entries by a range that is a window of their indices. */
  lemma WithinWindow(entries: seq<Entry>, lo: nat, range: Range, start: nat, end: nat)
    requires forall k :: 0 <= k < |entries| ==> entries[k].logId.index == lo + k
    requires lo <= start && end <= lo + |entries|
    requires forall i :: lo <= i < lo + |entries| ==> (range.Contains(i) <==> start <= i < end)
    ensures Within(entries, range) == if start < end then entries[start - lo..end - lo] else []
  {
    if start < end {
      WithinIsSlice(entries, range, lo, start, end);
    } else {
      assert forall i :: lo <= i < lo + |entries| ==> !range.Contains(i);
      NoneWithin(entries, range);
    }
  }

  /** Reading the clamped range is filtering all the entries by the range the bounds stand for. */
  lemma ClampedIsWithin(codec: Codec, d: Disk, entries: seq<Entry>, lo: nat, range: Range)
    requires forall k :: 0 <= k < |entries| ==> entries[k].logId.index == lo + k
    requires ReadsAs(codec, d, entries, lo)
    ensures var (start, end) := Clamped(range, lo, lo + |entries|);
            if start >= end then Within(entries, range.Wrapped()) == []
            else ReadEntries(codec, d, start, end) == Ok(Within(entries, range.Wrapped()))
  {
    var (start, end) := Clamped(range, lo, lo + |entries|);
    WithinWindow(entries, lo, range.Wrapped(), start, end);
    if start < end {
      ReadsSlice(codec, d, entries, lo, start, end);
    }
  }

  /** `part` is a stretch of `whole`. */
  ghost predicate Stretch(part: seq<Entry>, whole: seq<Entry>) {
    exists from: nat, to: nat :: from <= to <= |whole| && part == whole[from..to]
  }

  /** `part` has those of `entries` that are on the right side of both bounds. */
  ghost predicate Between(entries: seq<Entry>, start: Bound, end: Bound, part: seq<Entry>) {
    forall e :: e in part <==>
      && e in entries
      && (start.Included? ==> start.at <= e.logId.index)
      && (start.Excluded? ==> start.at < e.logId.index)
      && (end.Included? ==> e.logId.index <= end.at)
      && (end.Excluded? ==> e.logId.index < end.at)
  }

  lemma WithinIsStretch(l: Log, range: Range)
    requires l.WellFormed()
    ensures Stretch(Within(l.entries, range.Wrapped()), l.entries)
  {
    var lo := l.Lo();
    var (start, end) := Clamped(range, lo, lo + |l.entries|);
    WithinWindow(l.entries, lo, range.Wrapped(), start, end);
    if start >= end {
      assert l.entries[0..0] == [];
    } else {
      var from: nat, to: nat := start - lo, end - lo;
      assert Within(l.entries, range.Wrapped()) == l.entries[from..to];
    }
  }

  /** The entries within a range are those its bounds let through. */
  lemma {:induction false} WithinIsBetween(entries: seq<Entry>, range: Range)
    ensures Between(entries, range.start, range.end, Within(entries, range))
  {
    if entries != [] {
      WithinIsBetween(entries[1..], range);
      assert entries == [entries[0]] + entries[1..];
    }
  }

  /** A bounded range is answered by the entries between its bounds, in their order. */
  lemma BoundedIsAnswered(l: Log, range: Range)
    requires l.WellFormed() && range.Bounded()
    ensures Stretch(Within(l.entries, range.Wrapped()), l.entries)
    ensures Between(l.entries, range.start, range.end, Within(l.entries, range.Wrapped()))
  {
    WithinIsStretch(l, range);
    WithinIsBetween(l.entries, range);
  }

  lemma HeldIsWithin(codec: Codec, d: Disk, l: Log, range: Range)
    requires Holds(codec, d, l)
    ensures var (start, end) := Clamped(range, l.Lo(), l.Hi());
            if start >= end then Within(l.entries, range.Wrapped()) == []
            else ReadEntries(codec, d, start, end) == Ok(Within(l.entries, range.Wrapped()))
  {
    HeldEntriesAreRead(codec, d, l);
    ClampedIsWithin(codec, d, l.entries, l.Lo(), range);
  }

  /** Whether stepping a bound past the last `u64` changes what a log from `lo` to `hi` answers: it asks
      for everything where nothing was wanted, or for nothing where something was. */
  predicate Misread(range: Range, lo: nat, hi: nat) {
    if range.start == Excluded(U64_MAX) && range.end != Included(U64_MAX) then
      var (start, end) := Clamped(range, lo, hi);
      start < end
    else if range.start != Excluded(U64_MAX) && range.end == Included(U64_MAX) then
      var (start, end) := Clamped(range.(end := Unbounded), lo, hi);
      start < end
    else
      false
  }

  lemma ClampedIsWindow(entries: seq<Entry>, lo: nat, range: Range)
    requires forall k :: 0 <= k < |entries| ==> entries[k].logId.index == lo + k
    ensures var c := Clamped(range, lo, lo + |entries|);
            |Within(entries, range.Wrapped())| == if c.0 < c.1 then c.1 - c.0 else 0
  {
    var c := Clamped(range, lo, lo + |entries|);
    WithinWindow(entries, lo, range.Wrapped(), c.0, c.1);
  }

  /** Ranges that contain the same indices of a log select the same entries. */
  lemma {:induction false} SameWithin(entries: seq<Entry>, a: Range, b: Range)
    requires forall k :: 0 <= k < |entries| ==>
               (a.Contains(entries[k].logId.index) <==> b.Contains(entries[k].logId.index))
    ensures Within(entries, a) == Within(entries, b)
  {
    if entries != [] {
      SameWithin(entries[1..], a, b);
    }
  }

  /** A read answers the range it was asked for if and only if it is not misread. A bounded range, and one
      whose both bounds wrap, never is. */
  lemma WrappingIsHarmless(entries: seq<Entry>, lo: nat, range: Range)
    requires forall k :: 0 <= k < |entries| ==> entries[k].logId.index == lo + k
    requires lo + |entries| <= U64_MAX
    ensures Within(entries, range.Wrapped()) == Within(entries, range) <==> !Misread(range, lo, lo + |entries|)
  {
    if range.start == Excluded(U64_MAX) {
      NoneWithin(entries, range);
      ClampedIsWindow(entries, lo, range);
    } else if range.end == Included(U64_MAX) {
      var open := range.(end := Unbounded);
      NoneWithin(entries, range.Wrapped());
      SameWithin(entries, range, open);
      ClampedIsWindow(entries, lo, open);
    }
  }

  // ----- the store -----------------------------------------------------------------------------

  /** A file system some power loss inside `op` can leave: settled, holding the log before the
      operation or the log after it. */
  ghost predicate CrashOutcome(codec: Codec, d: Disk, l: Log, op: LogOp, c: Fs)
    requires l.WellFormed()
  {
    && c.Settled()
    && TornAll(codec, Writes(MetaOf(l), op), d, DiskOf(c))
    && (Holds(codec, DiskOf(c), l) || Holds(codec, DiskOf(c), Logged(l, op)))
    && DiskOf(c).snapshot == d.snapshot
  }

  ghost function CrashOutcomes(codec: Codec, d: Disk, l: Log, op: LogOp): iset<Fs>
    requires l.WellFormed()
  {
    iset c | CrashOutcome(codec, d, l, op, c)
  }

  lemma TornIsOutcome(codec: Codec, d: Disk, l: Log, op: LogOp, k: nat, c: Fs)
    requires codec.RoundTrips() && Holds(codec, d, l) && Asked(l, op) && c.Settled()
    requires k < |Writes(MetaOf(l), op)| && AllEncodable(codec, Writes(MetaOf(l), op)[..k])
    requires Torn(codec, Writes(MetaOf(l), op)[k], AppliedAll(codec, Writes(MetaOf(l), op)[..k], d), DiskOf(c))
    ensures CrashOutcome(codec, d, l, op, c)
  {
    TornInside(codec, Writes(MetaOf(l), op), k, d, DiskOf(c));
    CrashAtomic(codec, d, l, op, DiskOf(c));
  }

  /** Saving one more entry of a batch exposes outcomes of the append only, and moves it on by one. */
  lemma NextEntry(codec: Codec, d: Disk, l: Log, entries: seq<Entry>, k: nat)
    requires codec.RoundTrips() && Holds(codec, d, l) && Asked(l, Append(entries))
    requires k < |entries| && AllEncodable(codec, EntryWrites(entries)[..k])
    ensures var written := AppliedAll(codec, EntryWrites(entries)[..k], d);
            forall c: Fs :: c.Settled() && Torn(codec, WriteEntry(entries[k]), written, DiskOf(c)) ==>
              CrashOutcome(codec, d, l, Append(entries), c)
    ensures Encodable(codec, WriteEntry(entries[k])) ==>
              && AllEncodable(codec, EntryWrites(entries)[..k + 1])
              && AppliedAll(codec, EntryWrites(entries)[..k + 1], d)
                 == Applied(codec, WriteEntry(entries[k]), AppliedAll(codec, EntryWrites(entries)[..k], d))
  {
    var written := AppliedAll(codec, EntryWrites(entries)[..k], d);
    forall c: Fs | c.Settled() && Torn(codec, WriteEntry(entries[k]), written, DiskOf(c))
      ensures CrashOutcome(codec, d, l, Append(entries), c)
    {
      assert Writes(MetaOf(l), Append(entries))[..k] == EntryWrites(entries)[..k];
      TornIsOutcome(codec, d, l, Append(entries), k, c);
    }
    assert EntryWrites(entries)[..k + 1] == EntryWrites(entries)[..k] + [WriteEntry(entries[k])];
    if Encodable(codec, WriteEntry(entries[k])) {
      AppliedSnoc(codec, EntryWrites(entries)[..k], WriteEntry(entries[k]), d);
    }
  }

  /** Writing entry `k` of a batch over `d`, with those before it written, leaves `outcomes` at worst, and
      moves the batch on by one. */
  ghost predicate EntryStep(codec: Codec, d: Disk, entries: seq<Entry>, k: nat, outcomes: iset<Fs>)
    requires k < |entries|
  {
    AllEncodable(codec, EntryWrites(entries)[..k]) ==>
      && (forall c: Fs ::
           c.Settled() && Torn(codec, WriteEntry(entries[k]), AppliedAll(codec, EntryWrites(entries)[..k], d), DiskOf(c)) ==>
             c in outcomes)
      && (Encodable(codec, WriteEntry(entries[k])) ==>
           && AllEncodable(codec, EntryWrites(entries)[..k + 1])
           && AppliedAll(codec, EntryWrites(entries)[..k + 1], d)
              == Applied(codec, WriteEntry(entries[k]), AppliedAll(codec, EntryWrites(entries)[..k], d)))
  }

  ghost predicate EntrySteps(codec: Codec, d: Disk, entries: seq<Entry>, outcomes: iset<Fs>) {
    forall k: nat :: k < |entries| ==> EntryStep(codec, d, entries, k, outcomes)
  }

  /** Each of them is an outcome of the append. */
  lemma BatchSteps(codec: Codec, d: Disk, l: Log, entries: seq<Entry>)
    requires codec.RoundTrips() && Holds(codec, d, l) && Asked(l, Append(entries))
    ensures EntrySteps(codec, d, entries, CrashOutcomes(codec, d, l, Append(entries)))
  {
    forall k: nat | k < |entries|
      ensures EntryStep(codec, d, entries, k, CrashOutcomes(codec, d, l, Append(entries)))
    {
      if AllEncodable(codec, EntryWrites(entries)[..k]) {
        NextEntry(codec, d, l, entries, k);
      }
    }
  }

  lemma NothingWritten(codec: Codec, d: Disk, entries: seq<Entry>)
    ensures AllEncodable(codec, EntryWrites(entries)[..0]) && AppliedAll(codec, EntryWrites(entries)[..0], d) == d
  {
    assert EntryWrites(entries)[..0] == [];
  }

  lemma AllOfThem(ops: seq<Persist>, n: nat)
    requires n == |ops|
    ensures ops[..n] == ops
  {
  }

  /** Every power loss inside the write that counts a batch is an outcome of the append. */
  lemma CountStepIsOutcome(codec: Codec, d: Disk, l: Log, entries: seq<Entry>)
    requires codec.RoundTrips() && Holds(codec, d, l) && Asked(l, Append(entries))
    requires entries != [] && AllEncodable(codec, EntryWrites(entries))
    ensures var written := AppliedAll(codec, EntryWrites(entries), d);
            forall c: Fs ::
              c.Settled() && Torn(codec, WriteMeta(MetaAfter(MetaOf(l), Append(entries))), written, DiskOf(c)) ==>
                CrashOutcome(codec, d, l, Append(entries), c)
  {
    var written := AppliedAll(codec, EntryWrites(entries), d);
    assert Writes(MetaOf(l), Append(entries))[..|entries|] == EntryWrites(entries);
    forall c: Fs | c.Settled() && Torn(codec, WriteMeta(MetaAfter(MetaOf(l), Append(entries))), written, DiskOf(c))
      ensures CrashOutcome(codec, d, l, Append(entries), c)
    {
      TornIsOutcome(codec, d, l, Append(entries), |entries|, c);
    }
  }

  lemma AppendIsDone(codec: Codec, d: Disk, l: Log, entries: seq<Entry>)
    requires codec.RoundTrips() && Holds(codec, d, l) && Asked(l, Append(entries))
    requires entries != [] && AllEncodable(codec, EntryWrites(entries))
    requires Encodable(codec, WriteMeta(MetaAfter(MetaOf(l), Append(entries))))
    ensures var counted := Applied(codec, WriteMeta(MetaAfter(MetaOf(l), Append(entries))),
                                   AppliedAll(codec, EntryWrites(entries), d));
            && Holds(codec, counted, Logged(l, Append(entries)))
            && Performed(codec, MetaOf(l), Append(entries), d, counted)
    ensures MetaAfter(MetaOf(l), Append(entries)) == MetaOf(Logged(l, Append(entries)))
  {
    AppliedSnoc(codec, EntryWrites(entries), WriteMeta(MetaAfter(MetaOf(l), Append(entries))), d);
    AppendedWhole(codec, d, l, entries);
    MetaIsLogged(l, Append(entries));
  }

  /** Losing power inside the write leaves `outcomes` at worst, and the whole of it makes the log `landed`. */
  ghost predicate Lands(codec: Codec, write: Persist, d: Disk, landed: Log, outcomes: iset<Fs>) {
    && (forall c: Fs :: c.Settled() && Torn(codec, write, d, DiskOf(c)) ==> c in outcomes)
    && (Encodable(codec, write) ==> Holds(codec, Applied(codec, write, d), landed))
  }

  lemma CountLands(codec: Codec, d: Disk, l: Log, entries: seq<Entry>)
    requires codec.RoundTrips() && Holds(codec, d, l) && Asked(l, Append(entries))
    requires entries != [] && AllEncodable(codec, EntryWrites(entries))
    ensures var l', written := Logged(l, Append(entries)), AppliedAll(codec, EntryWrites(entries), d);
            var write := WriteMeta(MetaOf(l'));
            && Lands(codec, write, written, l', CrashOutcomes(codec, d, l, Append(entries)))
            && MetaOf(l') == MetaAfter(MetaOf(l), Append(entries))
            && (Encodable(codec, write) ==>
                 Performed(codec, MetaOf(l), Append(entries), d, Applied(codec, write, written)))
  {
    MetaIsLogged(l, Append(entries));
    CountStepIsOutcome(codec, d, l, entries);
    if Encodable(codec, WriteMeta(MetaAfter(MetaOf(l), Append(entries)))) {
      AppendIsDone(codec, d, l, entries);
    }
  }

  /** serde cannot write one of the entries. */
  ghost predicate SomeUnwritable(codec: Codec, entries: seq<Entry>) {
    exists e :: e in entries && codec.encodeEntry(e).None?
  }

  lemma EntryIsUnwritable(codec: Codec, entries: seq<Entry>, k: nat, error: Error)
    requires k < |entries| && (error != Io ==> error == Encode && codec.encodeEntry(entries[k]).None?)
    ensures error != Io ==> error == Encode && SomeUnwritable(codec, entries)
  {
    assert entries[k] in entries;
  }

  /** The log. Only metadata is cached; entries are read from storage on demand. */
  class LogStore {
    const storage: FileStorage
    var meta: EzMeta
    ghost var log: Log  // what the storage holds

    /** The storage holds the log, and the cached metadata is its metadata. */
    ghost predicate Valid()
      reads this, storage.os`fs, storage.os`exposed
    {
      storage.Ready() && Holds(storage.codec, storage.Disk(), log) && meta == MetaOf(log)
    }

    /** Nothing is read of the entries: the store is valid when the storage does hold the log. */
    constructor (storage: FileStorage, meta: EzMeta, ghost log: Log)
      requires storage.Ready()
      ensures this.storage == storage && this.meta == meta && this.log == log
      ensures Holds(storage.codec, storage.Disk(), log) && meta == MetaOf(log) ==> Valid()
    {
      this.storage := storage;
      this.meta := meta;
      this.log := log;
    }

    /** Persist the cached metadata, repaired: a log never ends before its purge point. */
    method PersistMeta() returns (r: Result<()>)
      requires storage.Ready()
      modifies this`meta, storage.os
      ensures meta == Repaired(old(meta))
      ensures storage.Valid() && old(storage.os.exposed) <= storage.os.exposed
      ensures r.Ok? ==> && storage.Ready() && Encodable(storage.codec, WriteMeta(meta))
                        && storage.Disk() == Applied(storage.codec, WriteMeta(meta), old(storage.Disk()))
                        && HasStray(storage.os.fs) == HasStray(old(storage.os.fs))
      ensures r == Err(Io) <==> storage.os.faults > old(storage.os.faults)
      ensures r.Err? && r.error != Io ==> r.error == Encode && storage.codec.encodeMeta(meta).None?
      ensures storage.os.faults >= old(storage.os.faults)
      ensures forall c :: c in storage.os.exposed ==>
                || c in old(storage.os.exposed)
                || (c.Settled() && Torn(storage.codec, WriteMeta(meta), old(storage.Disk()), DiskOf(c)))
    {
      meta := meta.(lastLogId := MaxId(meta.lastLogId, meta.lastPurged));
      r := storage.Persist(WriteMeta(meta));
    }

    /** Update metadata and persist it. */
    method SaveMeta(f: EzMeta -> EzMeta) returns (r: Result<()>)
      requires storage.Ready()
      modifies this`meta, storage.os
      ensures meta == Repaired(f(old(meta)))
      ensures storage.Valid() && old(storage.os.exposed) <= storage.os.exposed
      ensures r.Ok? ==> && storage.Ready() && Encodable(storage.codec, WriteMeta(meta))
                        && storage.Disk() == Applied(storage.codec, WriteMeta(meta), old(storage.Disk()))
                        && HasStray(storage.os.fs) == HasStray(old(storage.os.fs))
      ensures r == Err(Io) <==> storage.os.faults > old(storage.os.faults)
      ensures r.Err? && r.error != Io ==> r.error == Encode && storage.codec.encodeMeta(meta).None?
      ensures storage.os.faults >= old(storage.os.faults)
      ensures forall c :: c in storage.os.exposed ==>
                || c in old(storage.os.exposed)
                || (c.Settled() && Torn(storage.codec, WriteMeta(meta), old(storage.Disk()), DiskOf(c)))
    {
      meta := f(meta);
      r := PersistMeta();
    }

    method SaveVote(vote: Vote) returns (r: Result<()>)
      requires Valid()
      modifies this, storage.os
      ensures storage.Valid() && old(storage.os.exposed) <= storage.os.exposed
      ensures r.Ok? ==> Valid() && log == Logged(old(log), LogOp.SaveVote(vote))
                        && Performed(storage.codec, old(meta), LogOp.SaveVote(vote), old(storage.Disk()), storage.Disk())
      ensures r.Ok? ==> log == Log(old(log.nodeId), Some(vote), old(log.lastPurged), old(log.lastLogId), old(log.entries))
      ensures r == Err(Io) <==> storage.os.faults > old(storage.os.faults)
      ensures r.Err? && r.error != Io ==> r.error == Encode && storage.codec.encodeMeta(meta).None?
      ensures storage.os.faults >= old(storage.os.faults)
      ensures forall c :: c in storage.os.exposed ==>
                || c in old(storage.os.exposed)
                || CrashOutcome(storage.codec, old(storage.Disk()), old(log), LogOp.SaveVote(vote), c)
    {
      ghost var d, l, op := storage.Disk(), log, LogOp.SaveVote(vote);
      r := SaveMeta((m: EzMeta) => m.(vote := Some(vote)));
      OneWrite(storage.codec, d, l, op);
      if r.Ok? {
        log := Logged(l, op);
      }
    }

    method SaveNodeId(id: nat) returns (r: Result<()>)
      requires Valid()
      modifies this, storage.os
      ensures storage.Valid() && old(storage.os.exposed) <= storage.os.exposed
      ensures r.Ok? ==> Valid() && log == Logged(old(log), LogOp.SaveNodeId(id))
                        && Performed(storage.codec, old(meta), LogOp.SaveNodeId(id), old(storage.Disk()), storage.Disk())
      ensures r.Ok? ==> log == Log(Some(id), old(log.vote), old(log.lastPurged), old(log.lastLogId), old(log.entries))
      ensures r == Err(Io) <==> storage.os.faults > old(storage.os.faults)
      ensures r.Err? && r.error != Io ==> r.error == Encode && storage.codec.encodeMeta(meta).None?
      ensures storage.os.faults >= old(storage.os.faults)
      ensures forall c :: c in storage.os.exposed ==>
                || c in old(storage.os.exposed)
                || CrashOutcome(storage.codec, old(storage.Disk()), old(log), LogOp.SaveNodeId(id), c)
    {
      ghost var d, l, op := storage.Disk(), log, LogOp.SaveNodeId(id);
      r := SaveMeta((m: EzMeta) => m.(nodeId := Some(id)));
      OneWrite(storage.codec, d, l, op);
      if r.Ok? {
        log := Logged(l, op);
      }
    }

    method NodeId() returns (id: Option<nat>)
      requires Valid()
      ensures id == log.nodeId
    {
      id := meta.nodeId;
    }

    /** The two positions openraft starts from, never the wrong way round. */
    method GetLogState() returns (lastLogId: Option<LogId>, lastPurged: Option<LogId>)
      requires Valid()
      ensures lastLogId == log.lastLogId && lastPurged == log.lastPurged
      ensures IdLe(lastPurged, lastLogId) && Next(lastLogId) == Next(lastPurged) + |log.entries|
    {
      lastLogId, lastPurged := meta.lastLogId, meta.lastPurged;
    }

    method ReadVote() returns (vote: Option<Vote>)
      requires Valid()
      ensures vote == log.vote
    {
      vote := meta.vote;
    }

    /** The first `k` entries of a batch are written over the disk `d`. */
    ghost predicate Batched(d: Disk, entries: seq<Entry>, k: nat)
      reads storage.os`fs, storage.os`exposed
    {
      && storage.Ready() && k <= |entries| && AllEncodable(storage.codec, EntryWrites(entries)[..k])
      && storage.Disk() == AppliedAll(storage.codec, EntryWrites(entries)[..k], d)
    }

    /** Save one more entry of a batch. `outcomes` is what a power loss inside the batch may leave. */
    method WriteNext(entries: seq<Entry>, k: nat, ghost d: Disk, ghost outcomes: iset<Fs>) returns (r: Result<()>)
      requires Batched(d, entries, k) && k < |entries| && EntrySteps(storage.codec, d, entries, outcomes)
      modifies storage.os
      ensures storage.Valid() && old(storage.os.exposed) <= storage.os.exposed
      ensures r.Ok? ==> Batched(d, entries, k + 1)
      ensures r == Err(Io) <==> storage.os.faults > old(storage.os.faults)
      ensures r.Err? && r.error != Io ==> r.error == Encode && storage.codec.encodeEntry(entries[k]).None?
      ensures storage.os.faults >= old(storage.os.faults)
      ensures storage.os.exposed <= old(storage.os.exposed) + outcomes
    {
      assert EntryStep(storage.codec, d, entries, k, outcomes);
      r := storage.Persist(WriteEntry(entries[k]));
    }

    /** Save the entries of a batch one by one, and return the id of the last. */
    method WriteEntries(entries: seq<Entry>, ghost outcomes: iset<Fs>) returns (r: Result<Option<LogId>>)
      requires storage.Ready() && EntrySteps(storage.codec, storage.Disk(), entries, outcomes)
      modifies storage.os
      ensures storage.Valid() && old(storage.os.exposed) <= storage.os.exposed
      ensures r.Ok? ==> Batched(old(storage.Disk()), entries, |entries|)
      ensures r.Ok? ==> r.value == if entries == [] then None else Some(entries[|entries| - 1].logId)
      ensures r == Err(Io) <==> storage.os.faults > old(storage.os.faults)
      ensures r.Err? && r.error != Io ==> r.error == Encode && SomeUnwritable(storage.codec, entries)
      ensures storage.os.faults >= old(storage.os.faults)
      ensures storage.os.exposed <= old(storage.os.exposed) + outcomes
    {
      ghost var d := storage.Disk();
      var lastLogId := None;
      var k := 0;
      NothingWritten(storage.codec, d, entries);
      while k < |entries|
        invariant 0 <= k <= |entries|
        invariant lastLogId == if k == 0 then None else Some(entries[k - 1].logId)
        invariant Batched(d, entries, k) && storage.os.faults == old(storage.os.faults)
        invariant old(storage.os.exposed) <= storage.os.exposed <= old(storage.os.exposed) + outcomes
      {
        lastLogId := Some(entries[k].logId);
        var persisted := WriteNext(entries, k, d, outcomes);
        if persisted.Err? {
          EntryIsUnwritable(storage.codec, entries, k, persisted.error);
          return Err(persisted.error);
        }
        k := k + 1;
      }
      r := Ok(lastLogId);
    }

    /** Persist the cached metadata, which makes the log `landed`. */
    method PersistAs(ghost landed: Log, ghost outcomes: iset<Fs>) returns (r: Result<()>)
      requires storage.Ready() && Repaired(meta) == MetaOf(landed)
      requires Lands(storage.codec, WriteMeta(MetaOf(landed)), storage.Disk(), landed, outcomes)
      modifies this, storage.os
      ensures storage.Valid() && old(storage.os.exposed) <= storage.os.exposed
      ensures r.Ok? ==> Valid() && log == landed && Encodable(storage.codec, WriteMeta(MetaOf(landed)))
                        && storage.Disk() == Applied(storage.codec, WriteMeta(MetaOf(landed)), old(storage.Disk()))
      ensures r == Err(Io) <==> storage.os.faults > old(storage.os.faults)
      ensures r.Err? && r.error != Io ==> r.error == Encode && storage.codec.encodeMeta(meta).None?
      ensures storage.os.faults >= old(storage.os.faults)
      ensures storage.os.exposed <= old(storage.os.exposed) + outcomes
    {
      r := PersistMeta();
      if r.Ok? {
        log := landed;
      }
    }

    /** Record the last entry of a batch just written, which makes all of it count. `d` is the disk the
        batch was written over. */
    method CountEntries(last: LogId, ghost d: Disk, ghost entries: seq<Entry>) returns (r: Result<()>)
      requires Batched(d, entries, |entries|) && meta == MetaOf(log)
      requires Holds(storage.codec, d, log) && Asked(log, LogOp.Append(entries))
      requires entries != [] && last == entries[|entries| - 1].logId
      modifies this, storage.os
      ensures storage.Valid() && old(storage.os.exposed) <= storage.os.exposed
      ensures r.Ok? ==> Valid() && log == Logged(old(log), LogOp.Append(entries))
                        && Performed(storage.codec, old(meta), LogOp.Append(entries), d, storage.Disk())
      ensures r == Err(Io) <==> storage.os.faults > old(storage.os.faults)
      ensures r.Err? && r.error != Io ==> r.error == Encode && storage.codec.encodeMeta(meta).None?
      ensures storage.os.faults >= old(storage.os.faults)
      ensures storage.os.exposed
              <= old(storage.os.exposed) + CrashOutcomes(storage.codec, d, old(log), LogOp.Append(entries))
    {
      ghost var op := LogOp.Append(entries);
      AllOfThem(EntryWrites(entries), |entries|);
      CountLands(storage.codec, d, log, entries);
      meta := meta.(lastLogId := Some(last));
      r := PersistAs(Logged(log, op), CrashOutcomes(storage.codec, d, log, op));
    }

    /** Append a batch. `flushed` is what the callback openraft waits on is told. */
    method Append(entries: seq<Entry>) returns (r: Result<()>, flushed: Result<()>)
      requires Valid() && Asked(log, LogOp.Append(entries))
      modifies this, storage.os
      ensures storage.Valid() && old(storage.os.exposed) <= storage.os.exposed
      ensures flushed.Ok? <==> r.Ok?
      ensures r.Ok? ==> Valid() && log == Logged(old(log), LogOp.Append(entries))
                        && Performed(storage.codec, old(meta), LogOp.Append(entries), old(storage.Disk()), storage.Disk())
      ensures r.Ok? ==> log == Log(old(log.nodeId), old(log.vote), old(log.lastPurged),
                                   if entries == [] then old(log.lastLogId) else Some(entries[|entries| - 1].logId),
                                   old(log.entries) + entries)
      ensures r == Err(Io) <==> storage.os.faults > old(storage.os.faults)
      ensures r.Err? && r.error != Io ==>
                && r.error == Encode
                && (storage.codec.encodeMeta(meta).None? || SomeUnwritable(storage.codec, entries))
      ensures storage.os.faults >= old(storage.os.faults)
      ensures forall c :: c in storage.os.exposed ==>
                || c in old(storage.os.exposed)
                || CrashOutcome(storage.codec, old(storage.Disk()), old(log), LogOp.Append(entries), c)
    {
      ghost var d := storage.Disk();
      AppendAdds(log, entries);
      BatchSteps(storage.codec, d, log, entries);
      var lastLogId := WriteEntries(entries, CrashOutcomes(storage.codec, d, log, LogOp.Append(entries)));
      if lastLogId.Err? {
        return Err(lastLogId.error), Err(lastLogId.error);
      }
      if lastLogId.value.Some? {
        r := CountEntries(lastLogId.value.value, d, entries);
        if r.Err? {
          flushed := Err(r.error);
          return;
        }
      }
      r, flushed := Ok(()), Ok(());
    }

    /** Persist the cached metadata, already moved to where `op` leaves it, and then the deletion it
        bounds. */
    method PersistThenDelete(ghost op: LogOp, delete: Persist) returns (r: Result<()>)
      requires storage.Ready() && Holds(storage.codec, storage.Disk(), log) && Asked(log, op)
      requires op.TruncateAfter? || op.Purge?
      requires Repaired(meta) == MetaAfter(MetaOf(log), op) && delete == Writes(MetaOf(log), op)[1]
      modifies this, storage.os
      ensures storage.Valid() && old(storage.os.exposed) <= storage.os.exposed
      ensures r.Ok? ==> Valid() && log == Logged(old(log), op)
                        && Performed(storage.codec, MetaOf(old(log)), op, old(storage.Disk()), storage.Disk())
      ensures r == Err(Io) <==> storage.os.faults > old(storage.os.faults)
      ensures r.Err? && r.error != Io ==>
                || (r.error == Encode && storage.codec.encodeMeta(meta).None?)
                || (r.error == Unexpected && HasStray(old(storage.os.fs)))
      ensures storage.os.faults >= old(storage.os.faults)
      ensures forall c :: c in storage.os.exposed ==>
                c in old(storage.os.exposed) || CrashOutcome(storage.codec, old(storage.Disk()), old(log), op, c)
    {
      ghost var d := storage.Disk();
      r := PersistMeta();
      FirstOfTwo(storage.codec, d, log, op, meta);
      if r.Err? {
        return;
      }
      SecondOfTwo(storage.codec, d, log, op, meta, delete);
      r := storage.Persist(delete);
      if r.Ok? {
        log := Logged(log, op);
      }
    }

    /** Drop every entry after `last`: the position first, then the files. */
    method TruncateAfter(last: Option<LogId>) returns (r: Result<()>)
      requires Valid() && Asked(log, LogOp.TruncateAfter(last))
      modifies this, storage.os
      ensures storage.Valid() && old(storage.os.exposed) <= storage.os.exposed
      ensures r.Ok? ==> Valid() && log == Logged(old(log), LogOp.TruncateAfter(last))
                        && Performed(storage.codec, old(meta), LogOp.TruncateAfter(last), old(storage.Disk()), storage.Disk())
      ensures r.Ok? ==> Truncated(old(log), last, log)
      ensures r.Ok? ==> FilesGone(old(storage.Disk()), storage.Disk(),
                                  if last.Some? then last.value.index + 1 else 0, U64_MAX)
      ensures r == Err(Io) <==> storage.os.faults > old(storage.os.faults)
      ensures r.Err? && r.error != Io ==>
                || (r.error == Encode && storage.codec.encodeMeta(meta).None?)
                || (r.error == Unexpected && HasStray(old(storage.os.fs)))
      ensures storage.os.faults >= old(storage.os.faults)
      ensures forall c :: c in storage.os.exposed ==>
                || c in old(storage.os.exposed)
                || CrashOutcome(storage.codec, old(storage.Disk()), old(log), LogOp.TruncateAfter(last), c)
    {
      var from := Next(last);
      TruncationWrites(meta, last);
      TruncationDrops(log, last);
      meta := meta.(lastLogId := last);
      r := PersistThenDelete(LogOp.TruncateAfter(last), DeleteLogs(from, U64_MAX));
      if r.Ok? {
        FilesDropped(storage.codec, old(meta), LogOp.TruncateAfter(last), old(storage.Disk()), storage.Disk());
      }
    }

    /** Drop every entry up to `upto`: the position first, then the files. */
    method Purge(upto: LogId) returns (r: Result<()>)
      requires Valid() && Asked(log, LogOp.Purge(upto))
      modifies this, storage.os
      ensures storage.Valid() && old(storage.os.exposed) <= storage.os.exposed
      ensures r.Ok? ==> Valid() && log == Logged(old(log), LogOp.Purge(upto))
                        && Performed(storage.codec, old(meta), LogOp.Purge(upto), old(storage.Disk()), storage.Disk())
      ensures r.Ok? ==> Purged(old(log), upto, log)
      ensures r.Ok? ==> FilesGone(old(storage.Disk()), storage.Disk(), 0, upto.index + 1)
      ensures r == Err(Io) <==> storage.os.faults > old(storage.os.faults)
      ensures r.Err? && r.error != Io ==>
                || (r.error == Encode && storage.codec.encodeMeta(meta).None?)
                || (r.error == Unexpected && HasStray(old(storage.os.fs)))
      ensures storage.os.faults >= old(storage.os.faults)
      ensures forall c :: c in storage.os.exposed ==>
                || c in old(storage.os.exposed)
                || CrashOutcome(storage.codec, old(storage.Disk()), old(log), LogOp.Purge(upto), c)
    {
      PurgeWrites(meta, upto);
      PurgeDrops(log, upto);
      meta := meta.(lastPurged := Some(upto));
      r := PersistThenDelete(LogOp.Purge(upto), DeleteLogs(0, upto.index + 1));
      if r.Ok? {
        FilesDropped(storage.codec, old(meta), LogOp.Purge(upto), old(storage.Disk()), storage.Disk());
      }
    }

    /** The entries of the log that lie in the range its bounds stand for. */
    method TryGetLogEntries(range: Range) returns (r: Result<seq<Entry>>)
      requires Valid()
      modifies storage.os`faults
      ensures r.Err? ==> r == Err(Io)
      ensures r == Err(Io) <==> storage.os.faults > old(storage.os.faults)
      ensures r.Ok? ==> r == Ok(Within(log.entries, range.Wrapped()))
      ensures range.Bounded() && r.Ok? ==>
                Stretch(r.value, log.entries) && Between(log.entries, range.start, range.end, r.value)
      ensures storage.os.faults >= old(storage.os.faults)
    {
      var lo := Next(meta.lastPurged);
      var hi := Next(meta.lastLogId);
      var (start, end) := Clamped(range, lo, hi);

      HeldIsWithin(storage.codec, storage.Disk(), log, range);
      if range.Bounded() {
        BoundedIsAnswered(log, range);
      }
      if start >= end {
        return Ok([]);
      }
      r := storage.ReadLogs(start, end);
    }
  }

  /** An operation of one metadata write: every state it exposes is an outcome, and so is its end. */
  lemma OneWrite(codec: Codec, d: Disk, l: Log, op: LogOp)
    requires codec.RoundTrips() && Holds(codec, d, l) && (op.SaveVote? || op.SaveNodeId?)
    ensures forall c: Fs :: c.Settled() && Torn(codec, WriteMeta(MetaAfter(MetaOf(l), op)), d, DiskOf(c)) ==>
              CrashOutcome(codec, d, l, op, c)
    ensures Encodable(codec, WriteMeta(MetaAfter(MetaOf(l), op))) ==>
              var d' := Applied(codec, WriteMeta(MetaAfter(MetaOf(l), op)), d);
              Holds(codec, d', Logged(l, op)) && Performed(codec, MetaOf(l), op, d, d')
              && MetaOf(Logged(l, op)) == MetaAfter(MetaOf(l), op)
  {
    var write := WriteMeta(MetaAfter(MetaOf(l), op));
    forall c: Fs | c.Settled() && Torn(codec, write, d, DiskOf(c))
      ensures CrashOutcome(codec, d, l, op, c)
    {
      assert Writes(MetaOf(l), op)[..0] == [];
      TornIsOutcome(codec, d, l, op, 0, c);
    }
    LoggedIsWellFormed(l, op);
    MetaIsLogged(l, op);
    if Encodable(codec, write) {
      MetaWritten(codec, d, l, op);
      AppliedOne(codec, write, d);
      assert Writes(MetaOf(l), op) == [write];
    }
  }

  lemma FirstOfTwo(codec: Codec, d: Disk, l: Log, op: LogOp, m: EzMeta)
    requires codec.RoundTrips() && Holds(codec, d, l) && Asked(l, op) && (op.TruncateAfter? || op.Purge?)
    requires m == MetaAfter(MetaOf(l), op)
    ensures forall c: Fs :: c.Settled() && Torn(codec, WriteMeta(m), d, DiskOf(c)) ==> CrashOutcome(codec, d, l, op, c)
  {
    forall c: Fs | c.Settled() && Torn(codec, WriteMeta(m), d, DiskOf(c))
      ensures CrashOutcome(codec, d, l, op, c)
    {
      assert Writes(MetaOf(l), op)[..0] == [];
      TornIsOutcome(codec, d, l, op, 0, c);
    }
  }

  lemma SecondOfTwo(codec: Codec, d: Disk, l: Log, op: LogOp, m: EzMeta, delete: Persist)
    requires codec.RoundTrips() && Holds(codec, d, l) && Asked(l, op) && (op.TruncateAfter? || op.Purge?)
    requires m == MetaAfter(MetaOf(l), op) && delete == Writes(MetaOf(l), op)[1]
    requires Encodable(codec, WriteMeta(m))
    ensures var counted := Applied(codec, WriteMeta(m), d);
            forall c: Fs :: c.Settled() && Torn(codec, delete, counted, DiskOf(c)) ==> CrashOutcome(codec, d, l, op, c)
    ensures var d' := Applied(codec, delete, Applied(codec, WriteMeta(m), d));
            Holds(codec, d', Logged(l, op)) && Performed(codec, MetaOf(l), op, d, d') && MetaOf(Logged(l, op)) == m
  {
    var writes := Writes(MetaOf(l), op);
    var counted := Applied(codec, writes[0], d);
    assert writes[..1] == [writes[0]];
    AppliedOne(codec, writes[0], d);
    forall c: Fs | c.Settled() && Torn(codec, delete, counted, DiskOf(c))
      ensures CrashOutcome(codec, d, l, op, c)
    {
      TornIsOutcome(codec, d, l, op, 1, c);
    }
    LoggedIsWellFormed(l, op);
    MetaIsLogged(l, op);
    WholeIsTorn(codec, delete, counted);
    DeletionTorn(codec, d, l, op, Applied(codec, delete, counted));
    AppliedTwo(codec, writes[0], delete, d);
  }
}
