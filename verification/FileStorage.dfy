/** `FileStorage`: the three storage methods as sequences of file-system calls, refined to an atomic
    disk. */
module FileStorage {
  import opened Types
  import opened FileSystem
  import opened Framing

  /** What the storage reads back: the bytes under each name it looks at. Temporary files are not part
      of it. */
  datatype Disk = Disk(meta: Option<Bytes>, snapshot: Option<Bytes>, logs: imap<nat, Bytes>)

  ghost function LogsOf(fs: Fs): imap<nat, Bytes>
    requires fs.WellFormed()
  {
    imap i: nat | LogFile(i) in fs.names :: fs.files[fs.names[LogFile(i)]].bytes
  }

  ghost function DiskOf(fs: Fs): Disk
    requires fs.WellFormed()
  {
    Disk(fs.Read(MetaFile), fs.Read(SnapshotFile), LogsOf(fs))
  }

  lemma LogReads(fs: Fs, i: nat)
    requires fs.WellFormed()
    ensures fs.Read(LogFile(i)) == if i in LogsOf(fs) then Some(LogsOf(fs)[i]) else None
  {
  }

  /** Two file systems that read alike except at `skip`. */
  ghost predicate AlikeOff(a: Fs, b: Fs, skip: set<Path>)
    requires a.WellFormed() && b.WellFormed()
  {
    forall q :: q !in skip ==> a.Read(q) == b.Read(q)
  }

  /** File systems that read alike at every log file hold the same logs. */
  lemma LogsReadAlike(a: Fs, b: Fs, skip: set<Path>)
    requires a.WellFormed() && b.WellFormed() && AlikeOff(a, b, skip)
    requires forall p :: p in skip ==> !p.LogFile?
    ensures LogsOf(a) == LogsOf(b)
  {
    forall i: nat
      ensures i in LogsOf(a) <==> i in LogsOf(b)
      ensures i in LogsOf(a) ==> LogsOf(a)[i] == LogsOf(b)[i]
    {
      LogReads(a, i);
      LogReads(b, i);
      assert LogFile(i) !in skip;
    }
  }

  /** A temporary file is invisible. */
  lemma TemporaryIsInvisible(a: Fs, b: Fs, tmp: Path)
    requires a.WellFormed() && b.WellFormed() && AlikeOff(a, b, {tmp})
    requires tmp == MetaTmp || tmp == SnapshotTmp
    ensures DiskOf(a) == DiskOf(b)
  {
    LogsReadAlike(a, b, {tmp});
    assert a.Read(MetaFile) == b.Read(MetaFile) && a.Read(SnapshotFile) == b.Read(SnapshotFile);
  }

  // ----- writing a file ------------------------------------------------------------------------

  /** `fs` is `before` in the middle of writing `p`: `p` is created, its contents are anything. */
  ghost predicate Writing(before: Fs, fs: Fs, p: Path, i: Inode) {
    && i in fs.files
    && p in before.Create(p).names
    && i == before.Create(p).names[p]
    && fs.(files := fs.files[i := File([], true)]) == before.Create(p)
  }

  lemma CreateStartsWriting(before: Fs, p: Path)
    requires before.WellFormed()
    ensures p in before.Create(p).names
    ensures Writing(before, before.Create(p), p, before.Create(p).names[p])
  {
    var created := before.Create(p);
    assert created.files[created.names[p] := File([], true)] == created.files;
  }

  /** Whatever is put into the file, it is still being written. */
  lemma WritingGoesOn(before: Fs, fs: Fs, p: Path, i: Inode, file: File)
    requires Writing(before, fs, p, i)
    ensures Writing(before, fs.(files := fs.files[i := file]), p, i)
  {
    assert fs.files[i := file][i := File([], true)] == fs.files[i := File([], true)];
  }

  lemma WritingFrame(before: Fs, fs: Fs, p: Path, i: Inode)
    requires before.WellFormed() && Writing(before, fs, p, i)
    ensures fs.names == before.names[p := i]
    ensures fs.durable == before.durable
    ensures fs.pending == before.pending
              + (if p in before.names then [] else [Change(p.InLogs(), map[p := Some(i)])])
    ensures fs.next >= before.next && fs.files.Keys == before.files.Keys + {i}
    ensures forall j :: j in before.files && j != i ==> fs.files[j] == before.files[j]
    ensures if p in before.names then i == before.names[p] else i !in before.files
    ensures fs.WellFormed()
  {
    var created := before.Create(p);
    if p in before.names {
      assert before.names[p := i] == before.names;
      assert before.pending + [] == before.pending;
    } else {
      LinkAdds(before.names, p, before.next);
    }
    forall j | j in before.files && j != i
      ensures j in fs.files && fs.files[j] == before.files[j]
    {
      assert fs.files[i := File([], true)][j] == created.files[j];
    }
    assert fs.files.Keys == created.files.Keys;
  }

  /** The file system is settled again once it names what `before` did, and perhaps `p` for an inode no
      other name reaches. */
  lemma SettledWithName(before: Fs, p: Path, i: Inode, c: Fs)
    requires before.Settled() && c.durable == c.names && c.pending == []
    requires c.names == before.names || c.names == before.names[p := i]
    requires if p in before.names then i == before.names[p] else i !in before.files
    requires c.files.Keys == before.files.Keys + {i}
    requires forall j :: j in c.files ==> j < c.next && !c.files[j].dirty
    requires forall j :: j in before.files && j != i ==> c.files[j] == before.files[j]
    ensures c.Settled() && AlikeOff(c, before, {p})
    ensures p in c.names ==> c.names[p] == i
  {
    if p in before.names {
      assert before.names[p := i] == before.names;
    }
  }

  /** Losing power while `p` is being written leaves every other file as it was. */
  lemma CrashWhileWriting(before: Fs, fs: Fs, p: Path, i: Inode, c: Fs)
    requires before.Settled() && Writing(before, fs, p, i) && CrashesTo(fs, c)
    ensures c.Settled() && AlikeOff(c, before, {p})
    ensures !fs.files[i].dirty && p in before.names ==> c.Read(p) == Some(fs.files[i].bytes)
  {
    WritingFrame(before, fs, p, i);
    if p in before.names {
      assert fs.pending == [];
    } else {
      assert fs.pending == [Change(p.InLogs(), map[p := Some(i)])];
      SurvivesOne(before.durable, fs.pending[0], c.names);
      LinkAdds(before.names, p, i);
    }
    SettledWithName(before, p, i, c);
  }

  /** Once the contents and the directory are fsynced, `p` reads as what was written. */
  lemma WrittenIsSettled(before: Fs, fs: Fs, p: Path, i: Inode)
    requires before.Settled() && Writing(before, fs, p, i) && !fs.files[i].dirty
    ensures fs.SyncDir(p.InLogs()).Settled()
    ensures AlikeOff(fs.SyncDir(p.InLogs()), before, {p})
    ensures fs.SyncDir(p.InLogs()).Read(p) == Some(fs.files[i].bytes)
  {
    WritingFrame(before, fs, p, i);
    SyncDirSettles(fs, p.InLogs());
    SettledWithName(before, p, i, fs.(durable := fs.names, pending := []));
  }

  // ----- replacing a file ----------------------------------------------------------------------

  /** `c` names what `before` did, with `tmp` moved over `path`. */
  lemma SettledAfterMove(before: Fs, tmp: Path, path: Path, i: Inode, c: Fs)
    requires before.Settled() && tmp != path && c.durable == c.names && c.pending == []
    requires c.names == (before.names - {tmp})[path := i]
    requires if tmp in before.names then i == before.names[tmp] else i !in before.files
    requires c.files.Keys == before.files.Keys + {i}
    requires forall j :: j in c.files ==> j < c.next && !c.files[j].dirty
    requires forall j :: j in before.files && j != i ==> c.files[j] == before.files[j]
    ensures c.Settled() && AlikeOff(c, before, {tmp, path})
    ensures c.Read(path) == Some(c.files[i].bytes)
  {
  }

  /** The names in force once `tmp` is renamed over `path`. */
  lemma MoveNames(names: Names, tmp: Path, path: Path, i: Inode)
    requires tmp != path
    ensures Changed(names, Change(path.InLogs(), map[tmp := None, path := Some(i)]))
            == (names - {tmp})[path := i]
    ensures (names[tmp := i] - {tmp})[path := i] == (names - {tmp})[path := i]
  {
  }

  /** Losing power around the rename leaves the previous file or the whole new one. */
  lemma CrashAfterRename(before: Fs, fs: Fs, tmp: Path, path: Path, i: Inode, c: Fs)
    requires before.Settled() && tmp != path && tmp.InLogs() == path.InLogs()
    requires Writing(before, fs, tmp, i) && !fs.files[i].dirty && tmp in fs.names
    requires CrashesTo(fs.Rename(tmp, path), c)
    ensures c.Settled()
    ensures || AlikeOff(c, before, {tmp})
            || (AlikeOff(c, before, {tmp, path}) && c.Read(path) == Some(fs.files[i].bytes))
  {
    WritingFrame(before, fs, tmp, i);
    var link := Change(tmp.InLogs(), map[tmp := Some(i)]);
    var move := Change(path.InLogs(), map[tmp := None, path := Some(i)]);
    LinkAdds(before.names, tmp, i);
    MoveNames(before.names, tmp, path, i);
    MoveNames(before.names[tmp := i], tmp, path, i);
    if tmp in before.names {
      assert fs.Rename(tmp, path).pending == [move];
      SurvivesOne(before.durable, move, c.names);
    } else {
      assert fs.Rename(tmp, path).pending == [link, move];
      SurvivesTwo(before.durable, link, move, c.names);
    }
    if c.names == (before.names - {tmp})[path := i] {
      SettledAfterMove(before, tmp, path, i, c);
    } else {
      SettledWithName(before, tmp, i, c);
    }
  }

  /** After the fsync of the directory the new file is there for good. */
  lemma ReplacedIsSettled(before: Fs, fs: Fs, tmp: Path, path: Path, i: Inode)
    requires before.Settled() && tmp != path && tmp.InLogs() == path.InLogs()
    requires Writing(before, fs, tmp, i) && !fs.files[i].dirty && tmp in fs.names
    ensures fs.Rename(tmp, path).SyncDir(path.InLogs()).Settled()
    ensures AlikeOff(fs.Rename(tmp, path).SyncDir(path.InLogs()), before, {tmp, path})
    ensures fs.Rename(tmp, path).SyncDir(path.InLogs()).Read(path) == Some(fs.files[i].bytes)
  {
    WritingFrame(before, fs, tmp, i);
    MoveNames(before.names, tmp, path, i);
    MoveNames(before.names[tmp := i], tmp, path, i);
    var renamed := fs.Rename(tmp, path);
    assert renamed.names == (before.names - {tmp})[path := i];
    SyncDirSettles(renamed, path.InLogs());
    SettledAfterMove(before, tmp, path, i, renamed.(durable := renamed.names, pending := []));
  }

  lemma {:induction false} NothingSurvives(durable: Names, pending: seq<Change>)
    ensures Survives(durable, pending, durable)
    decreases |pending|
  {
    if pending != [] {
      NothingSurvives(durable, pending[1..]);
    }
  }

  /** The last fsync is not for show. Before it the new file can be read, by this process or one that
      starts after it was killed, and a power loss can still take it back. */
  lemma RenameAloneCanBeLost(before: Fs, fs: Fs, tmp: Path, path: Path, i: Inode) returns (c: Fs)
    requires before.Settled() && tmp != path && tmp.InLogs() == path.InLogs()
    requires Writing(before, fs, tmp, i) && !fs.files[i].dirty && tmp in fs.names
    ensures var renamed := fs.Rename(tmp, path);
            && renamed.WellFormed() && renamed.Read(path) == Some(fs.files[i].bytes)
            && CrashesTo(renamed, c)
    ensures c.WellFormed() && c.Read(path) == before.Read(path)
  {
    WritingFrame(before, fs, tmp, i);
    MoveNames(before.names, tmp, path, i);
    MoveNames(before.names[tmp := i], tmp, path, i);
    var renamed := fs.Rename(tmp, path);
    NothingSurvives(renamed.durable, renamed.pending);
    c := Fs(renamed.files, renamed.next, before.names, before.names, []);
    NamesGoBack(before, fs, tmp, path, i);
  }

  lemma NamesGoBack(before: Fs, fs: Fs, tmp: Path, path: Path, i: Inode)
    requires before.Settled() && tmp != path && Writing(before, fs, tmp, i)
    ensures var c := Fs(fs.files, fs.next, before.names, before.names, []);
            c.WellFormed() && c.Read(path) == before.Read(path)
  {
    WritingFrame(before, fs, tmp, i);
  }

  // ----- deleting log files --------------------------------------------------------------------

  predicate InRange(p: Path, from: nat, to: nat) {
    p.LogFile? && from <= p.index < to
  }

  function Listed(entries: seq<Path>, from: nat, to: nat): set<Path> {
    set p | p in entries && InRange(p, from, to)
  }

  lemma OneMoreListed(entries: seq<Path>, k: nat, from: nat, to: nat)
    requires k < |entries|
    ensures Listed(entries[..k + 1], from, to)
            == Listed(entries[..k], from, to) + (if InRange(entries[k], from, to) then {entries[k]} else {})
  {
    assert entries[..k + 1] == entries[..k] + [entries[k]];
  }

  /** A name in `logs/` that is no log entry. */
  ghost predicate HasStray(fs: Fs) {
    exists name :: Stray(name) in fs.names
  }

  lemma StraysStay(a: Fs, b: Fs, skip: set<Path>)
    requires a.WellFormed() && b.WellFormed() && AlikeOff(a, b, skip)
    requires forall p :: p in skip ==> !p.Stray?
    ensures HasStray(a) == HasStray(b)
  {
    forall name
      ensures Stray(name) in a.names <==> Stray(name) in b.names
    {
      assert a.Read(Stray(name)) == b.Read(Stray(name));
    }
  }

  ghost predicate OnlyUnlinks(pending: seq<Change>, from: nat, to: nat) {
    forall k :: 0 <= k < |pending| ==>
      exists p :: InRange(p, from, to) && pending[k] == Change(true, map[p := None])
  }

  /** `left` is `names` without some log files of the range, and without nothing else. */
  ghost predicate PartlyRemoved(names: Names, left: Names, from: nat, to: nat) {
    && (forall p :: p in left ==> p in names && left[p] == names[p])
    && (forall p :: p in names && !InRange(p, from, to) ==> p in left)
  }

  lemma {:induction false} UnlinksSurvive(durable: Names, pending: seq<Change>, left: Names, from: nat, to: nat)
    requires OnlyUnlinks(pending, from, to) && Survives(durable, pending, left)
    ensures PartlyRemoved(durable, left, from, to)
    decreases |pending|
  {
    if pending != [] {
      var p :| InRange(p, from, to) && pending[0] == Change(true, map[p := None]);
      UnlinkRemoves(durable, p);
      if Survives(durable, pending[1..], left) {
        UnlinksSurvive(durable, pending[1..], left, from, to);
      } else {
        UnlinksSurvive(durable - {p}, pending[1..], left, from, to);
      }
    }
  }

  /** `fs` is `before` in the middle of deleting log files of the range. */
  ghost predicate Removing(before: Fs, fs: Fs, from: nat, to: nat) {
    && fs.files == before.files && fs.next == before.next && fs.durable == before.durable
    && OnlyUnlinks(fs.pending, from, to)
    && PartlyRemoved(before.names, fs.names, from, to)
  }

  lemma UnlinkKeepsRemoving(before: Fs, fs: Fs, p: Path, from: nat, to: nat)
    requires Removing(before, fs, from, to) && InRange(p, from, to)
    ensures Removing(before, fs.Unlink(p), from, to)
    ensures fs.Unlink(p).names == fs.names - {p}
  {
    UnlinkRemoves(fs.names, p);
    var pending := fs.Unlink(p).pending;
    forall k | 0 <= k < |pending|
      ensures exists q :: InRange(q, from, to) && pending[k] == Change(true, map[q := None])
    {
      if k < |fs.pending| {
        assert pending[k] == fs.pending[k];
      } else {
        assert InRange(p, from, to) && pending[k] == Change(true, map[p := None]);
      }
    }
  }

  /** Log files of the range may be missing, and everything there reads as before. */
  ghost predicate LostOnly(before: Fs, c: Fs, from: nat, to: nat)
    requires before.WellFormed() && c.WellFormed()
  {
    && (forall p :: !InRange(p, from, to) ==> c.Read(p) == before.Read(p))
    && (forall p :: c.Read(p).Some? ==> c.Read(p) == before.Read(p))
  }

  lemma PartlyRemovedLoses(before: Fs, c: Fs, from: nat, to: nat)
    requires before.WellFormed() && c.WellFormed() && c.files == before.files
    requires PartlyRemoved(before.names, c.names, from, to)
    ensures LostOnly(before, c, from, to)
  {
  }

  /** Losing power in the middle of a deletion loses log files of the range and nothing else. */
  lemma CrashWhileRemoving(before: Fs, fs: Fs, from: nat, to: nat, c: Fs)
    requires before.Settled() && Removing(before, fs, from, to) && CrashesTo(fs, c)
    ensures c.Settled()
    ensures LostOnly(before, c, from, to)
  {
    UnlinksSurvive(fs.durable, fs.pending, c.names, from, to);
    assert c.files == before.files;
  }

  lemma RemovedIsSettled(before: Fs, fs: Fs, from: nat, to: nat)
    requires before.Settled() && Removing(before, fs, from, to)
    ensures fs.SyncDir(true).Settled()
    ensures fs.SyncDir(true) == fs.(durable := fs.names, pending := [])
  {
    SyncDirSettles(fs, true);
  }

  // ----- the storage operations, over the disk -------------------------------------------------

  datatype Persist =
    | WriteMeta(meta: EzMeta)
    | WriteEntry(entry: Entry)
    | WriteSnapshot(snapshot: Snapshot)
    | DeleteLogs(from: nat, to: nat)

  predicate Encodable(codec: Codec, op: Persist) {
    match op
    case WriteMeta(meta) => codec.encodeMeta(meta).Some?
    case WriteEntry(entry) => codec.encodeEntry(entry).Some?
    case WriteSnapshot(snapshot) =>
      var bytes := codec.encodeSnapshotMeta(snapshot.meta);
      bytes.Some? && |bytes.value| <= U64_MAX
    case DeleteLogs(_, _) => true
  }

  /** What one operation does to the disk, done whole. */
  ghost function Applied(codec: Codec, op: Persist, d: Disk): Disk
    requires Encodable(codec, op)
  {
    match op
    case WriteMeta(meta) => d.(meta := codec.encodeMeta(meta))
    case WriteEntry(entry) => d.(logs := d.logs[entry.logId.index := codec.encodeEntry(entry).value])
    case WriteSnapshot(snapshot) =>
      d.(snapshot := Some(Frame(codec.encodeSnapshotMeta(snapshot.meta).value, snapshot.data)))
    case DeleteLogs(from, to) => d.(logs := imap i | i in d.logs && !(from <= i < to) :: d.logs[i])
  }

  /** What a power loss in the middle of one operation can leave: metadata and snapshot whole, old or
      new; a log entry being written in any state whatever, with every other one untouched; some of
      the entries being deleted gone. */
  ghost predicate Torn(codec: Codec, op: Persist, d: Disk, d': Disk) {
    match op
    case WriteMeta(_) => d' == d || (Encodable(codec, op) && d' == Applied(codec, op, d))
    case WriteSnapshot(_) => d' == d || (Encodable(codec, op) && d' == Applied(codec, op, d))
    case WriteEntry(entry) =>
      d'.meta == d.meta && d'.snapshot == d.snapshot
      && SameOff(d'.logs, d.logs, entry.logId.index)
    case DeleteLogs(from, to) =>
      && d'.meta == d.meta && d'.snapshot == d.snapshot
      && (forall i :: i in d'.logs ==> i in d.logs && d'.logs[i] == d.logs[i])
      && (forall i :: i in d.logs && !(from <= i < to) ==> i in d'.logs)
  }

  /** Before anything reaches the disk, and at the end, an operation is torn too: trivially. */
  lemma WholeIsTorn(codec: Codec, op: Persist, d: Disk)
    ensures Torn(codec, op, d, d)
    ensures Encodable(codec, op) ==> Torn(codec, op, d, Applied(codec, op, d))
  {
  }

  lemma ReplacedDisk(before: Fs, c: Fs, path: Path, bytes: Bytes)
    requires before.Settled() && c.Settled()
    requires path == MetaFile || path == SnapshotFile
    requires AlikeOff(c, before, {TemporaryOf(path), path}) && c.Read(path) == Some(bytes)
    ensures path == MetaFile ==> DiskOf(c) == DiskOf(before).(meta := Some(bytes))
    ensures path == SnapshotFile ==> DiskOf(c) == DiskOf(before).(snapshot := Some(bytes))
  {
    LogsReadAlike(c, before, {TemporaryOf(path), path});
    if path == MetaFile {
      assert c.Read(SnapshotFile) == before.Read(SnapshotFile);
    } else {
      assert c.Read(MetaFile) == before.Read(MetaFile);
    }
  }

  /** The two agree on every index but `i`. */
  ghost predicate SameOff(a: imap<nat, Bytes>, b: imap<nat, Bytes>, i: nat) {
    forall j :: j != i ==> (j in a <==> j in b) && (j in a && j in b ==> a[j] == b[j])
  }

  lemma LogsAlikeOff(a: Fs, b: Fs, i: nat)
    requires a.WellFormed() && b.WellFormed() && AlikeOff(a, b, {LogFile(i)})
    ensures SameOff(LogsOf(a), LogsOf(b), i)
  {
    forall j: nat | j != i
      ensures j in LogsOf(a) <==> j in LogsOf(b)
      ensures j in LogsOf(a) ==> LogsOf(a)[j] == LogsOf(b)[j]
    {
      LogReads(a, j);
      LogReads(b, j);
      assert LogFile(j) !in {LogFile(i)};
    }
  }

  lemma UpdatedLogs(a: imap<nat, Bytes>, b: imap<nat, Bytes>, i: nat)
    requires SameOff(a, b, i) && i in a
    ensures a == b[i := a[i]]
  {
  }

  lemma EntryDisk(before: Fs, c: Fs, i: nat)
    requires before.Settled() && c.Settled() && AlikeOff(c, before, {LogFile(i)})
    ensures DiskOf(c).meta == DiskOf(before).meta && DiskOf(c).snapshot == DiskOf(before).snapshot
    ensures SameOff(DiskOf(c).logs, DiskOf(before).logs, i)
    ensures c.Read(LogFile(i)).Some? ==>
              DiskOf(c).logs == DiskOf(before).logs[i := c.Read(LogFile(i)).value]
  {
    LogsAlikeOff(c, before, i);
    LogReads(c, i);
    if i in LogsOf(c) {
      UpdatedLogs(LogsOf(c), LogsOf(before), i);
    }
    assert c.Read(MetaFile) == before.Read(MetaFile) && c.Read(SnapshotFile) == before.Read(SnapshotFile);
  }

  lemma RemovedLog(before: Fs, c: Fs, from: nat, to: nat, i: nat)
    requires before.WellFormed() && c.WellFormed() && LostOnly(before, c, from, to)
    ensures i in LogsOf(c) ==> i in LogsOf(before) && LogsOf(c)[i] == LogsOf(before)[i]
    ensures i in LogsOf(before) && !(from <= i < to) ==> i in LogsOf(c)
  {
    LogReads(c, i);
    LogReads(before, i);
    assert InRange(LogFile(i), from, to) <==> from <= i < to;
  }

  lemma RemovedDisk(before: Fs, c: Fs, codec: Codec, from: nat, to: nat)
    requires before.WellFormed() && c.WellFormed() && LostOnly(before, c, from, to)
    ensures Torn(codec, DeleteLogs(from, to), DiskOf(before), DiskOf(c))
  {
    forall i: nat
      ensures i in LogsOf(c) ==> i in LogsOf(before) && LogsOf(c)[i] == LogsOf(before)[i]
      ensures i in LogsOf(before) && !(from <= i < to) ==> i in LogsOf(c)
    {
      RemovedLog(before, c, from, to, i);
    }
    assert c.Read(MetaFile) == before.Read(MetaFile) && c.Read(SnapshotFile) == before.Read(SnapshotFile);
  }

  lemma RemovedWhole(codec: Codec, from: nat, to: nat, d: Disk, d': Disk)
    requires Torn(codec, DeleteLogs(from, to), d, d')
    requires forall i :: from <= i < to ==> i !in d'.logs
    ensures d' == Applied(codec, DeleteLogs(from, to), d)
  {
    assert d'.logs == imap i | i in d.logs && !(from <= i < to) :: d.logs[i];
  }

  /** `path` with `.tmp` appended. */
  function TemporaryOf(path: Path): Path
    requires path == MetaFile || path == SnapshotFile
  {
    if path == MetaFile then MetaTmp else SnapshotTmp
  }

  datatype Loaded = Loaded(meta: EzMeta, snapshot: Option<Snapshot>)

  ghost function LoadMeta(codec: Codec, d: Disk): Result<EzMeta> {
    match d.meta
    case None => Ok(DEFAULT_META)
    case Some(bytes) =>
      match codec.decodeMeta(bytes)
      case None => Err(Decode)
      case Some(meta) => Ok(meta)
  }

  ghost function LoadSnapshot(codec: Codec, d: Disk, usizeMax: nat): Result<Option<Snapshot>> {
    match d.snapshot
    case None => Ok(None)
    case Some(file) =>
      match Unframe(file, usizeMax)
      case Err(e) => Err(e)
      case Ok((metaBytes, data)) =>
        match codec.decodeSnapshotMeta(metaBytes)
        case None => Err(Decode)
        case Some(meta) => Ok(Some(Snapshot(meta, data)))
  }

  ghost function LoadDisk(codec: Codec, d: Disk, usizeMax: nat): Result<Loaded> {
    match LoadMeta(codec, d)
    case Err(e) => Err(e)
    case Ok(meta) =>
      match LoadSnapshot(codec, d, usizeMax)
      case Err(e) => Err(e)
      case Ok(snapshot) => Ok(Loaded(meta, snapshot))
  }

  /** The entry in one file. */
  ghost function ReadEntry(codec: Codec, d: Disk, i: nat): Result<Entry> {
    if i !in d.logs then
      Err(NotFound)
    else
      match codec.decodeEntry(d.logs[i])
      case None => Err(Decode)
      case Some(entry) => Ok(entry)
  }

  /** The entries of `[start, end)`; one missing or unreadable refuses them all. */
  ghost function ReadEntries(codec: Codec, d: Disk, start: nat, end: nat): Result<seq<Entry>>
    decreases end - start
  {
    if start >= end then
      Ok([])
    else
      match ReadEntry(codec, d, start)
      case Err(e) => Err(e)
      case Ok(entry) => Prepended([entry], ReadEntries(codec, d, start + 1, end))
  }

  ghost function Prepended(front: seq<Entry>, rest: Result<seq<Entry>>): Result<seq<Entry>> {
    if rest.Ok? then Ok(front + rest.value) else rest
  }

  ghost predicate IsEntryAt(codec: Codec, d: Disk, i: nat, entry: Entry) {
    i in d.logs && codec.decodeEntry(d.logs[i]) == Some(entry)
  }

  /** All the entries of the range, in order, or the reason one of them is not to be had. */
  lemma {:induction false} EntriesRead(codec: Codec, d: Disk, start: nat, end: nat)
    ensures var r := ReadEntries(codec, d, start, end);
            r.Ok? ==> && |r.value| == (if start < end then end - start else 0)
                      && forall k :: 0 <= k < |r.value| ==> IsEntryAt(codec, d, start + k, r.value[k])
    ensures var r := ReadEntries(codec, d, start, end);
            r.Err? ==> exists i :: start <= i < end
                                   && if i in d.logs
                                      then r.error == Decode && codec.decodeEntry(d.logs[i]).None?
                                      else r.error == NotFound
    decreases end - start
  {
    var r := ReadEntries(codec, d, start, end);
    if start < end && ReadEntry(codec, d, start).Ok? {
      EntriesRead(codec, d, start + 1, end);
      var rest := ReadEntries(codec, d, start + 1, end);
      if r.Ok? {
        forall k | 0 <= k < |r.value|
          ensures IsEntryAt(codec, d, start + k, r.value[k])
        {
          if k > 0 {
            assert r.value[k] == rest.value[k - 1] && start + k == start + 1 + (k - 1);
          }
        }
      }
    }
  }

  lemma PrependedNothing(rest: Result<seq<Entry>>)
    ensures Prepended([], rest) == rest
  {
    if rest.Ok? {
      assert [] + rest.value == rest.value;
    }
  }

  lemma PrependedTwice(front: seq<Entry>, next: Entry, rest: Result<seq<Entry>>)
    ensures Prepended(front, Prepended([next], rest)) == Prepended(front + [next], rest)
  {
    if rest.Ok? {
      assert front + ([next] + rest.value) == front + [next] + rest.value;
    }
  }

  /** A persisted snapshot loads back as it was. */
  lemma SavedSnapshotLoads(codec: Codec, d: Disk, snapshot: Snapshot, usizeMax: nat)
    requires codec.RoundTrips() && Encodable(codec, WriteSnapshot(snapshot))
    requires |codec.encodeSnapshotMeta(snapshot.meta).value| <= usizeMax
    ensures LoadSnapshot(codec, Applied(codec, WriteSnapshot(snapshot), d), usizeMax) == Ok(Some(snapshot))
  {
    FrameRoundTrips(codec.encodeSnapshotMeta(snapshot.meta).value, snapshot.data, usizeMax);
  }

  /** What is persisted reads back as it was written, a deleted entry is not found, and everything else
      reads as before. */
  lemma PersistReadsBack(codec: Codec, op: Persist, d: Disk, usizeMax: nat, i: nat)
    requires codec.RoundTrips() && Encodable(codec, op)
    requires op.WriteSnapshot? ==> |codec.encodeSnapshotMeta(op.snapshot.meta).value| <= usizeMax
    ensures LoadMeta(codec, Applied(codec, op, d)) == if op.WriteMeta? then Ok(op.meta) else LoadMeta(codec, d)
    ensures LoadSnapshot(codec, Applied(codec, op, d), usizeMax)
            == if op.WriteSnapshot? then Ok(Some(op.snapshot)) else LoadSnapshot(codec, d, usizeMax)
    ensures ReadEntry(codec, Applied(codec, op, d), i)
            == if op.WriteEntry? && i == op.entry.logId.index then Ok(op.entry)
               else if op.DeleteLogs? && op.from <= i < op.to then Err(NotFound)
               else ReadEntry(codec, d, i)
  {
    if op.WriteSnapshot? {
      SavedSnapshotLoads(codec, d, op.snapshot, usizeMax);
    }
  }

  /** Keeps one node's state as files under a directory. */
  class FileStorage {
    const os: Os
    const codec: Codec
    const usizeMax: nat

    ghost predicate Valid()
      reads os`fs, os`exposed
    {
      os.Valid() && codec.RoundTrips()
    }

    /** No operation is in flight, and none has failed. */
    ghost predicate Ready()
      reads os`fs, os`exposed
    {
      Valid() && os.fs.Settled()
    }

    ghost function Disk(): Disk
      reads os`fs, os`exposed
      requires Valid()
    {
      DiskOf(os.fs)
    }

    constructor (os: Os, codec: Codec, usizeMax: nat)
      requires os.Valid() && codec.RoundTrips()
      ensures Valid() && this.os == os && this.codec == codec && this.usizeMax == usizeMax
    {
      this.os := os;
      this.codec := codec;
      this.usizeMax := usizeMax;
    }

    /** Create or cut `p` and fill it with `bytes`, fsynced. The name is not durable
        yet. */
    method WriteDurable(p: Path, bytes: Bytes) returns (r: Result<()>)
      requires Ready()
      modifies os
      ensures Valid() && old(os.exposed) <= os.exposed
      ensures r.Ok? ==> p in os.fs.names && Writing(old(os.fs), os.fs, p, os.fs.names[p])
                        && os.fs.files[os.fs.names[p]] == File(bytes, false)
      ensures r.Ok? ==> os.faults == old(os.faults)
      ensures r.Err? ==> r.error == Io && os.faults > old(os.faults)
      ensures os.exposed <= old(os.exposed) + SettledOff(old(os.fs), {p})
    {
      ghost var before := os.fs;
      var created := os.Create(p);
      if created.Err? {
        NothingExposed(before, p);
        return Err(created.error);
      }
      var file := created.value;
      CreateStartsWriting(before, p);
      WritingFrame(before, os.fs, p, file);
      ExposedWhileWriting(before, os.fs, p, file);
      ghost var empty := os.fs;

      r := os.WriteAll(file, bytes);
      WritingGoesOn(before, empty, p, file, os.fs.files[file]);
      ExposedWhileWriting(before, os.fs, p, file);
      if r.Err? {
        return;
      }
      assert [] + bytes == bytes;
      ghost var written := os.fs;

      r := os.SyncAll(file);
      WritingGoesOn(before, written, p, file, os.fs.files[file]);
      ExposedWhileWriting(before, os.fs, p, file);
    }

    /** Write `bytes` beside `path`, rename over it, fsync the directory: all or nothing at every instant. */
    method Replace(path: Path, bytes: Bytes) returns (r: Result<()>)
      requires Ready() && (path == MetaFile || path == SnapshotFile)
      modifies os
      ensures Valid() && old(os.exposed) <= os.exposed
      ensures r.Ok? ==> Ready() && os.fs.Read(path) == Some(bytes)
                        && AlikeOff(os.fs, old(os.fs), {TemporaryOf(path), path})
      ensures r.Ok? ==> os.faults == old(os.faults)
      ensures r.Err? ==> r.error == Io && os.faults > old(os.faults)
      ensures os.exposed <= old(os.exposed) + OldOrNew(old(os.fs), path, bytes)
    {
      ghost var before := os.fs;
      var tmp := TemporaryOf(path);
      r := WriteDurable(tmp, bytes);
      if r.Err? {
        return;
      }
      ghost var written := os.fs;
      ghost var i := written.names[tmp];
      WritingFrame(before, written, tmp, i);

      r := os.Rename(tmp, path);
      ExposedAfterRename(before, written, path, bytes, i);
      if r.Err? {
        return;
      }

      r := os.SyncDir(path.InLogs());
      ReplacedIsSettled(before, written, tmp, path, i);
    }

    /** Unlink one log file of the range, in a deletion that began at `before`. */
    method RemoveEntry(ghost before: Fs, p: Path, from: nat, to: nat) returns (r: Result<()>)
      requires Valid() && before.Settled() && Removing(before, os.fs, from, to)
      requires InRange(p, from, to) && p in os.fs.names
      modifies os
      ensures Valid() && old(os.exposed) <= os.exposed
      ensures r.Ok? ==> Removing(before, os.fs, from, to) && os.fs.names == old(os.fs).names - {p}
      ensures r.Ok? ==> os.faults == old(os.faults)
      ensures r.Err? ==> r.error == Io && os.faults > old(os.faults)
      ensures forall c :: c in os.exposed ==>
                c in old(os.exposed)
                || (c.Settled() && Torn(codec, DeleteLogs(from, to), DiskOf(before), DiskOf(c)))
    {
      NextRemoval(before, os.fs, p, codec, from, to);
      r := os.RemoveFile(p);
    }

    /** Unlink every listed log file whose index is in the range, and say whether there was one. */
    method RemoveListed(entries: seq<Path>, from: nat, to: nat) returns (r: Result<bool>)
      requires Ready()
      requires forall p :: p in entries <==> p in os.fs.names && p.InLogs()
      requires forall j, k :: 0 <= j < k < |entries| ==> entries[j] != entries[k]
      modifies os
      ensures Valid() && old(os.exposed) <= os.exposed
      ensures r.Ok? ==> && Removing(old(os.fs), os.fs, from, to)
                        && (!r.value ==> os.fs == old(os.fs))
                        && (forall i: nat :: from <= i < to ==> LogFile(i) !in os.fs.names)
                        && (forall name :: Stray(name) !in entries)
      ensures r == Err(Io) <==> os.faults > old(os.faults)
      ensures r.Err? && r.error != Io ==> r.error == Unexpected && exists name :: Stray(name) in entries
      ensures os.faults >= old(os.faults)
      ensures forall c :: c in os.exposed ==>
                c in old(os.exposed)
                || (c.Settled() && Torn(codec, DeleteLogs(from, to), old(Disk()), DiskOf(c)))
    {
      ghost var before := os.fs;
      var deleted := false;
      var k := 0;
      while k < |entries|
        invariant 0 <= k <= |entries|
        invariant Valid() && old(os.exposed) <= os.exposed && os.faults == old(os.faults)
        invariant Removing(before, os.fs, from, to)
        invariant !deleted ==> os.fs == before
        invariant forall j :: 0 <= j < k ==> entries[j].LogFile?
        invariant os.fs.names.Keys == before.names.Keys - Listed(entries[..k], from, to)
        invariant forall c :: c in os.exposed ==>
                    c in old(os.exposed)
                    || (c.Settled() && Torn(codec, DeleteLogs(from, to), DiskOf(before), DiskOf(c)))
      {
        var p := entries[k];
        assert p in entries && p !in entries[..k];
        OneMoreListed(entries, k, from, to);
        if !p.LogFile? {
          assert Stray(p.name) in entries;
          return Err(Unexpected);
        }
        if from <= p.index < to {
          var removed := RemoveEntry(before, p, from, to);
          if removed.Err? {
            return Err(removed.error);
          }
          deleted := true;
        }
        k := k + 1;
      }
      assert entries[..k] == entries;
      assert forall i: nat :: from <= i < to && LogFile(i) in before.names ==> LogFile(i) in entries;
      r := Ok(deleted);
    }

    /** Unlink the log files of the range, and fsync the directory if there were any. */
    method RemoveLogs(from: nat, to: nat) returns (r: Result<()>)
      requires Ready()
      modifies os
      ensures Valid() && old(os.exposed) <= os.exposed
      ensures r.Ok? ==> Ready() && Disk() == Applied(codec, DeleteLogs(from, to), old(Disk()))
      ensures r.Ok? ==> !HasStray(os.fs) && !HasStray(old(os.fs))
      ensures r == Err(Io) <==> os.faults > old(os.faults)
      ensures r.Err? && r.error != Io ==> r.error == Unexpected && HasStray(old(os.fs))
      ensures os.faults >= old(os.faults)
      ensures forall c :: c in os.exposed ==>
                c in old(os.exposed)
                || (c.Settled() && Torn(codec, DeleteLogs(from, to), old(Disk()), DiskOf(c)))
    {
      ghost var before := os.fs;
      var listed := os.ReadLogDir();
      if listed.Err? {
        return Err(listed.error);
      }
      var deleted := RemoveListed(listed.value, from, to);
      if deleted.Err? {
        return Err(deleted.error);
      }
      RemovalIsDone(before, os.fs, codec, from, to);
      if deleted.value {
        r := os.SyncDir(true);
      } else {
        r := Ok(());
      }
    }

    /** Write one entry in place, its file fsynced and then its name. */
    method PersistEntry(entry: Entry) returns (r: Result<()>)
      requires Ready()
      modifies os
      ensures Valid() && old(os.exposed) <= os.exposed
      ensures r.Ok? ==> && Ready() && codec.encodeEntry(entry).Some?
                        && Disk() == Applied(codec, WriteEntry(entry), old(Disk()))
                        && HasStray(os.fs) == HasStray(old(os.fs))
      ensures r == Err(Io) <==> os.faults > old(os.faults)
      ensures r.Err? && r.error != Io ==> r.error == Encode && codec.encodeEntry(entry).None?
      ensures os.faults >= old(os.faults)
      ensures forall c :: c in os.exposed ==>
                c in old(os.exposed) || (c.Settled() && Torn(codec, WriteEntry(entry), old(Disk()), DiskOf(c)))
    {
      ghost var before := os.fs;
      var bytes := codec.encodeEntry(entry);
      if bytes.None? {
        return Err(Encode);
      }
      var p := LogFile(entry.logId.index);
      r := WriteDurable(p, bytes.value);
      EntryIsTorn(before, codec, WriteEntry(entry));
      if r.Err? {
        return;
      }
      ghost var written := os.fs;
      EntryIsWritten(before, written, codec, entry, written.names[p]);
      r := os.SyncDir(true);
    }

    /** Persist one state update, whole and durable before it returns. */
    method Persist(op: Persist) returns (r: Result<()>)
      requires Ready()
      modifies os
      ensures Valid() && old(os.exposed) <= os.exposed
      ensures r.Ok? ==> Ready() && Encodable(codec, op) && Disk() == Applied(codec, op, old(Disk()))
      ensures r.Ok? ==> HasStray(os.fs) == HasStray(old(os.fs)) && (op.DeleteLogs? ==> !HasStray(os.fs))
      ensures r == Err(Io) <==> os.faults > old(os.faults)
      ensures r.Err? && r.error != Io ==>
                match op
                case WriteMeta(meta) => r.error == Encode && codec.encodeMeta(meta).None?
                case WriteEntry(entry) => r.error == Encode && codec.encodeEntry(entry).None?
                case WriteSnapshot(snapshot) => r.error == Encode && codec.encodeSnapshotMeta(snapshot.meta).None?
                case DeleteLogs(_, _) => r.error == Unexpected && HasStray(old(os.fs))
      ensures os.faults >= old(os.faults)
      ensures forall c :: c in os.exposed ==>
                c in old(os.exposed) || (c.Settled() && Torn(codec, op, old(Disk()), DiskOf(c)))
    {
      ghost var before := os.fs;
      match op {
        case WriteMeta(meta) =>
          var bytes := codec.encodeMeta(meta);
          if bytes.None? {
            return Err(Encode);
          }
          r := Replace(MetaFile, bytes.value);
          ReplaceIsTorn(before, MetaFile, bytes.value, codec, op);
          if r.Ok? {
            StraysStay(os.fs, before, {MetaTmp, MetaFile});
          }
        case WriteEntry(entry) =>
          r := PersistEntry(entry);
        case WriteSnapshot(snapshot) =>
          var bytes := codec.encodeSnapshotMeta(snapshot.meta);
          if bytes.None? {
            return Err(Encode);
          }
          var file := Frame(bytes.value, snapshot.data);
          r := Replace(SnapshotFile, file);
          ReplaceIsTorn(before, SnapshotFile, file, codec, op);
          if r.Ok? {
            StraysStay(os.fs, before, {SnapshotTmp, SnapshotFile});
          }
        case DeleteLogs(from, to) =>
          r := RemoveLogs(from, to);
      }
    }

    /** The metadata and the snapshot, as they were last persisted. */
    method Load() returns (r: Result<Loaded>)
      requires Ready()
      modifies os`faults
      ensures r != Err(Io) ==> r == LoadDisk(codec, Disk(), usizeMax)
      ensures r.Ok? ==>
                match Disk().meta
                case None => r.value.meta.nodeId.None? && r.value.meta.vote.None?
                             && r.value.meta.lastLogId.None? && r.value.meta.lastPurged.None?
                case Some(bytes) => codec.decodeMeta(bytes) == Some(r.value.meta)
      ensures r.Ok? ==>
                match Disk().snapshot
                case None => r.value.snapshot.None?
                case Some(file) =>
                  && r.value.snapshot.Some?
                  && exists metaBytes :: |metaBytes| <= U64_MAX
                                         && file == Frame(metaBytes, r.value.snapshot.value.data)
                                         && codec.decodeSnapshotMeta(metaBytes) == Some(r.value.snapshot.value.meta)
      ensures r == Err(Io) <==> os.faults > old(os.faults)
      ensures r.Err? && r.error != Io ==>
                || (r.error == Decode && Disk().meta.Some? && codec.decodeMeta(Disk().meta.value).None?)
                || (Disk().snapshot.Some?
                    && match Unframe(Disk().snapshot.value, usizeMax)
                       case Err(_) => r.error == Error.Framing
                       case Ok((metaBytes, _)) =>
                         r.error == Decode && codec.decodeSnapshotMeta(metaBytes).None?)
      ensures os.faults >= old(os.faults)
    {
      var meta := DEFAULT_META;
      var metaFile := os.ReadFile(MetaFile);
      if metaFile.Ok? {
        var decoded := codec.decodeMeta(metaFile.value);
        if decoded.None? {
          return Err(Decode);
        }
        meta := decoded.value;
      } else if metaFile.error != NotFound {
        return Err(metaFile.error);
      }

      var snapshot := None;
      var snapshotFile := os.ReadFile(SnapshotFile);
      if snapshotFile.Ok? {
        var split := Unframe(snapshotFile.value, usizeMax);
        if split.Err? {
          return Err(split.error);
        }
        var (metaBytes, data) := split.value;
        UnframedIsFramed(snapshotFile.value, metaBytes, data, usizeMax);
        var decoded := codec.decodeSnapshotMeta(metaBytes);
        if decoded.None? {
          return Err(Decode);
        }
        snapshot := Some(Snapshot(decoded.value, data));
      } else if snapshotFile.error != NotFound {
        return Err(snapshotFile.error);
      }
      r := Ok(Loaded(meta, snapshot));
    }

    /** The entries of `[start, end)`, every one of them or an error. */
    method ReadLogs(start: nat, end: nat) returns (r: Result<seq<Entry>>)
      requires Ready()
      modifies os`faults
      ensures r != Err(Io) ==> r == ReadEntries(codec, Disk(), start, end)
      ensures r.Ok? ==> && |r.value| == (if start < end then end - start else 0)
                        && forall k :: 0 <= k < |r.value| ==> IsEntryAt(codec, Disk(), start + k, r.value[k])
      ensures r == Err(Io) <==> os.faults > old(os.faults)
      ensures r.Err? && r.error != Io ==>
                exists i :: start <= i < end
                            && if i in Disk().logs
                               then r.error == Decode && codec.decodeEntry(Disk().logs[i]).None?
                               else r.error == NotFound
      ensures os.faults >= old(os.faults)
    {
      ghost var d := Disk();
      EntriesRead(codec, d, start, end);
      PrependedNothing(ReadEntries(codec, d, start, end));
      var logs: seq<Entry> := [];
      var index := start;
      while index < end
        invariant start <= index && (start <= end ==> index <= end)
        invariant start < end || index == start
        invariant os.faults == old(os.faults)
        invariant ReadEntries(codec, d, start, end) == Prepended(logs, ReadEntries(codec, d, index, end))
      {
        LogReads(os.fs, index);
        var data := os.ReadFile(LogFile(index));
        if data.Err? {
          return Err(data.error);
        }
        var entry := codec.decodeEntry(data.value);
        if entry.None? {
          return Err(Decode);
        }
        PrependedTwice(logs, entry.value, ReadEntries(codec, d, index + 1, end));
        logs := logs + [entry.value];
        index := index + 1;
      }
      assert logs + [] == logs;
      r := Ok(logs);
    }
  }

  // ----- what each step exposes ----------------------------------------------------------------

  /** The settled file systems that read like `before` except at `skip`. */
  ghost function SettledOff(before: Fs, skip: set<Path>): iset<Fs>
    requires before.WellFormed()
  {
    iset c: Fs | c.Settled() && AlikeOff(c, before, skip)
  }

  /** What replacing `path` may leave: the old file or the whole new one, the rest as before. */
  ghost function OldOrNew(before: Fs, path: Path, bytes: Bytes): iset<Fs>
    requires before.WellFormed() && (path == MetaFile || path == SnapshotFile)
  {
    SettledOff(before, {TemporaryOf(path)})
    + iset c: Fs | c.Settled() && AlikeOff(c, before, {TemporaryOf(path), path}) && c.Read(path) == Some(bytes)
  }

  lemma ExposedAfterRename(before: Fs, written: Fs, path: Path, bytes: Bytes, i: Inode)
    requires before.Settled() && (path == MetaFile || path == SnapshotFile)
    requires TemporaryOf(path) in written.names && written.names[TemporaryOf(path)] == i
    requires Writing(before, written, TemporaryOf(path), i) && written.files[i] == File(bytes, false)
    ensures Crashes(written) <= OldOrNew(before, path, bytes)
    ensures Crashes(written.Rename(TemporaryOf(path), path)) <= OldOrNew(before, path, bytes)
    ensures Crashes(written.Rename(TemporaryOf(path), path).SyncDir(path.InLogs())) <= OldOrNew(before, path, bytes)
  {
    var tmp := TemporaryOf(path);
    var renamed := written.Rename(tmp, path);
    ExposedWhileWriting(before, written, tmp, i);
    forall c | CrashesTo(renamed, c)
      ensures c in OldOrNew(before, path, bytes)
    {
      CrashAfterRename(before, written, tmp, path, i, c);
    }
    ExposedWhenReplaced(before, written, path, bytes, i);
  }

  lemma ExposedWhenReplaced(before: Fs, written: Fs, path: Path, bytes: Bytes, i: Inode)
    requires before.Settled() && (path == MetaFile || path == SnapshotFile)
    requires TemporaryOf(path) in written.names && written.names[TemporaryOf(path)] == i
    requires Writing(before, written, TemporaryOf(path), i) && written.files[i] == File(bytes, false)
    ensures Crashes(written.Rename(TemporaryOf(path), path).SyncDir(path.InLogs())) <= OldOrNew(before, path, bytes)
  {
    var replaced := written.Rename(TemporaryOf(path), path).SyncDir(path.InLogs());
    ReplacedIsSettled(before, written, TemporaryOf(path), path, i);
    forall c | CrashesTo(replaced, c)
      ensures c in OldOrNew(before, path, bytes)
    {
      SettledCrashesToItself(replaced, c);
    }
  }

  lemma NothingExposed(before: Fs, p: Path)
    requires before.Settled()
    ensures Crashes(before) <= SettledOff(before, {p})
  {
    forall c | CrashesTo(before, c) ensures c == before {
      SettledCrashesToItself(before, c);
    }
  }

  lemma ExposedWhileWriting(before: Fs, fs: Fs, p: Path, i: Inode)
    requires before.Settled() && Writing(before, fs, p, i)
    ensures forall c :: CrashesTo(fs, c) ==> c.Settled() && AlikeOff(c, before, {p})
    ensures Crashes(fs) <= SettledOff(before, {p})
  {
    forall c | CrashesTo(fs, c) ensures c.Settled() && AlikeOff(c, before, {p}) {
      CrashWhileWriting(before, fs, p, i, c);
    }
  }

  lemma NextRemoval(before: Fs, fs: Fs, p: Path, codec: Codec, from: nat, to: nat)
    requires before.Settled() && Removing(before, fs, from, to) && InRange(p, from, to)
    ensures Removing(before, fs.Unlink(p), from, to) && fs.Unlink(p).names == fs.names - {p}
    ensures forall c :: CrashesTo(fs, c) || CrashesTo(fs.Unlink(p), c) ==>
              c.Settled() && Torn(codec, DeleteLogs(from, to), DiskOf(before), DiskOf(c))
  {
    UnlinkKeepsRemoving(before, fs, p, from, to);
    ExposedWhileRemoving(before, fs, codec, from, to);
    ExposedWhileRemoving(before, fs.Unlink(p), codec, from, to);
  }

  /** With every file of the range unlinked, the fsync of the directory ends the deletion. */
  lemma EntryIsWritten(before: Fs, written: Fs, codec: Codec, entry: Entry, i: Inode)
    requires before.Settled() && codec.encodeEntry(entry).Some?
    requires Writing(before, written, LogFile(entry.logId.index), i)
    requires written.files[i] == File(codec.encodeEntry(entry).value, false)
    ensures var synced := written.SyncDir(true);
            && synced.Settled() && HasStray(synced) == HasStray(before)
            && DiskOf(synced) == Applied(codec, WriteEntry(entry), DiskOf(before))
    ensures forall c :: CrashesTo(written.SyncDir(true), c) || CrashesTo(written, c) ==>
              c.Settled() && Torn(codec, WriteEntry(entry), DiskOf(before), DiskOf(c))
  {
    var p, synced := LogFile(entry.logId.index), written.SyncDir(true);
    WrittenIsSettled(before, written, p, i);
    StraysStay(synced, before, {p});
    EntryDisk(before, synced, entry.logId.index);
    forall c | CrashesTo(synced, c) ensures c == synced {
      SettledCrashesToItself(synced, c);
    }
    ExposedWhileWriting(before, written, p, i);
    forall c | CrashesTo(written, c)
      ensures c.Settled() && Torn(codec, WriteEntry(entry), DiskOf(before), DiskOf(c))
    {
      EntryDisk(before, c, entry.logId.index);
    }
  }

  lemma RemovalIsDone(before: Fs, removed: Fs, codec: Codec, from: nat, to: nat)
    requires before.Settled() && Removing(before, removed, from, to)
    requires forall i: nat :: from <= i < to ==> LogFile(i) !in removed.names
    ensures removed.SyncDir(true).Settled()
    ensures DiskOf(removed.SyncDir(true)) == Applied(codec, DeleteLogs(from, to), DiskOf(before))
    ensures removed == before ==> removed.SyncDir(true) == before
    ensures forall c :: CrashesTo(removed.SyncDir(true), c) || CrashesTo(removed, c) ==>
              c.Settled() && Torn(codec, DeleteLogs(from, to), DiskOf(before), DiskOf(c))
    ensures HasStray(removed.SyncDir(true)) ==> HasStray(before)
  {
    var synced := removed.SyncDir(true);
    RemovedIsSettled(before, removed, from, to);
    PartlyRemovedLoses(before, synced, from, to);
    RemovedDisk(before, synced, codec, from, to);
    RemovedWhole(codec, from, to, DiskOf(before), DiskOf(synced));
    forall c | CrashesTo(synced, c) ensures c == synced {
      SettledCrashesToItself(synced, c);
    }
    ExposedWhileRemoving(before, removed, codec, from, to);
  }

  lemma ExposedWhileRemoving(before: Fs, fs: Fs, codec: Codec, from: nat, to: nat)
    requires before.Settled() && Removing(before, fs, from, to)
    ensures forall c :: CrashesTo(fs, c) ==>
              c.Settled() && Torn(codec, DeleteLogs(from, to), DiskOf(before), DiskOf(c))
  {
    forall c | CrashesTo(fs, c)
      ensures c.Settled() && Torn(codec, DeleteLogs(from, to), DiskOf(before), DiskOf(c))
    {
      CrashWhileRemoving(before, fs, from, to, c);
      RemovedDisk(before, c, codec, from, to);
    }
  }

  /** Every state `Replace` exposes is a torn state of the operation it serves. */
  lemma ReplaceIsTorn(before: Fs, path: Path, bytes: Bytes, codec: Codec, op: Persist)
    requires before.Settled() && Encodable(codec, op)
    requires || (path == MetaFile && op.WriteMeta? && Some(bytes) == codec.encodeMeta(op.meta))
             || (path == SnapshotFile && op.WriteSnapshot?
                 && bytes == Frame(codec.encodeSnapshotMeta(op.snapshot.meta).value, op.snapshot.data))
    ensures forall c: Fs :: c.Settled() && AlikeOff(c, before, {TemporaryOf(path)}) ==>
              DiskOf(c) == DiskOf(before)
    ensures forall c: Fs :: c.Settled() && AlikeOff(c, before, {TemporaryOf(path), path})
                            && c.Read(path) == Some(bytes) ==>
              DiskOf(c) == Applied(codec, op, DiskOf(before))
    ensures forall c :: c in OldOrNew(before, path, bytes) ==>
              c.Settled() && Torn(codec, op, DiskOf(before), DiskOf(c))
  {
    forall c: Fs | c.Settled() && AlikeOff(c, before, {TemporaryOf(path)})
      ensures DiskOf(c) == DiskOf(before)
    {
      TemporaryIsInvisible(c, before, TemporaryOf(path));
    }
    forall c: Fs | c.Settled() && AlikeOff(c, before, {TemporaryOf(path), path})
                   && c.Read(path) == Some(bytes)
      ensures DiskOf(c) == Applied(codec, op, DiskOf(before))
    {
      ReplacedDisk(before, c, path, bytes);
    }
  }

  lemma EntryIsTorn(before: Fs, codec: Codec, op: Persist)
    requires before.Settled() && op.WriteEntry?
    ensures forall c: Fs :: c.Settled() && AlikeOff(c, before, {LogFile(op.entry.logId.index)}) ==>
              Torn(codec, op, DiskOf(before), DiskOf(c))
  {
    forall c: Fs | c.Settled() && AlikeOff(c, before, {LogFile(op.entry.logId.index)})
      ensures Torn(codec, op, DiskOf(before), DiskOf(c))
    {
      EntryDisk(before, c, op.entry.logId.index);
    }
  }
}
