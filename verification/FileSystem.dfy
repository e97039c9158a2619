/** A Unix file system as `FileStorage` sees it: contents and names, each with a volatile and a durable
    side, and what a power loss between any two calls can leave behind. */
module FileSystem {
  import opened Types

  /** The names under one base directory. `Stray` is a name in `logs/` that is no log entry. */
  datatype Path =
    | MetaFile | MetaTmp | SnapshotFile | SnapshotTmp
    | LogFile(index: nat) | Stray(name: string)
  {
    predicate InLogs() { LogFile? || Stray? }
  }

  type Inode = nat

  /** Contents not yet fsynced are `dirty`: a power loss may leave anything at all in their place. */
  datatype File = File(bytes: Bytes, dirty: bool)

  type Names = map<Path, Inode>

  /** One change to one directory, whole or not at all: a rename is a single change to two names. */
  datatype Change = Change(inLogs: bool, edits: map<Path, Option<Inode>>)

  function Changed(names: Names, change: Change): Names {
    map p | p in names.Keys + change.edits.Keys && (p in change.edits ==> change.edits[p].Some?) ::
      if p in change.edits then change.edits[p].value else names[p]
  }

  lemma LinkAdds(names: Names, p: Path, i: Inode)
    ensures Changed(names, Change(p.InLogs(), map[p := Some(i)])) == names[p := i]
  {
  }

  lemma UnlinkRemoves(names: Names, p: Path)
    ensures Changed(names, Change(p.InLogs(), map[p := None])) == names - {p}
  {
  }

  /** `left` is what a power loss leaves of `durable` when any of the pending changes, in any
      combination, had reached the disk. */
  ghost predicate Survives(durable: Names, pending: seq<Change>, left: Names)
    decreases |pending|
  {
    if pending == [] then
      left == durable
    else
      || Survives(durable, pending[1..], left)
      || Survives(Changed(durable, pending[0]), pending[1..], left)
  }

  lemma SurvivesOne(durable: Names, change: Change, left: Names)
    ensures Survives(durable, [change], left) <==> left == durable || left == Changed(durable, change)
  {
    assert [change][1..] == [];
  }

  lemma SurvivesTwo(durable: Names, first: Change, second: Change, left: Names)
    ensures Survives(durable, [first, second], left) <==>
            || left == durable
            || left == Changed(durable, first)
            || left == Changed(durable, second)
            || left == Changed(Changed(durable, first), second)
  {
    assert [first, second][1..] == [second];
    SurvivesOne(durable, second, left);
    SurvivesOne(Changed(durable, first), second, left);
  }

  /** The changes to the other directory, which an fsync of this one does not touch. */
  function Without(pending: seq<Change>, inLogs: bool): seq<Change> {
    if pending == [] then
      []
    else if pending[0].inLogs == inLogs then
      Without(pending[1..], inLogs)
    else
      [pending[0]] + Without(pending[1..], inLogs)
  }

  /** `names` are in force, `durable` on disk, `pending` the changes between them not yet fsynced. */
  datatype Fs = Fs(files: map<Inode, File>, next: Inode, names: Names, durable: Names, pending: seq<Change>) {

    ghost predicate WellFormed() {
      && (forall p :: p in names ==> names[p] in files)
      && (forall i :: i in files ==> i < next)
    }

    /** Nothing awaits an fsync, and no two names share contents. */
    ghost predicate Settled() {
      && WellFormed()
      && pending == [] && durable == names
      && (forall i :: i in files ==> !files[i].dirty)
      && (forall p, q :: p in names && q in names && names[p] == names[q] ==> p == q)
    }

    ghost function Read(p: Path): Option<Bytes>
      requires WellFormed()
    {
      if p in names then Some(files[names[p]].bytes) else None
    }

    function Apply(change: Change): Fs {
      this.(names := Changed(names, change), pending := pending + [change])
    }

    /** `File::create`: cut the existing file to nothing, or name a new one. */
    function Create(p: Path): Fs {
      if p in names then
        this.(files := files[names[p] := File([], true)])
      else
        this.(files := files[next := File([], true)], next := next + 1)
        .Apply(Change(p.InLogs(), map[p := Some(next)]))
    }

    function Append(i: Inode, bytes: Bytes): Fs
      requires i in files
    {
      this.(files := files[i := File(files[i].bytes + bytes, true)])
    }

    function SyncFile(i: Inode): Fs
      requires i in files
    {
      this.(files := files[i := files[i].(dirty := false)])
    }

    function Rename(from: Path, to: Path): Fs
      requires from in names
    {
      Apply(Change(to.InLogs(), map[from := None, to := Some(names[from])]))
    }

    function Unlink(p: Path): Fs {
      Apply(Change(p.InLogs(), map[p := None]))
    }

    function SyncDir(inLogs: bool): Fs {
      this.(
        durable := map p | p in names.Keys + durable.Keys
                        && (if p.InLogs() == inLogs then p in names else p in durable) ::
                     if p.InLogs() == inLogs then names[p] else durable[p],
        pending := Without(pending, inLogs))
    }
  }

  /** One fsync settles the names when every unsettled one is in that directory. */
  lemma SyncDirSettles(fs: Fs, inLogs: bool)
    requires forall k :: 0 <= k < |fs.pending| ==> fs.pending[k].inLogs == inLogs
    requires forall p: Path :: p.InLogs() != inLogs ==>
               (p in fs.names <==> p in fs.durable) && (p in fs.names ==> fs.names[p] == fs.durable[p])
    ensures fs.SyncDir(inLogs) == fs.(durable := fs.names, pending := [])
  {
    AllWithout(fs.pending, inLogs);
    assert fs.SyncDir(inLogs).durable == fs.names;
  }

  lemma {:induction false} AllWithout(pending: seq<Change>, inLogs: bool)
    requires forall k :: 0 <= k < |pending| ==> pending[k].inLogs == inLogs
    ensures Without(pending, inLogs) == []
  {
    if pending != [] {
      AllWithout(pending[1..], inLogs);
    }
  }

  /** `c` is a file system the machine can come back with after losing power at `fs`. Unsynced
      contents become arbitrary bytes, and any set of unsynced name changes is lost. */
  ghost predicate CrashesTo(fs: Fs, c: Fs) {
    && Survives(fs.durable, fs.pending, c.names)
    && c.durable == c.names && c.pending == []
    && c.next == fs.next
    && c.files.Keys == fs.files.Keys
    && (forall i :: i in c.files ==> !c.files[i].dirty)
    && (forall i :: i in fs.files && !fs.files[i].dirty ==> c.files[i] == fs.files[i])
  }

  ghost function Crashes(fs: Fs): iset<Fs> {
    iset c | CrashesTo(fs, c)
  }

  /** Nothing is lost from a settled file system. */
  lemma SettledCrashesToItself(fs: Fs, c: Fs)
    requires fs.Settled() && CrashesTo(fs, c)
    ensures c == fs
  {
    assert c.files == fs.files;
  }

  /** The operating system. Every call may fail; a failed write may have written a part. `exposed`
      collects every file system a power loss could have left at any instant so far, the state after
      each call included. `faults` counts the calls refused for no reason the caller could see. */
  class Os {
    var fs: Fs
    ghost var exposed: iset<Fs>
    ghost var faults: nat

    ghost predicate Valid()
      reads this`fs, this`exposed
    {
      fs.WellFormed() && Crashes(fs) <= exposed
    }

    constructor (fs: Fs)
      requires fs.WellFormed()
      ensures Valid() && this.fs == fs && exposed == Crashes(fs)
    {
      this.fs := fs;
      exposed := Crashes(fs);
      faults := 0;
    }

    method Create(p: Path) returns (r: Result<Inode>)
      requires Valid()
      modifies this
      ensures Valid() && exposed == old(exposed) + Crashes(fs)
      ensures faults == old(faults) + if r.Err? then 1 else 0
      ensures r.Ok? ==> fs == old(fs).Create(p) && p in fs.names && r.value == fs.names[p]
      ensures r.Err? ==> r.error == Io && fs == old(fs)
    {
      if * {
        fs := fs.Create(p);
        exposed := exposed + Crashes(fs);
        r := Ok(fs.names[p]);
      } else {
        r := Err(Io);
        faults := faults + 1;
        exposed := exposed + Crashes(fs);
      }
    }

    method WriteAll(i: Inode, bytes: Bytes) returns (r: Result<()>)
      requires Valid() && i in fs.files
      modifies this
      ensures Valid() && exposed == old(exposed) + Crashes(fs)
      ensures faults == old(faults) + if r.Err? then 1 else 0
      ensures r.Ok? ==> fs == old(fs).Append(i, bytes)
      ensures r.Err? ==> r.error == Io && exists n: nat :: n <= |bytes| && fs == old(fs).Append(i, bytes[..n])
    {
      if * {
        fs := fs.Append(i, bytes);
        r := Ok(());
      } else {
        var n: nat :| n <= |bytes|;
        fs := fs.Append(i, bytes[..n]);
        r := Err(Io);
        faults := faults + 1;
      }
      exposed := exposed + Crashes(fs);
    }

    method SyncAll(i: Inode) returns (r: Result<()>)
      requires Valid() && i in fs.files
      modifies this
      ensures Valid() && exposed == old(exposed) + Crashes(fs)
      ensures faults == old(faults) + if r.Err? then 1 else 0
      ensures r.Ok? ==> fs == old(fs).SyncFile(i)
      ensures r.Err? ==> r.error == Io && fs == old(fs)
    {
      if * {
        fs := fs.SyncFile(i);
        r := Ok(());
      } else {
        r := Err(Io);
        faults := faults + 1;
      }
      exposed := exposed + Crashes(fs);
    }

    method Rename(from: Path, to: Path) returns (r: Result<()>)
      requires Valid() && from in fs.names && from.InLogs() == to.InLogs()
      modifies this
      ensures Valid() && exposed == old(exposed) + Crashes(fs)
      ensures faults == old(faults) + if r.Err? then 1 else 0
      ensures r.Ok? ==> fs == old(fs).Rename(from, to)
      ensures r.Err? ==> r.error == Io && fs == old(fs)
    {
      if * {
        fs := fs.Rename(from, to);
        r := Ok(());
      } else {
        r := Err(Io);
        faults := faults + 1;
      }
      exposed := exposed + Crashes(fs);
    }

    method RemoveFile(p: Path) returns (r: Result<()>)
      requires Valid() && p in fs.names
      modifies this
      ensures Valid() && exposed == old(exposed) + Crashes(fs)
      ensures faults == old(faults) + if r.Err? then 1 else 0
      ensures r.Ok? ==> fs == old(fs).Unlink(p)
      ensures r.Err? ==> r.error == Io && fs == old(fs)
    {
      if * {
        fs := fs.Unlink(p);
        r := Ok(());
      } else {
        r := Err(Io);
        faults := faults + 1;
      }
      exposed := exposed + Crashes(fs);
    }

    method SyncDir(inLogs: bool) returns (r: Result<()>)
      requires Valid()
      modifies this
      ensures Valid() && exposed == old(exposed) + Crashes(fs)
      ensures faults == old(faults) + if r.Err? then 1 else 0
      ensures r.Ok? ==> fs == old(fs).SyncDir(inLogs)
      ensures r.Err? ==> r.error == Io && fs == old(fs)
    {
      if * {
        fs := fs.SyncDir(inLogs);
        r := Ok(());
      } else {
        r := Err(Io);
        faults := faults + 1;
      }
      exposed := exposed + Crashes(fs);
    }

    method ReadFile(p: Path) returns (r: Result<Bytes>)
      requires Valid()
      modifies this`faults
      ensures faults == old(faults) + if r == Err(Io) then 1 else 0
      ensures r == Err(Io)
              || r == (match fs.Read(p) case Some(b) => Ok(b) case None => Err(NotFound))
    {
      if * {
        if p in fs.names {
          r := Ok(fs.files[fs.names[p]].bytes);
        } else {
          r := Err(NotFound);
        }
      } else {
        r := Err(Io);
        faults := faults + 1;
      }
    }

    /** The names in `logs/`, in whatever order the directory keeps them. */
    method ReadLogDir() returns (r: Result<seq<Path>>)
      requires Valid()
      modifies this`faults
      ensures faults == old(faults) + if r.Err? then 1 else 0
      ensures r.Err? ==> r.error == Io
      ensures r.Ok? ==> forall p :: p in r.value <==> p in fs.names && p.InLogs()
      ensures r.Ok? ==> forall i, j :: 0 <= i < j < |r.value| ==> r.value[i] != r.value[j]
    {
      if * {
        var all := set p | p in fs.names && p.InLogs();
        var left := all;
        var listed: seq<Path> := [];
        while left != {}
          invariant left <= all
          invariant forall p :: p in listed <==> p in all - left
          invariant forall i, j :: 0 <= i < j < |listed| ==> listed[i] != listed[j]
          decreases left
        {
          var p :| p in left;
          assert p !in listed;
          listed, left := listed + [p], left - {p};
        }
        r := Ok(listed);
      } else {
        r := Err(Io);
        faults := faults + 1;
      }
    }
  }
}
