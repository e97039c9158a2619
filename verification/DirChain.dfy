/** Creating the storage's directories so that a power loss cannot take them back. */
module DirChain {
  import opened Types

  /** What a path starts from: `/`, `./`, or nothing at all. */
  datatype Base = Slash | Dot | Bare

  datatype Dir = Dir(base: Base, parts: seq<string>) {
    /** The empty path, which is what lies above a bare relative one. */
    predicate Empty() {
      base.Bare? && parts == []
    }

    predicate Anchor() {
      parts == []
    }

    function Parent(): Option<Dir> {
      if parts == [] then None else Some(Dir(base, parts[..|parts| - 1]))
    }

    /** The ancestor `k` components long. */
    function Upto(k: nat): Dir
      requires k <= |parts|
    {
      Dir(base, parts[..k])
    }
  }

  lemma UptoParent(d: Dir, k: nat)
    requires 0 < k <= |d.parts|
    ensures d.Upto(k).Parent() == Some(d.Upto(k - 1)) && |d.Upto(k).parts| == k
  {
    assert d.parts[..k][..k - 1] == d.parts[..k - 1];
  }

  /** The length of the longest ancestor that exists. */
  function Existing(names: set<Dir>, d: Dir, k: nat): (found: nat)
    requires k <= |d.parts|
    ensures found <= k
    ensures found > 0 ==> d.Upto(found) in names
    ensures forall j :: found < j <= k ==> d.Upto(j) !in names
  {
    if k == 0 || d.Upto(k) in names then k else Existing(names, d, k - 1)
  }

  /** A directory outlives a power loss when its own entry, and that of every one above it, is on disk. */
  predicate Survives(durable: set<Dir>, d: Dir) {
    forall k: nat :: 0 < k <= |d.parts| ==> d.Upto(k) in durable
  }

  /** The entries the calls make durable: all but that of the first component of a bare path. */
  predicate Flushed(d: Dir, found: nat, k: nat) {
    found < k && (k == 1 ==> !d.base.Bare?)
  }

  /** Part of the way: the first `made` components exist, and each that was missing has its entry on disk,
      save perhaps the last. */
  predicate Chain(names: set<Dir>, durable: set<Dir>, d: Dir, found: nat, made: nat, settled: nat) {
    && found <= settled <= made <= |d.parts|
    && (forall k: nat :: found < k <= made ==> d.Upto(k) in names)
    && (forall k: nat :: made < k <= |d.parts| ==> d.Upto(k) !in names)
    && (forall k: nat :: k <= settled && Flushed(d, found, k) ==> d.Upto(k) in durable)
  }

  /** Whatever a power loss finds, at most one component is in doubt. */
  ghost predicate InOrder(names: set<Dir>, durable: set<Dir>, d: Dir, found: nat) {
    exists made: nat, settled: nat ::
      made <= settled + 1 && Chain(names, durable, d, found, made, settled)
  }

  /** Working alone: exactly the components up to `made` were added, and exactly those up to `settled`
      flushed. */
  ghost predicate Alone(names: set<Dir>, durable: set<Dir>, names0: set<Dir>, durable0: set<Dir>,
                        d: Dir, found: nat, made: nat, settled: nat)
  {
    && found <= settled <= made <= |d.parts|
    && (forall j: nat :: 0 < j <= |d.parts| ==>
         (d.Upto(j) in names <==> d.Upto(j) in names0 || found < j <= made))
    && (forall j: nat :: 0 < j <= |d.parts| ==>
         (d.Upto(j) in durable <==> d.Upto(j) in durable0 || (Flushed(d, found, j) && j <= settled)))
  }

  /** Every directory lies in one that exists. */
  ghost predicate Closed(names: set<Dir>) {
    forall d :: d in names ==> d.parts != [] && (d.Parent().value.Anchor() || d.Parent().value in names)
  }

  lemma {:induction false} AncestorsExist(names: set<Dir>, d: Dir, k: nat)
    requires Closed(names) && k <= |d.parts| && (k == 0 || d.Upto(k) in names)
    ensures forall j: nat :: 0 < j <= k ==> d.Upto(j) in names
  {
    if k > 0 {
      UptoParent(d, k);
      AncestorsExist(names, d, k - 1);
    }
  }

  datatype Made = Created | AlreadyExists | Refused

  /** The directories of one machine: those that exist, and those whose entry is on disk. `trail` is
      every pair the two went through, `faults` how many of this node's calls were refused. */
  class Tree {
    var names: set<Dir>
    var durable: set<Dir>
    ghost var trail: iset<(set<Dir>, set<Dir>)>
    ghost var added: set<Dir>  // what other nodes created
    ghost var faults: nat

    ghost predicate Valid()
      reads this`names, this`durable, this`trail, this`added
    {
      && durable <= names && added <= names && (names, durable) in trail
      && Closed(names)
    }

    predicate Present(d: Dir)
      reads this`names
    {
      d.Anchor() || d in names
    }

    method TryExists(d: Dir) returns (r: Result<bool>)
      modifies this`faults
      ensures faults == old(faults) + if r.Err? then 1 else 0
      ensures r.Ok? ==> r.value == Present(d)
      ensures r.Err? ==> r.error == Io
    {
      if * {
        r := Ok(Present(d));
      } else {
        r := Err(Io);
        faults := faults + 1;
      }
    }

    method CreateDir(d: Dir) returns (made: Made)
      requires Valid() && d.parts != [] && Present(d.Parent().value)
      modifies this
      ensures Valid() && durable == old(durable) && trail == old(trail) + iset{(names, durable)}
      ensures added == old(added) && faults == old(faults) + if made.Refused? then 1 else 0
      ensures made.Created? ==> names == old(names) + {d} && d !in old(names)
      ensures !made.Created? ==> names == old(names)
      ensures made.AlreadyExists? ==> d in names
      ensures d in old(names) ==> made.AlreadyExists?
    {
      if d in names {
        made := AlreadyExists;
      } else if * {
        names := names + {d};
        made := Created;
      } else {
        made := Refused;
        faults := faults + 1;
      }
      trail := trail + iset{(names, durable)};
    }

    /** `sync_dir`: every entry of the directory is on disk. */
    method SyncDir(d: Dir) returns (r: Result<()>)
      requires Valid()
      modifies this
      ensures Valid() && names == old(names) && trail == old(trail) + iset{(names, durable)}
      ensures added == old(added) && faults == old(faults) + if r.Err? then 1 else 0
      ensures r.Ok? ==> durable == old(durable) + set x | x in names && x.Parent() == Some(d)
      ensures r.Err? ==> r.error == Io && durable == old(durable)
    {
      if * {
        durable := durable + set x | x in names && x.Parent() == Some(d);
        r := Ok(());
      } else {
        r := Err(Io);
        faults := faults + 1;
      }
      trail := trail + iset{(names, durable)};
    }

    /** Other nodes at work on the same machine: directories appear, and entries reach the disk. */
    method Others()
      requires Valid()
      modifies this
      ensures Valid() && old(names) <= names && old(durable) <= durable && old(trail) <= trail
      ensures old(added) <= added && names == old(names) + added && faults == old(faults)
    {
      ghost var mine := faults;
      var n: nat := *;
      while n > 0
        invariant Valid() && old(names) <= names && old(durable) <= durable && old(trail) <= trail
        invariant old(added) <= added && names == old(names) + added
      {
        n := n - 1;
        var d: Dir := *;
        if d.parts != [] && Present(d.Parent().value) {
          var made := CreateDir(d);
          if made.Created? {
            added := added + {d};
          }
        }
        var synced: Dir := *;
        var r := SyncDir(synced);
      }
      faults := mine;
    }
  }

  /** The ancestors of `dir` that are missing, innermost first, and `dir` itself. */
  predicate Missing(missing: seq<Dir>, dir: Dir, found: nat) {
    && found <= |dir.parts| && |missing| == |dir.parts| - found
    && forall m :: 0 <= m < |missing| ==> missing[m] == dir.Upto(|dir.parts| - m)
  }

  /** Walk up, collecting what is missing, until an ancestor exists. */
  method FindMissing(tree: Tree, dir: Dir, beside: bool) returns (r: Result<seq<Dir>>, ghost found: nat)
    requires tree.Valid()
    modifies tree
    ensures tree.Valid() && old(tree.names) <= tree.names && old(tree.durable) <= tree.durable
    ensures old(tree.added) <= tree.added && tree.names == old(tree.names) + tree.added
    ensures !beside ==> unchanged(tree`names, tree`durable, tree`trail, tree`added)
    ensures tree.faults == old(tree.faults) + if r.Err? then 1 else 0
    ensures r.Ok? ==> Missing(r.value, dir, found) && (found == 0 || dir.Upto(found) in tree.names)
    ensures r.Ok? ==> forall j: nat :: found < j <= |dir.parts| ==> dir.Upto(j) !in old(tree.names)
    ensures r.Ok? && !beside ==> found == Existing(tree.names, dir, |dir.parts|)
  {
    var missing: seq<Dir>, cursor, more := [], dir, true;
    found := |dir.parts|;
    assert dir.parts[..found] == dir.parts;
    while more
      invariant tree.Valid() && old(tree.names) <= tree.names && old(tree.durable) <= tree.durable
      invariant old(tree.added) <= tree.added && tree.names == old(tree.names) + tree.added
      invariant !beside ==> unchanged(tree`names, tree`durable, tree`trail, tree`added)
      invariant tree.faults == old(tree.faults)
      invariant Missing(missing, dir, found) && cursor == dir.Upto(found)
      invariant forall j: nat :: found < j <= |dir.parts| ==> dir.Upto(j) !in old(tree.names)
      invariant !beside ==> forall j: nat :: found < j <= |dir.parts| ==> dir.Upto(j) !in tree.names
      invariant !more ==> found == 0 || cursor in tree.names
      decreases more, found
    {
      if cursor.Empty() {
        more := false;
      } else {
        if beside {
          tree.Others();
        }
        var there := tree.TryExists(cursor);
        if there.Err? {
          return Err(there.error), found;
        }
        if there.value {
          more := false;
        } else {
          missing := missing + [cursor];
          UptoParent(dir, found);
          cursor := cursor.Parent().value;
          found := found - 1;
        }
      }
    }
    if !beside {
      ExistingIs(tree.names, dir, |dir.parts|, found);
    }
    r := Ok(missing);
  }

  lemma {:induction false} ExistingIs(names: set<Dir>, d: Dir, k: nat, found: nat)
    requires found <= k <= |d.parts| && (found == 0 || d.Upto(found) in names)
    requires forall j: nat :: found < j <= k ==> d.Upto(j) !in names
    ensures Existing(names, d, k) == found
  {
    if found < k {
      ExistingIs(names, d, k - 1, found);
    }
  }

  /** What to check before creating a directory: the part of its path that exists is on disk, and
      something of a bare path exists. */
  predicate Safe(names: set<Dir>, durable: set<Dir>, d: Dir) {
    var found := Existing(names, d, |d.parts|);
    && Survives(durable, d.Upto(found))
    && (found == 0 && d.parts != [] ==> !d.base.Bare?)
  }

  /** The walk stopped at the ancestor `found` long: it was there, or others had just created it, and no
      longer one was. */
  predicate StoppedAt(dir: Dir, found: nat, names0: set<Dir>, others: set<Dir>)
    requires found <= |dir.parts|
  {
    && (found == 0 || dir.Upto(found) in names0 + others)
    && forall j: nat :: found < j <= |dir.parts| ==> dir.Upto(j) !in names0
  }

  /** The ancestor the walk stopped at is on disk, and so is the first component of a bare path. */
  predicate Rests(durable: set<Dir>, dir: Dir, found: nat)
    requires found <= |dir.parts|
  {
    && Survives(durable, dir.Upto(found))
    && (found == 0 && dir.parts != [] && dir.base.Bare? ==> dir.Upto(1) in durable)
  }

  lemma UptoUpto(d: Dir, found: nat)
    requires found <= |d.parts|
    ensures forall k: nat :: k <= found ==> d.Upto(found).Upto(k) == d.Upto(k)
  {
    forall k: nat | k <= found
      ensures d.Upto(found).Upto(k) == d.Upto(k)
    {
      assert d.parts[..found][..k] == d.parts[..k];
    }
  }

  /** With everything past `found` flushed, only what it rests on is in question. */
  lemma FlushedSurvives(durable: set<Dir>, d: Dir, found: nat)
    requires found <= |d.parts|
    requires forall k: nat :: k <= |d.parts| && Flushed(d, found, k) ==> d.Upto(k) in durable
    ensures Survives(durable, d) <==> Rests(durable, d, found)
  {
    UptoUpto(d, found);
    if Rests(durable, d, found) {
      forall k: nat | 0 < k <= |d.parts|
        ensures d.Upto(k) in durable
      {
        assert k <= found ==> d.Upto(found).Upto(k) in durable;
      }
    }
    if Survives(durable, d) {
      forall k: nat | 0 < k <= found
        ensures d.Upto(found).Upto(k) in durable
      {
        assert d.Upto(k) in durable;
      }
    }
  }

  /** Make the whole path of `dir`, top down, flushing the entry of each component before making the next.
      `beside` says whether other nodes work on the same machine meanwhile; `found` is the length of the
      ancestor the walk stopped at. None longer existed at the start, and that one did, or another node
      created it meanwhile. On return every component exists, each one past `found` is durable, save the
      first of a bare path, and so the directory outlives a power loss exactly when what it was built on
      does, the first component of a bare path included. Alone, that is: exactly when it was safe to
      create; and no state on the way, errors included, has more than one component in doubt. */
  method CreateDirDurable(tree: Tree, dir: Dir, beside: bool) returns (r: Result<()>, ghost found: nat)
    requires tree.Valid()
    modifies tree
    ensures tree.Valid() && old(tree.names) <= tree.names && old(tree.durable) <= tree.durable
    ensures tree.faults == old(tree.faults) + if r.Err? then 1 else 0
    ensures r.Ok? ==> found <= |dir.parts| && StoppedAt(dir, found, old(tree.names), tree.added - old(tree.added))
    ensures r.Ok? ==> forall k: nat :: 0 < k <= |dir.parts| ==> dir.Upto(k) in tree.names
    ensures r.Ok? ==> forall k: nat :: k <= |dir.parts| && Flushed(dir, found, k) ==> dir.Upto(k) in tree.durable
    ensures r.Ok? ==> (Survives(tree.durable, dir) <==> Rests(tree.durable, dir, found))
    ensures r.Ok? && !beside ==> found == Existing(old(tree.names), dir, |dir.parts|)
    ensures r.Ok? && !beside ==>
              (Survives(tree.durable, dir) <==> Safe(old(tree.names), old(tree.durable), dir))
    ensures !beside ==> forall t :: t in tree.trail && t !in old(tree.trail) ==>
              InOrder(t.0, t.1, dir, Existing(old(tree.names), dir, |dir.parts|))
  {
    var missing;
    missing, found := FindMissing(tree, dir, beside);
    if missing.Err? {
      return Err(missing.error), found;
    }
    r := CreateMissing(tree, dir, beside, missing.value, found);
    if r.Ok? {
      FlushedSurvives(tree.durable, dir, found);
    }
    if r.Ok? && !beside {
      AloneSurvives(tree.names, tree.durable, old(tree.names), old(tree.durable), dir, found);
    }
  }

  /** Create component `k` in its parent and flush the parent, the rest of the chain being as far. */
  method CreateOne(tree: Tree, next: Dir, beside: bool, ghost dir: Dir, ghost found: nat, ghost k: nat,
                   ghost names0: set<Dir>, ghost durable0: set<Dir>)
    returns (r: Result<()>)
    requires tree.Valid() && found < k <= |dir.parts| && next == dir.Upto(k)
    requires k == 1 || dir.Upto(k - 1) in tree.names
    requires !beside ==> Alone(tree.names, tree.durable, names0, durable0, dir, found, k - 1, k - 1)
    requires !beside ==> forall j: nat :: found < j <= |dir.parts| ==> dir.Upto(j) !in names0
    modifies tree
    ensures tree.Valid() && old(tree.names) <= tree.names && old(tree.durable) <= tree.durable
    ensures old(tree.added) <= tree.added
    ensures tree.faults == old(tree.faults) + if r.Err? then 1 else 0
    ensures r.Ok? ==> next in tree.names && (Flushed(dir, found, k) ==> next in tree.durable)
    ensures r.Ok? && !beside ==> Alone(tree.names, tree.durable, names0, durable0, dir, found, k, k)
    ensures !beside ==> forall t :: t in tree.trail && t !in old(tree.trail) ==> InOrder(t.0, t.1, dir, found)
  {
    UptoParent(dir, k);
    if beside {
      tree.Others();
    }
    ghost var names, durable := tree.names, tree.durable;
    var made := tree.CreateDir(next);
    if !beside {
      AfterCreating(names, tree.names, durable, names0, durable0, dir, found, k);
    }
    if made.Refused? {
      return Err(Io);
    }
    r := Ok(());
    var parent := next.Parent();
    if parent.Some? && !parent.value.Empty() {
      r := tree.SyncDir(parent.value);
      if !beside {
        AfterSyncing(tree.names, durable, tree.durable, names0, durable0, dir, found, k);
      }
    }
  }

  method CreateMissing(tree: Tree, dir: Dir, beside: bool, missing: seq<Dir>, ghost found: nat)
    returns (r: Result<()>)
    requires tree.Valid() && Missing(missing, dir, found) && (found == 0 || dir.Upto(found) in tree.names)
    requires !beside ==> forall j: nat :: found < j <= |dir.parts| ==> dir.Upto(j) !in tree.names
    modifies tree
    ensures tree.Valid() && old(tree.names) <= tree.names && old(tree.durable) <= tree.durable
    ensures old(tree.added) <= tree.added
    ensures tree.faults == old(tree.faults) + if r.Err? then 1 else 0
    ensures r.Ok? ==> forall k: nat :: 0 < k <= |dir.parts| ==> dir.Upto(k) in tree.names
    ensures r.Ok? ==> forall k: nat :: k <= |dir.parts| && Flushed(dir, found, k) ==> dir.Upto(k) in tree.durable
    ensures r.Ok? && !beside ==>
              Alone(tree.names, tree.durable, old(tree.names), old(tree.durable), dir, found, |dir.parts|, |dir.parts|)
    ensures !beside ==> forall t :: t in tree.trail && t !in old(tree.trail) ==> InOrder(t.0, t.1, dir, found)
  {
    var left := |missing|;
    ghost var k := found;
    while left > 0
      invariant 0 <= left <= |missing| && k == |dir.parts| - left
      invariant tree.Valid() && old(tree.names) <= tree.names && old(tree.durable) <= tree.durable
      invariant old(tree.added) <= tree.added && tree.faults == old(tree.faults)
      invariant k == 0 || dir.Upto(k) in tree.names
      invariant forall j: nat :: j <= k && Flushed(dir, found, j) ==> dir.Upto(j) in tree.durable
      invariant !beside ==> Alone(tree.names, tree.durable, old(tree.names), old(tree.durable), dir, found, k, k)
      invariant !beside ==> forall t :: t in tree.trail && t !in old(tree.trail) ==> InOrder(t.0, t.1, dir, found)
    {
      left, k := left - 1, k + 1;
      assert missing[left] == dir.Upto(k);
      r := CreateOne(tree, missing[left], beside, dir, found, k, old(tree.names), old(tree.durable));
      if r.Err? {
        return;
      }
    }
    AncestorsExist(tree.names, dir, |dir.parts|);
    r := Ok(());
  }

  lemma AloneIsInOrder(names: set<Dir>, durable: set<Dir>, names0: set<Dir>, durable0: set<Dir>,
                       d: Dir, found: nat, made: nat, settled: nat)
    requires Alone(names, durable, names0, durable0, d, found, made, settled) && made <= settled + 1
    requires forall j: nat :: found < j <= |d.parts| ==> d.Upto(j) !in names0
    ensures InOrder(names, durable, d, found)
  {
    assert Chain(names, durable, d, found, made, settled);
  }

  /** Creating component `k`, whether it succeeds or is refused. */
  lemma AfterCreating(before: set<Dir>, names: set<Dir>, durable: set<Dir>, names0: set<Dir>,
                      durable0: set<Dir>, d: Dir, found: nat, k: nat)
    requires found < k <= |d.parts| && Alone(before, durable, names0, durable0, d, found, k - 1, k - 1)
    requires names == before || names == before + {d.Upto(k)}
    requires forall j: nat :: found < j <= |d.parts| ==> d.Upto(j) !in names0
    ensures InOrder(names, durable, d, found)
    ensures names == before + {d.Upto(k)} ==> Alone(names, durable, names0, durable0, d, found, k, k - 1)
  {
    forall j: nat | 0 < j <= |d.parts| && j != k
      ensures d.Upto(j) != d.Upto(k)
    {
      assert |d.Upto(j).parts| == j && |d.Upto(k).parts| == k;
    }
    if names == before + {d.Upto(k)} {
      AloneIsInOrder(names, durable, names0, durable0, d, found, k, k - 1);
    } else {
      AloneIsInOrder(names, durable, names0, durable0, d, found, k - 1, k - 1);
    }
  }

  /** Flushing the parent of component `k`, whether it succeeds or fails. */
  lemma AfterSyncing(names: set<Dir>, before: set<Dir>, durable: set<Dir>, names0: set<Dir>,
                     durable0: set<Dir>, d: Dir, found: nat, k: nat)
    requires found < k <= |d.parts| && Alone(names, before, names0, durable0, d, found, k, k - 1)
    requires k == 1 ==> !d.base.Bare?
    requires || durable == before
             || durable == before + set x | x in names && x.Parent() == Some(d.Upto(k - 1))
    requires forall j: nat :: found < j <= |d.parts| ==> d.Upto(j) !in names0
    ensures InOrder(names, durable, d, found)
    ensures durable != before ==> Alone(names, durable, names0, durable0, d, found, k, k)
  {
    forall j: nat | 0 < j <= |d.parts|
      ensures d.Upto(j).Parent() == Some(d.Upto(k - 1)) <==> j == k
    {
      UptoParent(d, j);
      assert |d.Upto(k - 1).parts| == k - 1 && |d.Upto(j - 1).parts| == j - 1;
    }
    if durable == before {
      AloneIsInOrder(names, durable, names0, durable0, d, found, k, k - 1);
    } else {
      AloneIsInOrder(names, durable, names0, durable0, d, found, k, k);
    }
  }

  lemma AloneSurvives(names: set<Dir>, durable: set<Dir>, names0: set<Dir>, durable0: set<Dir>,
                      d: Dir, found: nat)
    requires Alone(names, durable, names0, durable0, d, found, |d.parts|, |d.parts|)
    requires durable0 <= names0 && found == Existing(names0, d, |d.parts|)
    ensures Survives(durable, d) <==> Safe(names0, durable0, d)
  {
    UptoUpto(d, found);
    if Survives(durable, d) {
      forall k: nat | 0 < k <= found
        ensures d.Upto(k) in durable0
      {
        assert d.Upto(k) in durable;
      }
      if found == 0 && d.parts != [] {
        assert d.Upto(1) in durable;
      }
    } else {
      var k: nat :| 0 < k <= |d.parts| && d.Upto(k) !in durable;
      assert k <= found ==> d.Upto(found).Upto(k) !in durable0;
    }
  }

  /** A bare path on an empty machine: `data/node1` comes out with `data` named by nothing on disk, and so
      does not outlive a power loss. */
  lemma BareFirstComponentIsLost(names: set<Dir>, durable: set<Dir>)
    requires var d := Dir(Bare, ["data", "node1"]); Alone(names, durable, {}, {}, d, 0, 2, 2)
    ensures var d := Dir(Bare, ["data", "node1"]);
            && !Safe({}, {}, d) && Existing({}, d, 2) == 0
            && d in names && d in durable && Dir(Bare, ["data"]) in names && Dir(Bare, ["data"]) !in durable
            && !Survives(durable, d)
  {
    var d := Dir(Bare, ["data", "node1"]);
    assert d.Upto(2) == d && d.Upto(1) == Dir(Bare, ["data"]);
    ExistingIs({}, d, 2, 0);
    AloneSurvives(names, durable, {}, {}, d, 0);
  }

  /** The same path under the current directory by name, `./data/node1`, is flushed all the way. */
  lemma DottedFirstComponentIsKept(names: set<Dir>, durable: set<Dir>)
    requires var d := Dir(Dot, ["data", "node1"]); Alone(names, durable, {}, {}, d, 0, 2, 2)
    ensures var d := Dir(Dot, ["data", "node1"]); Safe({}, {}, d) && Survives(durable, d)
  {
    var d := Dir(Dot, ["data", "node1"]);
    ExistingIs({}, d, 2, 0);
    AloneSurvives(names, durable, {}, {}, d, 0);
  }
}
