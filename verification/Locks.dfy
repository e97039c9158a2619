/** The four locks of the storage adapter, and every call that takes them, as any number of tasks. */
module Locks {
  import T = Types
  import LogStore

  datatype Lock = SmState | Meta | Snapshot | Storage

  /** The order they are taken in: the application, then a cache, then the shared storage. */
  function Rank(l: Lock): nat {
    match l
    case SmState => 0
    case Meta => 1
    case Snapshot => 1
    case Storage => 2
  }

  /** `Use` is work on what a lock guards: the call may fail or return there, and then drops its guards. */
  datatype Act = Acquire(lock: Lock) | Release(lock: Lock) | Use(lock: Lock)

  // ----- the calls -----------------------------------------------------------------------------

  datatype Call =
    | SaveMeta
    | ReadMeta                      // `node_id`, `get_log_state`, `read_vote`
    | Append(entries: nat)
    | TruncateAfter
    | Purge
    | TryGetLogEntries
    | ReadState                     // `read`, `applied_state`
    | Apply(readsLog: seq<bool>)    // per entry: does the stream read the log to deliver it?
    | InstallSnapshot
    | GetCurrentSnapshot
    | BuildSnapshot

  /** One lock, used once. */
  function Under(l: Lock): seq<Act> {
    [Acquire(l), Use(l), Release(l)]
  }

  function Uses(n: nat): seq<Act> {
    if n == 0 then [] else [Use(Storage)] + Uses(n - 1)
  }

  /** A cache held around `n` storage operations, the cache touched before and after. */
  function Around(cache: Lock, n: nat): seq<Act> {
    [Acquire(cache), Acquire(Storage), Use(cache)] + Uses(n) + [Use(cache), Release(Storage), Release(cache)]
  }

  /** The stream `apply` consumes, with `SmState` held throughout. */
  function Consumed(readsLog: seq<bool>): seq<Act> {
    if readsLog == [] then []
    else (if readsLog[0] then Around(Meta, 1) else []) + [Use(SmState)] + Consumed(readsLog[1..])
  }

  function Program(call: Call): seq<Act> {
    match call
    case SaveMeta => Around(Meta, 1)
    case ReadMeta => Under(Meta)
    case Append(entries) => Around(Meta, if entries == 0 then 0 else entries + 1)
    case TruncateAfter => Around(Meta, 2)
    case Purge => Around(Meta, 2)
    case TryGetLogEntries => Around(Meta, 1)
    case ReadState => Under(SmState)
    case Apply(readsLog) => [Acquire(SmState)] + Consumed(readsLog) + [Release(SmState)]
    case InstallSnapshot => Around(Snapshot, 1) + Under(SmState)
    case GetCurrentSnapshot => Under(Snapshot)
    case BuildSnapshot => Under(SmState) + Around(Snapshot, 1)
  }

  function StorageUses(todo: seq<Act>): nat {
    if todo == [] then 0 else (if todo[0] == Use(Storage) then 1 else 0) + StorageUses(todo[1..])
  }

  lemma {:induction false} UsesAreCounted(n: nat, rest: seq<Act>)
    ensures StorageUses(Uses(n) + rest) == n + StorageUses(rest)
  {
    if n == 0 {
      assert Uses(0) + rest == rest;
    } else {
      UsesAreCounted(n - 1, rest);
      assert (Uses(n) + rest)[1..] == Uses(n - 1) + rest;
    }
  }

  lemma OtherUses(a: Act, rest: seq<Act>)
    requires a != Use(Storage)
    ensures StorageUses([a] + rest) == StorageUses(rest)
  {
    assert ([a] + rest)[1..] == rest;
  }

  lemma AroundIsCounted(cache: Lock, n: nat)
    requires cache != Storage
    ensures StorageUses(Around(cache, n)) == n
  {
    var last := [Use(cache), Release(Storage), Release(cache)];
    OtherUses(Release(cache), []);
    OtherUses(Release(Storage), [Release(cache)]);
    OtherUses(Use(cache), [Release(Storage), Release(cache)]);
    UsesAreCounted(n, last);
    var rest := Uses(n) + last;
    OtherUses(Use(cache), rest);
    OtherUses(Acquire(Storage), [Use(cache)] + rest);
    OtherUses(Acquire(cache), [Acquire(Storage)] + ([Use(cache)] + rest));
    assert [Release(cache)] + [] == [Release(cache)];
    assert [Release(Storage)] + [Release(cache)] == [Release(Storage), Release(cache)];
    assert [Use(cache)] + [Release(Storage), Release(cache)] == last;
    assert Around(cache, n) == [Acquire(cache)] + ([Acquire(Storage)] + ([Use(cache)] + rest));
  }

  /** The call a log operation is made by. */
  function CallOf(op: LogStore.LogOp): Call {
    match op
    case SaveVote(_) => SaveMeta
    case SaveNodeId(_) => SaveMeta
    case Append(entries) => Append(|entries|)
    case TruncateAfter(_) => TruncateAfter
    case Purge(_) => Purge
  }

  /** The one section of a log call holds as many storage operations as the call issues writes. */
  lemma ProgramsMakeTheWrites(m: T.EzMeta, op: LogStore.LogOp)
    ensures StorageUses(Program(CallOf(op))) == |LogStore.Writes(m, op)|
  {
    AroundIsCounted(Meta, |LogStore.Writes(m, op)|);
  }

  // ----- the discipline ------------------------------------------------------------------------

  /** From holding `held`, the rest takes locks upwards only, uses what it holds, and drops all. */
  predicate Ordered(held: set<Lock>, todo: seq<Act>)
    decreases |todo|
  {
    if todo == [] then
      held == {}
    else
      match todo[0]
      case Acquire(l) => (forall h :: h in held ==> Rank(h) < Rank(l)) && Ordered(held + {l}, todo[1..])
      case Release(l) => l in held && Ordered(held - {l}, todo[1..])
      case Use(l) => l in held && Ordered(held, todo[1..])
  }

  /** The lock taken last of those held. */
  function Topmost(held: set<Lock>): (l: Lock)
    requires held != {}
    ensures l in held
  {
    if Storage in held then Storage
    else if Snapshot in held then Snapshot
    else if Meta in held then Meta
    else
      assert SmState in held by {
        var h :| h in held;
        assert h.Storage? || h.Snapshot? || h.Meta? || h.SmState?;
      }
      SmState
  }

  /** What a failing call has left to do: its guards drop, last taken first. */
  function Unwound(held: set<Lock>): (todo: seq<Act>)
    ensures |todo| == |held|
    decreases |held|
  {
    if held == {} then [] else [Release(Topmost(held))] + Unwound(held - {Topmost(held)})
  }

  lemma {:induction false} UsesAreOrdered(held: set<Lock>, n: nat, rest: seq<Act>)
    requires Storage in held && Ordered(held, rest)
    ensures Ordered(held, Uses(n) + rest)
    decreases n
  {
    if n == 0 {
      assert Uses(0) + rest == rest;
    } else {
      UsesAreOrdered(held, n - 1, rest);
      assert (Uses(n) + rest)[1..] == Uses(n - 1) + rest;
    }
  }

  /** A cache may be taken around the storage when at most the application is held. */
  lemma AroundIsOrdered(held: set<Lock>, cache: Lock, n: nat, rest: seq<Act>)
    requires held <= {SmState} && (cache == Meta || cache == Snapshot) && Ordered(held, rest)
    ensures Ordered(held, Around(cache, n) + rest)
  {
    var one := held + {cache};
    var both := one + {Storage};
    var dropped := [Use(cache), Release(Storage), Release(cache)] + rest;
    assert both - {Storage} == one && one - {cache} == held;
    assert dropped[1..][1..][1..] == rest;
    assert Ordered(one, dropped[1..][1..]);
    assert Ordered(both, dropped);
    UsesAreOrdered(both, n, dropped);
    var all := Around(cache, n) + rest;
    assert all[1..][1..][1..] == Uses(n) + dropped;
    assert all[1..][1..][0] == Use(cache) && all[1..][0] == Acquire(Storage);
    assert Ordered(both, all[1..][1..]);
    assert Ordered(one, all[1..]);
  }

  lemma UnderIsOrdered(l: Lock, rest: seq<Act>)
    requires Ordered({}, rest)
    ensures Ordered({}, Under(l) + rest)
  {
    var all := Under(l) + rest;
    assert all[1..][1..][1..] == rest;
    assert {} + {l} == {l} && {l} - {l} == {};
    assert Ordered({l}, all[1..][1..]);
    assert Ordered({l}, all[1..]);
  }

  /** Even when the stream reads the log at every entry. */
  lemma {:induction false} ConsumedIsOrdered(readsLog: seq<bool>)
    ensures Ordered({SmState}, Consumed(readsLog) + [Release(SmState)])
  {
    var last := [Release(SmState)];
    if readsLog == [] {
      assert {SmState} - {SmState} == {};
      assert Consumed(readsLog) + last == last;
    } else {
      ConsumedIsOrdered(readsLog[1..]);
      var rest := [Use(SmState)] + Consumed(readsLog[1..]) + last;
      assert rest[1..] == Consumed(readsLog[1..]) + last;
      assert Ordered({SmState}, rest);
      if readsLog[0] {
        AroundIsOrdered({SmState}, Meta, 1, rest);
        assert Consumed(readsLog) + last == Around(Meta, 1) + rest;
      } else {
        assert Consumed(readsLog) + last == rest;
      }
    }
  }

  /** Every call of both stores keeps the order. */
  lemma ProgramsAreOrdered(call: Call)
    ensures Ordered({}, Program(call))
  {
    match call
    case SaveMeta => OneAround(Meta, 1);
    case ReadMeta => OneUnder(Meta);
    case Append(entries) => OneAround(Meta, if entries == 0 then 0 else entries + 1);
    case TruncateAfter => OneAround(Meta, 2);
    case Purge => OneAround(Meta, 2);
    case TryGetLogEntries => OneAround(Meta, 1);
    case ReadState => OneUnder(SmState);
    case Apply(readsLog) =>
      ConsumedIsOrdered(readsLog);
      assert {} + {SmState} == {SmState};
      assert Program(call)[1..] == Consumed(readsLog) + [Release(SmState)];
    case InstallSnapshot =>
      OneUnder(SmState);
      AroundIsOrdered({}, Snapshot, 1, Under(SmState));
    case GetCurrentSnapshot => OneUnder(Snapshot);
    case BuildSnapshot =>
      OneAround(Snapshot, 1);
      UnderIsOrdered(SmState, Around(Snapshot, 1));
  }

  lemma OneAround(cache: Lock, n: nat)
    requires cache == Meta || cache == Snapshot
    ensures Ordered({}, Around(cache, n))
  {
    AroundIsOrdered({}, cache, n, []);
    assert Around(cache, n) + [] == Around(cache, n);
  }

  lemma OneUnder(l: Lock)
    ensures Ordered({}, Under(l))
  {
    UnderIsOrdered(l, []);
    assert Under(l) + [] == Under(l);
  }

  /** Dropping the guards in reverse keeps the discipline too. */
  lemma {:induction false} UnwoundIsOrdered(held: set<Lock>)
    ensures Ordered(held, Unwound(held))
    decreases |held|
  {
    if held != {} {
      UnwoundIsOrdered(held - {Topmost(held)});
      assert Unwound(held)[1..] == Unwound(held - {Topmost(held)});
    }
  }

  /** Every lock held is still to be dropped. */
  lemma {:induction false} DropsAreAhead(held: set<Lock>, todo: seq<Act>)
    requires Ordered(held, todo)
    ensures |held| <= |todo|
    decreases |todo|
  {
    if todo != [] {
      match todo[0]
      case Acquire(l) => DropsAreAhead(held + {l}, todo[1..]);
      case Release(l) => DropsAreAhead(held - {l}, todo[1..]);
      case Use(l) => DropsAreAhead(held, todo[1..]);
    }
  }

  // ----- tasks ---------------------------------------------------------------------------------

  datatype Task = Task(held: set<Lock>, todo: seq<Act>)

  type Tasks = seq<Task>

  predicate Free(ts: Tasks, l: Lock) {
    forall j :: 0 <= j < |ts| ==> l !in ts[j].held
  }

  /** Task `i` can take its next step: only a lock somebody holds stops it. */
  predicate CanStep(ts: Tasks, i: nat) {
    && i < |ts| && ts[i].todo != []
    && (ts[i].todo[0].Acquire? ==> Free(ts, ts[i].todo[0].lock))
  }

  function Advanced(t: Task, fails: bool): Task
    requires t.todo != []
  {
    match t.todo[0]
    case Acquire(l) => Task(t.held + {l}, t.todo[1..])
    case Release(l) => Task(t.held - {l}, t.todo[1..])
    case Use(_) => Task(t.held, if fails then Unwound(t.held) else t.todo[1..])
  }

  predicate StepTo(ts: Tasks, i: nat, fails: bool, ts': Tasks) {
    CanStep(ts, i) && ts' == ts[i := Advanced(ts[i], fails)]
  }

  /** No lock has two holders, and every task keeps the order. */
  ghost predicate Safe(ts: Tasks) {
    && (forall i, j :: 0 <= i < j < |ts| ==> ts[i].held !! ts[j].held)
    && (forall i :: 0 <= i < |ts| ==> Ordered(ts[i].held, ts[i].todo))
  }

  lemma SafeStays(ts: Tasks, i: nat, fails: bool, ts': Tasks)
    requires Safe(ts) && StepTo(ts, i, fails, ts')
    ensures Safe(ts')
  {
    UnwoundIsOrdered(ts[i].held);
    assert Ordered(ts'[i].held, ts'[i].todo);
    forall a, b | 0 <= a < b < |ts'|
      ensures ts'[a].held !! ts'[b].held
    {
      var t := if ts[i].todo[0].Acquire? then {ts[i].todo[0].lock} else {};
      assert ts'[a].held <= ts[a].held + (if a == i then t else {});
      assert ts'[b].held <= ts[b].held + (if b == i then t else {});
      assert t !! ts[a].held && t !! ts[b].held;
    }
  }

  /** What a task uses, it holds, and nobody else does. */
  lemma UseIsExclusive(ts: Tasks, i: nat, j: nat)
    requires Safe(ts) && i < |ts| && j < |ts| && i != j && ts[i].todo != [] && ts[i].todo[0].Use?
    ensures ts[i].todo[0].lock in ts[i].held && ts[i].todo[0].lock !in ts[j].held
  {
    assert Ordered(ts[i].held, ts[i].todo);
  }

  /** Following who holds what the other waits for climbs the ranks, so it ends at a task that can step. */
  lemma {:induction false} SomeoneSteps(ts: Tasks, i: nat) returns (j: nat)
    requires Safe(ts) && i < |ts| && ts[i].todo != []
    ensures CanStep(ts, j)
    decreases if ts[i].todo[0].Acquire? then 3 - Rank(ts[i].todo[0].lock) else 0
  {
    if CanStep(ts, i) {
      return i;
    }
    var l := ts[i].todo[0].lock;
    var holder :| 0 <= holder < |ts| && l in ts[holder].held;
    assert Ordered(ts[holder].held, ts[holder].todo);
    j := SomeoneSteps(ts, holder);
  }

  // ----- whole runs ----------------------------------------------------------------------------

  /** Any number of calls, none begun, then any number of steps by any of them. */
  ghost predicate Run(calls: seq<Call>, run: seq<Tasks>, steps: seq<(nat, bool)>) {
    && |run| == |steps| + 1
    && run[0] == seq(|calls|, i requires 0 <= i < |calls| => Task({}, Program(calls[i])))
    && forall k :: 0 <= k < |steps| ==> StepTo(run[k], steps[k].0, steps[k].1, run[k + 1])
  }

  lemma {:induction false} RunsAreSafe(calls: seq<Call>, run: seq<Tasks>, steps: seq<(nat, bool)>, k: nat)
    requires Run(calls, run, steps) && k < |run|
    ensures Safe(run[k])
  {
    if k == 0 {
      forall i | 0 <= i < |calls|
        ensures Ordered(run[0][i].held, run[0][i].todo)
      {
        ProgramsAreOrdered(calls[i]);
      }
    } else {
      RunsAreSafe(calls, run, steps, k - 1);
      SafeStays(run[k - 1], steps[k - 1].0, steps[k - 1].1, run[k]);
    }
  }

  /** Whatever is in flight, and wherever it failed, as long as a call is unfinished some call can go on. */
  lemma NoDeadlock(calls: seq<Call>, run: seq<Tasks>, steps: seq<(nat, bool)>, k: nat, i: nat)
    requires Run(calls, run, steps) && k < |run| && i < |run[k]| && run[k][i].todo != []
    ensures exists j :: CanStep(run[k], j)
  {
    RunsAreSafe(calls, run, steps, k);
    var j := SomeoneSteps(run[k], i);
  }

  function Remaining(ts: Tasks): nat {
    if ts == [] then 0 else Remaining(ts[..|ts| - 1]) + |ts[|ts| - 1].todo|
  }

  lemma {:induction false} RemainingShrinks(ts: Tasks, i: nat, t: Task)
    requires i < |ts| && |t.todo| < |ts[i].todo|
    ensures Remaining(ts[i := t]) < Remaining(ts)
    decreases |ts|
  {
    var last := |ts| - 1;
    if i == last {
      assert ts[i := t][..last] == ts[..last];
    } else {
      assert ts[i := t][..last] == ts[..last][i := t];
      RemainingShrinks(ts[..last], i, t);
    }
  }

  /** Every step is progress, failures included: a run takes at most as many steps as were to be taken. */
  lemma {:induction false} RunsEnd(calls: seq<Call>, run: seq<Tasks>, steps: seq<(nat, bool)>, k: nat)
    requires Run(calls, run, steps) && k < |run|
    ensures Remaining(run[k]) + k <= Remaining(run[0])
  {
    if k > 0 {
      RunsEnd(calls, run, steps, k - 1);
      RunsAreSafe(calls, run, steps, k - 1);
      var ts, i := run[k - 1], steps[k - 1].0;
      assert StepTo(ts, i, steps[k - 1].1, run[k - 1 + 1]);
      DropsAreAhead(ts[i].held, ts[i].todo);
      UnwoundIsOrdered(ts[i].held);
      if ts[i].todo[0].Use? {
        DropsAreAhead(ts[i].held, ts[i].todo[1..]);
      }
      RemainingShrinks(ts, i, Advanced(ts[i], steps[k - 1].1));
    }
  }

  /** The order is what keeps them apart: a single call that took the storage before its cache could
      block forever against any call that does it the right way. */
  lemma ReverseOrderDeadlocks(n: nat) returns (stuck: Tasks)
    ensures var right, wrong := Around(Meta, n), [Acquire(Storage), Acquire(Meta), Release(Meta), Release(Storage)];
            var start := [Task({}, right), Task({}, wrong)];
            exists half :: StepTo(start, 0, false, half) && StepTo(half, 1, false, stuck)
    ensures (exists i :: 0 <= i < |stuck| && stuck[i].todo != []) && forall j :: !CanStep(stuck, j)
  {
    var right, wrong := Around(Meta, n), [Acquire(Storage), Acquire(Meta), Release(Meta), Release(Storage)];
    var start := [Task({}, right), Task({}, wrong)];
    var half := start[0 := Advanced(start[0], false)];
    stuck := half[1 := Advanced(half[1], false)];
    assert StepTo(start, 0, false, half) && StepTo(half, 1, false, stuck);
    assert stuck[0].todo[0] == Acquire(Storage) && Storage in stuck[1].held;
    assert stuck[1].todo[0] == Acquire(Meta) && Meta in stuck[0].held;
  }
}
