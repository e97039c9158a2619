/** Whole runs of the timestamp oracle: any number of processes over one committed log, writes that fail
    and commit all the same, restarts, leaders that change, clocks that read anything. */
module OracleRun {
  import opened Types
  import opened Oracle

  /** A reservation in the committed log: the bound, the Raft term it committed under, and which
      proposal it was. */
  datatype Committed = Committed(bound: nat, term: nat, id: nat)

  /** A proposal on its way: it may commit whether or not its process still waits for it. */
  datatype Proposal = Proposal(bound: nat)

  /** A refill waiting for its answer. `tag` is the term checked before it was sent, `from` how long the log
      was then. */
  datatype Wait = Wait(id: nat, tag: nat, from: nat)

  /** One process: what it holds, which committed intervals that came from, the refill it waits for, and
      the request that has its lock. */
  datatype Process = Process(
    held: Holding,
    first: nat,
    last: nat,
    waiting: Option<Wait>,
    serving: Option<nat>)

  const FRESH := Process(NOTHING_HELD, 0, 0, None, None)

  /** A request. `since` is how many timestamps had been returned when it arrived; `term` what its lease
      check returned, once it has the lock. */
  datatype Request = Request(at: nat, since: nat, term: Option<nat>)

  /** A timestamp returned by process `at`, under `term`, out of interval `index` or earlier. */
  datatype Issued = Issued(value: nat, at: nat, term: nat, index: nat, since: nat)

  datatype System = System(
    log: seq<Committed>,
    proposals: map<nat, Proposal>,
    nextId: nat,
    processes: map<nat, Process>,
    requests: map<nat, Request>,
    issued: seq<Issued>,
    maxTerm: nat)

  function Bounds(log: seq<Committed>): (bounds: seq<nat>)
    ensures |bounds| == |log|
    ensures forall i :: 0 <= i < |log| ==> bounds[i] == log[i].bound
  {
    seq(|log|, i requires 0 <= i < |log| => log[i].bound)
  }

  function Span(log: seq<Committed>, i: nat): Interval
    requires i < |log|
  {
    IntervalAt(Bounds(log), i)
  }

  function End(log: seq<Committed>): nat {
    Mark(Bounds(log))
  }

  datatype Event =
    | Refill(at: nat, term: nat, now: nat, width: nat)
    | Covered(at: nat, term: nat)
    | CommitProposal(id: nat, term: nat)
    | Answer(at: nat, index: nat)
    | AnswerLost(at: nat)
    | Arrive(request: nat, at: nat)
    | Check(request: nat, term: nat)
    | Take(request: nat, now: nat)
    | Reject(request: nat)
    | Restart(at: nat)

  /** What a lease check promises, when it is trusted: terms never go back, and there is one leader per
      term. Of the log it need know nothing. */
  ghost predicate LeaseHolds(leaderOf: nat -> nat, s: System, at: nat, term: nat) {
    s.maxTerm <= term && leaderOf(term) == at
  }

  function AfterCheck(s: System, term: nat): System {
    s.(maxTerm := if term > s.maxTerm then term else s.maxTerm)
  }

  /** One step. `lease` says whether lease checks are trusted; without it they return any term.
      Entries commit under any term, later leaders' included. */
  ghost predicate StepTo(lease: bool, leaderOf: nat -> nat, s: System, e: Event, s': System) {
    match e
    case Refill(at, term, now, width) =>
      && at in s.processes && s.processes[at].waiting.None? && now <= U64_MAX
      && (lease ==> LeaseHolds(leaderOf, s, at, term))
      && s' == AfterCheck(s, term).(
           proposals := s.proposals[s.nextId := Proposal(SaturatingAdd(now, width))],
           nextId := s.nextId + 1,
           processes := s.processes[at := s.processes[at].(waiting := Some(Wait(s.nextId, term, |s.log|)))])
    case Covered(at, term) =>
      && at in s.processes && (lease ==> LeaseHolds(leaderOf, s, at, term))
      && s' == AfterCheck(s, term)
    case CommitProposal(id, term) =>
      && id in s.proposals
      && s' == s.(log := s.log + [Committed(s.proposals[id].bound, term, id)],
                  proposals := s.proposals - {id})
    case Answer(at, index) =>
      && at in s.processes && index < |s.log|
      && s.processes[at].serving.None?
      && s.processes[at].waiting.Some? && s.processes[at].waiting.value.id == s.log[index].id
      && var p := s.processes[at];
         s' == s.(processes := s.processes[at := Answered(s.log, p, index)])
    case AnswerLost(at) =>
      && at in s.processes && s.processes[at].waiting.Some?
      && s' == s.(processes := s.processes[at := s.processes[at].(waiting := None)])
    case Arrive(request, at) =>
      && request !in s.requests
      && s' == s.(requests := s.requests[request := Request(at, |s.issued|, None)])
    case Check(request, term) =>
      && request in s.requests && s.requests[request].term.None?
      && var r := s.requests[request];
      && r.at in s.processes && s.processes[r.at].serving.None?
      && (lease ==> LeaseHolds(leaderOf, s, r.at, term))
      && s' == AfterCheck(s, term).(
           processes := s.processes[r.at := s.processes[r.at].(serving := Some(request))],
           requests := s.requests[request := r.(term := Some(term))])
    case Take(request, now) =>
      && Served(s, request)
      && var r := s.requests[request];
      && var p := s.processes[r.at];
      && var taken := Taken(p.held, r.term.value, now);
      && s' == s.(
           processes := s.processes[r.at := p.(held := AfterTake(p.held, r.term.value, now), serving := None)],
           requests := s.requests - {request},
           issued := s.issued + (if taken.Some?
                                 then [Issued(taken.value, r.at, r.term.value, p.last, r.since)] else []))
    case Reject(request) =>
      && request in s.requests && s.requests[request].term.None?
      && s' == s.(requests := s.requests - {request})
    case Restart(at) =>
      // A process that starts, for the first time or again: it holds nothing and has forgotten
      // everything, and its requests are gone.
      && s' == s.(processes := s.processes[at := FRESH],
                  requests := map q | q in s.requests && s.requests[q].at != at :: s.requests[q])
  }

  /** The request that has its process's lock, and has checked the lease. */
  ghost predicate Served(s: System, request: nat) {
    && request in s.requests && s.requests[request].term.Some?
    && s.requests[request].at in s.processes
    && s.processes[s.requests[request].at].serving == Some(request)
  }

  /** The answer to a refill, installed under the term checked before it was sent. */
  function Answered(log: seq<Committed>, p: Process, index: nat): Process
    requires index < |log| && p.waiting.Some?
  {
    var tag, span := p.waiting.value.tag, Span(log, index);
    p.(held := Installed(p.held, tag, span),
       first := if !p.held.Empty() && p.held.term == tag && p.held.end == span.start then p.first else index,
       last := index,
       waiting := None)
  }

  ghost predicate Started(s: System) {
    s == System([], map[], 0, map[], map[], [], 0)
  }

  ghost predicate Run(lease: bool, leaderOf: nat -> nat, states: seq<System>, events: seq<Event>) {
    && |states| == |events| + 1
    && Started(states[0])
    && forall k :: 0 <= k < |events| ==> StepTo(lease, leaderOf, states[k], events[k], states[k + 1])
  }

  // ----- intervals of a growing log ------------------------------------------------------------

  lemma SpansStay(log: seq<Committed>, c: Committed, i: nat)
    requires i < |log|
    ensures Span(log + [c], i) == Span(log, i)
  {
    assert Bounds(log + [c])[..i] == Bounds(log)[..i];
    assert Bounds(log + [c])[..i + 1] == Bounds(log)[..i + 1];
  }

  lemma LastSpan(log: seq<Committed>, c: Committed)
    ensures Span(log + [c], |log|) == Interval(End(log), End(log + [c]))
    ensures End(log) <= End(log + [c])
  {
    var bounds := Bounds(log + [c]);
    assert bounds[..|log|] == Bounds(log) && bounds[..|log| + 1] == bounds;
    MarkGrows(bounds, |log|, |log| + 1);
  }

  lemma SpanIsBelowEnd(log: seq<Committed>, i: nat)
    requires i < |log|
    ensures Span(log, i).start <= Span(log, i).end <= End(log)
  {
    var bounds := Bounds(log);
    assert bounds[..|log|] == bounds;
    MarkGrows(bounds, i, i + 1);
    MarkGrows(bounds, i + 1, |log|);
  }

  lemma SpansAreOrdered(log: seq<Committed>, i: nat, j: nat)
    requires i < j < |log|
    ensures Span(log, i).end <= Span(log, j).start
  {
    IntervalsAreOrdered(Bounds(log), i, j);
  }

  /** Bounds saturate at the greatest `u64`, and so does the mark. */
  lemma MarkIsU64(log: seq<Committed>)
    requires forall i :: 0 <= i < |log| ==> log[i].bound <= U64_MAX
    ensures End(log) <= U64_MAX
  {
    MarkIsGreatest(Bounds(log));
  }

  // ----- uniqueness, with no trust in leases ---------------------------------------------------

  predicate WaitsFor(s: System, p: nat) {
    p in s.processes && s.processes[p].waiting.Some?
  }

  /** Process `p` holds `t`. */
  predicate Holds(s: System, p: nat, t: nat) {
    p in s.processes && s.processes[p].held.Has(t)
  }

  /** Bookkeeping: proposals and waits name distinct proposals, and every number is a `u64`. */
  ghost predicate Bookkept(s: System) {
    && (forall id :: id in s.proposals ==> id < s.nextId && s.proposals[id].bound <= U64_MAX)
    && (forall i :: 0 <= i < |s.log| ==> s.log[i].id < s.nextId && s.log[i].id !in s.proposals)
    && (forall i :: 0 <= i < |s.log| ==> s.log[i].bound <= U64_MAX)
    && (forall i, j :: 0 <= i < |s.log| && 0 <= j < |s.log| && s.log[i].id == s.log[j].id ==> i == j)
    && (forall p :: WaitsFor(s, p) ==> s.processes[p].waiting.value.id < s.nextId)
    && (forall p, q :: WaitsFor(s, p) && WaitsFor(s, q) && p != q ==>
          s.processes[p].waiting.value.id != s.processes[q].waiting.value.id)
    && (forall p :: p in s.processes ==> s.processes[p].held.Valid())
  }

  /** Process `p` waits for the answer that committed as entry `i`. */
  predicate Due(s: System, p: nat, i: nat) {
    && p in s.processes && i < |s.log|
    && s.processes[p].waiting.Some? && s.processes[p].waiting.value.id == s.log[i].id
  }

  /** Every timestamp is in one place at most: returned, held by one process, or in an interval still
      due. All of them are below the mark. */
  ghost predicate Separate(s: System) {
    && (forall k :: 0 <= k < |s.issued| ==> s.issued[k].value < End(s.log))
    && (forall j, k :: 0 <= j < k < |s.issued| ==> s.issued[j].value != s.issued[k].value)
    && (forall p :: p in s.processes ==> s.processes[p].held.end <= End(s.log))
    && (forall p, k :: 0 <= k < |s.issued| ==> !Holds(s, p, s.issued[k].value))
    && (forall p, q, t :: Holds(s, p, t) && Holds(s, q, t) ==> p == q)
    && (forall p, i, k :: Due(s, p, i) && 0 <= k < |s.issued| ==> !Span(s.log, i).Has(s.issued[k].value))
    && (forall p, i, q, t :: Due(s, p, i) && Holds(s, q, t) ==> !Span(s.log, i).Has(t))
  }

  /** A step that leaves the log, the proposals and every wait alone, or forgets some. */
  lemma BookkeptWhenForgetting(s: System, s': System)
    requires Bookkept(s)
    requires s'.log == s.log && s'.proposals == s.proposals && s'.nextId == s.nextId
    requires forall p :: p in s'.processes ==> s'.processes[p].held.Valid()
    requires forall p :: WaitsFor(s', p) ==>
               WaitsFor(s, p) && s'.processes[p].waiting.value.id == s.processes[p].waiting.value.id
    ensures Bookkept(s')
  {
  }

  lemma RefillKeepsBookkept(lease: bool, leaderOf: nat -> nat, s: System, at: nat, term: nat, now: nat, width: nat, s': System)
    requires Bookkept(s) && StepTo(lease, leaderOf, s, Refill(at, term, now, width), s')
    ensures Bookkept(s')
  {
    forall p | WaitsFor(s', p) && p != at
      ensures WaitsFor(s, p) && s'.processes[p].waiting == s.processes[p].waiting
    {
    }
  }

  lemma CommitKeepsBookkept(lease: bool, leaderOf: nat -> nat, s: System, id: nat, term: nat, s': System)
    requires Bookkept(s) && StepTo(lease, leaderOf, s, CommitProposal(id, term), s')
    ensures Bookkept(s')
  {
    forall i | 0 <= i < |s'.log|
      ensures s'.log[i] == if i < |s.log| then s.log[i] else Committed(s.proposals[id].bound, term, id)
    {
    }
    forall p | WaitsFor(s', p)
      ensures WaitsFor(s, p)
    {
    }
  }

  lemma AnswerKeepsBookkept(lease: bool, leaderOf: nat -> nat, s: System, at: nat, index: nat, s': System)
    requires Bookkept(s) && StepTo(lease, leaderOf, s, Answer(at, index), s')
    ensures Bookkept(s')
  {
    SpanIsBelowEnd(s.log, index);
    MarkIsU64(s.log);
    InstallHolds(s.processes[at].held, s.processes[at].waiting.value.tag, Span(s.log, index));
    BookkeptWhenForgetting(s, s');
  }

  lemma TakeKeepsBookkept(lease: bool, leaderOf: nat -> nat, s: System, request: nat, now: nat, s': System)
    requires Bookkept(s) && StepTo(lease, leaderOf, s, Take(request, now), s')
    ensures Bookkept(s')
  {
    var r := s.requests[request];
    TakeTakes(s.processes[r.at].held, r.term.value, now);
    BookkeptWhenForgetting(s, s');
  }

  lemma OtherKeepsBookkept(lease: bool, leaderOf: nat -> nat, s: System, e: Event, s': System)
    requires Bookkept(s) && StepTo(lease, leaderOf, s, e, s') && Idle(e)
    ensures Bookkept(s')
  {
    BookkeptWhenForgetting(s, s');
  }

  lemma BookkeptStays(lease: bool, leaderOf: nat -> nat, s: System, e: Event, s': System)
    requires Bookkept(s) && StepTo(lease, leaderOf, s, e, s')
    ensures Bookkept(s')
  {
    match e
    case Refill(at, term, now, width) => RefillKeepsBookkept(lease, leaderOf, s, at, term, now, width, s');
    case CommitProposal(id, term) => CommitKeepsBookkept(lease, leaderOf, s, id, term, s');
    case Answer(at, index) => AnswerKeepsBookkept(lease, leaderOf, s, at, index, s');
    case Take(request, now) => TakeKeepsBookkept(lease, leaderOf, s, request, now, s');
    case _ => OtherKeepsBookkept(lease, leaderOf, s, e, s');
  }

  /** A step that only lets go of timestamps and answers keeps everything separate. */
  lemma LettingGo(s: System, s': System)
    requires Separate(s)
    requires s'.log == s.log && s'.issued == s.issued
    requires forall p :: p in s'.processes && s'.processes[p].held != NOTHING_HELD ==>
               p in s.processes && s'.processes[p].held == s.processes[p].held
    requires forall p, i :: Due(s', p, i) ==> Due(s, p, i)
    ensures Separate(s')
  {
    forall p: nat, t: nat | Holds(s', p, t)
      ensures Holds(s, p, t)
    {
    }
  }

  lemma CommitKeepsSeparate(lease: bool, leaderOf: nat -> nat, s: System, id: nat, term: nat, s': System)
    requires Bookkept(s) && Separate(s) && StepTo(lease, leaderOf, s, CommitProposal(id, term), s')
    ensures Separate(s')
  {
    var c := Committed(s.proposals[id].bound, term, id);
    LastSpan(s.log, c);
    forall i | 0 <= i < |s.log|
      ensures Span(s'.log, i) == Span(s.log, i)
    {
      SpansStay(s.log, c, i);
    }
    forall p: nat, t: nat | Holds(s', p, t)
      ensures Holds(s, p, t) && t < End(s.log)
    {
    }
    forall p: nat, i: nat | Due(s', p, i)
      ensures i == |s.log| || Due(s, p, i)
    {
      assert i < |s.log| ==> s'.log[i] == s.log[i];
    }
  }

  lemma AnswerKeepsSeparate(lease: bool, leaderOf: nat -> nat, s: System, at: nat, index: nat, s': System)
    requires Bookkept(s) && Separate(s) && StepTo(lease, leaderOf, s, Answer(at, index), s')
    ensures Separate(s')
  {
    var p := s.processes[at];
    var span := Span(s.log, index);
    SpanIsBelowEnd(s.log, index);
    MarkIsU64(s.log);
    InstallHolds(p.held, p.waiting.value.tag, span);
    assert Due(s, at, index);
    forall q: nat, t: nat | Holds(s', q, t)
      ensures Holds(s, q, t) || (q == at && span.Has(t))
    {
    }
    forall q: nat, i: nat | Due(s', q, i)
      ensures Due(s, q, i) && q != at
      ensures i < index ==> Span(s.log, i).end <= span.start
      ensures i > index ==> span.end <= Span(s.log, i).start
      ensures i != index
    {
      assert WaitsFor(s, q) && WaitsFor(s, at);
      if i < index {
        SpansAreOrdered(s.log, i, index);
      } else if i > index {
        SpansAreOrdered(s.log, index, i);
      }
    }
  }

  /** Returning a timestamp that was held, and is not any more, keeps everything separate. */
  lemma IssuingSeparates(s: System, s': System, at: nat, r: Issued)
    requires Separate(s) && s'.log == s.log && s'.issued == s.issued + [r] && Holds(s, at, r.value)
    requires forall p :: p in s'.processes ==> s'.processes[p].held.end <= End(s.log)
    requires forall q: nat, t: nat :: Holds(s', q, t) ==> Holds(s, q, t) && t != r.value
    requires forall q: nat, i: nat :: Due(s', q, i) ==> Due(s, q, i)
    ensures Separate(s')
  {
  }

  lemma TakeKeepsSeparate(lease: bool, leaderOf: nat -> nat, s: System, request: nat, now: nat, s': System)
    requires Bookkept(s) && Separate(s) && StepTo(lease, leaderOf, s, Take(request, now), s')
    ensures Separate(s')
  {
    var r := s.requests[request];
    var p := s.processes[r.at];
    var taken := Taken(p.held, r.term.value, now);
    TakeTakes(p.held, r.term.value, now);
    if taken.Some? {
      forall q: nat, t: nat | Holds(s', q, t)
        ensures Holds(s, q, t) && t != taken.value
      {
        TakenIsNotHeld(s, q, r.at, taken.value, t, r.term.value, now, s');
      }
      IssuingSeparates(s, s', r.at, Issued(taken.value, r.at, r.term.value, p.last, r.since));
    } else {
      assert s'.issued == s.issued;
      LettingGo(s, s');
    }
  }

  lemma TakenIsNotHeld(s: System, q: nat, at: nat, v: nat, t: nat, term: nat, now: nat, s': System)
    requires Separate(s) && at in s.processes && s.processes[at].held.Valid()
    requires Taken(s.processes[at].held, term, now) == Some(v) && Holds(s', q, t)
    requires q in s.processes && s'.processes[q].held
             == if q == at then AfterTake(s.processes[at].held, term, now) else s.processes[q].held
    ensures Holds(s, q, t) && t != v
  {
    TakeTakes(s.processes[at].held, term, now);
    assert Holds(s, at, v);
    if q == at {
      assert AfterTake(s.processes[at].held, term, now).Has(t);
    } else {
      assert Holds(s, q, t);
    }
  }

  lemma RefillKeepsSeparate(lease: bool, leaderOf: nat -> nat, s: System, at: nat, term: nat, now: nat, width: nat, s': System)
    requires Bookkept(s) && Separate(s) && StepTo(lease, leaderOf, s, Refill(at, term, now, width), s')
    ensures Separate(s')
  {
    forall p: nat, i: nat | Due(s', p, i)
      ensures Due(s, p, i)
    {
      assert s.log[i].id < s.nextId;
    }
    LettingGo(s, s');
  }

  /** The steps that neither commit, answer, take nor send. */
  predicate Idle(e: Event) {
    e.Covered? || e.AnswerLost? || e.Arrive? || e.Check? || e.Reject? || e.Restart?
  }

  lemma OtherKeepsSeparate(lease: bool, leaderOf: nat -> nat, s: System, e: Event, s': System)
    requires Separate(s) && StepTo(lease, leaderOf, s, e, s') && Idle(e)
    ensures Separate(s')
  {
    LettingGo(s, s');
  }

  /** No timestamp is ever in two places, whatever lease checks, terms and clocks say. */
  lemma SeparateStays(lease: bool, leaderOf: nat -> nat, s: System, e: Event, s': System)
    requires Bookkept(s) && Separate(s) && StepTo(lease, leaderOf, s, e, s')
    ensures Separate(s')
  {
    match e
    case CommitProposal(id, term) => CommitKeepsSeparate(lease, leaderOf, s, id, term, s');
    case Answer(at, index) => AnswerKeepsSeparate(lease, leaderOf, s, at, index, s');
    case Take(request, now) => TakeKeepsSeparate(lease, leaderOf, s, request, now, s');
    case Refill(at, term, now, width) => RefillKeepsSeparate(lease, leaderOf, s, at, term, now, width, s');
    case _ => OtherKeepsSeparate(lease, leaderOf, s, e, s');
  }

  lemma SeparateAlong(lease: bool, leaderOf: nat -> nat, states: seq<System>, events: seq<Event>, k: nat)
    requires Run(lease, leaderOf, states, events) && k < |events| && Bookkept(states[k]) && Separate(states[k])
    ensures Bookkept(states[k + 1]) && Separate(states[k + 1])
  {
    BookkeptStays(lease, leaderOf, states[k], events[k], states[k + 1]);
    SeparateStays(lease, leaderOf, states[k], events[k], states[k + 1]);
  }

  lemma {:induction false} RunsAreSeparate(lease: bool, leaderOf: nat -> nat, states: seq<System>, events: seq<Event>, k: nat)
    requires Run(lease, leaderOf, states, events) && k < |states|
    ensures Bookkept(states[k]) && Separate(states[k])
  {
    if k > 0 {
      RunsAreSeparate(lease, leaderOf, states, events, k - 1);
      SeparateAlong(lease, leaderOf, states, events, k - 1);
    }
  }

  /** Uniqueness, lease or no lease: in no run is a timestamp returned twice, by any processes. */
  lemma NoTimestampTwice(lease: bool, leaderOf: nat -> nat, states: seq<System>, events: seq<Event>, j: nat, k: nat)
    requires Run(lease, leaderOf, states, events)
    requires j < |states[|events|].issued| && k < |states[|events|].issued|
    requires states[|events|].issued[j].value == states[|events|].issued[k].value
    ensures j == k
  {
    RunsAreSeparate(lease, leaderOf, states, events, |events|);
  }

  /** And none runs past every clock: a returned timestamp is below the bound some refill proposed. */
  lemma BoundedByAClock(lease: bool, leaderOf: nat -> nat, states: seq<System>, events: seq<Event>, k: nat)
    returns (i: nat)
    requires Run(lease, leaderOf, states, events) && k < |states[|events|].issued|
    ensures i < |states[|events|].log| && states[|events|].issued[k].value < states[|events|].log[i].bound <= U64_MAX
  {
    var s := states[|events|];
    RunsAreSeparate(lease, leaderOf, states, events, |events|);
    i := BelowSomeBound(Bounds(s.log), s.issued[k].value);
  }

  /** Some refill among the first `k` events read a clock and proposed this bound. */
  ghost predicate Proposed(events: seq<Event>, k: nat, bound: nat) {
    exists e :: 0 <= e < k && e < |events| && events[e].Refill?
                && bound == SaturatingAdd(events[e].now, events[e].width)
  }

  lemma {:induction false} BoundsWereProposed(lease: bool, leaderOf: nat -> nat, states: seq<System>,
                                              events: seq<Event>, k: nat)
    requires Run(lease, leaderOf, states, events) && k < |states|
    ensures forall id :: id in states[k].proposals ==> Proposed(events, k, states[k].proposals[id].bound)
    ensures forall i :: 0 <= i < |states[k].log| ==> Proposed(events, k, states[k].log[i].bound)
  {
    if k > 0 {
      BoundsWereProposed(lease, leaderOf, states, events, k - 1);
      var s, e, s' := states[k - 1], events[k - 1], states[k];
      assert StepTo(lease, leaderOf, s, e, s');
      forall bound | Proposed(events, k - 1, bound)
        ensures Proposed(events, k, bound)
      {
      }
      if e.Refill? {
        assert Proposed(events, k, SaturatingAdd(e.now, e.width));
      }
      NothingElseIsProposed(lease, leaderOf, s, e, s');
    }
  }

  lemma NothingElseIsProposed(lease: bool, leaderOf: nat -> nat, s: System, e: Event, s': System)
    requires StepTo(lease, leaderOf, s, e, s')
    ensures forall id :: id in s'.proposals ==>
              || (id in s.proposals && s'.proposals[id] == s.proposals[id])
              || (e.Refill? && s'.proposals[id].bound == SaturatingAdd(e.now, e.width))
    ensures forall i :: 0 <= i < |s'.log| ==>
              || (i < |s.log| && s'.log[i] == s.log[i])
              || (e.CommitProposal? && e.id in s.proposals && s'.log[i].bound == s.proposals[e.id].bound)
  {
  }

  /** Only a take returns a timestamp, one at a time; nothing returned is forgotten. */
  lemma IssuedGrows(lease: bool, leaderOf: nat -> nat, s: System, e: Event, s': System)
    requires StepTo(lease, leaderOf, s, e, s')
    ensures s.issued <= s'.issued && |s'.issued| <= |s.issued| + 1
    ensures |s'.issued| > |s.issued| ==> e.Take?
    ensures s'.log == s.log || !e.Take?
  {
  }

  /** The take that returned the `k`-th timestamp. */
  lemma {:induction false} TakenAt(lease: bool, leaderOf: nat -> nat, states: seq<System>, events: seq<Event>,
                                   n: nat, k: nat)
    returns (t: nat)
    requires Run(lease, leaderOf, states, events) && n < |states| && k < |states[n].issued|
    ensures t < n && events[t].Take? && |states[t].issued| == k && |states[t + 1].issued| == k + 1
    ensures states[t + 1].issued[k] == states[n].issued[k]
  {
    assert StepTo(lease, leaderOf, states[n - 1], events[n - 1], states[n - 1 + 1]);
    IssuedGrows(lease, leaderOf, states[n - 1], events[n - 1], states[n]);
    if k < |states[n - 1].issued| {
      t := TakenAt(lease, leaderOf, states, events, n - 1, k);
    } else {
      t := n - 1;
    }
  }

  lemma BelowAProposal(lease: bool, leaderOf: nat -> nat, states: seq<System>, events: seq<Event>, n: nat, k: nat)
    returns (bound: nat)
    requires Run(lease, leaderOf, states, events) && n < |states| && k < |states[n].issued|
    ensures states[n].issued[k].value < bound && Proposed(events, n, bound)
  {
    var s := states[n];
    RunsAreSeparate(lease, leaderOf, states, events, n);
    var i := BelowSomeBound(Bounds(s.log), s.issued[k].value);
    BoundsWereProposed(lease, leaderOf, states, events, n);
    bound := s.log[i].bound;
  }

  /** No returned timestamp runs past every clock: it lies below what some refill before the take that
      returned it read off its clock, plus the width it reserved. */
  lemma BelowAClock(lease: bool, leaderOf: nat -> nat, states: seq<System>, events: seq<Event>, k: nat)
    returns (e: nat, t: nat)
    requires Run(lease, leaderOf, states, events) && k < |states[|events|].issued|
    ensures e < t < |events| && events[e].Refill?
    ensures events[t].Take? && |states[t].issued| == k && |states[t + 1].issued| == k + 1
    ensures states[|events|].issued[k].value < events[e].now + events[e].width
  {
    t := TakenAt(lease, leaderOf, states, events, |events|, k);
    var bound := BelowAProposal(lease, leaderOf, states, events, t + 1, k);
    e :| 0 <= e < t + 1 && e < |events| && events[e].Refill?
         && bound == SaturatingAdd(events[e].now, events[e].width);
  }

  // ----- real-time order, with leases ----------------------------------------------------------

  /** What a process holds came from the committed intervals `first` to `last`, and the process was checked
      leader of the term it is tagged with. The terms those intervals committed under do not matter. */
  ghost predicate Sourced(leaderOf: nat -> nat, s: System, p: Process, at: nat) {
    !p.held.Empty() ==>
      && p.first <= p.last < |s.log|
      && Span(s.log, p.first).start <= p.held.next
      && p.held.end == Span(s.log, p.last).end
      && p.held.term <= s.maxTerm && leaderOf(p.held.term) == at
  }

  /** A refill in flight was sent by the checked leader of its tag and commits past the log it saw; what
      its process holds, and all that was returned under no newer term, came from before it. */
  ghost predicate Tagged(leaderOf: nat -> nat, s: System, p: Process, at: nat) {
    p.waiting.Some? ==>
      var w := p.waiting.value;
      && w.from <= |s.log| && w.tag <= s.maxTerm && leaderOf(w.tag) == at
      && (forall i :: 0 <= i < |s.log| && s.log[i].id == w.id ==> w.from <= i)
      && (!p.held.Empty() ==> p.last < w.from)
      && (forall k :: 0 <= k < |s.issued| && s.issued[k].term <= w.tag ==> s.issued[k].index < w.from)
  }

  /** A returned timestamp came from a committed interval, by the checked leader of the term its request
      checked. */
  ghost predicate Witnessed(leaderOf: nat -> nat, s: System, r: Issued) {
    && r.index < |s.log| && r.value < Span(s.log, r.index).end
    && r.term <= s.maxTerm && leaderOf(r.term) == r.at
  }

  /** A process could still pass a lease check under the term of what it holds. */
  predicate Current(s: System, p: Process) {
    !p.held.Empty() && s.maxTerm <= p.held.term
  }

  /** Everything returned so far lies below what a process that could still serve would return next. */
  ghost predicate Ahead(s: System, p: Process) {
    Current(s, p) ==> forall k :: 0 <= k < |s.issued| ==> s.issued[k].value < p.held.next
  }

  /** The request that has its process's lock could be served from what the process holds. */
  predicate Servable(s: System, request: nat)
    requires request in s.requests
  {
    var r := s.requests[request];
    r.term.Some? && r.at in s.processes && s.processes[r.at].serving == Some(request)
    && !s.processes[r.at].held.Empty() && s.processes[r.at].held.term == r.term.value
  }

  /** A request that has passed its check will return more than all that was returned before it came. */
  ghost predicate Serving(s: System, request: nat)
    requires request in s.requests
  {
    var r := s.requests[request];
    r.since <= |s.issued|
    && (Servable(s, request) ==>
          forall k :: 0 <= k < r.since ==> s.issued[k].value < s.processes[r.at].held.next)
  }

  /** What a request under an older term would be served comes from before anything held, or still to
      come, under a newer one: no answer is installed while the request has the lock. */
  ghost predicate Behind(s: System, request: nat, q: nat)
    requires request in s.requests && q in s.processes
  {
    Servable(s, request) ==>
      var r, b := s.requests[request], s.processes[q];
      var last := s.processes[r.at].last;
      && (!b.held.Empty() && r.term.value < b.held.term ==> last < b.first)
      && (b.waiting.Some? && r.term.value < b.waiting.value.tag ==> last < b.waiting.value.from)
  }

  /** A timestamp is greater than every one returned before its request arrived. */
  ghost predicate InTime(issued: seq<Issued>) {
    forall j, k :: 0 <= k < |issued| && 0 <= j < issued[k].since ==> j < k && issued[j].value < issued[k].value
  }

  /** What holds of one process. */
  ghost predicate Fit(leaderOf: nat -> nat, s: System, p: Process, at: nat) {
    Sourced(leaderOf, s, p, at) && Tagged(leaderOf, s, p, at) && Ahead(s, p)
  }

  ghost predicate Ordered(leaderOf: nat -> nat, s: System) {
    && (forall p :: p in s.processes ==> Fit(leaderOf, s, s.processes[p], p))
    && (forall k :: 0 <= k < |s.issued| ==> Witnessed(leaderOf, s, s.issued[k]))
    && (forall q :: q in s.requests ==> Serving(s, q))
    && (forall q, p :: q in s.requests && p in s.processes ==> Behind(s, q, p))
    && InTime(s.issued)
  }

  /** A timestamp out of an interval lies below every later one. */
  lemma OlderIsBelow(leaderOf: nat -> nat, s: System, r: Issued, first: nat)
    requires Witnessed(leaderOf, s, r) && r.index < first < |s.log|
    ensures r.value < Span(s.log, first).start
  {
    SpansAreOrdered(s.log, r.index, first);
  }

  // ----- steps that leave what is held and committed alone -------------------------------------

  /** The process holds what it held, and waits for what it waited for or for nothing. */
  predicate Kept(s: System, s': System, p: nat) {
    && p in s.processes && p in s'.processes
    && var a, b := s.processes[p], s'.processes[p];
    && b.held == a.held && b.first == a.first && b.last == a.last
    && (b.waiting == a.waiting || b.waiting.None?)
  }

  lemma KeptIsFit(leaderOf: nat -> nat, s: System, s': System, at: nat)
    requires s'.log == s.log && s'.issued == s.issued && s.maxTerm <= s'.maxTerm && Kept(s, s', at)
    requires Fit(leaderOf, s, s.processes[at], at)
    ensures Fit(leaderOf, s', s'.processes[at], at)
  {
  }

  lemma FreshIsFit(leaderOf: nat -> nat, s: System, at: nat)
    ensures Fit(leaderOf, s, FRESH, at)
  {
  }

  /** A request that was there, with what it could be served as it was. */
  predicate SameRequest(s: System, s': System, q: nat) {
    && q in s.requests && q in s'.requests && s'.requests[q] == s.requests[q]
    && (Servable(s', q) ==>
          && Servable(s, q)
          && s'.processes[s.requests[q].at].held == s.processes[s.requests[q].at].held
          && s'.processes[s.requests[q].at].last == s.processes[s.requests[q].at].last)
  }

  lemma SameIsServed(s: System, s': System, q: nat, p: nat)
    requires s'.issued == s.issued && SameRequest(s, s', q) && Serving(s, q)
    requires p in s'.processes
    requires s'.processes[p] == FRESH || (Kept(s, s', p) && Behind(s, q, p))
    ensures Serving(s', q) && Behind(s', q, p)
  {
  }

  /** A step that commits, returns, sends and installs nothing keeps the order. */
  lemma QuietKeepsOrdered(leaderOf: nat -> nat, s: System, s': System)
    requires Ordered(leaderOf, s)
    requires s'.log == s.log && s'.issued == s.issued && s.maxTerm <= s'.maxTerm
    requires forall p :: p in s'.processes ==> s'.processes[p] == FRESH || Kept(s, s', p)
    requires forall q :: q in s'.requests ==>
               SameRequest(s, s', q) || (Serving(s', q) && forall p :: p in s'.processes ==> Behind(s', q, p))
    ensures Ordered(leaderOf, s')
  {
    forall p | p in s'.processes
      ensures Fit(leaderOf, s', s'.processes[p], p)
    {
      if s'.processes[p] == FRESH {
        FreshIsFit(leaderOf, s', p);
      } else {
        KeptIsFit(leaderOf, s, s', p);
      }
    }
    forall k | 0 <= k < |s'.issued|
      ensures Witnessed(leaderOf, s', s'.issued[k])
    {
      assert Witnessed(leaderOf, s, s.issued[k]);
    }
    forall q, p | q in s'.requests && p in s'.processes
      ensures Behind(s', q, p)
    {
      if SameRequest(s, s', q) {
        assert Kept(s, s', p) ==> Behind(s, q, p);
        SameIsServed(s, s', q, p);
      }
    }
    forall q | q in s'.requests
      ensures Serving(s', q)
    {
      if SameRequest(s, s', q) {
        assert Serving(s, q);
      }
    }
  }

  lemma NewRequest(s: System, q: nat)
    requires q in s.requests && s.requests[q].term.None? && s.requests[q].since <= |s.issued|
    ensures Serving(s, q) && forall p :: p in s.processes ==> Behind(s, q, p)
  {
  }

  lemma IdleKeepsOrdered(leaderOf: nat -> nat, s: System, e: Event, s': System)
    requires Ordered(leaderOf, s) && StepTo(true, leaderOf, s, e, s')
    requires e.Covered? || e.AnswerLost? || e.Arrive? || e.Reject? || e.Restart?
    ensures Ordered(leaderOf, s')
  {
    if e.Arrive? {
      NewRequest(s', e.request);
    }
    QuietKeepsOrdered(leaderOf, s, s');
  }

  /** A check under a term at least as new as all there have been. */
  lemma CheckedIsServed(leaderOf: nat -> nat, s: System, request: nat, term: nat, s': System)
    requires Ordered(leaderOf, s) && StepTo(true, leaderOf, s, Check(request, term), s')
    ensures Serving(s', request) && forall p :: p in s'.processes ==> Behind(s', request, p)
  {
    var at := s.requests[request].at;
    assert Fit(leaderOf, s, s.processes[at], at) && Serving(s, request);
    forall p | p in s'.processes
      ensures Behind(s', request, p)
    {
      assert Fit(leaderOf, s, s.processes[p], p);
    }
  }

  lemma CheckKeepsOrdered(leaderOf: nat -> nat, s: System, request: nat, term: nat, s': System)
    requires Ordered(leaderOf, s) && StepTo(true, leaderOf, s, Check(request, term), s')
    ensures Ordered(leaderOf, s')
  {
    CheckedIsServed(leaderOf, s, request, term, s');
    QuietKeepsOrdered(leaderOf, s, s');
  }

  // ----- sending a refill ----------------------------------------------------------------------

  lemma SenderIsFit(leaderOf: nat -> nat, s: System, at: nat, term: nat, now: nat, width: nat, s': System)
    requires Bookkept(s) && Ordered(leaderOf, s)
    requires StepTo(true, leaderOf, s, Refill(at, term, now, width), s')
    ensures Fit(leaderOf, s', s'.processes[at], at)
  {
    assert Fit(leaderOf, s, s.processes[at], at);
    forall k | 0 <= k < |s.issued|
      ensures s.issued[k].index < |s.log|
    {
      assert Witnessed(leaderOf, s, s.issued[k]);
    }
  }

  lemma SenderIsAheadOf(leaderOf: nat -> nat, s: System, at: nat, term: nat, now: nat, width: nat, s': System, q: nat)
    requires Ordered(leaderOf, s) && StepTo(true, leaderOf, s, Refill(at, term, now, width), s')
    requires q in s.requests
    ensures Behind(s', q, at)
  {
    assert Behind(s, q, at);
    if Servable(s, q) {
      assert Fit(leaderOf, s, s.processes[s.requests[q].at], s.requests[q].at);
    }
  }

  lemma RefillKeepsOrdered(leaderOf: nat -> nat, s: System, at: nat, term: nat, now: nat, width: nat, s': System)
    requires Bookkept(s) && Ordered(leaderOf, s)
    requires StepTo(true, leaderOf, s, Refill(at, term, now, width), s')
    ensures Ordered(leaderOf, s')
  {
    forall p | p in s'.processes
      ensures Fit(leaderOf, s', s'.processes[p], p)
    {
      if p == at {
        SenderIsFit(leaderOf, s, at, term, now, width, s');
      } else {
        KeptIsFit(leaderOf, s, s', p);
      }
    }
    forall k | 0 <= k < |s'.issued|
      ensures Witnessed(leaderOf, s', s'.issued[k])
    {
      assert Witnessed(leaderOf, s, s.issued[k]);
    }
    forall q, p | q in s'.requests && p in s'.processes
      ensures Behind(s', q, p)
    {
      assert SameRequest(s, s', q);
      if p == at {
        SenderIsAheadOf(leaderOf, s, at, term, now, width, s', q);
      } else {
        assert Behind(s, q, p) && Serving(s, q);
        SameIsServed(s, s', q, p);
      }
    }
    forall q | q in s'.requests
      ensures Serving(s', q)
    {
      assert Serving(s, q) && SameRequest(s, s', q);
    }
  }

  // ----- committing ----------------------------------------------------------------------------

  lemma CommitKeepsFit(leaderOf: nat -> nat, s: System, c: Committed, s': System, at: nat)
    requires at in s.processes && Fit(leaderOf, s, s.processes[at], at)
    requires s' == s.(log := s.log + [c], proposals := s'.proposals)
    ensures Fit(leaderOf, s', s.processes[at], at)
  {
    var p := s.processes[at];
    if !p.held.Empty() {
      SpansStay(s.log, c, p.first);
      SpansStay(s.log, c, p.last);
    }
  }

  lemma CommitKeepsOrdered(leaderOf: nat -> nat, s: System, id: nat, term: nat, s': System)
    requires Ordered(leaderOf, s) && StepTo(true, leaderOf, s, CommitProposal(id, term), s')
    ensures Ordered(leaderOf, s')
  {
    var c := Committed(s.proposals[id].bound, term, id);
    forall p | p in s'.processes
      ensures Fit(leaderOf, s', s'.processes[p], p)
    {
      CommitKeepsFit(leaderOf, s, c, s', p);
    }
    forall k | 0 <= k < |s'.issued|
      ensures Witnessed(leaderOf, s', s'.issued[k])
    {
      assert Witnessed(leaderOf, s, s.issued[k]);
      SpansStay(s.log, c, s.issued[k].index);
    }
    forall q, p | q in s'.requests && p in s'.processes
      ensures Behind(s', q, p)
    {
      assert Behind(s, q, p);
    }
    forall q | q in s'.requests
      ensures Serving(s', q)
    {
      assert Serving(s, q);
    }
  }

  // ----- installing an answer ------------------------------------------------------------------

  /** An answered refill leaves its process ahead of everything returned, if it could still serve. The
      term its interval committed under plays no part: a stale tag is harmless. */
  lemma AnsweredIsAhead(leaderOf: nat -> nat, s: System, at: nat, index: nat)
    requires Ordered(leaderOf, s) && Bookkept(s) && Due(s, at, index)
    ensures Ahead(s, Answered(s.log, s.processes[at], index))
  {
    var p := s.processes[at];
    var p' := Answered(s.log, p, index);
    assert Fit(leaderOf, s, p, at);
    if Current(s, p') {
      forall k | 0 <= k < |s.issued|
        ensures s.issued[k].value < p'.held.next
      {
        var r := s.issued[k];
        assert Witnessed(leaderOf, s, r);
        if p'.first == index {
          OlderIsBelow(leaderOf, s, r, index);
        }
      }
    }
  }

  lemma AnsweredIsFit(leaderOf: nat -> nat, s: System, at: nat, index: nat)
    requires Ordered(leaderOf, s) && Bookkept(s) && Due(s, at, index)
    ensures Fit(leaderOf, s, Answered(s.log, s.processes[at], index), at)
  {
    var p := s.processes[at];
    assert Fit(leaderOf, s, p, at);
    SpanIsBelowEnd(s.log, index);
    AnsweredIsAhead(leaderOf, s, at, index);
  }

  /** What other requests would be served stays behind what was installed. */
  lemma AnsweredIsAheadOf(leaderOf: nat -> nat, s: System, at: nat, index: nat, s': System, q: nat)
    requires Bookkept(s) && Ordered(leaderOf, s) && StepTo(true, leaderOf, s, Answer(at, index), s')
    requires q in s'.requests
    ensures Behind(s', q, at)
  {
    assert Behind(s, q, at) && Due(s, at, index);
    assert Fit(leaderOf, s, s.processes[at], at);
  }

  lemma AnswerKeepsFit(leaderOf: nat -> nat, s: System, at: nat, index: nat, s': System, p: nat)
    requires Bookkept(s) && Ordered(leaderOf, s) && StepTo(true, leaderOf, s, Answer(at, index), s')
    requires p in s'.processes
    ensures Fit(leaderOf, s', s'.processes[p], p)
  {
    assert Due(s, at, index);
    if p == at {
      AnsweredIsFit(leaderOf, s, at, index);
    } else {
      KeptIsFit(leaderOf, s, s', p);
    }
  }

  lemma AnswerKeepsOrdered(leaderOf: nat -> nat, s: System, at: nat, index: nat, s': System)
    requires Bookkept(s) && Ordered(leaderOf, s) && StepTo(true, leaderOf, s, Answer(at, index), s')
    ensures Ordered(leaderOf, s')
  {
    assert Due(s, at, index);
    forall p | p in s'.processes
      ensures Fit(leaderOf, s', s'.processes[p], p)
    {
      AnswerKeepsFit(leaderOf, s, at, index, s', p);
    }
    forall k | 0 <= k < |s'.issued|
      ensures Witnessed(leaderOf, s', s'.issued[k])
    {
      assert Witnessed(leaderOf, s, s.issued[k]);
    }
    forall q, p | q in s'.requests && p in s'.processes
      ensures Behind(s', q, p)
    {
      assert SameRequest(s, s', q);
      if p == at {
        AnsweredIsAheadOf(leaderOf, s, at, index, s', q);
      } else {
        assert Behind(s, q, p) && Serving(s, q);
        SameIsServed(s, s', q, p);
      }
    }
    forall q | q in s'.requests
      ensures Serving(s', q)
    {
      assert Serving(s, q) && SameRequest(s, s', q);
    }
  }

  // ----- taking --------------------------------------------------------------------------------

  /** The one timestamp a take returned. */
  function Returned(s: System, request: nat, now: nat): Issued
    requires request in s.requests && s.requests[request].term.Some? && s.requests[request].at in s.processes
    requires Taken(s.processes[s.requests[request].at].held, s.requests[request].term.value, now).Some?
  {
    var r := s.requests[request];
    var p := s.processes[r.at];
    Issued(Taken(p.held, r.term.value, now).value, r.at, r.term.value, p.last, r.since)
  }

  ghost predicate Takes(leaderOf: nat -> nat, s: System, request: nat, now: nat, s': System) {
    && Bookkept(s) && Ordered(leaderOf, s) && StepTo(true, leaderOf, s, Take(request, now), s')
    && Taken(s.processes[s.requests[request].at].held, s.requests[request].term.value, now).Some?
  }

  /** What a take returns came from the last interval its process holds, under its term, and lies past all
      that was returned before its request came. */
  lemma TakenIsInTime(leaderOf: nat -> nat, s: System, request: nat, now: nat, s': System)
    requires Takes(leaderOf, s, request, now, s')
    ensures var r, x := s.requests[request], Returned(s, request, now);
            var p := s.processes[r.at];
            && Servable(s, request) && Witnessed(leaderOf, s, x) && p.held.next <= x.value < p.held.end
            && x.term == p.held.term && r.since <= |s.issued|
            && forall j :: 0 <= j < r.since ==> s.issued[j].value < x.value
    ensures s'.issued == s.issued + [Returned(s, request, now)]
  {
    var r := s.requests[request];
    TakeTakes(s.processes[r.at].held, r.term.value, now);
    assert Serving(s, request) && Fit(leaderOf, s, s.processes[r.at], r.at);
  }

  /** What was returned is behind everything held or still to come under a newer term, and under the same
      term there is only one process. */
  lemma ServableIsBehind(leaderOf: nat -> nat, s: System, request: nat, x: Issued, q: nat)
    requires request in s.requests && q in s.processes && Servable(s, request) && Behind(s, request, q)
    requires Witnessed(leaderOf, s, x) && Fit(leaderOf, s, s.processes[q], q)
    requires var r := s.requests[request];
             x.at == r.at && x.term == r.term.value && x.index == s.processes[r.at].last
    requires Fit(leaderOf, s, s.processes[x.at], x.at)
    ensures var b := s.processes[q];
            && (b.waiting.Some? && x.term <= b.waiting.value.tag ==> x.index < b.waiting.value.from)
            && (q != x.at && Current(s, b) ==> x.value < b.held.next)
  {
    var b := s.processes[q];
    if q != x.at && Current(s, b) {
      OlderIsBelow(leaderOf, s, x, b.first);
    }
  }

  lemma ReturnedIsBehind(leaderOf: nat -> nat, s: System, request: nat, now: nat, s': System, q: nat)
    requires Takes(leaderOf, s, request, now, s') && q in s.processes
    ensures var x, b := Returned(s, request, now), s.processes[q];
            && (b.waiting.Some? && x.term <= b.waiting.value.tag ==> x.index < b.waiting.value.from)
            && (q != x.at && Current(s, b) ==> x.value < b.held.next)
  {
    TakenIsInTime(leaderOf, s, request, now, s');
    var x := Returned(s, request, now);
    assert Behind(s, request, q) && Fit(leaderOf, s, s.processes[q], q) && Fit(leaderOf, s, s.processes[x.at], x.at);
    ServableIsBehind(leaderOf, s, request, x, q);
  }

  /** The process that took goes on ahead of what it returned; the others stay ahead of it. */
  lemma TakeKeepsFit(leaderOf: nat -> nat, s: System, request: nat, now: nat, s': System, q: nat)
    requires Takes(leaderOf, s, request, now, s') && q in s'.processes
    ensures Fit(leaderOf, s', s'.processes[q], q)
  {
    TakenIsInTime(leaderOf, s, request, now, s');
    ReturnedIsBehind(leaderOf, s, request, now, s', q);
    assert Fit(leaderOf, s, s.processes[q], q);
    StillFit(leaderOf, s, s.processes[q], q, Returned(s, request, now), s', s'.processes[q]);
  }

  lemma StillFit(leaderOf: nat -> nat, s: System, p: Process, at: nat, x: Issued, s': System, p': Process)
    requires Fit(leaderOf, s, p, at)
    requires s'.log == s.log && s'.maxTerm == s.maxTerm && s'.issued == s.issued + [x]
    requires p.waiting.Some? && x.term <= p.waiting.value.tag ==> x.index < p.waiting.value.from
    requires p'.first == p.first && p'.last == p.last && p'.waiting == p.waiting
    requires if at == x.at then p.held.next <= x.value && p'.held == p.held.(next := x.value + 1)
             else p'.held == p.held && (Current(s, p) ==> x.value < p.held.next)
    ensures Fit(leaderOf, s', p', at)
  {
  }

  lemma OneMoreInTime(issued: seq<Issued>, r: Issued)
    requires InTime(issued) && r.since <= |issued|
    requires forall j :: 0 <= j < r.since ==> issued[j].value < r.value
    ensures InTime(issued + [r])
  {
  }

  /** What other processes serve is untouched by a take. */
  lemma ServedElsewhere(leaderOf: nat -> nat, s: System, request: nat, now: nat, s': System, q: nat, p: nat)
    requires Takes(leaderOf, s, request, now, s') && q in s'.requests && p in s'.processes
    ensures Serving(s', q) && Behind(s', q, p)
  {
    TakenIsInTime(leaderOf, s, request, now, s');
    assert Serving(s, q) && Behind(s, q, p);
  }

  lemma TakeKeepsOrdered(leaderOf: nat -> nat, s: System, request: nat, now: nat, s': System)
    requires Takes(leaderOf, s, request, now, s')
    ensures Ordered(leaderOf, s')
  {
    TakenIsInTime(leaderOf, s, request, now, s');
    OneMoreInTime(s.issued, Returned(s, request, now));
    forall p | p in s'.processes
      ensures Fit(leaderOf, s', s'.processes[p], p)
    {
      TakeKeepsFit(leaderOf, s, request, now, s', p);
    }
    forall k | 0 <= k < |s'.issued|
      ensures Witnessed(leaderOf, s', s'.issued[k])
    {
      assert k < |s.issued| ==> Witnessed(leaderOf, s, s.issued[k]);
    }
    forall q, p | q in s'.requests && p in s'.processes
      ensures Behind(s', q, p)
    {
      ServedElsewhere(leaderOf, s, request, now, s', q, p);
    }
    forall q | q in s'.requests
      ensures Serving(s', q)
    {
      ServedElsewhere(leaderOf, s, request, now, s', q, s.requests[request].at);
    }
  }

  lemma EmptyTakeKeepsOrdered(leaderOf: nat -> nat, s: System, request: nat, now: nat, s': System)
    requires Bookkept(s) && Ordered(leaderOf, s) && StepTo(true, leaderOf, s, Take(request, now), s')
    requires !Takes(leaderOf, s, request, now, s')
    ensures Ordered(leaderOf, s')
  {
    assert s'.issued == s.issued;
    QuietKeepsOrdered(leaderOf, s, s');
  }

  // ----- whole runs ----------------------------------------------------------------------------

  lemma OrderedStays(leaderOf: nat -> nat, s: System, e: Event, s': System)
    requires Bookkept(s) && Ordered(leaderOf, s) && StepTo(true, leaderOf, s, e, s')
    ensures Ordered(leaderOf, s')
  {
    match e
    case Refill(at, term, now, width) => RefillKeepsOrdered(leaderOf, s, at, term, now, width, s');
    case CommitProposal(id, term) => CommitKeepsOrdered(leaderOf, s, id, term, s');
    case Answer(at, index) => AnswerKeepsOrdered(leaderOf, s, at, index, s');
    case Check(request, term) => CheckKeepsOrdered(leaderOf, s, request, term, s');
    case Take(request, now) =>
      if Takes(leaderOf, s, request, now, s') {
        TakeKeepsOrdered(leaderOf, s, request, now, s');
      } else {
        EmptyTakeKeepsOrdered(leaderOf, s, request, now, s');
      }
    case _ => IdleKeepsOrdered(leaderOf, s, e, s');
  }

  lemma OrderedAlong(leaderOf: nat -> nat, states: seq<System>, events: seq<Event>, k: nat)
    requires Run(true, leaderOf, states, events) && k < |events| && Bookkept(states[k]) && Ordered(leaderOf, states[k])
    ensures Ordered(leaderOf, states[k + 1])
  {
    OrderedStays(leaderOf, states[k], events[k], states[k + 1]);
  }

  lemma {:induction false} RunsAreOrdered(leaderOf: nat -> nat, states: seq<System>, events: seq<Event>, k: nat)
    requires Run(true, leaderOf, states, events) && k < |states|
    ensures Ordered(leaderOf, states[k])
  {
    if k > 0 {
      RunsAreOrdered(leaderOf, states, events, k - 1);
      RunsAreSeparate(true, leaderOf, states, events, k - 1);
      OrderedAlong(leaderOf, states, events, k - 1);
    }
  }

  /** Real-time order: with leases that hold, a request that arrives after a timestamp was returned gets
      a greater one, across leader changes, stale tags and restarts. `since` counts the timestamps that
      had been returned when the request arrived. */
  lemma LaterRequestsGetGreater(leaderOf: nat -> nat, states: seq<System>, events: seq<Event>, j: nat, k: nat)
    requires Run(true, leaderOf, states, events)
    requires k < |states[|events|].issued| && j < states[|events|].issued[k].since
    ensures j < k && states[|events|].issued[j].value < states[|events|].issued[k].value
  {
    RunsAreOrdered(leaderOf, states, events, |events|);
  }

  // ----- why the lease is needed ---------------------------------------------------------------

  /** A request a process serves at once, whatever the lease would say. */
  lemma ServesAtOnce(leaderOf: nat -> nat, s: System, at: nat, request: nat, now: nat)
    returns (states: seq<System>, events: seq<Event>)
    requires at in s.processes && s.processes[at].serving.None? && request !in s.requests
    requires Taken(s.processes[at].held, s.processes[at].held.term, now).Some?
    ensures Steps(false, leaderOf, states, events) && states[0] == s
    ensures var p, s' := s.processes[at], states[|events|];
            && s'.issued == s.issued
                 + [Issued(Taken(p.held, p.held.term, now).value, at, p.held.term, p.last, |s.issued|)]
            && s'.requests == s.requests
            && s'.processes == s.processes[at := p.(held := AfterTake(p.held, p.held.term, now))]
  {
    var p := s.processes[at];
    var arrived := s.(requests := s.requests[request := Request(at, |s.issued|, None)]);
    var checked := AfterCheck(arrived, p.held.term).(
                     processes := s.processes[at := p.(serving := Some(request))],
                     requests := arrived.requests[request := Request(at, |s.issued|, Some(p.held.term))]);
    var taken := checked.(
                   processes := checked.processes[at := p.(held := AfterTake(p.held, p.held.term, now))],
                   requests := checked.requests - {request},
                   issued := s.issued
                     + [Issued(Taken(p.held, p.held.term, now).value, at, p.held.term, p.last, |s.issued|)]);
    states := [s, arrived, checked, taken];
    events := [Arrive(request, at), Check(request, p.held.term), Take(request, now)];
    assert checked.requests - {request} == s.requests;
  }

  ghost predicate Steps(lease: bool, leaderOf: nat -> nat, states: seq<System>, events: seq<Event>) {
    && |states| == |events| + 1
    && forall k :: 0 <= k < |events| ==> StepTo(lease, leaderOf, states[k], events[k], states[k + 1])
  }

  lemma JoinedSteps(lease: bool, leaderOf: nat -> nat, states: seq<System>, events: seq<Event>,
                    more: seq<System>, moreEvents: seq<Event>)
    requires Steps(lease, leaderOf, states, events) && Steps(lease, leaderOf, more, moreEvents)
    requires states[|events|] == more[0]
    ensures Steps(lease, leaderOf, states + more[1..], events + moreEvents)
    ensures (states + more[1..])[|events + moreEvents|] == more[|moreEvents|]
  {
    var all, allEvents := states + more[1..], events + moreEvents;
    forall k | 0 <= k < |allEvents|
      ensures StepTo(lease, leaderOf, all[k], allEvents[k], all[k + 1])
    {
      if k < |events| {
        assert StepTo(lease, leaderOf, states[k], events[k], states[k + 1]);
      } else {
        assert StepTo(lease, leaderOf, more[k - |events|], moreEvents[k - |events|], more[k - |events| + 1]);
      }
    }
  }

  /** One refill, committed and answered, of a process that holds nothing. */
  lemma RefillsAtOnce(leaderOf: nat -> nat, s: System, at: nat, term: nat, bound: nat)
    returns (states: seq<System>, events: seq<Event>)
    requires at in s.processes && s.processes[at] == FRESH && s.proposals == map[] && 0 < bound <= U64_MAX
    ensures Steps(false, leaderOf, states, events) && states[0] == s
    ensures var s', n := states[|events|], |s.log|;
            && s'.log == s.log + [Committed(bound, term, s.nextId)] && s'.nextId == s.nextId + 1
            && s'.processes == s.processes[at := Process(
                                 Holding(term, Span(s'.log, n).start, Span(s'.log, n).end), n, n, None, None)]
            && s'.proposals == map[] && s'.requests == s.requests && s'.issued == s.issued
  {
    var id, n := s.nextId, |s.log|;
    var sent := AfterCheck(s, term).(
                  proposals := s.proposals[id := Proposal(SaturatingAdd(0, bound))], nextId := id + 1,
                  processes := s.processes[at := FRESH.(waiting := Some(Wait(id, term, n)))]);
    var committed := sent.(log := s.log + [Committed(bound, term, id)], proposals := map[]);
    assert sent.proposals - {id} == map[];
    var answered := committed.(processes := committed.processes[at := Answered(committed.log, committed.processes[at], n)]);
    states := [s, sent, committed, answered];
    events := [Refill(at, term, 0, bound), CommitProposal(id, term), Answer(at, n)];
    assert answered.processes == s.processes[at := answered.processes[at]];
  }

  /** Two processes that have just started. */
  lemma BothStart(leaderOf: nat -> nat) returns (states: seq<System>, events: seq<Event>)
    ensures Steps(false, leaderOf, states, events) && Started(states[0])
    ensures var s := states[|events|];
            && s.log == [] && s.proposals == map[] && s.nextId == 0 && s.requests == map[] && s.issued == []
            && s.processes == map[1 := FRESH, 2 := FRESH]
  {
    var empty := System([], map[], 0, map[], map[], [], 0);
    var one := empty.(processes := map[1 := FRESH]);
    var both := one.(processes := map[1 := FRESH, 2 := FRESH]);
    states, events := [empty, one, both], [Restart(1), Restart(2)];
    assert one.processes[2 := FRESH] == both.processes;
  }

  /** Two processes that both pass for leader, each with an interval of its own. */
  lemma TwoLeaders(leaderOf: nat -> nat) returns (states: seq<System>, events: seq<Event>)
    ensures Run(false, leaderOf, states, events)
    ensures var s := states[|events|];
            && s.requests == map[] && s.issued == []
            && s.processes == map[1 := Process(Holding(1, 0, 100), 0, 0, None, None),
                                  2 := Process(Holding(2, 100, 200), 1, 1, None, None)]
  {
    states, events := BothStart(leaderOf);
    var more, moreEvents := RefillsAtOnce(leaderOf, states[|events|], 1, 1, 100);
    var first := more[|moreEvents|];
    JoinedSteps(false, leaderOf, states, events, more, moreEvents);
    states, events := states + more[1..], events + moreEvents;

    more, moreEvents := RefillsAtOnce(leaderOf, first, 2, 2, 200);
    JoinedSteps(false, leaderOf, states, events, more, moreEvents);
    TwoSpans(more[|moreEvents|].log, first.log);
    states, events := states + more[1..], events + moreEvents;
  }

  /** Without it, order fails: a process that no longer leads but is not told so serves what it still
      holds, below what the new leader has already returned. */
  lemma WithoutLeaseOrderFails(leaderOf: nat -> nat) returns (states: seq<System>, events: seq<Event>)
    ensures Run(false, leaderOf, states, events)
    ensures var issued := states[|events|].issued;
            |issued| == 2 && 0 < issued[1].since && issued[0].value > issued[1].value
  {
    states, events := TwoLeaders(leaderOf);
    var more, moreEvents := ServesAtOnce(leaderOf, states[|events|], 2, 7, 0);
    var served := more[|moreEvents|];
    JoinedSteps(false, leaderOf, states, events, more, moreEvents);
    states, events := states + more[1..], events + moreEvents;

    more, moreEvents := ServesAtOnce(leaderOf, served, 1, 8, 0);
    JoinedSteps(false, leaderOf, states, events, more, moreEvents);
    states, events := states + more[1..], events + moreEvents;
  }

  /** The intervals of two refills, up to 100 and up to 200. */
  lemma TwoSpans(log: seq<Committed>, first: seq<Committed>)
    requires first == [Committed(100, 1, 0)] && log == first + [Committed(200, 2, 1)]
    ensures Span(first, 0) == Interval(0, 100) && Span(log, 0) == Interval(0, 100)
    ensures Span(log, 1) == Interval(100, 200)
  {
    LastSpan([], first[0]);
    assert [] + [first[0]] == first;
    LastSpan(first, log[1]);
    SpansStay(first, log[1], 0);
    assert Bounds(first)[..0] == [] && Bounds(log)[..1] == Bounds(first);
  }
}
