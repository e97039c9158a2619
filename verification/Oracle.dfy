/** The timestamp oracle's state: the replicated high-water mark, and what one process holds of it. */
module Oracle {
  import opened Types

  /** `[start, end)`, as committed. */
  datatype Interval = Interval(start: nat, end: nat) {
    predicate Has(t: nat) { start <= t < end }
  }

  // ----- the replicated mark -------------------------------------------------------------------

  /** The mark after the given bounds were committed, in order. */
  function Mark(bounds: seq<nat>): nat {
    if bounds == [] then 0
    else
      var before, bound := Mark(bounds[..|bounds| - 1]), bounds[|bounds| - 1];
      if bound > before then bound else before
  }

  /** The interval the `i`-th commit returned. */
  function IntervalAt(bounds: seq<nat>, i: nat): Interval
    requires i < |bounds|
  {
    Interval(Mark(bounds[..i]), Mark(bounds[..i + 1]))
  }

  lemma {:induction false} MarkGrows(bounds: seq<nat>, i: nat, j: nat)
    requires i <= j <= |bounds|
    ensures Mark(bounds[..i]) <= Mark(bounds[..j])
    decreases j
  {
    if i < j {
      assert bounds[..j][..j - 1] == bounds[..j - 1];
      MarkGrows(bounds, i, j - 1);
    }
  }

  /** The mark is the greatest bound committed. */
  lemma {:induction false} MarkIsGreatest(bounds: seq<nat>)
    ensures forall i :: 0 <= i < |bounds| ==> bounds[i] <= Mark(bounds)
    ensures Mark(bounds) == 0 || Mark(bounds) in bounds
  {
    if bounds != [] {
      var front := bounds[..|bounds| - 1];
      MarkIsGreatest(front);
      assert forall i :: 0 <= i < |front| ==> bounds[i] == front[i];
    }
  }

  /** Later intervals lie past earlier ones: nothing is handed out twice. */
  lemma IntervalsAreOrdered(bounds: seq<nat>, i: nat, j: nat)
    requires i < j < |bounds|
    ensures IntervalAt(bounds, i).end <= IntervalAt(bounds, j).start
  {
    MarkGrows(bounds, i + 1, j);
  }

  /** The intervals tile everything below the mark: each timestamp lies in exactly one. */
  lemma {:induction false} IntervalsTile(bounds: seq<nat>, t: nat) returns (i: nat)
    requires t < Mark(bounds)
    ensures i < |bounds| && IntervalAt(bounds, i).Has(t)
    ensures forall j :: 0 <= j < |bounds| && IntervalAt(bounds, j).Has(t) ==> j == i
  {
    var front := bounds[..|bounds| - 1];
    i := |bounds| - 1;
    assert bounds[..i + 1] == bounds && bounds[..i] == front;
    if t < Mark(front) {
      i := IntervalsTile(front, t);
      assert front[..i] == bounds[..i] && front[..i + 1] == bounds[..i + 1];
    }
    forall j | 0 <= j < |bounds| && IntervalAt(bounds, j).Has(t)
      ensures j == i
    {
      if j < i {
        IntervalsAreOrdered(bounds, j, i);
      } else if i < j {
        IntervalsAreOrdered(bounds, i, j);
      }
    }
  }

  /** Nothing is handed out past every clock: a timestamp below the mark is below some proposed bound. */
  lemma BelowSomeBound(bounds: seq<nat>, t: nat) returns (i: nat)
    requires t < Mark(bounds)
    ensures i < |bounds| && t < bounds[i]
  {
    MarkIsGreatest(bounds);
    i :| 0 <= i < |bounds| && bounds[i] == Mark(bounds);
  }

  /** The replicated application: one high-water mark. */
  class TimeState {
    var reservedEnd: nat
    ghost var bounds: seq<nat>  // every bound applied so far

    ghost predicate Valid()
      reads this
    {
      reservedEnd == Mark(bounds)
    }

    constructor ()
      ensures Valid() && bounds == []
    {
      reservedEnd := 0;
      bounds := [];
    }

    method Apply(reserveUpto: nat) returns (interval: Interval)
      requires Valid()
      modifies this
      ensures Valid() && bounds == old(bounds) + [reserveUpto]
      ensures interval == IntervalAt(bounds, |old(bounds)|)
    {
      var start := reservedEnd;
      var end := if start > reserveUpto then start else reserveUpto;
      reservedEnd := end;
      interval := Interval(start, end);
      bounds := bounds + [reserveUpto];
      assert bounds[..|bounds| - 1] == old(bounds) && bounds[..|bounds|] == bounds;
    }

    method Read() returns (mark: nat)
      requires Valid()
      ensures mark == Mark(bounds)
    {
      mark := reservedEnd;
    }
  }

  // ----- what one process holds ----------------------------------------------------------------

  /** Timestamps `[next, end)`, held by the leader of `term`. */
  datatype Holding = Holding(term: nat, next: nat, end: nat) {
    predicate Valid() { next <= end <= U64_MAX }

    predicate Has(t: nat) { next <= t < end }

    predicate Empty() { next >= end }
  }

  const NOTHING_HELD := Holding(0, 0, 0)

  /** The timestamp a take returns. */
  function Taken(h: Holding, leaderTerm: nat, now: nat): Option<nat> {
    var timestamp := if now > h.next then now else h.next;
    if h.term != leaderTerm || timestamp >= h.end then None else Some(timestamp)
  }

  function AfterTake(h: Holding, leaderTerm: nat, now: nat): Holding {
    var taken := Taken(h, leaderTerm, now);
    if taken.Some? then h.(next := taken.value + 1) else h
  }

  /** A reservation of the same term that starts where the last one ends extends it; any other
      replaces it. */
  function Installed(h: Holding, leaderTerm: nat, interval: Interval): Holding {
    Holding(leaderTerm,
            if h.term != leaderTerm || h.end != interval.start then interval.start else h.next,
            interval.end)
  }

  /** A taken timestamp is the least one held that the clock has reached, and it is not held again. */
  lemma TakeTakes(h: Holding, leaderTerm: nat, now: nat)
    requires h.Valid()
    ensures AfterTake(h, leaderTerm, now).Valid()
    ensures Taken(h, leaderTerm, now).Some? <==> h.term == leaderTerm && exists t: nat :: h.Has(t) && t >= now
    ensures Taken(h, leaderTerm, now).Some? ==>
              var t := Taken(h, leaderTerm, now).value;
              && h.Has(t) && now <= t < U64_MAX
              && (forall u: nat :: h.Has(u) && now <= u ==> t <= u)
              && (forall u: nat :: AfterTake(h, leaderTerm, now).Has(u) <==> h.Has(u) && u > t)
  {
    var t := if now > h.next then now else h.next;
    if h.Has(t) && t >= now {
    } else {
      assert forall u: nat :: h.Has(u) ==> u < now;
    }
  }

  /** Whether a process is well enough supplied, in a term, up to a given timestamp. */
  predicate Covering(h: Holding, leaderTerm: nat, until: nat) {
    h.term == leaderTerm && h.next < h.end && until <= h.end
  }

  /** It is when it holds something in that term, and every timestamp from its next one on. */
  lemma CoveringMeans(h: Holding, leaderTerm: nat, until: nat)
    ensures Covering(h, leaderTerm, until) <==>
            h.term == leaderTerm && !h.Empty() && forall t: nat :: h.next <= t < until ==> h.Has(t)
  {
    if h.next < h.end < until {
      assert !h.Has(h.end);
    }
  }

  /** Installing an interval holds it, and keeps nothing but what it extends. */
  lemma InstallHolds(h: Holding, leaderTerm: nat, interval: Interval)
    requires h.Valid() && interval.start <= interval.end <= U64_MAX
    ensures Installed(h, leaderTerm, interval).Valid()
    ensures forall t :: Installed(h, leaderTerm, interval).Has(t) <==>
              interval.Has(t) || (h.Has(t) && h.term == leaderTerm && h.end == interval.start)
  {
  }

  class Reserved {
    var term: nat
    var next: nat
    var end: nat

    function Held(): Holding
      reads this
    {
      Holding(term, next, end)
    }

    constructor ()
      ensures Held() == NOTHING_HELD && Held().Valid()
    {
      term, next, end := 0, 0, 0;
    }

    /** Hand out the least timestamp held that the clock has reached. `timestamp + 1` does not overflow. */
    method Take(leaderTerm: nat, now: nat) returns (r: Option<nat>)
      requires Held().Valid()
      modifies this
      ensures Held().Valid() && Held() == AfterTake(old(Held()), leaderTerm, now)
      ensures r == Taken(old(Held()), leaderTerm, now)
      ensures r.Some? ==> r.value + 1 <= U64_MAX
    {
      var timestamp := if now > next then now else next;
      if term != leaderTerm || timestamp >= end {
        return None;
      }
      next := timestamp + 1;
      r := Some(timestamp);
    }

    predicate Covers(leaderTerm: nat, until: nat): (covered: bool)
      reads this
      ensures covered == Covering(Held(), leaderTerm, until)
    {
      term == leaderTerm && next < end && end >= until
    }

    method Install(leaderTerm: nat, interval: Interval)
      requires Held().Valid() && interval.start <= interval.end <= U64_MAX
      modifies this
      ensures Held().Valid() && Held() == Installed(old(Held()), leaderTerm, interval)
    {
      if term != leaderTerm || end != interval.start {
        next := interval.start;
      }
      term := leaderTerm;
      end := interval.end;
    }
  }

  /** What a refill is for. Once the bound it proposed commits and is installed, every clock short of that
      bound is served, with its own reading if that much is still held, and this goes on until the clock
      reaches the end of what was committed. */
  lemma RefillServes(h: Holding, bounds: seq<nat>, term: nat, now: nat, width: nat, clock: nat)
    requires h.Valid()
    ensures var upto := if now + width <= U64_MAX then now + width else U64_MAX;
            var held := Installed(h, term, IntervalAt(bounds + [upto], |bounds|));
            && upto <= held.end
            && (held.next <= clock < upto ==> Taken(held, term, clock) == Some(clock))
            && (clock < upto && Mark(bounds) < upto ==> Taken(held, term, clock).Some?)
            && (Taken(held, term, clock).Some? <==> clock < held.end && held.next < held.end)
  {
    var upto := if now + width <= U64_MAX then now + width else U64_MAX;
    LastInterval(bounds, upto);
    ExtendedServes(h, term, Mark(bounds), upto, clock);
  }

  lemma ExtendedServes(h: Holding, term: nat, mark: nat, upto: nat, clock: nat)
    requires h.Valid()
    ensures var held := Installed(h, term, Interval(mark, if mark > upto then mark else upto));
            && upto <= held.end
            && (held.next <= clock < upto ==> Taken(held, term, clock) == Some(clock))
            && (clock < upto && mark < upto ==> Taken(held, term, clock).Some?)
            && (Taken(held, term, clock).Some? <==> clock < held.end && held.next < held.end)
  {
  }

  lemma LastInterval(bounds: seq<nat>, upto: nat)
    ensures IntervalAt(bounds + [upto], |bounds|)
            == Interval(Mark(bounds), if Mark(bounds) > upto then Mark(bounds) else upto)
  {
    var all := bounds + [upto];
    assert all[..|bounds|] == bounds && all[..|bounds| + 1] == all;
  }

  function SaturatingAdd(a: nat, b: nat): nat {
    if a + b > U64_MAX then U64_MAX else a + b
  }

  /** One process. What Raft answers - the lease check, the write - is given. */
  class TimeService {
    const reservationWidth: nat
    const reserved: Reserved

    constructor (width: nat)
      requires 0 < width
      ensures fresh(reserved) && reserved.Held() == NOTHING_HELD && reservationWidth == width
    {
      reservationWidth := width;
      reserved := new Reserved();
    }

    method NextTimestamp(lease: Result<nat>, now: nat) returns (r: Result<nat>)
      requires reserved.Held().Valid()
      modifies reserved
      ensures reserved.Held().Valid()
      ensures lease.Err? ==> r.Err? && reserved.Held() == old(reserved.Held())
      ensures lease.Ok? ==> reserved.Held() == AfterTake(old(reserved.Held()), lease.value, now)
      ensures r.Ok? <==> lease.Ok? && Taken(old(reserved.Held()), lease.value, now).Some?
      ensures r.Ok? ==> Some(r.value) == Taken(old(reserved.Held()), lease.value, now)
    {
      if lease.Err? {
        return Err(lease.error);
      }
      var taken := reserved.Take(lease.value, now);
      r := if taken.Some? then Ok(taken.value) else Err(NotFound);
    }

    /** The bound to propose, if the reservation needs one. */
    method RefillBound(lease: Result<nat>, now: nat) returns (upto: Option<nat>)
      requires now <= U64_MAX
      ensures upto.None? <==>
                lease.Ok? ==>
                  && reserved.term == lease.value && reserved.next < reserved.end
                  && (reserved.end >= now + reservationWidth / 2 || reserved.end >= U64_MAX)
      ensures upto.Some? && now + reservationWidth <= U64_MAX ==> upto.value == now + reservationWidth
      ensures upto.Some? && now + reservationWidth > U64_MAX ==> upto.value == U64_MAX
    {
      if lease.Err? {
        return None;
      }
      var refillUntil := SaturatingAdd(now, reservationWidth / 2);
      if reserved.Covers(lease.value, refillUntil) {
        return None;
      }
      upto := Some(SaturatingAdd(now, reservationWidth));
    }

    /** The second half: the answer of the write is installed under the term checked before it. */
    method RefillAnswered(term: nat, answer: Result<Interval>) returns (r: Result<()>)
      requires reserved.Held().Valid()
      requires answer.Ok? ==> answer.value.start <= answer.value.end <= U64_MAX
      modifies reserved
      ensures reserved.Held().Valid()
      ensures r.Ok? <==> answer.Ok?
      ensures reserved.Held()
              == if answer.Ok? then Installed(old(reserved.Held()), term, answer.value) else old(reserved.Held())
    {
      if answer.Err? {
        return Err(answer.error);
      }
      reserved.Install(term, answer.value);
      r := Ok(());
    }
  }
}
