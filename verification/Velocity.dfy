/**
 Per-account rolling-window velocity aggregates, keyed by account.

 One key of the operator is a step system. Its steps are the arrival of an event and an advance of the
 watermark. Times are integer milliseconds, amounts are integers in units of 1/10000. A watermark that does not
 advance is ignored, as the stream runtime does, and an advance fires every timer that has become due.
 */
module Velocity {
  import opened Basics

  const MINUTE: int := 60_000
  const RETENTION: int := (24 * 3600 + 41) * 1000
  const IDLE_TTL: int := 7 * 24 * 3600 * 1000
  const WINDOWS: seq<int> := [1, 5, 60, 1440]

  /** Retention minus the widest window: the largest lateness that eviction can absorb. */
  const MAX_SAFE_LATENESS: int := RETENTION - 1440 * MINUTE

  datatype Event = Event(time: int, amount: int)
  datatype Step = Arrive(event: Event) | Advance(to: int)

  // ----- cells and sums over maps of cells

  datatype Cell = Cell(count: nat, total: int)

  const ZERO := Cell(0, 0)

  function Plus(a: Cell, b: Cell): Cell { Cell(a.count + b.count, a.total + b.total) }

  ghost predicate AtMost(a: Cell, b: Cell) { a.count <= b.count && a.total <= b.total }

  ghost function Total<K>(m: map<K, Cell>): Cell
    decreases |m|
  {
    if m.Keys == {} then ZERO else var k := Pick(m.Keys); Plus(m[k], Total(m - {k}))
  }

  lemma {:induction false} TotalRemove<K>(m: map<K, Cell>, k: K)
    requires k in m
    ensures Total(m) == Plus(m[k], Total(m - {k}))
    decreases |m|
  {
    var j := Pick(m.Keys);
    if j != k {
      TotalRemove(m - {j}, k);
      TotalRemove(m - {k}, j);
      assert m - {j} - {k} == m - {k} - {j};
    }
  }

  function Bump<K>(m: map<K, Cell>, k: K, c: Cell): map<K, Cell> {
    m[k := Plus(if k in m then m[k] else ZERO, c)]
  }

  lemma {:induction false} TotalBump<K>(m: map<K, Cell>, k: K, c: Cell)
    ensures Total(Bump(m, k, c)) == Plus(Total(m), c)
  {
    TotalRemove(Bump(m, k, c), k);
    assert Bump(m, k, c) - {k} == m - {k};
    if k in m {
      TotalRemove(m, k);
    } else {
      assert m - {k} == m;
    }
  }

  // ----- the operator on values

  function Bucket(time: int): int { time / MINUTE }

  function Cutoff(timer: int): int { Bucket(timer - RETENTION) }

  function Put(buckets: map<int, Cell>, e: Event): map<int, Cell> {
    Bump(buckets, Bucket(e.time), Cell(1, e.amount))
  }

  function From(buckets: map<int, Cell>, cutoff: int): map<int, Cell> {
    map k | k in buckets && cutoff <= k :: buckets[k]
  }

  ghost function WindowSum(buckets: map<int, Cell>, cutoff: int): Cell { Total(From(buckets, cutoff)) }

  ghost function WindowSums(buckets: map<int, Cell>, current: int): (v: seq<Cell>)
    ensures |v| == |WINDOWS|
  {
    [WindowSum(buckets, current - 1), WindowSum(buckets, current - 5), WindowSum(buckets, current - 60),
     WindowSum(buckets, current - 1440)]
  }

  predicate Accepts(watermark: Option<int>, lateness: int, time: int) {
    watermark.None? || watermark.value - lateness <= time
  }

  function Due(timers: set<int>, to: int): set<int> { set ts | ts in timers && ts <= to }

  /** What is left of the buckets after the timer callback has run for every timer in `fired`. */
  function Evicted(buckets: map<int, Cell>, fired: set<int>): map<int, Cell> {
    map k | k in buckets && (forall ts | ts in fired :: Cutoff(ts) <= k) :: buckets[k]
  }

  datatype State = State(buckets: map<int, Cell>, timers: set<int>, watermark: Option<int>)

  const INITIAL := State(map[], {}, None)

  function Next(s: State, lateness: int, step: Step): State {
    match step
    case Arrive(e) =>
      if Accepts(s.watermark, lateness, e.time)
      then s.(buckets := Put(s.buckets, e), timers := s.timers + {e.time + RETENTION, e.time + IDLE_TTL})
      else s
    case Advance(to) =>
      if s.watermark.Some? && to <= s.watermark.value then s
      else State(Evicted(s.buckets, Due(s.timers, to)), s.timers - Due(s.timers, to), Some(to))
  }

  function Run(steps: seq<Step>, lateness: int): State {
    if steps == [] then INITIAL
    else var n := |steps| - 1; Next(Run(steps[..n], lateness), lateness, steps[n])
  }

  /** The events that passed the lateness gate, in order: the account's accepted log. */
  function Accepted(steps: seq<Step>, lateness: int): seq<Event> {
    if steps == [] then []
    else
      var n := |steps| - 1;
      var log := Accepted(steps[..n], lateness);
      if steps[n].Arrive? && Accepts(Run(steps[..n], lateness).watermark, lateness, steps[n].event.time)
      then log + [steps[n].event] else log
  }

  lemma {:induction false} RunSnoc(steps: seq<Step>, lateness: int, step: Step)
    ensures Run(steps + [step], lateness) == Next(Run(steps, lateness), lateness, step)
    ensures Accepted(steps + [step], lateness) ==
            Accepted(steps, lateness) +
            if step.Arrive? && Accepts(Run(steps, lateness).watermark, lateness, step.event.time)
            then [step.event] else []
  {
    assert (steps + [step])[..|steps|] == steps;
  }

  // ----- the two references: the index that never evicts, and a direct scan of the log

  function Unevicted(log: seq<Event>): map<int, Cell> {
    if log == [] then map[] else Put(Unevicted(log[..|log| - 1]), log[|log| - 1])
  }

  /** Which events a tally counts: those from a bucket on, or those after a time. */
  datatype Filter = InBuckets(from: int) | After(time: int)

  predicate Matches(p: Filter, e: Event) {
    match p
    case InBuckets(from) => from <= Bucket(e.time)
    case After(time) => time < e.time
  }

  function One(e: Event, p: Filter): Cell { if Matches(p, e) then Cell(1, e.amount) else ZERO }

  /** The number and the sum of the events of `log` that satisfy `p`. */
  function Tally(log: seq<Event>, p: Filter): Cell {
    if log == [] then ZERO else Plus(Tally(log[..|log| - 1], p), One(log[|log| - 1], p))
  }

  lemma {:induction false} TallySnoc(log: seq<Event>, e: Event, p: Filter)
    ensures Tally(log + [e], p) == Plus(Tally(log, p), One(e, p))
  {
    assert (log + [e])[..|log|] == log;
  }

  function Scan(log: seq<Event>, current: int): (v: seq<Cell>)
    ensures |v| == |WINDOWS|
  {
    [Tally(log, InBuckets(current - 1)), Tally(log, InBuckets(current - 5)), Tally(log, InBuckets(current - 60)),
     Tally(log, InBuckets(current - 1440))]
  }

  lemma {:induction false} SumPut(m: map<int, Cell>, e: Event, cutoff: int)
    ensures WindowSum(Put(m, e), cutoff) == Plus(WindowSum(m, cutoff), One(e, InBuckets(cutoff)))
  {
    hide Total;

    if cutoff <= Bucket(e.time) {
      assert From(Put(m, e), cutoff) == Put(From(m, cutoff), e);
      TotalBump(From(m, cutoff), Bucket(e.time), Cell(1, e.amount));
    } else {
      assert From(Put(m, e), cutoff) == From(m, cutoff);
    }
  }

  lemma {:induction false} UnevictedSumIsTally(log: seq<Event>, cutoff: int)
    ensures WindowSum(Unevicted(log), cutoff) == Tally(log, InBuckets(cutoff))
  {
    if log == [] {
      assert From(map[], cutoff) == map[];
    } else {
      var init, e := log[..|log| - 1], log[|log| - 1];
      UnevictedSumIsTally(init, cutoff);
      SumPut(Unevicted(init), e, cutoff);
    }
  }

  /** The never-evicting index answers exactly what a direct scan of its log answers. */
  lemma {:induction false} UnevictedIsScan(log: seq<Event>, current: int)
    ensures WindowSums(Unevicted(log), current) == Scan(log, current)
  {
    UnevictedSumIsTally(log, current - 1);
    UnevictedSumIsTally(log, current - 5);
    UnevictedSumIsTally(log, current - 60);
    UnevictedSumIsTally(log, current - 1440);
  }

  // ----- what every reachable state keeps

  /** Timer `ts` is still pending, or it has fired and nothing older than its cutoff is left. */
  ghost predicate Handled(s: State, ts: int) {
    || ts in s.timers
    || (s.watermark.Some? && ts <= s.watermark.value && forall k | k in s.buckets :: Cutoff(ts) <= k)
  }

  ghost predicate Inv(s: State, log: seq<Event>) {
    && var all := Unevicted(log);
    && (forall k | k in s.buckets :: k in all && s.buckets[k] == all[k])
    && (forall k | k in all && k !in s.buckets :: s.watermark.Some? && k < Cutoff(s.watermark.value))
    && (forall e | e in log :: Handled(s, e.time + RETENTION) && Handled(s, e.time + IDLE_TTL))
  }

  lemma {:induction false} AdvanceKeepsInv(s: State, log: seq<Event>, lateness: int, to: int)
    requires Inv(s, log)
    ensures Inv(Next(s, lateness, Advance(to)), log)
  {
    var t := Next(s, lateness, Advance(to));
    forall e | e in log
      ensures Handled(t, e.time + RETENTION) && Handled(t, e.time + IDLE_TTL)
    {
      assert Handled(s, e.time + RETENTION) && Handled(s, e.time + IDLE_TTL);
    }
  }

  lemma {:induction false} ArriveKeepsInv(s: State, log: seq<Event>, lateness: int, e: Event)
    requires Inv(s, log) && lateness <= RETENTION && Accepts(s.watermark, lateness, e.time)
    ensures Inv(Next(s, lateness, Arrive(e)), log + [e])
  {
    var t, b := Next(s, lateness, Arrive(e)), Bucket(e.time);
    assert (log + [e])[..|log|] == log;
    assert Unevicted(log + [e]) == Put(Unevicted(log), e);
    assert s.watermark.Some? ==> Cutoff(s.watermark.value) <= b;
    forall x | x in log + [e]
      ensures Handled(t, x.time + RETENTION) && Handled(t, x.time + IDLE_TTL)
    {
      if x in log {
        assert Handled(s, x.time + RETENTION) && Handled(s, x.time + IDLE_TTL);
      }
    }
  }

  lemma {:induction false} ReachableInv(steps: seq<Step>, lateness: int)
    requires lateness <= RETENTION
    ensures Inv(Run(steps, lateness), Accepted(steps, lateness))
  {
    if steps != [] {
      var n := |steps| - 1;
      ReachableInv(steps[..n], lateness);
      var s, log := Run(steps[..n], lateness), Accepted(steps[..n], lateness);
      match steps[n]
      case Advance(to) => AdvanceKeepsInv(s, log, lateness, to);
      case Arrive(e) =>
        if Accepts(s.watermark, lateness, e.time) {
          ArriveKeepsInv(s, log, lateness, e);
        }
    }
  }
}
