/**
 The velocity operator as the job runs it: one object per account, whose bucket map, timers and watermark are
 updated in place. The ghost `trace` records every call, and `Valid` says that the fields are what `Run` makes of it.
 */
module VelocityOperator {
  import opened Basics
  import opened Velocity
  import opened VelocityTheorems

  /** The emission loop: one sum per window over the items of the bucket map, visited in any order. */
  method ComputeVelocity(buckets: map<int, Cell>, current: int) returns (v: seq<Cell>)
    ensures v == WindowSums(buckets, current)
  {
    v := [];
    for i := 0 to |WINDOWS|
      invariant |v| == i
      invariant forall j | 0 <= j < i :: v[j] == WindowSum(buckets, current - WINDOWS[j])
    {
      var sum := SumFrom(buckets, current - WINDOWS[i]);
      v := v + [sum];
    }
  }

  method SumFrom(buckets: map<int, Cell>, cutoff: int) returns (sum: Cell)
    ensures sum == WindowSum(buckets, cutoff)
  {
    hide WindowSum;
    sum := ZERO;
    var items := buckets;
    while items.Keys != {}
      invariant items.Keys <= buckets.Keys && forall k | k in items :: items[k] == buckets[k]
      invariant Plus(sum, WindowSum(items, cutoff)) == WindowSum(buckets, cutoff)
      decreases |items|
    {
      SomeKey(items);
      var k :| k in items.Keys;
      RemoveItem(items, cutoff, k);
      if cutoff <= k {
        sum := Plus(sum, items[k]);
      }
      items := items - {k};
    }
    NoItems(items, cutoff);
  }

  lemma {:induction false} SomeKey(m: map<int, Cell>)
    requires m.Keys != {}
    ensures exists k :: k in m.Keys
  {
    var k := Pick(m.Keys);
  }

  lemma {:induction false} NoItems(m: map<int, Cell>, cutoff: int)
    requires m.Keys == {}
    ensures WindowSum(m, cutoff) == ZERO
  {
    assert From(m, cutoff).Keys == {};
  }

  lemma {:induction false} RemoveItem(m: map<int, Cell>, cutoff: int, k: int)
    requires k in m
    ensures WindowSum(m, cutoff) == Plus(if cutoff <= k then m[k] else ZERO, WindowSum(m - {k}, cutoff))
  {
    hide Total;
    if cutoff <= k {
      TotalRemove(From(m, cutoff), k);
      assert From(m, cutoff) - {k} == From(m - {k}, cutoff);
    } else {
      assert From(m, cutoff) == From(m - {k}, cutoff);
    }
  }

  class VelocityProcessFunction {
    const allowedLateness: int
    var buckets: map<int, Cell>
    var timers: set<int>
    var watermark: Option<int>
    var pureState: map<int, Cell>
    ghost var trace: seq<Step>
    ghost var pureLog: seq<Event>

    ghost function Model(): State
      reads this
    {
      State(buckets, timers, watermark)
    }

    ghost predicate Valid()
      reads this
    {
      Model() == Run(trace, allowedLateness) && pureState == Unevicted(pureLog)
    }

    /** The events accepted so far. */
    ghost function Log(): seq<Event>
      reads this
    {
      Accepted(trace, allowedLateness)
    }

    constructor (lateness: int)
      ensures Valid() && allowedLateness == lateness && trace == [] && Log() == [] && pureLog == []
    {
      allowedLateness := lateness;
      buckets, timers, watermark := map[], {}, None;
      pureState := map[];
      trace, pureLog := [], [];
    }

    /** A late event beyond the allowed lateness is rejected; any other is stored, and answered from its log. */
    method ProcessElement(e: Event) returns (out: Option<seq<Cell>>)
      requires Valid()
      modifies this
      ensures Valid() && trace == old(trace) + [Arrive(e)] && pureLog == old(pureLog)
      ensures out.Some? <==> old(watermark).None? || old(watermark).value - allowedLateness <= e.time
      ensures out.None? ==> Log() == old(Log()) && Model() == old(Model())
      ensures out.Some? ==> Log() == old(Log()) + [e] && out.value == Answer(old(trace), allowedLateness, e)
      ensures out.Some? && allowedLateness <= MAX_SAFE_LATENESS ==> out.value == Scan(Log(), Bucket(e.time))
    {
      hide Total, WindowSums, Scan, Run, Accepted;
      RunSnoc(trace, allowedLateness, Arrive(e));
      out := None;
      if watermark.None? || watermark.value - allowedLateness <= e.time {
        if allowedLateness <= MAX_SAFE_LATENESS {
          EvictionIsInvisible(trace, allowedLateness, e);
        }
        var b := e.time / MINUTE;
        var existing := if b in buckets then buckets[b] else ZERO;
        buckets := buckets[b := Cell(existing.count + 1, existing.total + e.amount)];
        var v := ComputeVelocity(buckets, b);
        timers := timers + {e.time + RETENTION};
        timers := timers + {e.time + IDLE_TTL};
        assert timers == old(timers) + {e.time + RETENTION, e.time + IDLE_TTL};
        out := Some(v);
      }
      trace := trace + [Arrive(e)];
    }

    /** The timer callback: drop the buckets older than the timer's cutoff. */
    method OnTimer(ts: int)
      modifies this`buckets
      ensures buckets == Evicted(old(buckets), {ts})
    {
      var cutoff := (ts - RETENTION) / MINUTE;
      var stale := set k | k in buckets && k < cutoff;
      while stale != {}
        invariant stale <= buckets.Keys
        invariant forall k :: k in stale <==> k in buckets && k < cutoff
        invariant forall k | k in buckets :: k in old(buckets) && buckets[k] == old(buckets)[k]
        invariant forall k | k in old(buckets) && cutoff <= k :: k in buckets
        decreases stale
      {
        SomeElement(stale);
        var k :| k in stale;
        buckets := buckets - {k};
        stale := stale - {k};
      }
      NothingBelow(buckets, stale, cutoff);
      assert buckets == Evicted(old(buckets), {ts});
    }

    lemma {:induction false} NothingBelow(m: map<int, Cell>, stale: set<int>, cutoff: int)
      requires stale == {} && forall k :: k in stale <==> k in m && k < cutoff
      ensures forall k | k in m :: cutoff <= k
    {
    }

    lemma {:induction false} SomeElement(s: set<int>)
      requires s != {}
      ensures exists k :: k in s
    {
      var k := Pick(s);
    }

    /** The runtime's side: an advancing watermark fires every due timer, and one that does not advance is ignored. */
    method AdvanceWatermark(to: int)
      requires Valid()
      modifies this
      ensures Valid() && trace == old(trace) + [Advance(to)] && Log() == old(Log()) && pureLog == old(pureLog)
      ensures old(watermark).None? || old(watermark).value < to ==> watermark == Some(to) && Settled(Model())
    {
      RunSnoc(trace, allowedLateness, Advance(to));
      if watermark.None? || watermark.value < to {
        watermark := Some(to);
        ghost var due := Due(timers, to);
        ghost var fired: set<int> := {};
        assert Evicted(buckets, {}) == buckets;
        while exists ts :: ts in timers && ts <= to
          invariant watermark == Some(to) && trace == old(trace)
          invariant pureState == old(pureState) && pureLog == old(pureLog)
          invariant fired <= due && timers == old(timers) - fired
          invariant buckets == Evicted(old(buckets), fired)
          decreases timers
        {
          var ts :| ts in timers && ts <= to;
          OnTimer(ts);
          timers := timers - {ts};
          fired := fired + {ts};
          assert buckets == Evicted(old(buckets), fired);
        }
        forall ts | ts in due
          ensures ts in fired
        {
          assert ts in fired || ts in timers;
        }
        assert fired == due;
      }
      trace := trace + [Advance(to)];
    }

    /** The state-only variant: it never evicts, and answers from the whole log it was given. */
    method ProcessElementPure(time: int, amount: int) returns (v: seq<Cell>)
      requires Valid()
      modifies this`pureState, this`pureLog
      ensures Valid() && pureLog == old(pureLog) + [Event(time, amount)]
      ensures v == Scan(pureLog, Bucket(time))
    {
      hide Total, WindowSums, Scan;
      var b := time / MINUTE;
      var existing := if b in pureState then pureState[b] else ZERO;
      pureState := pureState[b := Cell(existing.count + 1, existing.total + amount)];
      pureLog := pureLog + [Event(time, amount)];
      assert pureLog[..|pureLog| - 1] == old(pureLog);
      v := ComputeVelocity(pureState, b);
      UnevictedIsScan(pureLog, b);
    }
  }
}
