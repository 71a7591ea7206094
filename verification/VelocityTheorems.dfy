/** What the velocity operator promises over every run of events and watermarks. */
module VelocityTheorems {
  import opened Basics
  import opened Velocity

  /** The window sums that the operator emits for `e`, arriving after `steps`. */
  ghost function Answer(steps: seq<Step>, lateness: int, e: Event): (v: seq<Cell>)
    ensures |v| == |WINDOWS|
  {
    WindowSums(Next(Run(steps, lateness), lateness, Arrive(e)).buckets, Bucket(e.time))
  }

  ghost predicate Admits(steps: seq<Step>, lateness: int, e: Event) {
    Accepts(Run(steps, lateness).watermark, lateness, e.time)
  }

  // ----- eviction is invisible, and the retention horizon is exact

  /** Two indexes hold the same from bucket `oldest` on. */
  ghost predicate AgreeFrom(kept: map<int, Cell>, all: map<int, Cell>, oldest: int) {
    forall k | oldest <= k :: (k in kept <==> k in all) && (k in kept ==> kept[k] == all[k])
  }

  /** Two indexes that agree from the oldest bucket of the widest window on give the same answers. */
  lemma {:induction false} AgreementSuffices(kept: map<int, Cell>, all: map<int, Cell>, b: int)
    requires AgreeFrom(kept, all, b - 1440)
    ensures WindowSums(kept, b) == WindowSums(all, b)
  {
    assert From(kept, b - 1) == From(all, b - 1);
    assert From(kept, b - 5) == From(all, b - 5);
    assert From(kept, b - 60) == From(all, b - 60);
    assert From(kept, b - 1440) == From(all, b - 1440);
  }

  /** With a safe lateness the evicting index, the index that never evicts and a scan of the log agree. */
  lemma {:induction false} EvictionIsInvisible(steps: seq<Step>, lateness: int, e: Event)
    requires lateness <= MAX_SAFE_LATENESS && Admits(steps, lateness, e)
    ensures Answer(steps, lateness, e) == WindowSums(Unevicted(Accepted(steps, lateness) + [e]), Bucket(e.time))
    ensures Answer(steps, lateness, e) == Scan(Accepted(steps, lateness) + [e], Bucket(e.time))
  {
    var s, log, b := Run(steps, lateness), Accepted(steps, lateness), Bucket(e.time);
    ReachableInv(steps, lateness);
    ArriveKeepsInv(s, log, lateness, e);
    assert s.watermark.Some? ==> Cutoff(s.watermark.value) <= b - 1440;
    AgreementSuffices(Next(s, lateness, Arrive(e)).buckets, Unevicted(log + [e]), b);
    UnevictedIsScan(log + [e], b);
  }

  ghost predicate Invisible(lateness: int) {
    forall steps, e :: Admits(steps, lateness, e) ==>
      Answer(steps, lateness, e) == Scan(Accepted(steps, lateness) + [e], Bucket(e.time))
  }

  /** The old event's bucket is evicted by its neighbour's timer, and a late event a day later misses it. */
  function LateRun(amount: int): seq<Step> {
    [Arrive(Event(MINUTE - 1, amount)), Arrive(Event(MINUTE, 0)), Advance(MINUTE + RETENTION)]
  }

  lemma {:induction false} LateRunState(lateness: int, amount: int)
    ensures Run(LateRun(amount), lateness).buckets == map[1 := Cell(1, 0)]
    ensures Run(LateRun(amount), lateness).watermark == Some(MINUTE + RETENTION)
    ensures Accepted(LateRun(amount), lateness) == [Event(MINUTE - 1, amount), Event(MINUTE, 0)]
  {
    var first, second, third := LateRun(amount)[0], LateRun(amount)[1], LateRun(amount)[2];
    RunSnoc([], lateness, first);
    RunSnoc([first], lateness, second);
    RunSnoc([first, second], lateness, third);
    assert [] + [first] == [first] && [first] + [second] == [first, second];
    assert [first, second] + [third] == LateRun(amount);
    assert Bucket(MINUTE - 1) == 0 && Bucket(MINUTE) == 1;
    var s := Run([first, second], lateness);
    assert s.timers == {MINUTE - 1 + RETENTION, MINUTE - 1 + IDLE_TTL, MINUTE + RETENTION, MINUTE + IDLE_TTL};
    assert Due(s.timers, MINUTE + RETENTION) == {MINUTE - 1 + RETENTION, MINUTE + RETENTION};
    assert Cutoff(MINUTE - 1 + RETENTION) == 0 && Cutoff(MINUTE + RETENTION) == 1;
  }

  /** An event that comes just within the lateness, in the bucket a day after the evicted one. */
  predicate IsLate(lateness: int, late: Event) {
    Bucket(late.time) == 1440 && MINUTE + RETENTION - lateness <= late.time
  }

  lemma {:induction false} LateEventIsMiscounted(lateness: int, amount: int, late: Event)
    requires IsLate(lateness, late)
    ensures Admits(LateRun(amount), lateness, late)
    ensures Answer(LateRun(amount), lateness, late)[3] == Cell(2, late.amount)
    ensures Tally(Accepted(LateRun(amount), lateness) + [late], InBuckets(0)) == Cell(3, amount + late.amount)
  {
    LateRunState(lateness, amount);
    EvictedSum(late);
    LateTally(amount, late);
    hide Run, Accepted, LateRun, Tally, Total, From, Put;
  }

  lemma {:induction false} LateTally(amount: int, late: Event)
    requires Bucket(late.time) == 1440
    ensures Tally([Event(MINUTE - 1, amount), Event(MINUTE, 0)] + [late], InBuckets(0)) == Cell(3, amount + late.amount)
  {
    var p, first, second := InBuckets(0), Event(MINUTE - 1, amount), Event(MINUTE, 0);
    assert Tally([], p) == ZERO;
    hide Tally;
    TallySnoc([], first, p);
    TallySnoc([first], second, p);
    TallySnoc([first, second], late, p);
    assert [] + [first] == [first] && [first] + [second] == [first, second];
  }

  lemma {:induction false} EvictedSum(late: Event)
    requires Bucket(late.time) == 1440
    ensures WindowSum(Put(map[1 := Cell(1, 0)], late), 0) == Cell(2, late.amount)
  {
    hide Total, From, Put;
    SumPut(map[1 := Cell(1, 0)], late, 0);
    OneBucketTotal(map[1 := Cell(1, 0)], 1);
  }

  lemma {:induction false} OneBucketTotal(one: map<int, Cell>, k: int)
    requires 0 <= k && k in one && one == map[k := one[k]]
    ensures WindowSum(one, 0) == one[k]
  {
    assert From(one, 0) == one;
    TotalRemove(one, k);
    assert one - {k} == map[];
  }

  /** Without the neighbour the old bucket is still there for the late event. */
  function LoneRun(amount: int): seq<Step> { [Arrive(Event(MINUTE - 1, amount)), Advance(MINUTE + RETENTION)] }

  lemma {:induction false} LoneRunState(lateness: int, amount: int)
    ensures Run(LoneRun(amount), lateness).buckets == map[0 := Cell(1, amount)]
    ensures Run(LoneRun(amount), lateness).watermark == Some(MINUTE + RETENTION)
    ensures Accepted(LoneRun(amount), lateness) == [Event(MINUTE - 1, amount)]
  {
    var first, second := LoneRun(amount)[0], LoneRun(amount)[1];
    RunSnoc([], lateness, first);
    RunSnoc([first], lateness, second);
    assert [] + [first] == [first] && [first] + [second] == LoneRun(amount);
    assert Bucket(MINUTE - 1) == 0;
    var s := Run([first], lateness);
    assert s.timers == {MINUTE - 1 + RETENTION, MINUTE - 1 + IDLE_TTL};
    assert Due(s.timers, MINUTE + RETENTION) == {MINUTE - 1 + RETENTION};
    assert Cutoff(MINUTE - 1 + RETENTION) == 0;
  }

  lemma {:induction false} LoneRunIsCounted(lateness: int, amount: int, late: Event)
    requires IsLate(lateness, late)
    ensures Admits(LoneRun(amount), lateness, late)
    ensures Answer(LoneRun(amount), lateness, late)[3] == Cell(2, amount + late.amount)
  {
    LoneRunState(lateness, amount);
    hide Run, LoneRun, Total, From, Put;
    SumPut(map[0 := Cell(1, amount)], late, 0);
    OneBucketTotal(map[0 := Cell(1, amount)], 0);
  }

  /** Every run is answered as by a scan of its log if and only if the allowed lateness is at most 41 s. */
  lemma {:induction false} SafeLatenessIsExact(lateness: int)
    ensures Invisible(lateness) <==> lateness <= MAX_SAFE_LATENESS == 41_000
  {
    if lateness <= MAX_SAFE_LATENESS {
      forall steps, e | Admits(steps, lateness, e)
        ensures Answer(steps, lateness, e) == Scan(Accepted(steps, lateness) + [e], Bucket(e.time))
      {
        EvictionIsInvisible(steps, lateness, e);
      }
    } else {
      LateEventIsMiscounted(lateness, 1, Event(1441 * MINUTE - 1, 1));
    }
  }

  // ----- the state stays small

  /** Every timer that is due has fired. */
  ghost predicate Settled(s: State) {
    s.watermark.Some? && forall ts | ts in s.timers :: s.watermark.value < ts
  }

  /** An advancing watermark settles the state, and below the retention horizon no arrival unsettles it. */
  lemma {:induction false} RunsSettle(steps: seq<Step>, lateness: int)
    ensures forall to | Run(steps, lateness).watermark.None? || Run(steps, lateness).watermark.value < to ::
              Settled(Next(Run(steps, lateness), lateness, Advance(to)))
    ensures lateness < RETENTION && Run(steps, lateness).watermark.Some? ==> Settled(Run(steps, lateness))
  {
    if steps != [] {
      RunsSettle(steps[..|steps| - 1], lateness);
    }
  }

  ghost predicate Stale(s: State, e: Event) {
    s.watermark.Some? && e.time <= s.watermark.value - RETENTION && Bucket(e.time) in s.buckets
  }

  lemma {:induction false} StaleBucketsCoincide(steps: seq<Step>, lateness: int, e: Event, f: Event)
    requires lateness <= RETENTION && Settled(Run(steps, lateness))
    requires e in Accepted(steps, lateness) && f in Accepted(steps, lateness)
    requires Stale(Run(steps, lateness), e) && Stale(Run(steps, lateness), f)
    ensures Bucket(e.time) == Bucket(f.time)
  {
    var s := Run(steps, lateness);
    ReachableInv(steps, lateness);
    assert Handled(s, e.time + RETENTION) && Handled(s, f.time + RETENTION);
    assert Cutoff(e.time + RETENTION) == Bucket(e.time) && Cutoff(f.time + RETENTION) == Bucket(f.time);
  }

  ghost predicate OneStaleBucket(lateness: int) {
    forall steps, e, f ::
      (&& Settled(Run(steps, lateness))
       && e in Accepted(steps, lateness) && f in Accepted(steps, lateness)
       && Stale(Run(steps, lateness), e) && Stale(Run(steps, lateness), f))
      ==> Bucket(e.time) == Bucket(f.time)
  }

  const OLDER := Event(599_999, 1)
  const NEWER := Event(600_000, 1)
  const HORIZON: int := 600_000 + RETENTION
  const REENTRY: seq<Step> := [Arrive(NEWER), Advance(HORIZON), Arrive(OLDER), Advance(HORIZON + 1)]

  lemma {:induction false} ReentryStart(lateness: int)
    ensures Run([Arrive(NEWER), Advance(HORIZON)], lateness) ==
            State(map[10 := Cell(1, 1)], {600_000 + IDLE_TTL}, Some(HORIZON))
    ensures Accepted([Arrive(NEWER), Advance(HORIZON)], lateness) == [NEWER]
  {
    RunSnoc([], lateness, Arrive(NEWER));
    RunSnoc([Arrive(NEWER)], lateness, Advance(HORIZON));
    assert [] + [Arrive(NEWER)] == [Arrive(NEWER)];
    assert [Arrive(NEWER)] + [Advance(HORIZON)] == [Arrive(NEWER), Advance(HORIZON)];
    assert Bucket(600_000) == 10 && Cutoff(HORIZON) == 10;
    var s := Run([Arrive(NEWER)], lateness);
    assert s.timers == {HORIZON, 600_000 + IDLE_TTL};
    assert Due(s.timers, HORIZON) == {HORIZON};
  }

  const REENTERED := State(map[10 := Cell(1, 1), 9 := Cell(1, 1)],
                           {600_000 + IDLE_TTL, HORIZON - 1, 599_999 + IDLE_TTL}, Some(HORIZON))

  lemma {:induction false} OlderReenters(s: State, lateness: int)
    requires RETENTION < lateness && s == State(map[10 := Cell(1, 1)], {600_000 + IDLE_TTL}, Some(HORIZON))
    ensures Accepts(s.watermark, lateness, OLDER.time) && Next(s, lateness, Arrive(OLDER)) == REENTERED
  {
    assert Bucket(599_999) == 9;
  }

  lemma {:induction false} BothStay(lateness: int)
    ensures var s := Next(REENTERED, lateness, Advance(HORIZON + 1)); Settled(s) && Stale(s, NEWER) && Stale(s, OLDER)
  {
    assert Due(REENTERED.timers, HORIZON + 1) == {HORIZON - 1};
    assert Bucket(600_000) == 10 && Bucket(599_999) == 9 && Cutoff(HORIZON - 1) == 9;
  }

  lemma {:induction false} ReentryKeepsTwoStaleBuckets(lateness: int)
    requires RETENTION < lateness
    ensures Settled(Run(REENTRY, lateness)) && Accepted(REENTRY, lateness) == [NEWER, OLDER]
    ensures Stale(Run(REENTRY, lateness), NEWER) && Stale(Run(REENTRY, lateness), OLDER)
  {
    hide Run, Accepted, Next, Settled, Stale, Accepts;
    var before, middle := [Arrive(NEWER), Advance(HORIZON)], [Arrive(NEWER), Advance(HORIZON), Arrive(OLDER)];
    assert before + [Arrive(OLDER)] == middle && middle + [Advance(HORIZON + 1)] == REENTRY;
    ReentryStart(lateness);
    RunSnoc(before, lateness, Arrive(OLDER));
    OlderReenters(Run(before, lateness), lateness);
    RunSnoc(middle, lateness, Advance(HORIZON + 1));
    BothStay(lateness);
  }

  /** At most one live bucket is older than the retention horizon, exactly when the lateness is within it. */
  lemma {:induction false} OneStaleBucketIsExact(lateness: int)
    ensures OneStaleBucket(lateness) <==> lateness <= RETENTION
  {
    if lateness <= RETENTION {
      forall steps, e, f |
        Settled(Run(steps, lateness)) && e in Accepted(steps, lateness) && f in Accepted(steps, lateness)
        && Stale(Run(steps, lateness), e) && Stale(Run(steps, lateness), f)
        ensures Bucket(e.time) == Bucket(f.time)
      {
        StaleBucketsCoincide(steps, lateness, e, f);
      }
    } else {
      ReentryKeepsTwoStaleBuckets(lateness);
      assert Bucket(600_000) != Bucket(599_999);
    }
  }

  lemma {:induction false} UnevictedKeyHasEvent(log: seq<Event>, k: int) returns (e: Event)
    requires k in Unevicted(log)
    ensures e in log && Bucket(e.time) == k
  {
    var init, last := log[..|log| - 1], log[|log| - 1];
    if k == Bucket(last.time) {
      e := last;
    } else {
      e := UnevictedKeyHasEvent(init, k);
    }
  }

  lemma {:induction false} IntervalCardinality(s: set<int>, lo: int, hi: int)
    requires lo <= hi + 1 && forall x | x in s :: lo <= x <= hi
    ensures |s| <= hi - lo + 1
    decreases hi - lo + 1
  {
    if lo > hi {
      if s != {} {
        var x := Pick(s);
        assert false;
      }
    } else {
      var rest := s - {hi};
      IntervalCardinality(rest, lo, hi - 1);
      assert hi in s ==> s == rest + {hi};
      assert hi !in s ==> s == rest;
    }
  }

  /** Settled states hold at most one stale bucket beside the minutes between the horizon and the newest event. */
  lemma {:induction false} LiveBucketBound(steps: seq<Step>, lateness: int, ahead: int)
    requires lateness <= RETENTION && -RETENTION <= ahead
    requires Settled(Run(steps, lateness))
    requires forall e | e in Accepted(steps, lateness) :: e.time <= Run(steps, lateness).watermark.value + ahead
    ensures |Run(steps, lateness).buckets| <= (RETENTION + ahead) / MINUTE + 3
  {
    var s, log := Run(steps, lateness), Accepted(steps, lateness);
    var w := s.watermark.value;
    var lo, hi := Bucket(w - RETENTION), Bucket(w + ahead);
    ReachableInv(steps, lateness);
    var stale := set k | k in s.buckets && k < lo;
    forall k, l | k in stale && l in stale
      ensures k == l
    {
      var e := UnevictedKeyHasEvent(log, k);
      var f := UnevictedKeyHasEvent(log, l);
      StaleBucketsCoincide(steps, lateness, e, f);
    }
    assert |stale| <= 1 by {
      if stale != {} {
        var k :| k in stale;
        assert stale == {k};
      }
    }
    forall k | k in s.buckets.Keys - stale
      ensures lo <= k <= hi
    {
      var e := UnevictedKeyHasEvent(log, k);
    }
    IntervalCardinality(s.buckets.Keys - stale, lo, hi);
    assert s.buckets.Keys == (s.buckets.Keys - stale) + stale;
  }

  /** Some accepted event of bucket `k` still has its idle timer. */
  ghost predicate Anchored(s: State, log: seq<Event>, k: int) {
    exists e :: e in log && Bucket(e.time) == k && e.time + IDLE_TTL in s.timers
  }

  /** Whatever the lateness, a live bucket is anchored: an idle timer that fires takes its own bucket with it. */
  lemma {:induction false} LiveBucketsAreAnchored(steps: seq<Step>, lateness: int)
    ensures forall k | k in Run(steps, lateness).buckets :: Anchored(Run(steps, lateness), Accepted(steps, lateness), k)
  {
    if steps != [] {
      var n := |steps| - 1;
      LiveBucketsAreAnchored(steps[..n], lateness);
      var s, log := Run(steps[..n], lateness), Accepted(steps[..n], lateness);
      var t, all := Run(steps, lateness), Accepted(steps, lateness);
      forall k | k in t.buckets
        ensures Anchored(t, all, k)
      {
        if k in s.buckets {
          var e :| e in log && Bucket(e.time) == k && e.time + IDLE_TTL in s.timers;
          assert Cutoff(e.time + IDLE_TTL) > k;
          assert e in all && e.time + IDLE_TTL in t.timers;
        } else {
          assert all[|log|] == steps[n].event && k == Bucket(steps[n].event.time);
        }
      }
    }
  }

  /** Once the watermark is a week past every accepted event, nothing is left. */
  lemma {:induction false} IdleAccountIsEmpty(steps: seq<Step>, lateness: int)
    requires Settled(Run(steps, lateness))
    requires forall e | e in Accepted(steps, lateness) :: e.time + 604_800_000 <= Run(steps, lateness).watermark.value
    ensures Run(steps, lateness).buckets == map[]
  {
    var s, log := Run(steps, lateness), Accepted(steps, lateness);
    LiveBucketsAreAnchored(steps, lateness);
    if s.buckets.Keys != {} {
      var k := Pick(s.buckets.Keys);
      assert false;
    }
  }

  // ----- what the windows mean

  ghost predicate NonNegative(log: seq<Event>) { forall e | e in log :: 0 <= e.amount }

  lemma {:induction false} TallyMonotone(log: seq<Event>, p: Filter, q: Filter)
    requires forall e | e in log && Matches(p, e) :: Matches(q, e)
    ensures Tally(log, p).count <= Tally(log, q).count
    ensures NonNegative(log) ==> AtMost(Tally(log, p), Tally(log, q))
  {
    if log != [] {
      TallyMonotone(log[..|log| - 1], p, q);
    }
  }

  /**
   Each window counts at least the last m minutes and no more than the last m + 1, sums likewise when no amount is
   negative, and wider windows count more.
   */
  ghost predicate Sandwiched(log: seq<Event>, v: seq<Cell>, e: Event, i: nat)
    requires i < |WINDOWS| == |v|
  {
    var inner := Tally(log, After(e.time - WINDOWS[i] * MINUTE));
    var outer := Tally(log, After(e.time - (WINDOWS[i] + 1) * MINUTE));
    && 1 <= inner.count <= v[i].count <= outer.count
    && (NonNegative(log) ==> AtMost(inner, v[i]) && AtMost(v[i], outer))
    && (forall j | i <= j < |WINDOWS| :: v[i].count <= v[j].count && (NonNegative(log) ==> AtMost(v[i], v[j])))
  }

  /** A scan whose widest window starts at bucket `oldest`. */
  function ScanFrom(log: seq<Event>, current: int, oldest: int): (v: seq<Cell>)
    ensures |v| == |WINDOWS|
  {
    [Tally(log, InBuckets(current - 1)), Tally(log, InBuckets(current - 5)), Tally(log, InBuckets(current - 60)),
     Tally(log, InBuckets(oldest))]
  }

  /** The windows' cutoffs; the widest may start a bucket later when the event is the last millisecond of its minute. */
  ghost predicate ScansFrom(log: seq<Event>, v: seq<Cell>, e: Event, oldest: int)
    requires |WINDOWS| == |v|
  {
    var b := Bucket(e.time);
    && (oldest == b - 1440 || (oldest == b - 1439 && (e.time + 1) % MINUTE == 0))
    && v == ScanFrom(log, b, oldest)
  }

  lemma {:induction false} ScanSandwich(log: seq<Event>, v: seq<Cell>, e: Event, oldest: int, i: nat)
    requires log != [] && log[|log| - 1] == e && i < |WINDOWS| == |v| && ScansFrom(log, v, e, oldest)
    ensures Sandwiched(log, v, e, i)
  {
    var m, cutoff := WINDOWS[i], CutoffOf(e, oldest, i);
    TallyMonotone(log, After(e.time - m * MINUTE), InBuckets(cutoff));
    TallyMonotone(log, InBuckets(cutoff), After(e.time - (m + 1) * MINUTE));
    assert Matches(After(e.time - m * MINUTE), e);
    forall j | i <= j < |WINDOWS|
      ensures v[i].count <= v[j].count && (NonNegative(log) ==> AtMost(v[i], v[j]))
    {
      assert CutoffOf(e, oldest, j) <= cutoff;
      TallyMonotone(log, InBuckets(cutoff), InBuckets(CutoffOf(e, oldest, j)));
      CutoffRead(log, e, oldest, j);
    }
    CutoffRead(log, e, oldest, i);
  }

  function CutoffOf(e: Event, oldest: int, j: nat): int
    requires j < |WINDOWS|
  {
    if j == 3 then oldest else Bucket(e.time) - WINDOWS[j]
  }

  lemma {:induction false} CutoffRead(log: seq<Event>, e: Event, oldest: int, j: nat)
    requires j < |WINDOWS|
    ensures ScanFrom(log, Bucket(e.time), oldest)[j] == Tally(log, InBuckets(CutoffOf(e, oldest, j)))
  {
    hide Tally, Bucket;
    assert j == 0 || j == 1 || j == 2 || j == 3;
  }

  /** Up to 1 ms beyond the safe lateness only the widest window can miss a bucket, and then the one it only grazes. */
  lemma {:induction false} KeptFromOldest(steps: seq<Step>, lateness: int, e: Event) returns (oldest: int)
    requires lateness <= MAX_SAFE_LATENESS + 1 && Admits(steps, lateness, e)
    ensures var kept := Next(Run(steps, lateness), lateness, Arrive(e)).buckets;
            && AgreeFrom(kept, Unevicted(Accepted(steps, lateness) + [e]), oldest)
            && From(kept, Bucket(e.time) - 1440) == From(kept, oldest)
    ensures var b := Bucket(e.time); oldest == b - 1440 || (oldest == b - 1439 && (e.time + 1) % MINUTE == 0)
  {
    var s := Run(steps, lateness);
    ReachableInv(steps, lateness);
    ArriveKeepsInv(s, Accepted(steps, lateness), lateness, e);
    var kept, all := Next(s, lateness, Arrive(e)).buckets, Unevicted(Accepted(steps, lateness) + [e]);
    forall k | k in all && k !in kept
      ensures k <= Bucket(e.time) - 1440 && (k == Bucket(e.time) - 1440 ==> (e.time + 1) % MINUTE == 0)
    {
      MissingBucket(e.time, s.watermark.value, k);
    }
    hide Run, Accepted, Unevicted, Handled, Next;
    oldest := OldestKept(kept, all, e.time);
  }

  lemma {:induction false} OldestKept(kept: map<int, Cell>, all: map<int, Cell>, time: int) returns (oldest: int)
    requires forall k | k in kept :: k in all && kept[k] == all[k]
    requires forall k | k in all && k !in kept ::
               k <= Bucket(time) - 1440 && (k == Bucket(time) - 1440 ==> (time + 1) % MINUTE == 0)
    ensures AgreeFrom(kept, all, oldest) && From(kept, Bucket(time) - 1440) == From(kept, oldest)
    ensures var b := Bucket(time); oldest == b - 1440 || (oldest == b - 1439 && (time + 1) % MINUTE == 0)
  {
    hide Bucket;
    var b := Bucket(time);
    oldest := if b - 1440 in all && b - 1440 !in kept then b - 1439 else b - 1440;
  }

  lemma {:induction false} MissingBucket(time: int, watermark: int, k: int)
    requires watermark <= time + MAX_SAFE_LATENESS + 1 && k < Cutoff(watermark)
    ensures k <= Bucket(time) - 1440 && (k == Bucket(time) - 1440 ==> (time + 1) % MINUTE == 0)
  {
  }

  lemma {:induction false} AnswerScansFrom(steps: seq<Step>, lateness: int, e: Event) returns (oldest: int)
    requires lateness <= MAX_SAFE_LATENESS + 1 && Admits(steps, lateness, e)
    ensures ScansFrom(Accepted(steps, lateness) + [e], Answer(steps, lateness, e), e, oldest)
  {
    oldest := KeptFromOldest(steps, lateness, e);
    var kept := Next(Run(steps, lateness), lateness, Arrive(e)).buckets;
    KeptSums(kept, Accepted(steps, lateness) + [e], Bucket(e.time), oldest);
  }

  lemma {:induction false} KeptSums(kept: map<int, Cell>, log: seq<Event>, b: int, oldest: int)
    requires AgreeFrom(kept, Unevicted(log), oldest) && From(kept, b - 1440) == From(kept, oldest)
    requires oldest == b - 1440 || oldest == b - 1439
    ensures WindowSums(kept, b) == ScanFrom(log, b, oldest)
  {
    hide From, Total, Tally, Unevicted, AgreeFrom;
    KeptSum(kept, log, oldest, b - 1);
    KeptSum(kept, log, oldest, b - 5);
    KeptSum(kept, log, oldest, b - 60);
    KeptSum(kept, log, oldest, oldest);
  }

  lemma {:induction false} KeptSum(kept: map<int, Cell>, log: seq<Event>, oldest: int, cutoff: int)
    requires oldest <= cutoff && AgreeFrom(kept, Unevicted(log), oldest)
    ensures WindowSum(kept, cutoff) == Tally(log, InBuckets(cutoff))
  {
    assert From(kept, cutoff) == From(Unevicted(log), cutoff);
    UnevictedSumIsTally(log, cutoff);
  }

  ghost predicate AllSandwiched(lateness: int) {
    forall steps, e, i: nat | i < |WINDOWS| && Admits(steps, lateness, e) ::
      Sandwiched(Accepted(steps, lateness) + [e], Answer(steps, lateness, e), e, i)
  }

  /** Every window of every run is sandwiched exactly up to a lateness of 41 001 ms. */
  lemma {:induction false} SandwichIsExact(lateness: int)
    ensures AllSandwiched(lateness) <==> lateness <= MAX_SAFE_LATENESS + 1 == 41_001
  {
    if lateness <= MAX_SAFE_LATENESS + 1 {
      forall steps, e, i: nat | i < |WINDOWS| && Admits(steps, lateness, e)
        ensures Sandwiched(Accepted(steps, lateness) + [e], Answer(steps, lateness, e), e, i)
      {
        WindowSandwich(steps, lateness, e, i);
      }
    } else {
      LateEventEscapesTheSandwich(lateness);
    }
  }

  lemma {:induction false} LateEventEscapesTheSandwich(lateness: int)
    requires MAX_SAFE_LATENESS + 1 < lateness
    ensures !AllSandwiched(lateness)
  {
    var late := Event(1441 * MINUTE - 2, 0);
    LateEventIsMiscounted(lateness, 0, late);
    LateLogIsWithinADay(lateness, late);
    hide Accepted, Tally, Answer, LateRun, Sandwiched;
    MissesInner(Accepted(LateRun(0), lateness) + [late], Answer(LateRun(0), lateness, late), late);
  }

  lemma {:induction false} MissesInner(log: seq<Event>, v: seq<Cell>, e: Event)
    requires |v| == |WINDOWS| && v[3].count < Tally(log, After(e.time - 1440 * MINUTE)).count
    ensures !Sandwiched(log, v, e, 3)
  {
    hide Tally, NonNegative;
    assert WINDOWS[3] == 1440;
  }

  lemma {:induction false} LateLogIsWithinADay(lateness: int, late: Event)
    requires late == Event(1441 * MINUTE - 2, 0)
    ensures var log := Accepted(LateRun(0), lateness) + [late];
            Tally(log, InBuckets(0)).count <= Tally(log, After(late.time - 1440 * MINUTE)).count
  {
    LateRunState(lateness, 0);
    TallyMonotone(Accepted(LateRun(0), lateness) + [late], InBuckets(0), After(late.time - 1440 * MINUTE));
  }

  lemma {:induction false} WindowSandwich(steps: seq<Step>, lateness: int, e: Event, i: nat)
    requires lateness <= MAX_SAFE_LATENESS + 1 && Admits(steps, lateness, e) && i < |WINDOWS|
    ensures Sandwiched(Accepted(steps, lateness) + [e], Answer(steps, lateness, e), e, i)
  {
    var oldest := AnswerScansFrom(steps, lateness, e);
    ScanSandwich(Accepted(steps, lateness) + [e], Answer(steps, lateness, e), e, oldest, i);
  }

  // ----- the windows are monotone in the history

  lemma {:induction false} TallyWithout(log: seq<Event>, p: Filter, k: nat)
    requires k < |log|
    ensures Tally(log, p) == Plus(Tally(Without(log, k), p), One(log[k], p))
  {
    var n := |log| - 1;
    var init := log[..n];
    if k == n {
      assert Without(log, k) == init;
    } else {
      WithoutSnoc(log, k);
      hide Without, Tally;
      TallyWithout(init, p, k);
      TallySnoc(Without(init, k), log[n], p);
      TallySnoc(init, log[n], p);
      assert log == init + [log[n]];
    }
  }

  lemma {:induction false} WithoutSnoc(log: seq<Event>, k: nat)
    requires k < |log| - 1
    ensures Without(log, k) == Without(log[..|log| - 1], k) + [log[|log| - 1]]
  {
  }

  /** A history that is a sub-multiset of another, with non-negative amounts, never counts or sums to more. */
  lemma {:induction false} TallyOfSubHistory(small: seq<Event>, large: seq<Event>, p: Filter)
    requires multiset(small) <= multiset(large) && NonNegative(large)
    ensures AtMost(Tally(small, p), Tally(large, p))
  {
    if small == [] {
      TallyIsNonNegative(large, p);
    } else {
      var n := |small| - 1;
      var e := small[n];
      WithoutMultiset(small, n);
      assert Without(small, n) == small[..n];
      assert e in multiset(large);
      var k :| 0 <= k < |large| && large[k] == e;
      WithoutMultiset(large, k);
      SubMultisetRest(multiset(small[..n]), multiset(Without(large, k)), e);
      TallyOfSubHistory(small[..n], Without(large, k), p);
      TallyWithout(large, p, k);
    }
  }

  lemma {:induction false} TallyIsNonNegative(log: seq<Event>, p: Filter)
    requires NonNegative(log)
    ensures 0 <= Tally(log, p).total
  {
    if log != [] {
      TallyIsNonNegative(log[..|log| - 1], p);
    }
  }
}
