/**
 Per-device profile accumulation, keyed by API key. One key is a step system of arrivals and watermark advances. The
 timer callback clears the profile whatever its timestamp, so a clear follows the oldest pending timer.
 */
module Device {
  import opened Basics

  const IDLE_TTL: int := 7 * 24 * 3600 * 1000

  datatype Event = Event(time: int, country: Option<string>)
  datatype Step = Arrive(event: Event) | Advance(to: int)
  datatype Profile = Profile(firstSeen: int, txnCount: int, knownFraud: bool, lastSeen: int,
                             lastCountry: Option<string>)
  datatype State = State(profile: Option<Profile>, timers: set<int>, watermark: Option<int>)

  datatype Fields = Fields(firstSeen: Option<int>, txnCount: Option<int>, knownFraud: Option<bool>,
                           prevCountry: Option<string>, prevTime: Option<int>)

  const NULL_FIELDS := Fields(None, None, None, None, None)
  const INITIAL := State(None, {}, None)

  function Updated(profile: Option<Profile>, e: Event): Profile {
    match profile
    case None => Profile(e.time, 1, false, e.time, e.country)
    case Some(p) => Profile(p.firstSeen, p.txnCount + 1, p.knownFraud, e.time, e.country)
  }

  function FieldsOf(before: Option<Profile>, after: Profile): Fields {
    Fields(Some(after.firstSeen), Some(after.txnCount), Some(after.knownFraud),
           if before.Some? then before.value.lastCountry else None,
           if before.Some? then Some(before.value.lastSeen) else None)
  }

  /** The record assembler's flag: the count, or 0 when it is null, equals 1. */
  predicate IsNew(f: Fields) { f.txnCount == Some(1) }

  function Due(timers: set<int>, to: int): set<int> { set ts | ts in timers && ts <= to }

  predicate Advances(s: State, to: int) { s.watermark.None? || s.watermark.value < to }

  predicate Clears(s: State, step: Step) {
    step.Advance? && Advances(s, step.to) && exists ts :: ts in s.timers && ts <= step.to
  }

  function Next(s: State, step: Step): State {
    match step
    case Arrive(e) => State(Some(Updated(s.profile, e)), s.timers + {e.time + IDLE_TTL}, s.watermark)
    case Advance(to) =>
      if !Advances(s, to) then s
      else State(if Clears(s, step) then None else s.profile, s.timers - Due(s.timers, to), Some(to))
  }

  function Run(steps: seq<Step>): State {
    if steps == [] then INITIAL else Next(Run(steps[..|steps| - 1]), steps[|steps| - 1])
  }

  /** All events of the device. */
  function Events(steps: seq<Step>): seq<Event> {
    if steps == [] then []
    else Events(steps[..|steps| - 1]) + if steps[|steps| - 1].Arrive? then [steps[|steps| - 1].event] else []
  }

  /** The events since the last clear. */
  function Live(steps: seq<Step>): seq<Event> {
    if steps == [] then []
    else
      var init, step := steps[..|steps| - 1], steps[|steps| - 1];
      if step.Arrive? then Live(init) + [step.event] else if Clears(Run(init), step) then [] else Live(init)
  }

  lemma {:induction false} RunSnoc(steps: seq<Step>, step: Step)
    ensures Run(steps + [step]) == Next(Run(steps), step)
    ensures Events(steps + [step]) == Events(steps) + if step.Arrive? then [step.event] else []
    ensures Live(steps + [step]) ==
            if step.Arrive? then Live(steps) + [step.event] else if Clears(Run(steps), step) then [] else Live(steps)
  {
    assert (steps + [step])[..|steps|] == steps;
  }

  /** What a profile over the events `live` has to say. */
  ghost predicate Summarises(profile: Option<Profile>, live: seq<Event>) {
    match profile
    case None => live == []
    case Some(p) =>
      && live != []
      && p.txnCount == |live|
      && p.firstSeen == live[0].time
      && p.lastSeen == live[|live| - 1].time && p.lastCountry == live[|live| - 1].country
      && !p.knownFraud
  }

  lemma {:induction false} ProfileSummarisesLive(steps: seq<Step>)
    ensures Summarises(Run(steps).profile, Live(steps))
  {
    if steps != [] {
      ProfileSummarisesLive(steps[..|steps| - 1]);
    }
  }

  /** The emitted fields: the count since the last clear, its first time, and the preceding event's values. */
  lemma {:induction false} EmittedFields(steps: seq<Step>, e: Event)
    ensures var live, f := Live(steps), FieldsOf(Run(steps).profile, Updated(Run(steps).profile, e));
            && f.txnCount == Some(|live| + 1)
            && f.firstSeen == Some((live + [e])[0].time)
            && f.knownFraud == Some(false)
            && f.prevTime == (if live == [] then None else Some(live[|live| - 1].time))
            && f.prevCountry == (if live == [] then None else live[|live| - 1].country)
            && (IsNew(f) <==> live == [])
  {
    ProfileSummarisesLive(steps);
  }

  // ----- when a profile is cleared

  lemma {:induction false} TimerHasEvent(steps: seq<Step>, ts: int) returns (e: Event)
    requires ts in Run(steps).timers
    ensures e in Events(steps) && e.time + IDLE_TTL == ts
  {
    var n := |steps| - 1;
    if ts in Run(steps[..n]).timers {
      e := TimerHasEvent(steps[..n], ts);
    } else {
      e := steps[n].event;
      assert Events(steps)[|Events(steps)| - 1] == e;
    }
  }

  /** While every event is within seven days of the new watermark, advancing to it clears nothing. */
  lemma {:induction false} ActiveWithinAWeekIsKept(steps: seq<Step>, to: int)
    requires forall e | e in Events(steps) :: to < e.time + 604_800_000
    ensures !Clears(Run(steps), Advance(to)) && Run(steps + [Advance(to)]).profile == Run(steps).profile
  {
    var s := Run(steps);
    assert (steps + [Advance(to)])[..|steps|] == steps;
    if ts :| ts in s.timers && ts <= to {
      var e := TimerHasEvent(steps, ts);
      assert false;
    }
  }

  /** Step `n` is an arrival with idle deadline `ts`, and no effective advance since then has reached the deadline. */
  ghost predicate Awaits(steps: seq<Step>, n: nat, ts: int)
    requires n < |steps|
  {
    && steps[n].Arrive? && steps[n].event.time + 604_800_000 == ts
    && forall m | n < m < |steps| && steps[m].Advance? && Advances(Run(steps[..m]), steps[m].to) :: steps[m].to < ts
  }

  lemma {:induction false} AwaitsSnoc(steps: seq<Step>, n: nat, ts: int)
    requires n < |steps| - 1
    ensures var k := |steps| - 1;
            Awaits(steps, n, ts) <==>
            && Awaits(steps[..k], n, ts)
            && (steps[k].Advance? && Advances(Run(steps[..k]), steps[k].to) ==> steps[k].to < ts)
  {
    var init := steps[..|steps| - 1];
    assert forall m | 0 <= m < |init| :: init[..m] == steps[..m] && init[m] == steps[m];
  }

  /** The pending timers are the deadlines that some arrival still awaits. */
  lemma {:induction false} TimersAreAwaited(steps: seq<Step>, ts: int)
    ensures ts in Run(steps).timers <==> exists n: nat :: n < |steps| && Awaits(steps, n, ts)
  {
    if steps != [] {
      var k := |steps| - 1;
      TimersAreAwaited(steps[..k], ts);
      forall n: nat | n < k
        ensures Awaits(steps, n, ts) <==>
                && Awaits(steps[..k], n, ts)
                && (steps[k].Advance? && Advances(Run(steps[..k]), steps[k].to) ==> steps[k].to < ts)
      {
        AwaitsSnoc(steps, n, ts);
      }
      assert Awaits(steps, k, ts) <==> steps[k].Arrive? && steps[k].event.time + 604_800_000 == ts;
    }
  }

  /** In every run, an effective advance clears exactly when it reaches a deadline that some arrival still awaits. */
  lemma {:induction false} ClearsExactly(steps: seq<Step>, to: int)
    requires Advances(Run(steps), to)
    ensures Clears(Run(steps), Advance(to)) <==> exists n: nat, ts :: n < |steps| && ts <= to && Awaits(steps, n, ts)
  {
    if ts :| ts in Run(steps).timers && ts <= to {
      TimersAreAwaited(steps, ts);
    }
    if n: nat, ts :| n < |steps| && ts <= to && Awaits(steps, n, ts) {
      TimersAreAwaited(steps, ts);
    }
  }

  /** Whatever fires clears, so the deadline of every live event is still pending. */
  lemma {:induction false} LiveDeadlinesArePending(steps: seq<Step>)
    ensures forall e | e in Live(steps) :: e in Events(steps) && e.time + IDLE_TTL in Run(steps).timers
  {
    if steps != [] {
      var n := |steps| - 1;
      LiveDeadlinesArePending(steps[..n]);
      if steps[n].Arrive? {
        assert Events(steps)[|Events(steps)| - 1] == steps[n].event;
      }
    }
  }

  /** Once an advance takes the watermark seven days past every event, no state is left. */
  lemma {:induction false} IdleDeviceIsForgotten(steps: seq<Step>, to: int)
    requires Advances(Run(steps), to) && forall e | e in Events(steps) :: e.time + 604_800_000 <= to
    ensures Run(steps + [Advance(to)]) == State(None, {}, Some(to))
  {
    var s, t := Run(steps), Run(steps + [Advance(to)]);
    assert (steps + [Advance(to)])[..|steps|] == steps;
    if t.timers != {} {
      var ts := Pick(t.timers);
      var e := TimerHasEvent(steps, ts);
      assert false;
    }
    if s.profile.Some? {
      ProfileSummarisesLive(steps);
      LiveDeadlinesArePending(steps);
      assert Live(steps)[0] in Live(steps);
    }
  }

  const WEEK: int := 604_800_000
  const TWO_VISITS: seq<Step> := [Arrive(Event(0, None)), Arrive(Event(WEEK - 1, None))]

  /** A device seen one millisecond before the watermark is cleared by its oldest timer, and counts as new again. */
  lemma {:induction false} ActiveDeviceCanBeCleared()
    ensures Live(TWO_VISITS) == Events(TWO_VISITS) == [Event(0, None), Event(WEEK - 1, None)]
    ensures Run(TWO_VISITS).profile == Some(Profile(0, 2, false, WEEK - 1, None))
    ensures Run(TWO_VISITS + [Advance(WEEK)]).profile == None
  {
    var first, second := Event(0, None), Event(WEEK - 1, None);
    assert [] + [Arrive(first)] == [Arrive(first)] && [Arrive(first)] + [Arrive(second)] == TWO_VISITS;
    RunSnoc([], Arrive(first));
    RunSnoc([Arrive(first)], Arrive(second));
    RunSnoc(TWO_VISITS, Advance(WEEK));
    assert Run([]) == INITIAL && Events([]) == [] && Live([]) == [];
    hide Run, Events, Live;
    assert WEEK in Run(TWO_VISITS).timers;
  }

  // ----- the operator

  class DeviceProcessFunction {
    var profile: Option<Profile>
    var timers: set<int>
    var watermark: Option<int>
    ghost var trace: seq<Step>

    ghost predicate Valid()
      reads this
    {
      State(profile, timers, watermark) == Run(trace)
    }

    constructor ()
      ensures Valid() && trace == []
    {
      profile, timers, watermark := None, {}, None;
      trace := [];
    }

    /** A transaction without an API key gets null fields and leaves the state alone. */
    method ProcessElement(apiKey: Option<string>, e: Event) returns (f: Fields)
      requires Valid()
      modifies this
      ensures Valid()
      ensures apiKey.None? || apiKey.value == "" ==>
                trace == old(trace) && f == NULL_FIELDS && profile == old(profile) && timers == old(timers)
      ensures apiKey.Some? && apiKey.value != "" ==>
                && trace == old(trace) + [Arrive(e)]
                && f.txnCount == Some(|Live(trace)|) && f.firstSeen == Some(Live(trace)[0].time)
                && f.prevTime == (if old(Live(trace)) == [] then None else Some(Live(trace)[|Live(trace)| - 2].time))
                && f.prevCountry == (if old(Live(trace)) == [] then None else Live(trace)[|Live(trace)| - 2].country)
                && (IsNew(f) <==> Live(trace) == [e])
    {
      if apiKey.None? || apiKey.value == "" {
        f := NULL_FIELDS;
      } else {
        EmittedFields(trace, e);
        var current := profile;
        var updated;
        if current.None? {
          updated := Profile(e.time, 1, false, e.time, e.country);
        } else {
          updated := Profile(current.value.firstSeen, current.value.txnCount + 1, current.value.knownFraud, e.time,
                             e.country);
        }
        profile := Some(updated);
        timers := timers + {e.time + IDLE_TTL};
        f := FieldsOf(current, updated);
        trace := trace + [Arrive(e)];
        assert trace[..|trace| - 1] == old(trace);
        assert Live(trace) == old(Live(trace)) + [e];
      }
    }

    /** The timer callback ignores its timestamp. */
    method OnTimer(ts: int)
      modifies this`profile
      ensures profile == None
    {
      profile := None;
    }

    method AdvanceWatermark(to: int)
      requires Valid()
      modifies this
      ensures Valid() && trace == old(trace) + [Advance(to)]
      ensures profile == (if Clears(old(State(profile, timers, watermark)), Advance(to)) then None else old(profile))
    {
      ghost var before := State(profile, timers, watermark);
      if watermark.None? || watermark.value < to {
        watermark := Some(to);
        while exists ts :: ts in timers && ts <= to
          invariant watermark == Some(to) && trace == old(trace)
          invariant timers <= before.timers && forall ts | ts in before.timers && ts !in timers :: ts <= to
          invariant profile == if timers == before.timers then before.profile else None
          invariant timers != before.timers ==> Clears(before, Advance(to))
          decreases timers
        {
          var ts :| ts in timers && ts <= to;
          OnTimer(ts);
          timers := timers - {ts};
          assert ts in before.timers && ts !in timers;
        }
        assert timers == before.timers - Due(before.timers, to);
      }
      trace := trace + [Advance(to)];
      assert trace[..|trace| - 1] == old(trace);
    }
  }
}
