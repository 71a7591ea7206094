/** The replay job over a source of events, and the Kafka offset-range source. */
module Replay {
  import opened Basics

  // ----- the Kafka source

  datatype OffsetRange = OffsetRange(start: int, end: int)

  /** What asking for the high watermark gives: an offset, nothing to ask about, or an error, or no consumer to ask. */
  datatype HighMark = Known(offset: int) | Unknown | QueryFails | NoConsumer

  datatype Poll = NoMessage | PollError | PollRaises | Message(offset: int)

  /** The end of the range; a negative one means the latest offset, and stays negative when there is nothing to ask. */
  function EffectiveEnd(r: OffsetRange, mark: HighMark): int {
    if r.end < 0 && mark.Known? then mark.offset else r.end
  }

  function EventCount(r: OffsetRange, mark: HighMark): nat {
    if r.end < 0 && (mark == QueryFails || mark == NoConsumer) then 0
    else if EffectiveEnd(r, mark) - r.start < 0 then 0
    else EffectiveEnd(r, mark) - r.start
  }

  /** The offsets that the generator yields before it stops or raises. */
  function Yielded(end: int, current: int, polls: seq<Poll>): seq<int>
    decreases |polls|
  {
    if end <= current || polls == [] || !polls[0].Message? || end <= polls[0].offset then []
    else [polls[0].offset] + Yielded(end, polls[0].offset, polls[1..])
  }

  /** The loop reaches a poll that raises. */
  predicate PollRaisesIn(end: int, current: int, polls: seq<Poll>)
    decreases |polls|
  {
    && current < end && polls != []
    && (polls[0] == PollRaises ||
        (polls[0].Message? && polls[0].offset < end && PollRaisesIn(end, polls[0].offset, polls[1..])))
  }

  /** The iteration raises before its loop: it needs a consumer, and the high watermark of an open-ended range. */
  predicate CannotIterate(r: OffsetRange, mark: HighMark) { mark == NoConsumer || (r.end < 0 && mark == QueryFails) }

  function Delivered(r: OffsetRange, mark: HighMark, polls: seq<Poll>): seq<int> {
    if CannotIterate(r, mark) then [] else Yielded(EffectiveEnd(r, mark), r.start, polls)
  }

  predicate IterationRaises(r: OffsetRange, mark: HighMark, polls: seq<Poll>) {
    CannotIterate(r, mark) || PollRaisesIn(EffectiveEnd(r, mark), r.start, polls)
  }

  /** The generator. Polls beyond those given return no message. */
  method IterEvents(r: OffsetRange, mark: HighMark, polls: seq<Poll>) returns (yielded: seq<int>, raised: bool)
    ensures yielded == Delivered(r, mark, polls) && (raised <==> IterationRaises(r, mark, polls))
  {
    if mark == NoConsumer {
      return [], true;
    }
    var end := r.end;
    if end < 0 {
      if mark == QueryFails {
        return [], true;
      }
      if mark.Known? {
        end := mark.offset;
      }
    }
    yielded, raised := PollLoop(end, r.start, polls);
  }

  /** What one more poll adds: a message in the range goes on, anything else ends the loop. */
  lemma {:induction false} OnePoll(end: int, current: int, polls: seq<Poll>, i: nat)
    requires i <= |polls| && current < end
    ensures i < |polls| && polls[i].Message? && polls[i].offset < end ==>
              && Yielded(end, current, polls[i..]) == [polls[i].offset] + Yielded(end, polls[i].offset, polls[i + 1..])
              && (PollRaisesIn(end, current, polls[i..]) <==> PollRaisesIn(end, polls[i].offset, polls[i + 1..]))
    ensures i == |polls| || !polls[i].Message? || end <= polls[i].offset ==>
              && Yielded(end, current, polls[i..]) == []
              && (PollRaisesIn(end, current, polls[i..]) <==> i < |polls| && polls[i] == PollRaises)
  {
    if i < |polls| {
      assert polls[i..][0] == polls[i] && polls[i..][1..] == polls[i + 1..];
    }
  }

  lemma {:induction false} PastTheEnd(end: int, current: int, polls: seq<Poll>)
    requires end <= current
    ensures Yielded(end, current, polls) == [] && !PollRaisesIn(end, current, polls)
  {
  }

  method PollLoop(end: int, start: int, polls: seq<Poll>) returns (yielded: seq<int>, raised: bool)
    ensures yielded == Yielded(end, start, polls) && (raised <==> PollRaisesIn(end, start, polls))
  {
    hide Yielded, PollRaisesIn;
    yielded, raised := [], false;
    var current := start;
    var i := 0;
    assert polls[0..] == polls;
    while current < end
      invariant 0 <= i <= |polls|
      invariant yielded + Yielded(end, current, polls[i..]) == Yielded(end, start, polls)
      invariant PollRaisesIn(end, current, polls[i..]) <==> PollRaisesIn(end, start, polls)
      decreases |polls| - i
    {
      OnePoll(end, current, polls, i);
      var msg := if i < |polls| then polls[i] else NoMessage;
      if msg == PollRaises {
        return yielded, true;
      }
      if msg == NoMessage || msg == PollError {
        return yielded, false;
      }
      current := msg.offset;
      if current >= end {
        return yielded, false;
      }
      AppendAssoc(yielded, [current], Yielded(end, current, polls[i + 1..]));
      yielded := yielded + [current];
      i := i + 1;
    }
    PastTheEnd(end, current, polls[i..]);
  }

  predicate InRange(p: Poll, end: int) { p.Message? && p.offset < end }

  /** Delivered are the leading messages before the end; the generator raises when the next poll does, and only then. */
  lemma {:induction false} PollsMeaning(end: int, start: int, polls: seq<Poll>)
    requires start < end
    ensures var y := Yielded(end, start, polls);
            && |y| <= |polls| && (forall i | 0 <= i < |y| :: InRange(polls[i], end) && y[i] == polls[i].offset)
            && (|y| < |polls| ==> !InRange(polls[|y|], end))
            && (PollRaisesIn(end, start, polls) <==> |y| < |polls| && polls[|y|] == PollRaises)
    decreases |polls|
  {
    if polls != [] && InRange(polls[0], end) {
      PollsMeaning(end, polls[0].offset, polls[1..]);
    }
  }

  /** Without a consumer nothing is delivered and the iteration raises; a failed query matters to an open end only. */
  lemma {:induction false} ConsumerMeaning(r: OffsetRange, polls: seq<Poll>)
    ensures Delivered(r, NoConsumer, polls) == [] && IterationRaises(r, NoConsumer, polls)
    ensures r.end < 0 ==> Delivered(r, QueryFails, polls) == [] && IterationRaises(r, QueryFails, polls)
    ensures 0 <= r.end ==> forall mark | mark != NoConsumer ::
              && Delivered(r, mark, polls) == Yielded(r.end, r.start, polls)
              && (IterationRaises(r, mark, polls) <==> PollRaisesIn(r.end, r.start, polls))
    ensures r.end < 0 ==> forall offset ::
              && Delivered(r, Known(offset), polls) == Yielded(offset, r.start, polls)
              && (IterationRaises(r, Known(offset), polls) <==> PollRaisesIn(offset, r.start, polls))
  {
  }

  /** Messages arrive with strictly increasing offsets, none before `from`. */
  ghost predicate InOrder(polls: seq<Poll>, from: int)
    decreases |polls|
  {
    polls == [] || if polls[0].Message? then from <= polls[0].offset && InOrder(polls[1..], polls[0].offset + 1)
                   else InOrder(polls[1..], from)
  }

  /** What is yielded lies in the range with the end offset left out, and there is room for it. */
  lemma {:induction false} YieldedIsInRange(end: int, current: int, from: int, polls: seq<Poll>)
    requires InOrder(polls, from) && current <= from
    ensures var y := Yielded(end, current, polls);
            && (forall i | 0 <= i < |y| :: from <= y[i] < end)
            && (forall i, j | 0 <= i < j < |y| :: y[i] < y[j])
            && (y != [] ==> |y| <= end - from)
    decreases |polls|
  {
    if !(end <= current || polls == [] || !polls[0].Message? || end <= polls[0].offset) {
      YieldedIsInRange(end, polls[0].offset, polls[0].offset + 1, polls[1..]);
    }
  }

  function Consecutive(lo: int, hi: int): seq<Poll>
    requires lo <= hi
    decreases hi - lo
  {
    if lo == hi then [] else [Message(lo)] + Consecutive(lo + 1, hi)
  }

  lemma {:induction false} ConsecutiveYieldsAll(lo: int, hi: int, current: int)
    requires lo <= hi && (current < hi || lo == hi)
    ensures InOrder(Consecutive(lo, hi), lo)
    ensures |Yielded(hi, current, Consecutive(lo, hi))| == hi - lo
    decreases hi - lo
  {
    if lo < hi {
      ConsecutiveYieldsAll(lo + 1, hi, lo);
    }
  }

  ghost predicate NeverExceeds(r: OffsetRange, atCount: HighMark, atIteration: HighMark) {
    forall polls :: InOrder(polls, r.start) ==> |Delivered(r, atIteration, polls)| <= EventCount(r, atCount)
  }

  /** What the iteration can reach fits the count that was taken before it. */
  predicate Fits(r: OffsetRange, atCount: HighMark, atIteration: HighMark) {
    CannotIterate(r, atIteration) || EffectiveEnd(r, atIteration) - r.start <= EventCount(r, atCount)
  }

  /** The event count bounds the events, exactly when the end seen by the iteration is not beyond the one counted. */
  lemma {:induction false} EventCountBoundsExactly(r: OffsetRange, atCount: HighMark, atIteration: HighMark)
    ensures NeverExceeds(r, atCount, atIteration) <==> Fits(r, atCount, atIteration)
  {
    var end := EffectiveEnd(r, atIteration);
    if Fits(r, atCount, atIteration) {
      forall polls | InOrder(polls, r.start)
        ensures |Delivered(r, atIteration, polls)| <= EventCount(r, atCount)
      {
        YieldedIsInRange(end, r.start, r.start, polls);
      }
    } else {
      ConsecutiveYieldsAll(r.start, end, r.start);
      assert InOrder(Consecutive(r.start, end), r.start);
    }
  }

  /** All messages of the range, in order. */
  function EveryMessage(r: OffsetRange, mark: HighMark): seq<Poll> {
    if EffectiveEnd(r, mark) <= r.start then [] else Consecutive(r.start, EffectiveEnd(r, mark))
  }

  /** The count is not too high: when all messages of the range come, as many are delivered. */
  lemma {:induction false} CountIsAttained(r: OffsetRange, mark: HighMark)
    requires !CannotIterate(r, mark)
    ensures var polls := EveryMessage(r, mark);
            && InOrder(polls, r.start) && |Delivered(r, mark, polls)| == EventCount(r, mark)
            && !IterationRaises(r, mark, polls)
  {
    var end := EffectiveEnd(r, mark);
    if r.start < end {
      ConsecutiveYieldsAll(r.start, end, r.start);
      ConsecutiveNeverRaises(r.start, end, end, r.start);
    }
  }

  /** With a fixed end the count always bounds the events. */
  lemma {:induction false} FixedEndNeverExceeds(r: OffsetRange, atCount: HighMark, atIteration: HighMark)
    requires 0 <= r.end
    ensures NeverExceeds(r, atCount, atIteration)
  {
    EventCountBoundsExactly(r, atCount, atIteration);
  }

  // ----- the job

  datatype Status = Pending | Running | Completed | Failed | Cancelled

  predicate Terminal(s: Status) { s == Completed || s == Failed || s == Cancelled }

  /** How handling one event goes: it may raise before or after its result is stored, or the task may be cancelled. */
  datatype Handling = Scored | ScoringRaises | RaisesAfterStore | TaskCancelled

  /** An event, what its handling does, and whether cancellation is requested before the loop looks at it. */
  datatype Event = Event(id: string, handling: Handling, cancelRequested: bool)

  /** What the source does besides its events. */
  datatype Source = Source(count: Option<nat>, events: seq<Event>, raisesAtEnd: bool, summaryRaises: bool)

  /** What an observer sees between two events: the loop's own counters, the stored results, and the published ones. */
  datatype Snapshot = Snapshot(processed: nat, failed: nat, stored: nat, published: nat, publishedFailed: nat,
                               status: Status)

  predicate Stores(e: Event) { e.handling == Scored || e.handling == RaisesAfterStore }

  /** The events of the prefix that are handled in one way. */
  function CountOf(events: seq<Event>, h: Handling): nat {
    if events == [] then 0
    else CountOf(events[..|events| - 1], h) + if events[|events| - 1].handling == h then 1 else 0
  }

  /** The ids whose results were stored, in order: an event that raises afterwards keeps its stored result. */
  function StoredIds(events: seq<Event>): seq<string> {
    if events == [] then []
    else
      var n := |events| - 1;
      StoredIds(events[..n]) + if Stores(events[n]) then [events[n].id] else []
  }

  lemma {:induction false} CountsAdvance(events: seq<Event>, i: nat)
    requires i < |events|
    ensures CountOf(events[..i + 1], Scored) ==
            CountOf(events[..i], Scored) + if events[i].handling == Scored then 1 else 0
    ensures StoredIds(events[..i + 1]) ==
            StoredIds(events[..i]) + if Stores(events[i]) then [events[i].id] else []
  {
    assert events[..i + 1][..i] == events[..i];
  }

  /** The loop's accounts after handling the events `done`. */
  ghost predicate Accounts(s: Snapshot, done: seq<Event>) {
    && s.processed == CountOf(done, Scored) && s.stored == |StoredIds(done)|
    && s.processed <= s.stored <= s.processed + s.failed == |done|
    && s.published == s.processed - s.processed % 100
    && s.publishedFailed == 0
    && s.status == Running
  }

  lemma {:induction false} SnapshotAccounts(processed: nat, failed: nat, done: seq<Event>)
    requires processed == CountOf(done, Scored) && processed <= |StoredIds(done)| <= processed + failed == |done|
    ensures Accounts(Snapshot(processed, failed, |StoredIds(done)|, processed - processed % 100, 0, Running), done)
  {
  }

  /** Every snapshot accounts for the events before it. */
  ghost predicate AllAccount(snapshots: seq<Snapshot>, events: seq<Event>) {
    |snapshots| <= |events| && forall i | 0 <= i < |snapshots| :: Accounts(snapshots[i], events[..i + 1])
  }

  lemma {:induction false} AllAccountSnoc(snapshots: seq<Snapshot>, s: Snapshot, events: seq<Event>)
    requires AllAccount(snapshots, events) && |snapshots| < |events| && Accounts(s, events[..|snapshots| + 1])
    ensures AllAccount(snapshots + [s], events)
  {
  }

  /** The loop does not get past this event: cancellation is seen, or the task is cancelled while scoring it. */
  predicate Stops(e: Event) { e.cancelRequested || e.handling == TaskCancelled }

  /** How a run ends, given whether cancellation was requested before it began. */
  ghost predicate EndsAs(outcome: Status, source: Source, cancelledBefore: bool) {
    var stopped := source.count.Some? && source.events != []
                   && (cancelledBefore ||
                       exists e :: e in source.events && (e.cancelRequested || e.handling == TaskCancelled));
    && (outcome == Cancelled <==> stopped)
    && (outcome == Failed <==> source.count.None? || (!stopped && (source.raisesAtEnd || source.summaryRaises)))
    && (outcome == Completed <==> source.count.Some? && !stopped && !source.raisesAtEnd && !source.summaryRaises)
  }

  /** The counters a failed run keeps: none before the loop, the last published ones in it, the full ones after it. */
  ghost predicate FailedCounts(source: Source, processed: nat, failed: nat, snapshots: seq<Snapshot>) {
    if source.count.None? then processed == failed == |snapshots| == 0
    else if source.raisesAtEnd then
      && |snapshots| == |source.events| && failed == 0
      && processed == CountOf(source.events, Scored) - CountOf(source.events, Scored) % 100
    else
      |snapshots| == |source.events| == processed + failed && processed == CountOf(source.events, Scored)
  }

  /** How many events are handled before one stops the loop. */
  function Handled(events: seq<Event>, cancelledBefore: bool): (n: nat)
    ensures n <= |events|
    ensures n < |events| <==> events != [] && (cancelledBefore || exists e :: e in events && Stops(e))
  {
    if events == [] || cancelledBefore || Stops(events[0]) then
      assert events != [] ==> events[0] in events;
      0
    else
      assert forall e :: e in events <==> e == events[0] || e in events[1..];
      1 + Handled(events[1..], false)
  }

  /** The processed count that is published after the first `n` events, while the loop runs. */
  function Published(events: seq<Event>, n: nat): nat
    requires n <= |events|
  {
    CountOf(events[..n], Scored) - CountOf(events[..n], Scored) % 100
  }

  /** The processed count that is published at the end: the full one, unless the loop was left early. */
  function FinalCount(source: Source, cancelledBefore: bool): nat {
    if source.count.None? then 0
    else if Handled(source.events, cancelledBefore) < |source.events| || source.raisesAtEnd
    then Published(source.events, Handled(source.events, cancelledBefore))
    else CountOf(source.events, Scored)
  }

  /** The outcome and the final count, from where the loop ended and what raises after it. */
  lemma {:induction false} OutcomeFollows(source: Source, cancelledBefore: bool, processed: nat)
    requires source.count.Some?
    requires processed == CountOf(source.events[..Handled(source.events, cancelledBefore)], Scored)
    ensures var stopped, raises := Handled(source.events, cancelledBefore) < |source.events|, source.raisesAtEnd;
            var outcome := if stopped then Cancelled else if raises || source.summaryRaises then Failed else Completed;
            && EndsAs(outcome, source, cancelledBefore)
            && FinalCount(source, cancelledBefore) ==
               if stopped || raises then processed - processed % 100 else processed
  {
    hide CountOf;
    assert source.events[..|source.events|] == source.events;
  }

  lemma {:induction false} NothingCounted(source: Source, cancelledBefore: bool)
    requires source.count.None?
    ensures EndsAs(Failed, source, cancelledBefore) && FinalCount(source, cancelledBefore) == 0
    ensures FailedCounts(source, 0, 0, []) && AllAccount([], source.events) && StoredIds(source.events[..0]) == []
  {
  }

  lemma {:induction false} FailureCounts(source: Source, processed: nat, failed: nat, snapshots: seq<Snapshot>)
    requires source.count.Some? && processed == CountOf(source.events, Scored)
    requires |snapshots| == |source.events| == processed + failed
    ensures source.raisesAtEnd ==> FailedCounts(source, processed - processed % 100, 0, snapshots)
    ensures !source.raisesAtEnd ==> FailedCounts(source, processed, failed, snapshots)
  {
    hide CountOf;
  }

  class Job {
    var status: Status
    var totalEvents: nat
    var processedEvents: nat
    var failedEvents: nat
    var cancelled: bool
    var results: seq<string>
    ghost var statuses: seq<Status>       // every status the job has had
    ghost var snapshots: seq<Snapshot>    // one after each handled event

    /** At most one terminal status was reached, and only at the end. */
    ghost predicate Valid()
      reads this
    {
      && statuses != [] && statuses[0] == Pending && statuses[|statuses| - 1] == status
      && |statuses| <= 3
      && (forall i | 0 <= i < |statuses| - 1 :: !Terminal(statuses[i]))
      && (status == Pending ==> results == [] && snapshots == [] && processedEvents == failedEvents == totalEvents == 0)
      && (status == Pending <==> |statuses| == 1) && (status == Running ==> |statuses| == 2)
    }

    constructor ()
      ensures Valid() && status == Pending && !cancelled
    {
      status, totalEvents, processedEvents, failedEvents, cancelled, results := Pending, 0, 0, 0, false, [];
      statuses, snapshots := [Pending], [];
    }

    method Cancel()
      requires Valid()
      modifies this`cancelled
      ensures Valid() && cancelled
    {
      cancelled := true;
    }

    method SetStatus(s: Status)
      modifies this`status, this`statuses
      ensures status == s && statuses == old(statuses) + [s]
    {
      status := s;
      statuses := statuses + [s];
    }

    /** Runs a pending job to a terminal status; a job that was started before refuses and changes nothing. */
    method Start(source: Source) returns (accepted: bool)
      requires Valid()
      modifies this
      ensures Valid() && (accepted <==> old(status) == Pending)
      ensures !accepted ==> status == old(status) && statuses == old(statuses) && results == old(results)
                            && processedEvents == old(processedEvents) && failedEvents == old(failedEvents)
                            && totalEvents == old(totalEvents) && cancelled == old(cancelled)
                            && snapshots == old(snapshots)
      ensures accepted ==> Terminal(status) && statuses == [Pending, Running, status]
      ensures accepted ==> |snapshots| <= |source.events| && |results| <= |source.events|
      ensures accepted ==> processedEvents == FinalCount(source, old(cancelled))
      ensures accepted ==> AllAccount(snapshots, source.events)
      ensures accepted ==> EndsAs(status, source, old(cancelled)) && results == StoredIds(source.events[..|snapshots|])
      ensures accepted && status == Completed ==>
                && |snapshots| == |source.events| == processedEvents + failedEvents
                && processedEvents == CountOf(source.events, Scored)
                && processedEvents <= |results| <= processedEvents + failedEvents
      ensures accepted && status == Cancelled ==>
                && failedEvents == 0 && processedEvents % 100 == 0
                && processedEvents == (if snapshots == [] then 0 else snapshots[|snapshots| - 1].published)
      ensures accepted && status == Failed ==> FailedCounts(source, processedEvents, failedEvents, snapshots)
      ensures accepted && source.count.Some? ==> totalEvents == source.count.value
      ensures accepted ==> processedEvents + failedEvents <= |source.events|
    {
      if status != Pending {
        return false;
      }
      hide EndsAs, FinalCount, FailedCounts, AllAccount, StoredIds, CountOf;
      SetStatus(Running);
      var outcome := RunReplay(source);
      SetStatus(outcome);
      return true;
    }

    /** Counts the source's events, handles them, and publishes both counters once the source ends. */
    method RunReplay(source: Source) returns (outcome: Status)
      requires status == Running && results == [] && snapshots == []
      requires processedEvents == failedEvents == totalEvents == 0
      modifies this`totalEvents, this`processedEvents, this`failedEvents, this`cancelled, this`results, this`snapshots
      ensures EndsAs(outcome, source, old(cancelled)) && processedEvents == FinalCount(source, old(cancelled))
      ensures |snapshots| <= |source.events| && results == StoredIds(source.events[..|snapshots|])
      ensures |results| <= |source.events| && processedEvents + failedEvents <= |source.events|
      ensures AllAccount(snapshots, source.events)
      ensures source.count.Some? ==> totalEvents == source.count.value
      ensures outcome == Completed ==>
                && |snapshots| == |source.events| == processedEvents + failedEvents
                && processedEvents == CountOf(source.events, Scored)
                && processedEvents <= |results| <= processedEvents + failedEvents
      ensures outcome == Cancelled ==>
                && failedEvents == 0 && processedEvents % 100 == 0
                && processedEvents == (if snapshots == [] then 0 else snapshots[|snapshots| - 1].published)
      ensures outcome == Failed ==> FailedCounts(source, processedEvents, failedEvents, snapshots)
    {
      hide StoredIds, AllAccount, CountOf, EndsAs, FinalCount, FailedCounts, Handled;
      if source.count.None? {
        NothingCounted(source, old(cancelled));
        return Failed;
      }
      totalEvents := source.count.value;
      var stopped, processed, failed := ConsumeEvents(source.events);
      OutcomeFollows(source, old(cancelled), processed);
      if stopped {
        return Cancelled;
      }
      assert source.events[..|source.events|] == source.events;
      FailureCounts(source, processed, failed, snapshots);
      outcome := FinishRun(source, processed, failed);
    }

    /** What follows a loop that was not left early: the counters are published unless the source raises. */
    method FinishRun(source: Source, processed: nat, failed: nat) returns (outcome: Status)
      modifies this`processedEvents, this`failedEvents
      ensures outcome == if source.raisesAtEnd || source.summaryRaises then Failed else Completed
      ensures processedEvents == if source.raisesAtEnd then old(processedEvents) else processed
      ensures failedEvents == if source.raisesAtEnd then old(failedEvents) else failed
    {
      if source.raisesAtEnd {
        return Failed;
      }
      processedEvents := processed;
      failedEvents := failed;
      outcome := if source.summaryRaises then Failed else Completed;
    }

    /** The loop has handled the first `i` events. */
    ghost predicate HasHandled(events: seq<Event>, i: nat, processed: nat, failed: nat)
      reads this
    {
      && i <= |events| && |snapshots| == i && status == Running && failedEvents == 0
      && AllAccount(snapshots, events)
      && processed == CountOf(events[..i], Scored) && results == StoredIds(events[..i])
      && processed <= |results| <= processed + failed == i
      && processedEvents == processed - processed % 100
      && processedEvents == if i == 0 then 0 else snapshots[i - 1].published
    }

    /** The event loop. The published counter follows every hundredth success. */
    method ConsumeEvents(events: seq<Event>) returns (stopped: bool, processed: nat, failed: nat)
      requires status == Running && results == [] && snapshots == [] && processedEvents == failedEvents == 0
      modifies this`processedEvents, this`cancelled, this`results, this`snapshots
      ensures |snapshots| == Handled(events, old(cancelled)) && (stopped <==> |snapshots| < |events|)
      ensures results == StoredIds(events[..|snapshots|]) && processed == CountOf(events[..|snapshots|], Scored)
      ensures processed <= |results| <= processed + failed == |snapshots|
      ensures processedEvents == processed - processed % 100
      ensures processedEvents == if snapshots == [] then 0 else snapshots[|snapshots| - 1].published
      ensures AllAccount(snapshots, events)
    {
      stopped, processed, failed := false, 0, 0;
      assert HasHandled(events, 0, 0, 0) by {
        assert CountOf([], Scored) == 0 && StoredIds([]) == [] && AllAccount([], events);
      }
      var i := 0;
      while i < |events| && !stopped
        invariant i <= |events| && HasHandled(events, i, processed, failed)
        invariant i + (if stopped then 0 else Handled(events[i..], cancelled)) == Handled(events, old(cancelled))
        invariant stopped ==> i < |events|
        decreases |events| - i, !stopped
      {
        hide HasHandled;
        var event := events[i];
        assert events[i..][0] == event && events[i..][1..] == events[i + 1..];
        if event.cancelRequested {
          RequestCancel(events, i, processed, failed);
        }
        if cancelled || event.handling == TaskCancelled {
          stopped := true;
        } else {
          processed, failed := ConsumeEvent(events, i, processed, failed);
          i := i + 1;
        }
      }
    }

    method RequestCancel(ghost events: seq<Event>, ghost i: nat, ghost processed: nat, ghost failed: nat)
      requires HasHandled(events, i, processed, failed)
      modifies this`cancelled
      ensures cancelled && HasHandled(events, i, processed, failed)
    {
      cancelled := true;
    }

    /** One event that does not stop the loop, and what an observer sees after it. */
    method ConsumeEvent(events: seq<Event>, i: nat, processed: nat, failed: nat) returns (p: nat, f: nat)
      requires i < |events| && events[i].handling != TaskCancelled && HasHandled(events, i, processed, failed)
      modifies this`processedEvents, this`results, this`snapshots
      ensures HasHandled(events, i + 1, p, f)
    {
      hide CountOf, StoredIds, AllAccount;
      CountsAdvance(events, i);
      p, f := HandleEvent(events[i], processed, failed);
      TakeSnapshot(p, f, events);
    }

    /** What an observer sees after an event. */
    ghost method TakeSnapshot(processed: nat, failed: nat, events: seq<Event>)
      requires status == Running && failedEvents == 0 && |snapshots| < |events| && AllAccount(snapshots, events)
      requires var done := events[..|snapshots| + 1];
               && processed == CountOf(done, Scored) && results == StoredIds(done)
               && processed <= |results| <= processed + failed == |done|
      requires processedEvents == processed - processed % 100
      modifies this`snapshots
      ensures AllAccount(snapshots, events)
      ensures |snapshots| == old(|snapshots|) + 1 && snapshots[|snapshots| - 1].published == processedEvents
    {
      hide CountOf, StoredIds;
      ghost var snapshot := Snapshot(processed, failed, |results|, processedEvents, failedEvents, status);
      SnapshotAccounts(processed, failed, events[..|snapshots| + 1]);
      AllAccountSnoc(snapshots, snapshot, events);
      snapshots := snapshots + [snapshot];
    }

    /** One event that runs to its end: a result is stored before anything after it can raise. */
    method HandleEvent(event: Event, processed: nat, failed: nat) returns (p: nat, f: nat)
      requires event.handling != TaskCancelled && processedEvents == processed - processed % 100
      modifies this`processedEvents, this`results
      ensures p == processed + (if event.handling == Scored then 1 else 0) && p + f == processed + failed + 1
      ensures results == old(results) + if event.handling == ScoringRaises then [] else [event.id]
      ensures processedEvents == p - p % 100
    {
      p, f := processed, failed;
      if event.handling == ScoringRaises {
        f := f + 1;
        return;
      }
      results := results + [event.id];
      if event.handling == RaisesAfterStore {
        f := f + 1;
      } else {
        p := p + 1;
        if p % 100 == 0 {
          processedEvents := p;
        }
      }
    }

    /** Published progress, as a fraction of the total; no total means no progress. */
    function Progress(): real
      reads this
    {
      Fraction(processedEvents, totalEvents)
    }
  }

  function Fraction(part: nat, whole: nat): real { if whole == 0 then 0.0 else part as real / whole as real }

  lemma {:induction false} FractionIsAtMostOne(part: nat, whole: nat)
    ensures Fraction(part, whole) <= 1.0 <==> whole == 0 || part <= whole
    ensures 0.0 <= Fraction(part, whole)
  {
  }

  // ----- progress over a Kafka range

  /** The source that a range makes: its count, its events, and whether its iteration raises in the end. */
  function KafkaSource(r: OffsetRange, atCount: HighMark, atIteration: HighMark, polls: seq<Poll>, events: seq<Event>,
                       summaryRaises: bool): Source
  {
    Source(Some(EventCount(r, atCount)), events, IterationRaises(r, atIteration, polls), summaryRaises)
  }

  /** However the events are handled, progress is at most one whenever it is read, and at the end. */
  ghost predicate ProgressFits(source: Source, total: nat, cancelledBefore: bool) {
    && (forall n: nat | n <= Handled(source.events, cancelledBefore) ::
          Fraction(Published(source.events, n), total) <= 1.0)
    && Fraction(FinalCount(source, cancelledBefore), total) <= 1.0
  }

  ghost predicate ProgressNeverExceeds(r: OffsetRange, atCount: HighMark, atIteration: HighMark) {
    forall polls, events, summaryRaises, cancelledBefore |
      InOrder(polls, r.start) && |events| == |Delivered(r, atIteration, polls)| ::
      ProgressFits(KafkaSource(r, atCount, atIteration, polls, events, summaryRaises), EventCount(r, atCount),
                   cancelledBefore)
  }

  lemma {:induction false} CountIsAtMostLength(events: seq<Event>, h: Handling)
    ensures CountOf(events, h) <= |events|
  {
    if events != [] {
      CountIsAtMostLength(events[..|events| - 1], h);
    }
  }

  lemma {:induction false} FewEventsFit(source: Source, total: nat, cancelledBefore: bool)
    requires total == 0 || |source.events| <= total
    ensures ProgressFits(source, total, cancelledBefore)
  {
    forall n: nat | n <= |source.events|
      ensures Fraction(Published(source.events, n), total) <= 1.0
    {
      CountIsAtMostLength(source.events[..n], Scored);
      FractionIsAtMostOne(Published(source.events, n), total);
    }
    CountIsAtMostLength(source.events, Scored);
    FractionIsAtMostOne(FinalCount(source, cancelledBefore), total);
  }

  /** Every event is scored, and none is cancelled. */
  ghost predicate AllScored(events: seq<Event>) { forall e | e in events :: e.handling == Scored && !e.cancelRequested }

  lemma {:induction false} AllScoredCount(events: seq<Event>)
    requires AllScored(events)
    ensures CountOf(events, Scored) == |events|
    ensures forall e | e in events :: !Stops(e)
  {
    if events != [] {
      AllScoredCount(events[..|events| - 1]);
    }
  }

  lemma {:induction false} AllScoredCompletes(source: Source)
    requires AllScored(source.events) && source.count.Some? && !source.raisesAtEnd && !source.summaryRaises
    ensures FinalCount(source, false) == |source.events|
    ensures forall outcome :: EndsAs(outcome, source, false) ==> outcome == Completed
  {
    AllScoredCount(source.events);
    hide CountOf, AllScored;
  }

  lemma {:induction false} ConsecutiveNeverRaises(lo: int, hi: int, end: int, current: int)
    requires lo <= hi
    ensures !PollRaisesIn(end, current, Consecutive(lo, hi))
    decreases hi - lo
  {
    if lo < hi {
      ConsecutiveNeverRaises(lo + 1, hi, end, lo);
    }
  }

  /** Progress stays within one hundred percent exactly when nothing was counted, or the events fit the count. */
  lemma {:induction false} ProgressIsExact(r: OffsetRange, atCount: HighMark, atIteration: HighMark)
    ensures ProgressNeverExceeds(r, atCount, atIteration) <==>
            EventCount(r, atCount) == 0 || Fits(r, atCount, atIteration)
  {
    var total := EventCount(r, atCount);
    if total == 0 || Fits(r, atCount, atIteration) {
      EventCountBoundsExactly(r, atCount, atIteration);
      forall polls, events, summaryRaises, cancelledBefore |
        InOrder(polls, r.start) && |events| == |Delivered(r, atIteration, polls)|
        ensures ProgressFits(KafkaSource(r, atCount, atIteration, polls, events, summaryRaises), total, cancelledBefore)
      {
        FewEventsFit(KafkaSource(r, atCount, atIteration, polls, events, summaryRaises), total, cancelledBefore);
      }
    } else {
      ProgressCanExceed(r, atCount, atIteration);
    }
  }

  lemma {:induction false} ProgressCanExceed(r: OffsetRange, atCount: HighMark, atIteration: HighMark)
    requires EventCount(r, atCount) != 0 && !Fits(r, atCount, atIteration)
    ensures !ProgressNeverExceeds(r, atCount, atIteration)
  {
    var end := EffectiveEnd(r, atIteration);
    var polls, events := Consecutive(r.start, end), seq(end - r.start, _ => Event("", Scored, false));
    var source := KafkaSource(r, atCount, atIteration, polls, events, false);
    ConsecutiveYieldsAll(r.start, end, r.start);
    ConsecutiveNeverRaises(r.start, end, end, r.start);
    AllScoredCount(events);
    assert FinalCount(source, false) == |events|;
    FractionIsAtMostOne(|events|, EventCount(r, atCount));
    assert !ProgressFits(source, EventCount(r, atCount), false);
  }

  /**
   A replay over an offset range. With messages in order and a count that fits, the handled events never exceed the
   count and progress never exceeds one hundred percent, neither at the end nor when it is read after any event of the
   run; a fixed end always fits.
   */
  method ReplayKafka(job: Job, r: OffsetRange, atCount: HighMark, atIteration: HighMark, polls: seq<Poll>,
                     events: seq<Event>, summaryRaises: bool)
    requires job.Valid() && job.status == Pending && |events| == |Delivered(r, atIteration, polls)|
    modifies job
    ensures job.Valid() && Terminal(job.status) && job.totalEvents == EventCount(r, atCount)
    ensures var source := KafkaSource(r, atCount, atIteration, polls, events, summaryRaises);
            && EndsAs(job.status, source, old(job.cancelled))
            && job.processedEvents == FinalCount(source, old(job.cancelled))
    ensures 0 <= r.end ==> Fits(r, atCount, atIteration)
    ensures InOrder(polls, r.start) && Fits(r, atCount, atIteration) ==>
              && job.processedEvents + job.failedEvents <= job.totalEvents && 0.0 <= job.Progress() <= 1.0
              && forall s | s in job.snapshots ::
                   s.processed + s.failed <= job.totalEvents && 0.0 <= Fraction(s.published, job.totalEvents) <= 1.0
  {
    var count := EventCount(r, atCount);
    var yielded, raised := IterEvents(r, atIteration, polls);
    EventCountBoundsExactly(r, atCount, atIteration);
    var accepted := job.Start(Source(Some(count), events, raised, summaryRaises));
    FractionIsAtMostOne(job.processedEvents, job.totalEvents);
    forall s | s in job.snapshots && |events| <= job.totalEvents
      ensures s.processed + s.failed <= job.totalEvents && 0.0 <= Fraction(s.published, job.totalEvents) <= 1.0
    {
      var i :| 0 <= i < |job.snapshots| && job.snapshots[i] == s;
      assert Accounts(s, events[..i + 1]);
      FractionIsAtMostOne(s.published, job.totalEvents);
    }
  }

  /** A run over all messages that is not cancelled and scores every event completes at one hundred percent. */
  method ReplayEverything(job: Job, r: OffsetRange, mark: HighMark, events: seq<Event>)
    requires job.Valid() && job.status == Pending && !job.cancelled && !CannotIterate(r, mark)
    requires |events| == EventCount(r, mark) && AllScored(events)
    modifies job
    ensures job.status == Completed && job.processedEvents == job.totalEvents == EventCount(r, mark)
    ensures job.Progress() == if EventCount(r, mark) == 0 then 0.0 else 1.0
  {
    CountIsAttained(r, mark);
    AllScoredCompletes(KafkaSource(r, mark, mark, EveryMessage(r, mark), events, false));
    WholeIsOne(|events|);
    hide Delivered, IterationRaises, FinalCount, EndsAs, AllScored, InOrder, Fraction, AllAccount, EveryMessage;
    ReplayKafka(job, r, mark, mark, EveryMessage(r, mark), events, false);
  }

  lemma {:induction false} WholeIsOne(whole: nat)
    ensures Fraction(whole, whole) == if whole == 0 then 0.0 else 1.0
  {
  }

  /** The high watermark advances from 1 to 2 between counting and iterating: the run completes beyond its total. */
  method ReplayGrowingTopic(job: Job)
    requires job.Valid() && job.status == Pending && !job.cancelled
    modifies job
    ensures job.status == Completed && job.totalEvents == 1 && job.processedEvents == 2 && job.Progress() > 1.0
  {
    TwoMessages();
    var r, polls := OffsetRange(0, -1), [Message(0), Message(1)];
    var events := [Event("a", Scored, false), Event("b", Scored, false)];
    AllScoredCompletes(KafkaSource(r, Known(1), Known(2), polls, events, false));
    FractionIsAtMostOne(2, 1);
    hide Delivered, IterationRaises, FinalCount, EndsAs, AllScored, InOrder, Fraction, AllAccount;
    ReplayKafka(job, r, Known(1), Known(2), polls, events, false);
  }

  lemma {:induction false} TwoMessages()
    ensures var r, polls := OffsetRange(0, -1), [Message(0), Message(1)];
            |Delivered(r, Known(2), polls)| == 2 && !IterationRaises(r, Known(2), polls)
  {
    var polls := [Message(0), Message(1)];
    assert polls[1..] == [Message(1)] && [Message(1)][1..] == [];
  }
}
