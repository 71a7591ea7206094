/** When a step of the replay result sink can take place, and in which order the sink hands over and writes. */
module ResultSinkOrder {
  import opened Basics
  import opened ResultSink
  import opened ResultSinkClose

  // ----- when a step can take place

  predicate SenderAt(s: State, t: Thread, sender: Sender) { t in s.senders && s.senders[t] == sender }
  predicate FlusherAt(s: State, t: Thread, f: Flusher) { t in s.flushers && s.flushers[t] == f }

  predicate Full(c: Config, s: State) { c.maxQueue != 0 && |s.queue| >= c.maxQueue }

  /** The thread is at the step's place in the code, and what the step waits for has happened. */
  ghost predicate Enabled(c: Config, s: State, step: Step) {
    match step
    case SendStart(t, _) => SenderAt(s, t, Resting)
    case PutQueued(t) => !Full(c, s) && exists r :: SenderAt(s, t, Sender.Putting(r))
    case PutTimedOut(t) => Full(c, s) && exists r :: SenderAt(s, t, Sender.Putting(r))
    case Append(t) => exists r :: SenderAt(s, t, Appending(r))
    case BeginFlush(t) => t != Background && FlusherAt(s, t, Idle) && s.phase != Flushing(t)
    case DrainGet(t) => FlusherAt(s, t, Draining) && s.queue != []
    case DrainSend(t) => exists r :: FlusherAt(s, t, Holding(r))
    case DrainEmpty(t) => FlusherAt(s, t, Draining) && s.queue == []
    case Grab(t) => FlusherAt(s, t, Grabbing)
    case WriteReturns(t) => exists b :: FlusherAt(s, t, Writing(b))
    case WriteRaises(t) => exists b :: FlusherAt(s, t, Writing(b))
    case PutBack(t) => exists b :: FlusherAt(s, t, PuttingBack(b))
    case BackgroundWait => FlusherAt(s, Background, Idle) && !s.stop
    case BackgroundWake => FlusherAt(s, Background, Waiting)
    case BackgroundExit => FlusherAt(s, Background, Idle) && s.stop
    case Close(t) => t != Background && FlusherAt(s, t, Idle) && s.phase == Open
    case CloseFlushed => s.phase.Flushing? && FlusherAt(s, s.phase.t, Idle) && s.grabbed
    case CloseJoins => s.phase == Joining && FlusherAt(s, Background, Exited)
    case CloseTimesOut => s.phase == Joining
    case CloseReleases => s.phase.Joined?
  }

  /** A step changes the state exactly when it is enabled. */
  lemma {:induction false} EnabledExactly(c: Config, s: State, step: Step)
    requires Background in s.flushers
    ensures Next(c, s, step) != s <==> Enabled(c, s, step)
  {
    if IsSend(step) {
      SendEnabled(c, s, step);
    } else if IsDrain(step) {
      DrainEnabled(c, s, step);
    } else if IsWrite(step) {
      WriteEnabled(c, s, step);
    } else if IsBackground(step) {
      BackgroundEnabled(c, s, step);
    } else {
      ClosingEnabled(c, s, step);
    }
    hide Enabled, SendStep, DrainStep, WriteStep, BackgroundStep, ClosingStep;
  }

  lemma {:induction false} SendEnabled(c: Config, s: State, step: Step)
    requires IsSend(step)
    ensures SendStep(c, s, step) != s <==> Enabled(c, s, step)
  {
    if step.t in s.senders && !s.senders[step.t].Resting? {
      assert SenderAt(s, step.t, s.senders[step.t]);
    }
    assert SendStep(c, s, step) != s <==> step.t in SendStep(c, s, step).senders && step.t in s.senders
                                          && SendStep(c, s, step).senders[step.t] != s.senders[step.t];
  }

  lemma {:induction false} DrainEnabled(c: Config, s: State, step: Step)
    requires IsDrain(step)
    ensures DrainStep(s, step) != s <==> Enabled(c, s, step)
  {
    hide HandOver;
    if step.t in s.flushers {
      assert FlusherAt(s, step.t, s.flushers[step.t]);
      assert DrainStep(s, step) != s <==> DrainStep(s, step).flushers[step.t] != s.flushers[step.t];
    }
  }

  lemma {:induction false} WriteEnabled(c: Config, s: State, step: Step)
    requires IsWrite(step)
    ensures WriteStep(c, s, step) != s <==> Enabled(c, s, step)
  {
    if step.t in s.flushers {
      assert FlusherAt(s, step.t, s.flushers[step.t]);
      assert WriteStep(c, s, step) != s <==> WriteStep(c, s, step).flushers[step.t] != s.flushers[step.t];
    }
  }

  lemma {:induction false} BackgroundEnabled(c: Config, s: State, step: Step)
    requires IsBackground(step) && Background in s.flushers
    ensures BackgroundStep(s, step) != s <==> Enabled(c, s, step)
  {
    assert BackgroundStep(s, step) != s <==> BackgroundStep(s, step).flushers[Background] != s.flushers[Background];
  }

  lemma {:induction false} ClosingEnabled(c: Config, s: State, step: Step)
    requires IsClosing(step) && Background in s.flushers
    ensures ClosingStep(s, step) != s <==> Enabled(c, s, step)
  {
    hide AllResting, Holders;
    assert ClosingStep(s, step) != s <==> ClosingStep(s, step).phase != s.phase;
  }

  // ----- the queue is first in, first out

  function HandOf(s: State, sole: Thread): seq<ReplayResult> {
    if sole in s.flushers then InHand(s.flushers[sole]) else []
  }

  /** What was handed over or dropped, then the sole drainer's hand, then the queue: in the order of the queue stage. */
  ghost predicate FirstInFirstOut(s: State, sole: Thread) {
    s.accepted == s.kafka + s.dropped + HandOf(s, sole) + s.queue
  }

  lemma {:induction false} SendKeepsQueueOrder(c: Config, s: State, step: Step, sole: Thread)
    requires IsSend(step) && (step.PutTimedOut? ==> c.maxQueue == 0) && FirstInFirstOut(s, sole)
    ensures FirstInFirstOut(SendStep(c, s, step), sole)
  {
    if step.PutQueued? && step.t in s.senders && s.senders[step.t].Putting? {
      AppendAssoc(s.kafka + s.dropped + HandOf(s, sole), s.queue, [s.senders[step.t].r]);
    }
  }

  lemma {:induction false} DrainKeepsQueueOrder(s: State, step: Step, sole: Thread)
    requires IsDrain(step) && SoleInv(s, sole) && FirstInFirstOut(s, sole) && (s.producer ==> s.dropped == [])
    ensures FirstInFirstOut(DrainStep(s, step), sole)
  {
    var n := DrainStep(s, step);
    if step.t in s.flushers && n != s {
      DrainFrame(s, step);
      if step.DrainGet? {
        TakeFront(s.kafka + s.dropped, s.queue);
      } else if step.DrainSend? {
        GiveBack(s.kafka, s.dropped, s.flushers[sole].r, s.queue);
      }
    }
  }

  lemma {:induction false} TakeFront(done: seq<ReplayResult>, queue: seq<ReplayResult>)
    requires queue != []
    ensures done + [] + queue == done + [queue[0]] + queue[1..]
  {
  }

  lemma {:induction false} GiveBack(kafka: seq<ReplayResult>, dropped: seq<ReplayResult>, r: ReplayResult,
                                    queue: seq<ReplayResult>)
    ensures kafka + (dropped + [r]) + [] + queue == kafka + dropped + [r] + queue
    ensures kafka + [r] + [] + [] + queue == kafka + [] + [r] + queue
  {
  }

  lemma {:induction false} OthersKeepQueueOrder(c: Config, s: State, step: Step, sole: Thread)
    requires !IsSend(step) && !IsDrain(step) && SoleInv(s, sole) && FirstInFirstOut(s, sole)
    ensures FirstInFirstOut(Next(c, s, step), sole)
  {
    if IsWrite(step) {
      WriteFrame(c, s, step);
      WritersHoldNothing(c, s, step, sole);
    } else if IsBackground(step) {
      BackgroundFrame(s, step);
    } else {
      ClosingFrame(s, step);
      ClosersHoldNothing(s, step, sole);
    }
    hide WriteStep, ClosingStep, SoleInv;
  }

  lemma {:induction false} ClosersHoldNothing(s: State, step: Step, sole: Thread)
    requires IsClosing(step)
    ensures HandOf(ClosingStep(s, step), sole) == HandOf(s, sole)
  {
    hide AllResting, Holders;
  }

  lemma {:induction false} WritersHoldNothing(c: Config, s: State, step: Step, sole: Thread)
    requires IsWrite(step)
    ensures HandOf(WriteStep(c, s, step), sole) == HandOf(s, sole)
  {
  }

  /** No put times out; an unbounded queue always has room. */
  predicate NoTimedOutPut(c: Config, steps: seq<Step>) {
    c.maxQueue == 0 || forall i | 0 <= i < |steps| :: !steps[i].PutTimedOut?
  }

  lemma {:induction false} RunKeepsQueueOrder(c: Config, senders: set<Thread>, callers: set<Thread>, steps: seq<Step>,
                                              sole: Thread)
    requires sole != Background && (forall t | t in callers :: t == Background || t == sole) && NoTimedOutPut(c, steps)
    ensures FirstInFirstOut(Run(c, Initial(c, senders, callers), steps), sole)
  {
    if steps != [] {
      var n := |steps| - 1;
      RunKeepsQueueOrder(c, senders, callers, steps[..n], sole);
      RunKeepsSole(c, senders, callers, steps[..n], sole);
      EveryInterleavingConserves(c, senders, callers, steps[..n]);
      var s, step := Run(c, Initial(c, senders, callers), steps[..n]), steps[n];
      DropsOnlyWithoutProducer(c, s);
      hide Run, Initial, Conserved, SoleInv, Inv, FirstInFirstOut;
      hide SendStep, DrainStep, WriteStep, BackgroundStep, ClosingStep;
      if IsSend(step) {
        SendKeepsQueueOrder(c, s, step, sole);
      } else if IsDrain(step) {
        DrainKeepsQueueOrder(s, step, sole);
      } else {
        OthersKeepQueueOrder(c, s, step, sole);
      }
    }
  }

  lemma {:induction false} DropsOnlyWithoutProducer(c: Config, s: State)
    requires Inv(c, s)
    ensures s.producer ==> s.dropped == []
  {
  }

  /** With a sole caller of flush and puts that do not time out, Kafka gets the results in the order of their puts. */
  lemma {:induction false} HandsOverInPutOrder(c: Config, senders: set<Thread>, callers: set<Thread>, steps: seq<Step>)
    requires c.hasProducer && SoleCaller(callers) && NoTimedOutPut(c, steps)
    requires QuietlyClosed(Run(c, Initial(c, senders, callers), steps))
    ensures var s := Run(c, Initial(c, senders, callers), steps); s.kafka == s.accepted
  {
    var sole := if t :| t in callers && t != Background then t else Caller(0);
    RunKeepsSole(c, senders, callers, steps, sole);
    RunKeepsQueueOrder(c, senders, callers, steps, sole);
    EveryInterleavingConserves(c, senders, callers, steps);
    SoleCallerHandsOverEverything(c, senders, callers, steps);
    hide Run, Conserved;
  }

  /** The queue never exceeds its size. */
  lemma {:induction false} QueueStaysBounded(c: Config, senders: set<Thread>, callers: set<Thread>, steps: seq<Step>)
    requires 0 < c.maxQueue
    ensures |Run(c, Initial(c, senders, callers), steps).queue| <= c.maxQueue
  {
    if steps != [] {
      var n := |steps| - 1;
      QueueStaysBounded(c, senders, callers, steps[..n]);
      hide Run, Initial, SendStep, DrainStep, WriteStep, BackgroundStep, ClosingStep;
      StepKeepsBound(c, Run(c, Initial(c, senders, callers), steps[..n]), steps[n]);
    }
  }

  lemma {:induction false} StepKeepsBound(c: Config, s: State, step: Step)
    requires 0 < c.maxQueue && |s.queue| <= c.maxQueue
    ensures |Next(c, s, step).queue| <= c.maxQueue
  {
    hide SendStep, DrainStep, WriteStep, BackgroundStep, ClosingStep;
    if IsSend(step) {
      SendKeepsBound(c, s, step);
    } else if IsDrain(step) {
      DrainsShorten(s, step);
    } else if IsWrite(step) {
      WriteFrame(c, s, step);
    } else if IsBackground(step) {
      BackgroundFrame(s, step);
    } else {
      ClosingFrame(s, step);
    }
  }

  lemma {:induction false} SendKeepsBound(c: Config, s: State, step: Step)
    requires IsSend(step) && 0 < c.maxQueue && |s.queue| <= c.maxQueue
    ensures |SendStep(c, s, step).queue| <= c.maxQueue
  {
    hide HandOver;
  }

  lemma {:induction false} DrainsShorten(s: State, step: Step)
    requires IsDrain(step)
    ensures |DrainStep(s, step).queue| <= |s.queue|
  {
    hide HandOver;
  }

  // ----- one sender

  function HalfOf(s: State, sender: Thread): seq<ReplayResult> {
    if sender in s.senders then Half(s.senders[sender]) else []
  }

  /** A sole sender's results pass both stages in the same order. */
  ghost predicate SentInOrder(s: State, sender: Thread) {
    (forall t | t in s.senders :: t == sender) && s.accepted == s.sent + HalfOf(s, sender)
  }

  lemma {:induction false} StepKeepsSentOrder(c: Config, s: State, step: Step, sender: Thread)
    requires SentInOrder(s, sender)
    ensures SentInOrder(Next(c, s, step), sender)
  {
    hide SendStep, DrainStep, WriteStep, BackgroundStep, ClosingStep, SentInOrder;
    if IsSend(step) {
      SendKeepsSentOrder(c, s, step, sender);
    } else {
      OthersSendNothing(c, s, step);
      SameSends(s, Next(c, s, step), sender);
    }
  }

  lemma {:induction false} OthersSendNothing(c: Config, s: State, step: Step)
    requires !IsSend(step)
    ensures var n := Next(c, s, step); n.senders == s.senders && n.sent == s.sent && n.accepted == s.accepted
  {
    hide SendStep, DrainStep, WriteStep, BackgroundStep, ClosingStep;
    if IsDrain(step) {
      DrainFrame(s, step);
    } else if IsWrite(step) {
      WriteFrame(c, s, step);
    } else if IsBackground(step) {
      BackgroundFrame(s, step);
    } else {
      ClosingFrame(s, step);
    }
  }

  lemma {:induction false} SameSends(s: State, n: State, sender: Thread)
    requires SentInOrder(s, sender) && n.senders == s.senders && n.sent == s.sent && n.accepted == s.accepted
    ensures SentInOrder(n, sender)
  {
  }

  lemma {:induction false} SendKeepsSentOrder(c: Config, s: State, step: Step, sender: Thread)
    requires IsSend(step) && SentInOrder(s, sender)
    ensures SentInOrder(SendStep(c, s, step), sender)
  {
    hide HandOver;
  }

  lemma {:induction false} RunKeepsSentOrder(c: Config, sender: Thread, callers: set<Thread>, steps: seq<Step>)
    ensures SentInOrder(Run(c, Initial(c, {sender}, callers), steps), sender)
  {
    if steps != [] {
      var n := |steps| - 1;
      RunKeepsSentOrder(c, sender, callers, steps[..n]);
      StepKeepsSentOrder(c, Run(c, Initial(c, {sender}, callers), steps[..n]), steps[n], sender);
      hide Next, SentInOrder, Initial;
    }
  }

  /** With moreover a sole sender, Kafka gets the results in the order in which they were sent. */
  lemma {:induction false} HandsOverInSendOrder(c: Config, sender: Thread, callers: set<Thread>, steps: seq<Step>)
    requires c.hasProducer && SoleCaller(callers) && NoTimedOutPut(c, steps)
    requires QuietlyClosed(Run(c, Initial(c, {sender}, callers), steps))
    ensures var s := Run(c, Initial(c, {sender}, callers), steps); s.kafka == s.sent
  {
    HandsOverInPutOrder(c, {sender}, callers, steps);
    RunKeepsSentOrder(c, sender, callers, steps);
    EveryInterleavingConserves(c, {sender}, callers, steps);
    hide Run, Conserved;
  }

  // ----- the table

  predicate Writes(f: Flusher) { f.Writing? || f.PuttingBack? }

  ghost predicate NobodyWrites(s: State) { forall t | t in s.flushers :: !Writes(s.flushers[t]) }

  ghost predicate SoleWriter(s: State, writer: Thread) {
    && writer in s.flushers && s.flushers[writer].Writing?
    && forall t | t in s.flushers && t != writer :: !Writes(s.flushers[t])
  }

  /** The step makes no write raise, and takes the buffer only while no batch is in flight. */
  ghost predicate CleanStep(c: Config, s: State, step: Step) {
    !step.WriteRaises? && (TakesBuffer(c, s, step) ==> NobodyWrites(s))
  }

  ghost predicate Clean(c: Config, s: State, steps: seq<Step>) {
    forall i | 0 <= i < |steps| :: CleanStep(c, Run(c, s, steps[..i]), steps[i])
  }

  /** Rows written, then the one batch in flight, then the buffer: in sending order. */
  ghost predicate WrittenInOrder(s: State) {
    || (NobodyWrites(s) && s.sent == s.written + s.buffer)
    || (exists t :: SoleWriter(s, t) && s.sent == s.written + s.flushers[t].batch + s.buffer)
  }

  lemma {:induction false} SendKeepsWrittenOrder(c: Config, s: State, step: Step)
    requires IsSend(step) && WrittenInOrder(s)
    ensures WrittenInOrder(SendStep(c, s, step))
  {
    hide HandOver, Writes;
    var n := SendStep(c, s, step);
    if step.Append? && n != s {
      AppendAssoc(s.written, s.buffer, [s.senders[step.t].r]);
      if t :| SoleWriter(s, t) && s.sent == s.written + s.flushers[t].batch + s.buffer {
        AppendAssoc(s.written + s.flushers[t].batch, s.buffer, [s.senders[step.t].r]);
        assert SoleWriter(n, t);
      }
    } else {
      SendFrame(c, s, step);
      if t :| SoleWriter(s, t) && s.sent == s.written + s.flushers[t].batch + s.buffer {
        assert SoleWriter(n, t);
      }
    }
  }

  lemma {:induction false} WriteKeepsWrittenOrder(c: Config, s: State, step: Step)
    requires IsWrite(step) && CleanStep(c, s, step) && WrittenInOrder(s)
    ensures WrittenInOrder(WriteStep(c, s, step))
  {
    var n, t := WriteStep(c, s, step), step.t;
    if TakesBuffer(c, s, step) {
      assert SoleWriter(n, t) && n.flushers[t].batch == s.buffer && n.buffer == [];
      assert s.written + s.buffer + [] == s.written + s.buffer;
    } else if step.WriteReturns? && t in s.flushers && s.flushers[t].Writing? {
      assert NobodyWrites(n) && n.written == s.written + s.flushers[t].batch;
    } else if u :| SoleWriter(s, u) && s.sent == s.written + s.flushers[u].batch + s.buffer {
      assert SoleWriter(n, u);
    }
  }

  lemma {:induction false} OthersKeepWrittenOrder(c: Config, s: State, step: Step)
    requires !IsSend(step) && !IsWrite(step) && WrittenInOrder(s)
    ensures WrittenInOrder(Next(c, s, step))
  {
    var n := Next(c, s, step);
    if IsDrain(step) {
      DrainFrame(s, step);
      DrainersDoNotWrite(s, step);
    } else if IsBackground(step) {
      BackgroundFrame(s, step);
      BackgroundDoesNotWrite(s, step);
    } else {
      ClosingFrame(s, step);
      ClosersDoNotWrite(s, step);
    }
    hide DrainStep, BackgroundStep, ClosingStep, Writes;
    if t :| SoleWriter(s, t) && s.sent == s.written + s.flushers[t].batch + s.buffer {
      assert SoleWriter(n, t);
    }
  }

  /** Both states have the same threads, and the same ones of them with the same batches. */
  ghost predicate SameWriters(fs: map<Thread, Flusher>, gs: map<Thread, Flusher>) {
    && (forall t :: t in fs <==> t in gs)
    && forall t | t in fs :: fs[t] == gs[t] || (!Writes(fs[t]) && !Writes(gs[t]))
  }

  lemma {:induction false} DrainersDoNotWrite(s: State, step: Step)
    requires IsDrain(step)
    ensures SameWriters(s.flushers, DrainStep(s, step).flushers)
  {
    hide HandOver;
    var n := DrainStep(s, step);
    if step.t in s.flushers && n != s {
      var f := n.flushers[step.t];
      assert n.flushers == s.flushers[step.t := f] && !Writes(f) && !Writes(s.flushers[step.t]);
      hide DrainStep, Writes;
    }
  }

  lemma {:induction false} BackgroundDoesNotWrite(s: State, step: Step)
    requires IsBackground(step)
    ensures SameWriters(s.flushers, BackgroundStep(s, step).flushers)
  {
  }

  lemma {:induction false} ClosersDoNotWrite(s: State, step: Step)
    requires IsClosing(step)
    ensures SameWriters(s.flushers, ClosingStep(s, step).flushers)
  {
    hide AllResting, Holders;
    var n := ClosingStep(s, step);
    if n.flushers != s.flushers {
      var f := n.flushers[step.t];
      assert n.flushers == s.flushers[step.t := f] && !Writes(f) && !Writes(s.flushers[step.t]);
      hide ClosingStep, Writes;
    }
  }

  lemma {:induction false} RunKeepsWrittenOrder(c: Config, senders: set<Thread>, callers: set<Thread>, steps: seq<Step>)
    requires Clean(c, Initial(c, senders, callers), steps)
    ensures WrittenInOrder(Run(c, Initial(c, senders, callers), steps))
  {
    if steps != [] {
      var n := |steps| - 1;
      CleanPrefix(c, Initial(c, senders, callers), steps, n);
      assert CleanStep(c, Run(c, Initial(c, senders, callers), steps[..n]), steps[n]);
      hide Clean, CleanStep, WrittenInOrder, Initial, SendStep, WriteStep, DrainStep, BackgroundStep, ClosingStep;
      RunKeepsWrittenOrder(c, senders, callers, steps[..n]);
      var s, step := Run(c, Initial(c, senders, callers), steps[..n]), steps[n];
      if IsSend(step) {
        SendKeepsWrittenOrder(c, s, step);
      } else if IsWrite(step) {
        WriteKeepsWrittenOrder(c, s, step);
      } else {
        OthersKeepWrittenOrder(c, s, step);
      }
    }
  }

  lemma {:induction false} CleanPrefix(c: Config, s: State, steps: seq<Step>, n: nat)
    requires n <= |steps| && Clean(c, s, steps)
    ensures Clean(c, s, steps[..n])
  {
    hide CleanStep, Run;
    assert forall i | 0 <= i < n :: steps[..n][..i] == steps[..i] && steps[..n][i] == steps[i];
  }

  /** When no write raises and batches do not overlap, a quiet close leaves the rows in the table in sending order. */
  lemma {:induction false} WritesInSendOrder(c: Config, senders: set<Thread>, callers: set<Thread>, steps: seq<Step>)
    requires c.hasTable && Clean(c, Initial(c, senders, callers), steps)
    requires var s := Run(c, Initial(c, senders, callers), steps); QuietlyClosed(s) && NobodyWrites(s)
    ensures var s := Run(c, Initial(c, senders, callers), steps); s.written == s.sent && s.buffer == []
  {
    var s0 := Initial(c, senders, callers);
    RunKeepsWrittenOrder(c, senders, callers, steps);
    forall i: nat | i < |steps|
      ensures !LeavesBatch(c, s0, steps, i)
    {
      CleanPrefix(c, s0, steps, i);
      RunKeepsWrittenOrder(c, senders, callers, steps[..i]);
      NothingIsPutBack(Run(c, s0, steps[..i]), steps[i]);
    }
    CloseWritesExactly(c, senders, callers, steps);
    hide Run, Clean;
    var s := Run(c, s0, steps);
    assert |multiset(s.sent)| == |s.sent| && |multiset(s.written)| == |s.written|;
  }

  lemma {:induction false} NothingIsPutBack(s: State, step: Step)
    requires WrittenInOrder(s)
    ensures !PutsBackLate(s, step)
  {
  }

  // ----- a write that raises

  /** While the background thread writes the first result, a second one is sent. */
  lemma {:induction false} SendDuringWrite(w: Setting, r: ReplayResult, q: ReplayResult) returns (steps: seq<Step>)
    requires Proper(w) && w.c.hasTable
    ensures var s := After(w, steps);
            && s.sent == [r, q] && s.buffer == [q] && s.written == [] && !s.stop
            && At(w, s, Writing([r]), Idle, Idle)
  {
    hide DrainStep, WriteStep, BackgroundStep, ClosingStep, After, HandOver;
    steps := BackgroundTakes(w, r);
    steps := Then(w, steps, SendStart(w.sender, q));
    var full := 0 < w.c.maxQueue <= |After(w, steps).queue|;
    steps := Then(w, steps, if full then PutTimedOut(w.sender) else PutQueued(w.sender));
    steps := Then(w, steps, Append(w.sender));
  }

  lemma {:induction false} PutBackGoesLast(w: Setting, r: ReplayResult, q: ReplayResult) returns (steps: seq<Step>)
    requires Proper(w) && w.c.hasTable
    ensures var s := After(w, steps);
            s.sent == [r, q] && s.buffer == [q, r] && s.written == [] && !s.stop && At(w, s, Idle, Idle, Idle)
  {
    hide SendStep, DrainStep, BackgroundStep, ClosingStep, After;
    steps := SendDuringWrite(w, r, q);
    steps := Then(w, steps, WriteRaises(Background));
    steps := Then(w, steps, PutBack(Background));
  }

  /** A batch whose write raises goes behind what was sent meanwhile, and is written after it. */
  lemma {:induction false} RetryReorders(w: Setting, r: ReplayResult, q: ReplayResult) returns (steps: seq<Step>)
    requires Proper(w) && w.c.hasTable
    ensures var s := After(w, steps); s.sent == [r, q] && s.written == [q, r] && s.buffer == []
  {
    hide SendStep, DrainStep, ClosingStep, After;
    steps := PutBackGoesLast(w, r, q);
    steps := Then(w, steps, BackgroundWait);
    steps := Then(w, steps, BackgroundWake);
    steps := Then(w, steps, Grab(Background));
    steps := Then(w, steps, WriteReturns(Background));
  }
}
