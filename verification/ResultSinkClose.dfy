/** What a close of the replay result sink leaves behind, and which schedules lose a result. */
module ResultSinkClose {
  import opened Basics
  import opened ResultSink

  /** A closed sink that no sender was using when close was called or has used since. */
  predicate QuietlyClosed(s: State) { s.phase.Closed? && s.quiet }

  /** After a quiet close the queue is empty and no send is half done, so only a flusher can still hold a result. */
  lemma {:induction false} QuietAccounts(c: Config, s: State, x: ReplayResult)
    requires Conserved(s) && Inv(c, s) && QuietlyClosed(s)
    ensures Times(s.sent, x) == Held(s.flushers, x) + Times(s.kafka, x) + Times(s.dropped, x)
    ensures Times(s.sent, x) == Times(s.buffer, x) + InFlight(s.flushers, x) + Times(s.written, x)
  {
    assert ConservedFor(s, x);
    SumOfNothing(Halves(s.senders, x));
  }

  lemma {:induction false} NothingHeld(fs: map<Thread, Flusher>, x: ReplayResult)
    requires forall t | t in fs :: !fs[t].Holding?
    ensures Held(fs, x) == 0
  {
    SumOfNothing(Hands(fs, x));
  }

  lemma {:induction false} NothingInFlight(fs: map<Thread, Flusher>, x: ReplayResult)
    requires forall t | t in fs :: !fs[t].Writing? && !fs[t].PuttingBack?
    ensures InFlight(fs, x) == 0
  {
    SumOfNothing(Batches(fs, x));
  }

  lemma {:induction false} SameTimes(a: seq<ReplayResult>, b: seq<ReplayResult>, d: seq<ReplayResult>)
    requires forall x :: Times(a, x) == Times(b, x) + Times(d, x)
    ensures multiset(a) == multiset(b) + multiset(d)
    ensures |a| == |b| + |d|
    ensures multiset(a) == multiset(b) <==> d == []
  {
    forall x
      ensures multiset(a)[x] == (multiset(b) + multiset(d))[x]
    {
      assert Times(a, x) == Times(b, x) + Times(d, x);
    }
    assert |multiset(a)| == |a| && |multiset(b)| == |b| && |multiset(d)| == |d|;
  }

  /**
   After a quiet close, once no flush call holds a result, each result was either handed to Kafka or dropped, exactly
   once; dropped are as many as threads were caught holding one at the release, or all if there never was a producer.
   */
  lemma {:induction false} CloseHandsOverExactly(c: Config, senders: set<Thread>, callers: set<Thread>,
                                                 steps: seq<Step>)
    requires var s := Run(c, Initial(c, senders, callers), steps);
             QuietlyClosed(s) && forall t | t in s.flushers :: !s.flushers[t].Holding?
    ensures var s := Run(c, Initial(c, senders, callers), steps);
            && multiset(s.sent) == multiset(s.kafka) + multiset(s.dropped)
            && |s.dropped| == (if c.hasProducer then |s.caught| else |s.sent|)
            && (multiset(s.sent) == multiset(s.kafka) <==> if c.hasProducer then s.caught == {} else s.sent == [])
  {
    var s := Run(c, Initial(c, senders, callers), steps);
    EveryInterleavingConserves(c, senders, callers, steps);
    hide Run, Conserved, Orderly, Times, Held, InFlight;
    forall x
      ensures Times(s.sent, x) == Times(s.kafka, x) + Times(s.dropped, x)
    {
      QuietAccounts(c, s, x);
      NothingHeld(s.flushers, x);
    }
    SameTimes(s.sent, s.kafka, s.dropped);
    assert Holders(s.flushers) == {};
  }

  // ----- what was written

  /** A flusher puts a batch back after the closing thread has taken the buffer. */
  predicate PutsBackLate(s: State, step: Step) {
    step.PutBack? && step.t in s.flushers && s.flushers[step.t].PuttingBack? && s.grabbed
  }

  predicate TakesBuffer(c: Config, s: State, step: Step) {
    step.Grab? && step.t in s.flushers && s.flushers[step.t] == Grabbing && c.hasTable && s.buffer != []
  }

  /** Step `i` puts a batch back late, and no later step takes the buffer. */
  ghost predicate LeavesBatch(c: Config, s: State, steps: seq<Step>, i: nat)
    requires i < |steps|
  {
    && PutsBackLate(Run(c, s, steps[..i]), steps[i])
    && forall j | i < j < |steps| :: !TakesBuffer(c, Run(c, s, steps[..j]), steps[j])
  }

  lemma {:induction false} WriteStrands(c: Config, s: State, step: Step)
    requires IsWrite(step) && (s.stranded ==> s.grabbed)
    ensures WriteStep(c, s, step).stranded <==> PutsBackLate(s, step) || (s.stranded && !TakesBuffer(c, s, step))
  {
  }

  lemma {:induction false} OthersStrandNothing(c: Config, s: State, step: Step)
    requires !IsWrite(step)
    ensures Next(c, s, step).stranded == s.stranded
  {
    hide SendStep, DrainStep, BackgroundStep, ClosingStep;
    if IsSend(step) {
      SendFrame(c, s, step);
    } else if IsDrain(step) {
      DrainFrame(s, step);
    } else if IsBackground(step) {
      BackgroundFrame(s, step);
    } else {
      ClosingFrame(s, step);
    }
  }

  lemma {:induction false} StepStrands(c: Config, s: State, step: Step)
    requires s.stranded ==> s.grabbed
    ensures Next(c, s, step).stranded <==> PutsBackLate(s, step) || (s.stranded && !TakesBuffer(c, s, step))
  {
    if IsWrite(step) {
      WriteStrands(c, s, step);
    } else {
      OthersStrandNothing(c, s, step);
      hide Next;
    }
    hide SendStep, DrainStep, WriteStep, BackgroundStep, ClosingStep;
  }

  lemma {:induction false} LeavesBatchSnoc(c: Config, s: State, steps: seq<Step>, i: nat)
    requires i < |steps| - 1
    ensures var n := |steps| - 1;
            LeavesBatch(c, s, steps, i) <==>
            LeavesBatch(c, s, steps[..n], i) && !TakesBuffer(c, Run(c, s, steps[..n]), steps[n])
  {
    hide Run, PutsBackLate, TakesBuffer;
    var init := steps[..|steps| - 1];
    assert forall j | 0 <= j < |init| :: init[..j] == steps[..j] && init[j] == steps[j];
  }

  lemma {:induction false} StrandedExactly(c: Config, s: State, steps: seq<Step>)
    requires Inv(c, s) && Conserved(s) && !s.stranded
    ensures Run(c, s, steps).stranded <==> exists i: nat :: i < |steps| && LeavesBatch(c, s, steps, i)
  {
    hide Next, Inv, Conserved, PutsBackLate, TakesBuffer;
    if steps != [] {
      var n := |steps| - 1;
      StrandedExactly(c, s, steps[..n]);
      RunKeepsInvariant(c, s, steps[..n]);
      StrandedLate(c, Run(c, s, steps[..n]));
      StepStrands(c, Run(c, s, steps[..n]), steps[n]);
      forall i: nat | i < n
        ensures LeavesBatch(c, s, steps, i) <==>
                LeavesBatch(c, s, steps[..n], i) && !TakesBuffer(c, Run(c, s, steps[..n]), steps[n])
      {
        LeavesBatchSnoc(c, s, steps, i);
      }
      assert LeavesBatch(c, s, steps, n) <==> PutsBackLate(Run(c, s, steps[..n]), steps[n]);
    }
  }

  lemma {:induction false} StrandedLate(c: Config, s: State)
    requires Inv(c, s)
    ensures s.stranded ==> s.grabbed
  {
  }

  /**
   After a quiet close, once no batch is in flight, the results that were not written are those in the buffer; and all
   were written exactly when there were none, or there is a table and no step put a batch back late and left it there.
   */
  lemma {:induction false} CloseWritesExactly(c: Config, senders: set<Thread>, callers: set<Thread>, steps: seq<Step>)
    requires var s := Run(c, Initial(c, senders, callers), steps);
             QuietlyClosed(s) && forall t | t in s.flushers :: !s.flushers[t].Writing? && !s.flushers[t].PuttingBack?
    ensures var s := Run(c, Initial(c, senders, callers), steps);
            && multiset(s.sent) == multiset(s.written) + multiset(s.buffer)
            && (multiset(s.sent) == multiset(s.written) <==>
                s.sent == [] ||
                (c.hasTable && !exists i: nat :: i < |steps| && LeavesBatch(c, Initial(c, senders, callers), steps, i)))
  {
    var s := Run(c, Initial(c, senders, callers), steps);
    EveryInterleavingConserves(c, senders, callers, []);
    StrandedExactly(c, Initial(c, senders, callers), steps);
    EveryInterleavingConserves(c, senders, callers, steps);
    hide Run, Conserved, HandsOverInOrder, Times, Held, InFlight;
    forall x
      ensures Times(s.sent, x) == Times(s.written, x) + Times(s.buffer, x)
    {
      QuietAccounts(c, s, x);
      NothingInFlight(s.flushers, x);
    }
    SameTimes(s.sent, s.written, s.buffer);
  }

  // ----- a sole caller of flush

  /** Apart from the background thread, at most one thread flushes or closes. */
  predicate SoleCaller(callers: set<Thread>) {
    forall t, u | t in callers && u in callers && t != Background && u != Background :: t == u
  }

  /** Nobody but `sole` drains the queue, so nobody holds a result when that thread is done. */
  ghost predicate SoleInv(s: State, sole: Thread) {
    && (forall t | t in s.flushers && t != sole :: s.flushers[t] != Draining && !s.flushers[t].Holding?)
    && (forall t | t in s.flushers :: t == Background || t == sole)
    && sole != Background
    && (s.quiet && PastDrain(s) && sole in s.flushers ==> !s.flushers[sole].Holding?)
    && (s.quiet && s.phase.Closed? ==> s.caught == {})
  }

  lemma {:induction false} SendStepKeepsSole(c: Config, s: State, step: Step, sole: Thread)
    requires IsSend(step) && SoleInv(s, sole)
    ensures SoleInv(SendStep(c, s, step), sole)
  {
  }

  lemma {:induction false} DrainStepKeepsSole(c: Config, s: State, step: Step, sole: Thread)
    requires IsDrain(step) && Orderly(c, s) && SoleInv(s, sole)
    ensures SoleInv(DrainStep(s, step), sole)
  {
    hide AllResting, HandOver;
  }

  lemma {:induction false} WriteStepKeepsSole(c: Config, s: State, step: Step, sole: Thread)
    requires IsWrite(step) && SoleInv(s, sole)
    ensures SoleInv(WriteStep(c, s, step), sole)
  {
  }

  lemma {:induction false} BackgroundStepKeepsSole(s: State, step: Step, sole: Thread)
    requires IsBackground(step) && SoleInv(s, sole)
    ensures SoleInv(BackgroundStep(s, step), sole)
  {
  }

  lemma {:induction false} ClosingStepKeepsSole(c: Config, s: State, step: Step, sole: Thread)
    requires IsClosing(step) && Orderly(c, s) && SoleInv(s, sole)
    ensures SoleInv(ClosingStep(s, step), sole)
  {
    hide AllResting, Holders;
    if step.CloseReleases? && s.phase.Joined? && s.quiet {
      NobodyHolds(s.flushers);
    }
  }

  lemma {:induction false} NobodyHolds(fs: map<Thread, Flusher>)
    requires forall t | t in fs :: !fs[t].Holding?
    ensures Holders(fs) == {}
  {
  }

  lemma {:induction false} RunKeepsSole(c: Config, senders: set<Thread>, callers: set<Thread>, steps: seq<Step>,
                                        sole: Thread)
    requires sole != Background && forall t | t in callers :: t == Background || t == sole
    ensures SoleInv(Run(c, Initial(c, senders, callers), steps), sole)
  {
    if steps != [] {
      var n := |steps| - 1;
      RunKeepsSole(c, senders, callers, steps[..n], sole);
      EveryInterleavingConserves(c, senders, callers, steps[..n]);
      var s, step := Run(c, Initial(c, senders, callers), steps[..n]), steps[n];
      hide Run, Initial, Conserved, SoleInv, Orderly, WritesInOrder, HandsOverInOrder;
      hide SendStep, DrainStep, WriteStep, BackgroundStep, ClosingStep;
      if IsSend(step) {
        SendStepKeepsSole(c, s, step, sole);
      } else if IsDrain(step) {
        DrainStepKeepsSole(c, s, step, sole);
      } else if IsWrite(step) {
        WriteStepKeepsSole(c, s, step, sole);
      } else if IsBackground(step) {
        BackgroundStepKeepsSole(s, step, sole);
      } else {
        ClosingStepKeepsSole(c, s, step, sole);
      }
    }
  }

  /** With a sole caller of flush, after every quiet close each result has gone to Kafka exactly once. */
  lemma {:induction false} SoleCallerHandsOverEverything(c: Config, senders: set<Thread>, callers: set<Thread>,
                                                         steps: seq<Step>)
    requires c.hasProducer && SoleCaller(callers) && QuietlyClosed(Run(c, Initial(c, senders, callers), steps))
    ensures var s := Run(c, Initial(c, senders, callers), steps);
            multiset(s.sent) == multiset(s.kafka) && s.dropped == []
  {
    var sole := if t :| t in callers && t != Background then t else Caller(0);
    RunKeepsSole(c, senders, callers, steps, sole);
    CloseHandsOverExactly(c, senders, callers, steps);
    hide Run;
  }

  // ----- schedules that lose a result

  /** A sink, the threads that use it, and three of them. */
  datatype Setting = Setting(c: Config, senders: set<Thread>, callers: set<Thread>, sender: Thread, closer: Thread,
                             other: Thread)

  ghost predicate Proper(w: Setting) {
    && w.sender in w.senders && w.closer in w.callers && w.other in w.callers
    && w.closer != Background && w.other != Background && w.closer != w.other && w.c.hasProducer
  }

  function After(w: Setting, steps: seq<Step>): State { Run(w.c, Initial(w.c, w.senders, w.callers), steps) }

  lemma {:induction false} Then(w: Setting, steps: seq<Step>, step: Step) returns (more: seq<Step>)
    ensures more == steps + [step] && After(w, more) == Next(w.c, After(w, steps), step)
  {
    more := steps + [step];
    assert more[..|steps|] == steps;
  }

  /** Where the three flushing threads are, while all others do nothing. */
  ghost predicate At(w: Setting, s: State, background: Flusher, closer: Flusher, other: Flusher) {
    && Background in s.flushers && w.closer in s.flushers && w.other in s.flushers
    && s.flushers[Background] == background && s.flushers[w.closer] == closer && s.flushers[w.other] == other
    && (forall t | t in s.flushers && t != Background && t != w.closer && t != w.other :: s.flushers[t] == Idle)
  }

  predicate SentOne(w: Setting, s: State, r: ReplayResult) {
    && s.sent == [r] && s.kafka == s.dropped == s.written == [] && s.producer
    && w.sender in s.senders && AllResting(s.senders)
  }

  lemma {:induction false} StartsIdle(w: Setting)
    requires Proper(w)
    ensures var s := After(w, []);
            && w.sender in s.senders && AllResting(s.senders) && At(w, s, Idle, Idle, Idle)
            && s.phase == Open && s.producer
            && s.sent == s.kafka == s.dropped == s.written == s.queue == s.buffer == [] && !s.stop && !s.grabbed
  {
  }

  /** One result is sent, and waits in the queue and in the buffer. */
  lemma {:induction false} SendOne(w: Setting, r: ReplayResult) returns (steps: seq<Step>)
    requires Proper(w)
    ensures var s := After(w, steps);
            && SentOne(w, s, r) && At(w, s, Idle, Idle, Idle) && s.queue == s.buffer == [r]
            && s.phase == Open && !s.stop && !s.grabbed
  {
    hide DrainStep, WriteStep, BackgroundStep, ClosingStep;
    StartsIdle(w);
    hide After;
    steps := Then(w, [], SendStart(w.sender, r));
    steps := Then(w, steps, PutQueued(w.sender));
    steps := Then(w, steps, Append(w.sender));
  }

  /** The background thread takes the buffer. */
  lemma {:induction false} BackgroundTakes(w: Setting, r: ReplayResult) returns (steps: seq<Step>)
    requires Proper(w) && w.c.hasTable
    ensures var s := After(w, steps);
            && SentOne(w, s, r) && At(w, s, Writing([r]), Idle, Idle) && s.queue == [r] && s.buffer == []
            && s.phase == Open && !s.grabbed && !s.stop
  {
    hide SendStep, DrainStep, ClosingStep, After;
    steps := SendOne(w, r);
    steps := Then(w, steps, BackgroundWait);
    steps := Then(w, steps, BackgroundWake);
    steps := Then(w, steps, Grab(Background));
  }

  /** Meanwhile another thread closes the sink. */
  lemma {:induction false} CloseDuringWrite(w: Setting, r: ReplayResult) returns (steps: seq<Step>)
    requires Proper(w) && w.c.hasTable
    ensures var s := After(w, steps);
            && SentOne(w, s, r) && At(w, s, Writing([r]), Draining, Idle) && s.queue == [r] && s.buffer == []
            && s.phase == Flushing(w.closer) && s.stop && s.quiet && !s.grabbed
  {
    hide SendStep, DrainStep, WriteStep, BackgroundStep, After;
    steps := BackgroundTakes(w, r);
    steps := Then(w, steps, Close(w.closer));
  }

  /** The closing thread hands the queued result over. */
  lemma {:induction false} CloserDrains(w: Setting, r: ReplayResult) returns (steps: seq<Step>)
    requires Proper(w) && w.c.hasTable
    ensures var s := After(w, steps);
            && s.sent == s.kafka == [r] && s.queue == s.buffer == s.dropped == s.written == [] && s.producer
            && At(w, s, Writing([r]), Draining, Idle) && s.phase == Flushing(w.closer)
            && s.stop && s.quiet && !s.grabbed
  {
    hide SendStep, WriteStep, BackgroundStep, ClosingStep, After;
    steps := CloseDuringWrite(w, r);
    steps := Then(w, steps, DrainGet(w.closer));
    steps := Then(w, steps, DrainSend(w.closer));
  }

  /** The closing thread finds nothing to write and goes on to join the background thread. */
  lemma {:induction false} CloserFlushes(w: Setting, r: ReplayResult) returns (steps: seq<Step>)
    requires Proper(w) && w.c.hasTable
    ensures var s := After(w, steps);
            && s.sent == s.kafka == [r] && s.queue == s.buffer == s.dropped == s.written == [] && s.producer
            && At(w, s, Writing([r]), Idle, Idle) && s.phase == Joining && s.stop && s.quiet && s.grabbed
  {
    hide SendStep, BackgroundStep, After;
    steps := CloserDrains(w, r);
    steps := Then(w, steps, DrainEmpty(w.closer));
    steps := Then(w, steps, Grab(w.closer));
    steps := Then(w, steps, CloseFlushed);
  }

  /** The background thread's write raises, and the batch goes back into the buffer. */
  lemma {:induction false} BackgroundFails(w: Setting, r: ReplayResult) returns (steps: seq<Step>)
    requires Proper(w) && w.c.hasTable
    ensures var s := After(w, steps);
            && s.sent == s.kafka == s.buffer == [r] && s.dropped == s.written == []
            && At(w, s, Idle, Idle, Idle) && s.phase == Joining && s.stop && s.quiet && s.stranded
  {
    hide SendStep, DrainStep, BackgroundStep, ClosingStep, After;
    steps := CloserFlushes(w, r);
    steps := Then(w, steps, WriteRaises(Background));
    steps := Then(w, steps, PutBack(Background));
  }

  /** The background thread sees the stop event and ends. */
  lemma {:induction false} BackgroundEnds(w: Setting, r: ReplayResult) returns (steps: seq<Step>)
    requires Proper(w) && w.c.hasTable
    ensures var s := After(w, steps);
            && s.sent == s.kafka == s.buffer == [r] && s.dropped == s.written == []
            && At(w, s, Exited, Idle, Idle) && s.phase == Joining && s.quiet && s.stranded
  {
    hide SendStep, DrainStep, WriteStep, ClosingStep, After;
    steps := BackgroundFails(w, r);
    steps := Then(w, steps, BackgroundExit);
  }

  /** A quiet close whose own flush succeeds and that joins the background thread can still leave a result unwritten. */
  lemma {:induction false} LateFailureStrandsABatch(w: Setting, r: ReplayResult) returns (steps: seq<Step>)
    requires Proper(w) && w.c.hasTable
    ensures var s := After(w, steps);
            && s.phase == Closed(true) && s.quiet && s.stranded && At(w, s, Exited, Idle, Idle)
            && s.sent == s.kafka == s.buffer == [r] && s.dropped == s.written == []
  {
    hide SendStep, DrainStep, WriteStep, BackgroundStep, After, Holders;
    steps := BackgroundEnds(w, r);
    steps := Then(w, steps, CloseJoins);
    steps := Then(w, steps, CloseReleases);
  }

  /** A caller of flush takes the result from the queue. */
  lemma {:induction false} OtherTakesTheResult(w: Setting, r: ReplayResult) returns (steps: seq<Step>)
    requires Proper(w)
    ensures var s := After(w, steps);
            && SentOne(w, s, r) && At(w, s, Idle, Idle, Holding(r)) && s.queue == [] && s.buffer == [r]
            && s.phase == Open
  {
    hide SendStep, WriteStep, BackgroundStep, ClosingStep, After;
    steps := SendOne(w, r);
    steps := Then(w, steps, BeginFlush(w.other));
    steps := Then(w, steps, DrainGet(w.other));
  }

  /** Another thread closes the sink and finds the queue empty. */
  lemma {:induction false} CloseDuringFlush(w: Setting, r: ReplayResult) returns (steps: seq<Step>)
    requires Proper(w)
    ensures var s := After(w, steps);
            && s.sent == s.buffer == [r] && s.queue == s.kafka == s.dropped == s.written == [] && s.producer
            && At(w, s, Idle, Grabbing, Holding(r)) && s.phase == Flushing(w.closer) && s.quiet
  {
    hide SendStep, WriteStep, BackgroundStep, After;
    steps := OtherTakesTheResult(w, r);
    steps := Then(w, steps, Close(w.closer));
    steps := Then(w, steps, DrainEmpty(w.closer));
  }

  /** The closing thread takes the buffer, and writes it if there is a table. */
  lemma {:induction false} CloserWrites(w: Setting, r: ReplayResult) returns (steps: seq<Step>)
    requires Proper(w)
    ensures var s := After(w, steps);
            && s.sent == [r] && s.queue == s.kafka == s.dropped == [] && s.producer && s.grabbed
            && (w.c.hasTable ==> s.written == [r])
            && At(w, s, Idle, Idle, Holding(r)) && s.phase == Flushing(w.closer) && s.quiet
  {
    hide SendStep, DrainStep, BackgroundStep, ClosingStep, After;
    steps := CloseDuringFlush(w, r);
    steps := Then(w, steps, Grab(w.closer));
    if w.c.hasTable {
      steps := Then(w, steps, WriteReturns(w.closer));
    }
  }

  lemma {:induction false} CloserStopsWaiting(w: Setting, r: ReplayResult) returns (steps: seq<Step>)
    requires Proper(w)
    ensures var s := After(w, steps);
            && s.sent == [r] && s.kafka == s.dropped == [] && (w.c.hasTable ==> s.written == [r])
            && At(w, s, Idle, Idle, Holding(r)) && s.phase.Joined? && s.quiet
  {
    hide SendStep, DrainStep, WriteStep, BackgroundStep, After, Holders;
    steps := CloserWrites(w, r);
    steps := Then(w, steps, CloseFlushed);
    steps := Then(w, steps, CloseTimesOut);
  }

  /** A quiet close can release the producer under a second caller of flush, which drops its result. */
  lemma {:induction false} ReleaseDropsAResult(w: Setting, r: ReplayResult) returns (steps: seq<Step>)
    requires Proper(w)
    ensures var s := After(w, steps);
            && s.phase.Closed? && s.quiet && At(w, s, Idle, Idle, Draining)
            && s.sent == s.dropped == [r] && s.kafka == [] && (w.c.hasTable ==> s.written == [r]) && w.other in s.caught
  {
    hide SendStep, WriteStep, BackgroundStep, After;
    steps := CloserStopsWaiting(w, r);
    steps := Then(w, steps, CloseReleases);
    steps := Then(w, steps, DrainSend(w.other));
  }

  // ----- exactly which uses of the sink hand everything over

  /** Whenever the sink was closed quietly and nobody holds a result any more, each has gone to Kafka exactly once. */
  ghost predicate AlwaysHandsOver(c: Config, senders: set<Thread>, callers: set<Thread>) {
    forall steps |
      var s := Run(c, Initial(c, senders, callers), steps);
      QuietlyClosed(s) && forall t | t in s.flushers :: !s.flushers[t].Holding? ::
      multiset(Run(c, Initial(c, senders, callers), steps).sent) ==
      multiset(Run(c, Initial(c, senders, callers), steps).kafka)
  }

  lemma {:induction false} StepWithoutSenders(c: Config, s: State, step: Step)
    requires forall t :: t !in s.senders
    ensures Next(c, s, step).senders == s.senders && |Next(c, s, step).sent| == |s.sent|
  {
    hide DrainStep, WriteStep, BackgroundStep, ClosingStep;
    if IsDrain(step) {
      DrainFrame(s, step);
    } else if IsWrite(step) {
      WriteFrame(c, s, step);
    } else if IsBackground(step) {
      BackgroundFrame(s, step);
    } else if IsClosing(step) {
      ClosingFrame(s, step);
    }
  }

  lemma {:induction false} NobodySends(c: Config, callers: set<Thread>, steps: seq<Step>)
    ensures var s := Run(c, Initial(c, {}, callers), steps); (forall t :: t !in s.senders) && s.sent == []
  {
    if steps != [] {
      var n := |steps| - 1;
      NobodySends(c, callers, steps[..n]);
      StepWithoutSenders(c, Run(c, Initial(c, {}, callers), steps[..n]), steps[n]);
      hide Next, Initial;
    }
  }

  /** With a producer, every use hands everything over exactly when nobody sends or there is a sole caller. */
  lemma {:induction false} HandOverIsExact(c: Config, senders: set<Thread>, callers: set<Thread>)
    requires c.hasProducer
    ensures AlwaysHandsOver(c, senders, callers) <==> senders == {} || SoleCaller(callers)
  {
    hide Run, Initial;
    if senders == {} || SoleCaller(callers) {
      forall steps |
        var s := Run(c, Initial(c, senders, callers), steps);
        QuietlyClosed(s) && forall t | t in s.flushers :: !s.flushers[t].Holding?
        ensures multiset(Run(c, Initial(c, senders, callers), steps).sent) ==
                multiset(Run(c, Initial(c, senders, callers), steps).kafka)
      {
        if senders == {} {
          NobodySends(c, callers, steps);
          CloseHandsOverExactly(c, senders, callers, steps);
        } else {
          SoleCallerHandsOverEverything(c, senders, callers, steps);
        }
      }
    } else {
      var t, u :| t in callers && u in callers && t != Background && u != Background && t != u;
      var w := Setting(c, senders, callers, Pick(senders), t, u);
      var steps := ReleaseDropsAResult(w, ReplayResult("", "", ""));
      assert QuietlyClosed(Run(c, Initial(c, senders, callers), steps));
    }
  }
}
