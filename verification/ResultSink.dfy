/**
 The replay result sink under every interleaving. Any number of senders, any number of callers of flush, the background
 flusher and one closing thread share a bounded queue and a locked buffer. A step is one queue operation or one locked
 section; a step that is not enabled in a state leaves it unchanged, so every sequence of steps is an interleaving.
 The logs `accepted`, `sent`, `kafka`, `dropped` and `written` record the results whose queue stage ended, whose buffer
 append ended, that were handed to Kafka, that were not because there was no producer, and whose table write returned.
 */
module ResultSink {
  import opened Basics

  datatype ReplayResult = ReplayResult(jobId: string, eventId: string, body: string)
  datatype Thread = Background | Caller(n: nat)

  datatype Sender = Resting | Putting(r: ReplayResult) | Appending(r: ReplayResult)
  datatype Flusher =
    | Idle                                    // not flushing; for the background thread, at its loop test
    | Waiting                                 // background thread only: in the timed wait
    | Draining | Holding(r: ReplayResult)     // in the queue loop, without or with a result in hand
    | Grabbing                                // about to take the buffer
    | Writing(batch: seq<ReplayResult>)
    | PuttingBack(batch: seq<ReplayResult>)   // the write raised
    | Exited                                  // background thread only

  /** Joined is the end of the wait for the background thread; the producer is released after that. */
  datatype Phase = Open | Flushing(t: Thread) | Joining | Joined(ended: bool) | Closed(ended: bool)

  datatype Config = Config(maxQueue: nat, hasTable: bool, hasProducer: bool)

  datatype State = State(
    queue: seq<ReplayResult>, buffer: seq<ReplayResult>,
    accepted: seq<ReplayResult>, sent: seq<ReplayResult>, kafka: seq<ReplayResult>, dropped: seq<ReplayResult>,
    written: seq<ReplayResult>,
    senders: map<Thread, Sender>, flushers: map<Thread, Flusher>,
    stop: bool, phase: Phase, producer: bool,
    grabbed: bool,         // the closing thread has taken the buffer
    quiet: bool,           // no send was under way when close was called, and none has started since
    stranded: bool,        // a batch was put back after `grabbed`, and no flusher has taken the buffer since
    caught: set<Thread>)   // the threads that held a result when the producer was released

  datatype Step =
    | SendStart(t: Thread, r: ReplayResult) | PutQueued(t: Thread) | PutTimedOut(t: Thread) | Append(t: Thread)
    | BeginFlush(t: Thread) | DrainGet(t: Thread) | DrainSend(t: Thread) | DrainEmpty(t: Thread)
    | Grab(t: Thread) | WriteReturns(t: Thread) | WriteRaises(t: Thread) | PutBack(t: Thread)
    | BackgroundWait | BackgroundWake | BackgroundExit
    | Close(t: Thread) | CloseFlushed | CloseJoins | CloseTimesOut | CloseReleases

  predicate IsSend(step: Step) { step.SendStart? || step.PutQueued? || step.PutTimedOut? || step.Append? }

  predicate IsDrain(step: Step) { step.BeginFlush? || step.DrainGet? || step.DrainSend? || step.DrainEmpty? }
  predicate IsWrite(step: Step) { step.Grab? || step.WriteReturns? || step.WriteRaises? || step.PutBack? }
  predicate IsBackground(step: Step) { step.BackgroundWait? || step.BackgroundWake? || step.BackgroundExit? }

  predicate IsClosing(step: Step) {
    step.Close? || step.CloseFlushed? || step.CloseJoins? || step.CloseTimesOut? || step.CloseReleases?
  }

  function Initial(c: Config, senders: set<Thread>, callers: set<Thread>): State {
    State([], [], [], [], [], [], [], map t | t in senders :: Resting, map t | t in callers + {Background} :: Idle,
          false, Open, c.hasProducer, false, false, false, {})
  }

  /** Without a producer a result is dropped silently. */
  function HandOver(s: State, r: ReplayResult): (n: State)
    ensures n == s.(kafka := n.kafka, dropped := n.dropped)
  {
    if s.producer then s.(kafka := s.kafka + [r]) else s.(dropped := s.dropped + [r])
  }

  function Holders(fs: map<Thread, Flusher>): set<Thread> { set t | t in fs && fs[t].Holding? }

  predicate AllResting(senders: map<Thread, Sender>) { forall t | t in senders :: senders[t] == Resting }

  function SendStep(c: Config, s: State, step: Step): State
    requires IsSend(step)
  {
    if step.t !in s.senders then s
    else
      var me := s.senders[step.t];
      match step
      case SendStart(t, r) => if me != Resting then s else s.(senders := s.senders[t := Putting(r)], quiet := false)
      case PutQueued(t) =>
        if !me.Putting? || (0 < c.maxQueue && c.maxQueue <= |s.queue|) then s
        else s.(senders := s.senders[t := Appending(me.r)], queue := s.queue + [me.r], accepted := s.accepted + [me.r])
      case PutTimedOut(t) =>
        if !me.Putting? || !(0 < c.maxQueue && c.maxQueue <= |s.queue|) then s
        else HandOver(s, me.r).(senders := s.senders[t := Appending(me.r)], accepted := s.accepted + [me.r])
      case Append(t) =>
        if !me.Appending? then s
        else s.(senders := s.senders[t := Resting], buffer := s.buffer + [me.r], sent := s.sent + [me.r])
  }

  function DrainStep(s: State, step: Step): State
    requires IsDrain(step)
  {
    if step.t !in s.flushers then s
    else
      var me := s.flushers[step.t];
      match step
      case BeginFlush(t) =>
        if t == Background || me != Idle || s.phase == Flushing(t) then s
        else s.(flushers := s.flushers[t := Draining])
      case DrainGet(t) =>
        if me != Draining || s.queue == [] then s
        else s.(flushers := s.flushers[t := Holding(s.queue[0])], queue := s.queue[1..])
      case DrainSend(t) =>
        if !me.Holding? then s else HandOver(s, me.r).(flushers := s.flushers[t := Draining])
      case DrainEmpty(t) =>
        if me != Draining || s.queue != [] then s else s.(flushers := s.flushers[t := Grabbing])
  }

  function WriteStep(c: Config, s: State, step: Step): State
    requires IsWrite(step)
  {
    if step.t !in s.flushers then s
    else
      var me := s.flushers[step.t];
      match step
      case Grab(t) =>
        var grabbed := s.grabbed || s.phase == Flushing(t);
        if me != Grabbing then s
        else if !c.hasTable || s.buffer == [] then s.(flushers := s.flushers[t := Idle], grabbed := grabbed)
        else s.(flushers := s.flushers[t := Writing(s.buffer)], buffer := [], grabbed := grabbed, stranded := false)
      case WriteReturns(t) =>
        if !me.Writing? then s else s.(flushers := s.flushers[t := Idle], written := s.written + me.batch)
      case WriteRaises(t) =>
        if !me.Writing? then s else s.(flushers := s.flushers[t := PuttingBack(me.batch)])
      case PutBack(t) =>
        if !me.PuttingBack? then s
        else s.(flushers := s.flushers[t := Idle], buffer := s.buffer + me.batch, stranded := s.grabbed)
  }

  function BackgroundStep(s: State, step: Step): State
    requires IsBackground(step)
  {
    if Background !in s.flushers then s
    else
      var background := s.flushers[Background];
      match step
      case BackgroundWait =>
        if background != Idle || s.stop then s else s.(flushers := s.flushers[Background := Waiting])
      case BackgroundWake =>
        if background != Waiting then s else s.(flushers := s.flushers[Background := Grabbing])
      case BackgroundExit =>
        if background != Idle || !s.stop then s else s.(flushers := s.flushers[Background := Exited])
  }

  function ClosingStep(s: State, step: Step): State
    requires IsClosing(step)
  {
    if Background !in s.flushers then s
    else
      match step
      case Close(t) =>
        if t == Background || t !in s.flushers || s.flushers[t] != Idle || s.phase != Open then s
        else s.(stop := true, phase := Flushing(t), flushers := s.flushers[t := Draining],
                quiet := AllResting(s.senders))
      case CloseFlushed =>
        if !s.phase.Flushing? || s.phase.t !in s.flushers || s.flushers[s.phase.t] != Idle || !s.grabbed then s
        else s.(phase := Joining)
      case CloseJoins =>
        if s.phase != Joining || s.flushers[Background] != Exited then s else s.(phase := Joined(true))
      case CloseTimesOut =>
        if s.phase != Joining then s else s.(phase := Joined(s.flushers[Background] == Exited))
      case CloseReleases =>
        if !s.phase.Joined? then s
        else s.(phase := Closed(s.phase.ended), producer := false, caught := Holders(s.flushers))
  }

  function Next(c: Config, s: State, step: Step): State {
    if IsSend(step) then SendStep(c, s, step)
    else if IsDrain(step) then DrainStep(s, step)
    else if IsWrite(step) then WriteStep(c, s, step)
    else if IsBackground(step) then BackgroundStep(s, step)
    else ClosingStep(s, step)
  }

  function Run(c: Config, s: State, steps: seq<Step>): State {
    if steps == [] then s else Next(c, Run(c, s, steps[..|steps| - 1]), steps[|steps| - 1])
  }

  // ----- what each kind of step leaves alone

  lemma {:induction false} SendFrame(c: Config, s: State, step: Step)
    requires IsSend(step)
    ensures var n := SendStep(c, s, step);
            n == s.(senders := n.senders, queue := n.queue, buffer := n.buffer, accepted := n.accepted, sent := n.sent,
                    kafka := n.kafka, dropped := n.dropped, quiet := n.quiet)
  {
    hide HandOver;
  }

  lemma {:induction false} DrainFrame(s: State, step: Step)
    requires IsDrain(step)
    ensures var n := DrainStep(s, step);
            n == s.(flushers := n.flushers, queue := n.queue, kafka := n.kafka, dropped := n.dropped)
  {
    hide HandOver;
  }

  lemma {:induction false} WriteFrame(c: Config, s: State, step: Step)
    requires IsWrite(step)
    ensures var n := WriteStep(c, s, step);
            n == s.(flushers := n.flushers, buffer := n.buffer, written := n.written, grabbed := n.grabbed,
                    stranded := n.stranded)
  {
  }

  lemma {:induction false} BackgroundFrame(s: State, step: Step)
    requires IsBackground(step)
    ensures var n := BackgroundStep(s, step); n == s.(flushers := n.flushers)
  {
  }

  lemma {:induction false} ClosingFrame(s: State, step: Step)
    requires IsClosing(step)
    ensures var n := ClosingStep(s, step);
            n == s.(flushers := n.flushers, stop := n.stop, phase := n.phase, producer := n.producer, quiet := n.quiet,
                    caught := n.caught)
  {
    hide AllResting, Holders;
  }

  // ----- what the threads carry

  ghost function Sum<K>(m: map<K, nat>): nat
    decreases |m|
  {
    if m.Keys == {} then 0 else var t := Pick(m.Keys); m[t] + Sum(m - {t})
  }

  lemma {:induction false} SumRemove<K>(m: map<K, nat>, t: K)
    requires t in m
    ensures Sum(m) == m[t] + Sum(m - {t})
    decreases |m|
  {
    var j := Pick(m.Keys);
    if j != t {
      SumRemove(m - {j}, t);
      SumRemove(m - {t}, j);
      assert m - {j} - {t} == m - {t} - {j};
    }
  }

  lemma {:induction false} SumUpdate<K>(m: map<K, nat>, t: K, x: nat)
    requires t in m
    ensures Sum(m[t := x]) + m[t] == Sum(m) + x
  {
    SumRemove(m, t);
    SumRemove(m[t := x], t);
    assert m[t := x] - {t} == m - {t};
  }

  lemma {:induction false} SumOfNothing<K>(m: map<K, nat>)
    requires forall t | t in m :: m[t] == 0
    ensures Sum(m) == 0
    decreases |m|
  {
    if m.Keys != {} {
      SumOfNothing(m - {Pick(m.Keys)});
    }
  }

  function Batch(f: Flusher): seq<ReplayResult> { if f.Writing? || f.PuttingBack? then f.batch else [] }
  function InHand(f: Flusher): seq<ReplayResult> { if f.Holding? then [f.r] else [] }
  function Half(s: Sender): seq<ReplayResult> { if s.Appending? then [s.r] else [] }

  /** How often a result occurs. */
  function Times(rs: seq<ReplayResult>, x: ReplayResult): nat { multiset(rs)[x] }

  function Batches(fs: map<Thread, Flusher>, x: ReplayResult): map<Thread, nat> {
    map t | t in fs :: Times(Batch(fs[t]), x)
  }

  function Hands(fs: map<Thread, Flusher>, x: ReplayResult): map<Thread, nat> {
    map t | t in fs :: Times(InHand(fs[t]), x)
  }

  function Halves(ss: map<Thread, Sender>, x: ReplayResult): map<Thread, nat> {
    map t | t in ss :: Times(Half(ss[t]), x)
  }

  /** Occurrences in batches that some flusher has taken and not yet written or put back. */
  ghost function InFlight(fs: map<Thread, Flusher>, x: ReplayResult): nat { Sum(Batches(fs, x)) }

  /** Occurrences that some flusher has taken from the queue and not yet handed over. */
  ghost function Held(fs: map<Thread, Flusher>, x: ReplayResult): nat { Sum(Hands(fs, x)) }

  /** Occurrences whose queue stage has ended but whose buffer append has not. */
  ghost function HalfSent(ss: map<Thread, Sender>, x: ReplayResult): nat { Sum(Halves(ss, x)) }

  // ----- the inductive invariant

  /** No occurrence of `x` is lost or duplicated on either way. */
  ghost predicate ConservedFor(s: State, x: ReplayResult) {
    && Times(s.sent, x) == Times(s.buffer, x) + InFlight(s.flushers, x) + Times(s.written, x)
    && Times(s.accepted, x) == Times(s.queue, x) + Held(s.flushers, x) + Times(s.kafka, x) + Times(s.dropped, x)
    && Times(s.accepted, x) == Times(s.sent, x) + HalfSent(s.senders, x)
  }

  ghost predicate Conserved(s: State) { forall x :: ConservedFor(s, x) }

  predicate BeforeGrab(f: Flusher) { f == Draining || f.Holding? || f == Grabbing }

  /** The closing thread has found the queue empty. */
  predicate PastDrain(s: State) {
    match s.phase
    case Open => false
    case Flushing(t) => t in s.flushers && s.flushers[t] != Draining && !s.flushers[t].Holding?
    case _ => true
  }

  ghost predicate Orderly(c: Config, s: State) {
    && Background in s.flushers
    && (s.quiet ==> s.phase != Open && AllResting(s.senders))
    && (s.quiet && PastDrain(s) ==> s.queue == [])
    && (s.phase.Flushing? ==> s.phase.t in s.flushers && s.phase.t != Background)
    && (s.phase.Flushing? ==> (s.grabbed <==> !BeforeGrab(s.flushers[s.phase.t])))
    && (s.phase == Open ==> !s.grabbed)
    && (s.phase == Joining || s.phase.Joined? || s.phase.Closed? ==> s.grabbed)
    && (s.phase == Joined(true) || s.phase == Closed(true) ==> s.flushers[Background] == Exited)
  }

  /** What the table gets: batches are never empty, and after the closing thread only a put-back fills the buffer. */
  ghost predicate WritesInOrder(c: Config, s: State) {
    && (forall t | t in s.flushers && (s.flushers[t].Writing? || s.flushers[t].PuttingBack?) ::
          s.flushers[t].batch != [] && c.hasTable)
    && (!c.hasTable ==> s.written == [])
    && (s.stranded ==> s.grabbed)
    && (s.grabbed && s.quiet && c.hasTable ==> (s.buffer == [] <==> !s.stranded))
  }

  /** What Kafka gets: nothing is dropped while there is a producer, and afterwards only what was in hand. */
  ghost predicate HandsOverInOrder(c: Config, s: State) {
    && (s.producer <==> c.hasProducer && !s.phase.Closed?)
    && (!c.hasProducer ==> s.kafka == [])
    && (s.producer ==> s.dropped == [])
    && (c.hasProducer && s.quiet && s.phase.Closed? ==>
          Holders(s.flushers) <= s.caught && |s.dropped| + |Holders(s.flushers)| == |s.caught|)
  }

  ghost predicate Inv(c: Config, s: State) { Orderly(c, s) && WritesInOrder(c, s) && HandsOverInOrder(c, s) }

  /** Moving one flusher moves exactly what it carries. */
  lemma {:induction false} FlusherMoves(fs: map<Thread, Flusher>, t: Thread, f: Flusher, x: ReplayResult)
    requires t in fs
    ensures InFlight(fs[t := f], x) + Times(Batch(fs[t]), x) == InFlight(fs, x) + Times(Batch(f), x)
    ensures Held(fs[t := f], x) + Times(InHand(fs[t]), x) == Held(fs, x) + Times(InHand(f), x)
  {
    hide Sum, Times;
    SumUpdate(Batches(fs, x), t, Times(Batch(f), x));
    SumUpdate(Hands(fs, x), t, Times(InHand(f), x));
    assert Batches(fs[t := f], x) == Batches(fs, x)[t := Times(Batch(f), x)];
    assert Hands(fs[t := f], x) == Hands(fs, x)[t := Times(InHand(f), x)];
  }

  lemma {:induction false} SenderMoves(ss: map<Thread, Sender>, t: Thread, y: Sender, x: ReplayResult)
    requires t in ss
    ensures HalfSent(ss[t := y], x) + Times(Half(ss[t]), x) == HalfSent(ss, x) + Times(Half(y), x)
  {
    hide Sum, Times;
    SumUpdate(Halves(ss, x), t, Times(Half(y), x));
    assert Halves(ss[t := y], x) == Halves(ss, x)[t := Times(Half(y), x)];
  }

  lemma {:induction false} SendStepConserves(c: Config, s: State, step: Step, x: ReplayResult)
    requires IsSend(step)
    requires ConservedFor(s, x)
    ensures ConservedFor(SendStep(c, s, step), x)
  {
    hide InFlight, Held, HalfSent, Times;
    var n := SendStep(c, s, step);
    if step.t in s.senders && n != s {
      var me := s.senders[step.t];
      SenderMoves(s.senders, step.t, n.senders[step.t], x);
      NoneOf(x);
      match step {
        case PutQueued(_) =>
          TimesAppend(s.queue, [me.r], x);
          TimesAppend(s.accepted, [me.r], x);
        case PutTimedOut(_) =>
          HandOverAdds(s, me.r, x);
          TimesAppend(s.accepted, [me.r], x);
        case Append(_) =>
          TimesAppend(s.buffer, [me.r], x);
          TimesAppend(s.sent, [me.r], x);
        case _ =>
      }
    }
  }

  lemma {:induction false} DrainStepConserves(s: State, step: Step, x: ReplayResult)
    requires IsDrain(step) && ConservedFor(s, x)
    ensures ConservedFor(DrainStep(s, step), x)
  {
    hide InFlight, Held, HalfSent, Times, HandOver;
    var n := DrainStep(s, step);
    if step.t in s.flushers && n != s {
      DrainMoves(s, step, x);
      DrainFrame(s, step);
      FlusherMoves(s.flushers, step.t, n.flushers[step.t], x);
      NoneOf(x);
      hide DrainStep;
    }
  }

  /** What a drain step takes from the queue or the hand arrives in the hand or is handed over. */
  lemma {:induction false} DrainMoves(s: State, step: Step, x: ReplayResult)
    requires IsDrain(step) && step.t in s.flushers && DrainStep(s, step) != s
    ensures var n, t := DrainStep(s, step), step.t;
            && n.flushers == s.flushers[t := n.flushers[t]] && Batch(s.flushers[t]) == Batch(n.flushers[t]) == []
            && Times(n.queue, x) + Times(InHand(n.flushers[t]), x) + Times(n.kafka, x) + Times(n.dropped, x) ==
               Times(s.queue, x) + Times(InHand(s.flushers[t]), x) + Times(s.kafka, x) + Times(s.dropped, x)
  {
    hide Times, HandOver;
    NoneOf(x);
    if step.DrainGet? {
      assert s.queue == [s.queue[0]] + s.queue[1..];
      TimesAppend([s.queue[0]], s.queue[1..], x);
    } else if step.DrainSend? {
      HandOverAdds(s, s.flushers[step.t].r, x);
    }
  }

  lemma {:induction false} WriteStepConserves(c: Config, s: State, step: Step, x: ReplayResult)
    requires IsWrite(step) && ConservedFor(s, x)
    ensures ConservedFor(WriteStep(c, s, step), x)
  {
    hide InFlight, Held, HalfSent, Times;
    var n := WriteStep(c, s, step);
    if step.t in s.flushers && n != s {
      var me := s.flushers[step.t];
      FlusherMoves(s.flushers, step.t, n.flushers[step.t], x);
      NoneOf(x);
      if step.WriteReturns? {
        TimesAppend(s.written, me.batch, x);
      } else if step.PutBack? {
        TimesAppend(s.buffer, me.batch, x);
      }
    }
  }

  lemma {:induction false} HandOverAdds(s: State, r: ReplayResult, x: ReplayResult)
    ensures var n := HandOver(s, r);
            && Times(n.kafka, x) + Times(n.dropped, x) == Times(s.kafka, x) + Times(s.dropped, x) + Times([r], x)
            && n == s.(kafka := n.kafka, dropped := n.dropped)
  {
  }

  lemma {:induction false} NoneOf(x: ReplayResult)
    ensures Times([], x) == 0
  {
  }

  lemma {:induction false} TimesAppend(a: seq<ReplayResult>, b: seq<ReplayResult>, x: ReplayResult)
    ensures Times(a + b, x) == Times(a, x) + Times(b, x)
  {
  }

  lemma {:induction false} BackgroundStepConserves(s: State, step: Step, x: ReplayResult)
    requires IsBackground(step) && ConservedFor(s, x)
    ensures ConservedFor(BackgroundStep(s, step), x)
  {
    hide InFlight, Held, HalfSent, Times;
    var n := BackgroundStep(s, step);
    if n.flushers != s.flushers {
      FlusherMoves(s.flushers, Background, n.flushers[Background], x);
    }
  }

  lemma {:induction false} ClosingStepConserves(s: State, step: Step, x: ReplayResult)
    requires IsClosing(step) && ConservedFor(s, x)
    ensures ConservedFor(ClosingStep(s, step), x)
  {
    hide InFlight, Held, HalfSent, Times, AllResting, Holders;
    var n := ClosingStep(s, step);
    if step.Close? && step.t in s.flushers {
      FlusherMoves(s.flushers, step.t, n.flushers[step.t], x);
    }
  }

  lemma {:induction false} StepConserves(c: Config, s: State, step: Step, x: ReplayResult)
    requires ConservedFor(s, x)
    ensures ConservedFor(Next(c, s, step), x)
  {
    hide ConservedFor, SendStep, DrainStep, WriteStep, BackgroundStep, ClosingStep;
    if IsSend(step) {
      SendStepConserves(c, s, step, x);
    } else if IsDrain(step) {
      DrainStepConserves(s, step, x);
    } else if IsWrite(step) {
      WriteStepConserves(c, s, step, x);
    } else if IsBackground(step) {
      BackgroundStepConserves(s, step, x);
    } else {
      ClosingStepConserves(s, step, x);
    }
  }

  lemma {:induction false} HoldersChange(fs: map<Thread, Flusher>, t: Thread, f: Flusher)
    requires t in fs
    ensures Holders(fs[t := f]) == if f.Holding? then Holders(fs) + {t} else Holders(fs) - {t}
    ensures t in Holders(fs) <==> fs[t].Holding?
  {
  }

  lemma {:induction false} SendStepKeepsInv(c: Config, s: State, step: Step)
    requires IsSend(step) && Inv(c, s)
    ensures Inv(c, SendStep(c, s, step))
  {
    hide Holders;
  }

  lemma {:induction false} DrainStepKeepsOrder(c: Config, s: State, step: Step)
    requires IsDrain(step) && Orderly(c, s)
    ensures Orderly(c, DrainStep(s, step))
  {
    hide AllResting, HandOver;
  }

  lemma {:induction false} DrainStepKeepsWrites(c: Config, s: State, step: Step)
    requires IsDrain(step) && WritesInOrder(c, s)
    ensures WritesInOrder(c, DrainStep(s, step))
  {
    hide HandOver;
  }

  lemma {:induction false} DrainStepKeepsHandOvers(c: Config, s: State, step: Step)
    requires IsDrain(step) && Orderly(c, s) && HandsOverInOrder(c, s)
    ensures HandsOverInOrder(c, DrainStep(s, step))
  {
    hide Holders, AllResting;
    var n := DrainStep(s, step);
    if step.t in s.flushers && n != s {
      HoldersChange(s.flushers, step.t, n.flushers[step.t]);
    }
  }

  lemma {:induction false} WriteStepKeepsOrder(c: Config, s: State, step: Step)
    requires IsWrite(step) && Orderly(c, s)
    ensures Orderly(c, WriteStep(c, s, step))
  {
    hide AllResting;
  }

  lemma {:induction false} WriteStepKeepsWrites(c: Config, s: State, step: Step)
    requires IsWrite(step) && Orderly(c, s) && WritesInOrder(c, s)
    ensures WritesInOrder(c, WriteStep(c, s, step))
  {
    hide AllResting;
  }

  lemma {:induction false} WriteStepKeepsHandOvers(c: Config, s: State, step: Step)
    requires IsWrite(step) && HandsOverInOrder(c, s)
    ensures HandsOverInOrder(c, WriteStep(c, s, step))
  {
    hide Holders;
    var n := WriteStep(c, s, step);
    if step.t in s.flushers && n != s {
      HoldersChange(s.flushers, step.t, n.flushers[step.t]);
    }
  }

  lemma {:induction false} BackgroundStepKeepsOrder(c: Config, s: State, step: Step)
    requires IsBackground(step) && Orderly(c, s)
    ensures Orderly(c, BackgroundStep(s, step))
  {
    hide AllResting;
  }

  lemma {:induction false} BackgroundStepKeepsRest(c: Config, s: State, step: Step)
    requires IsBackground(step) && WritesInOrder(c, s) && HandsOverInOrder(c, s)
    ensures WritesInOrder(c, BackgroundStep(s, step)) && HandsOverInOrder(c, BackgroundStep(s, step))
  {
    hide Holders;
    var n := BackgroundStep(s, step);
    if n.flushers != s.flushers {
      HoldersChange(s.flushers, Background, n.flushers[Background]);
    }
  }

  lemma {:induction false} ClosingStepKeepsOrder(c: Config, s: State, step: Step)
    requires IsClosing(step) && Orderly(c, s)
    ensures Orderly(c, ClosingStep(s, step))
  {
    hide Holders;
  }

  lemma {:induction false} ClosingStepKeepsWrites(c: Config, s: State, step: Step)
    requires IsClosing(step) && Orderly(c, s) && WritesInOrder(c, s)
    ensures WritesInOrder(c, ClosingStep(s, step))
  {
    hide Holders, AllResting;
  }

  lemma {:induction false} ClosingStepKeepsHandOvers(c: Config, s: State, step: Step)
    requires IsClosing(step) && HandsOverInOrder(c, s)
    ensures HandsOverInOrder(c, ClosingStep(s, step))
  {
    hide Holders, AllResting;
    var n := ClosingStep(s, step);
    if step.Close? && step.t in s.flushers {
      HoldersChange(s.flushers, step.t, n.flushers[step.t]);
    }
  }

  lemma {:induction false} StepKeepsInv(c: Config, s: State, step: Step)
    requires Inv(c, s)
    ensures Inv(c, Next(c, s, step))
  {
    hide Orderly, WritesInOrder, HandsOverInOrder, SendStep, DrainStep, WriteStep, BackgroundStep, ClosingStep;
    if IsSend(step) {
      SendStepKeepsInv(c, s, step);
    } else if IsDrain(step) {
      DrainStepKeepsOrder(c, s, step);
      DrainStepKeepsWrites(c, s, step);
      DrainStepKeepsHandOvers(c, s, step);
    } else if IsWrite(step) {
      WriteStepKeepsOrder(c, s, step);
      WriteStepKeepsWrites(c, s, step);
      WriteStepKeepsHandOvers(c, s, step);
    } else if IsBackground(step) {
      BackgroundStepKeepsOrder(c, s, step);
      BackgroundStepKeepsRest(c, s, step);
    } else {
      ClosingStepKeepsOrder(c, s, step);
      ClosingStepKeepsWrites(c, s, step);
      ClosingStepKeepsHandOvers(c, s, step);
    }
  }

  lemma {:induction false} RunKeepsInvariant(c: Config, s: State, steps: seq<Step>)
    requires Conserved(s) && Inv(c, s)
    ensures Conserved(Run(c, s, steps)) && Inv(c, Run(c, s, steps))
  {
    hide ConservedFor, Inv, Next;
    if steps != [] {
      var n := |steps| - 1;
      RunKeepsInvariant(c, s, steps[..n]);
      forall x
        ensures ConservedFor(Next(c, Run(c, s, steps[..n]), steps[n]), x)
      {
        StepConserves(c, Run(c, s, steps[..n]), steps[n], x);
      }
      StepKeepsInv(c, Run(c, s, steps[..n]), steps[n]);
    }
  }

  /** Under every interleaving nothing is lost or duplicated, put-back after failed writes included. */
  lemma {:induction false} EveryInterleavingConserves(c: Config, senders: set<Thread>, callers: set<Thread>,
                                                      steps: seq<Step>)
    ensures var s := Run(c, Initial(c, senders, callers), steps); Conserved(s) && Inv(c, s)
  {
    var s := Initial(c, senders, callers);
    forall x
      ensures ConservedFor(s, x)
    {
      SumOfNothing(Batches(s.flushers, x));
      SumOfNothing(Hands(s.flushers, x));
      SumOfNothing(Halves(s.senders, x));
    }
    hide ConservedFor;
    RunKeepsInvariant(c, s, steps);
  }
}
