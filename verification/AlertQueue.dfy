/**
 The bounded alert queue between the analytics consumer thread and the dashboard's readers, under every interleaving.
 When a put finds the queue full, the consumer removes the oldest entry and puts again; readers may remove entries
 between any two of its steps. A step that is not enabled leaves the state unchanged.
 */
module AlertQueue {
  datatype Alert = Alert(transactionId: string, severity: string)

  /** A consumer thread: polling, about to put, about to drop the oldest, about to put again, or ended. */
  datatype Pc = Polling | Putting(a: Alert) | Dropping(a: Alert) | Retrying(a: Alert) | Ended

  datatype State = State(queue: seq<Alert>, threads: seq<Pc>, stop: bool,
                            delivered: seq<Alert>,  // alerts decoded by the consumers, in order
                            removed: seq<Alert>,    // entries taken out of the queue, by readers or by dropping
                            lost: seq<Alert>)       // alerts whose second put found the queue full

  datatype Step =
    | Start         // start() run to its end: a new thread unless one is alive
    | RacingStart   // a start() that tested for a live thread before another start() spawned one
    | Stop
    | Exit(t: nat) | Deliver(t: nat, a: Alert) | Put(t: nat) | Drop(t: nat) | Retry(t: nat)
    | ReaderGet

  function Initial(): State { State([], [], false, [], [], []) }

  /** The queue library's test; a size that is not positive means unbounded. */
  predicate Full(max: int, queue: seq<Alert>) { 0 < max <= |queue| }

  predicate Alive(s: State) { exists t :: 0 <= t < |s.threads| && s.threads[t] != Ended }

  function Spawn(s: State): State { s.(threads := s.threads + [Polling], stop := false) }

  function Removed(s: State): State
    requires s.queue != []
  {
    s.(queue := s.queue[1..], removed := s.removed + [s.queue[0]])
  }

  function ThreadStep(max: int, s: State, t: nat, step: Step): State
    requires t < |s.threads|
  {
    var me := s.threads[t];
    match step
    case Exit(_) => if me == Polling && s.stop then s.(threads := s.threads[t := Ended]) else s
    case Deliver(_, a) =>
      if me == Polling then s.(threads := s.threads[t := Putting(a)], delivered := s.delivered + [a]) else s
    case Put(_) =>
      if !me.Putting? then s
      else if Full(max, s.queue) then s.(threads := s.threads[t := Dropping(me.a)])
      else s.(threads := s.threads[t := Polling], queue := s.queue + [me.a])
    case Drop(_) =>
      if !me.Dropping? then s
      else (if s.queue == [] then s else Removed(s)).(threads := s.threads[t := Retrying(me.a)])
    case Retry(_) =>
      if !me.Retrying? then s
      else if Full(max, s.queue) then s.(threads := s.threads[t := Polling], lost := s.lost + [me.a])
      else s.(threads := s.threads[t := Polling], queue := s.queue + [me.a])
    case _ => s
  }

  function Next(max: int, s: State, step: Step): State {
    match step
    case Start => if Alive(s) then s else Spawn(s)
    case RacingStart => Spawn(s)
    case Stop => s.(stop := true)
    case ReaderGet => if s.queue == [] then s else Removed(s)
    case _ => if step.t < |s.threads| then ThreadStep(max, s, step.t, step) else s
  }

  function Run(max: int, steps: seq<Step>): State {
    if steps == [] then Initial() else Next(max, Run(max, steps[..|steps| - 1]), steps[|steps| - 1])
  }

  lemma {:induction false} RunSnoc(max: int, steps: seq<Step>, step: Step)
    ensures Run(max, steps + [step]) == Next(max, Run(max, steps), step)
  {
    assert (steps + [step])[..|steps|] == steps;
  }

  /** A stopped consumer can end when it polls next, and only then; a later start spawns one and clears the stop. */
  lemma {:induction false} StopAndRestart(max: int, s: State, t: nat)
    requires t < |s.threads| && s.threads[t] == Polling
    ensures Next(max, Next(max, s, Stop), Exit(t)).threads == s.threads[t := Ended]
    ensures !s.stop ==> Next(max, s, Exit(t)) == s
    ensures Next(max, s, Start) == s
    ensures (forall u | 0 <= u < |s.threads| && u != t :: s.threads[u] == Ended) ==>
              var n := Next(max, Next(max, Next(max, s, Stop), Exit(t)), Start);
              n.threads == s.threads[t := Ended] + [Polling] && !n.stop
    ensures var n := Next(max, Next(max, s, Stop), Exit(t));
            n.queue == s.queue && n.delivered == s.delivered && n.removed == s.removed && n.lost == s.lost
  {
    assert Alive(s);
  }

  /** A put takes the alert in hand straight to the queue while there is room, and only a full queue makes it drop. */
  lemma {:induction false} PutWithRoom(max: int, s: State, t: nat, a: Alert)
    requires t < |s.threads| && s.threads[t] == Putting(a)
    ensures var n := Next(max, s, Put(t));
            if max <= 0 || |s.queue| < max then n == s.(queue := s.queue + [a], threads := s.threads[t := Polling])
            else n == s.(threads := s.threads[t := Dropping(a)])
  {
  }

  /** A reader takes the oldest entry, if there is one, and touches nothing else. */
  lemma {:induction false} ReaderTakesOldest(max: int, s: State)
    ensures var n := Next(max, s, ReaderGet);
            && n == s.(queue := n.queue, removed := n.removed)
            && if s.queue == [] then n == s else n.removed == s.removed + [s.queue[0]] && n.queue == s.queue[1..]
  {
  }

  // ----- one consumer at a time

  function InHand(pc: Pc): seq<Alert> { if pc.Putting? || pc.Dropping? || pc.Retrying? then [pc.a] else [] }

  function Pending(threads: seq<Pc>): seq<Alert> { if threads == [] then [] else InHand(threads[|threads| - 1]) }

  ghost predicate Inv(max: int, s: State) {
    && (forall t | 0 <= t < |s.threads| - 1 :: s.threads[t] == Ended)
    && s.removed + s.queue + Pending(s.threads) == s.delivered
    && s.lost == []
    && (forall t | 0 <= t < |s.threads| && s.threads[t].Retrying? :: !Full(max, s.queue))
    && (0 < max ==> |s.queue| <= max)
  }

  lemma {:induction false} RemovalKeepsInv(max: int, s: State)
    requires Inv(max, s) && s.queue != []
    ensures Inv(max, Removed(s))
  {
    assert s.removed + s.queue == s.removed + [s.queue[0]] + s.queue[1..];
  }

  lemma {:induction false} EnqueueMoves(removed: seq<Alert>, queue: seq<Alert>, hand: seq<Alert>)
    ensures removed + (queue + hand) + [] == removed + queue + hand
  {
  }

  lemma {:induction false} ThreadStepKeepsInv(max: int, s: State, t: nat, step: Step)
    requires Inv(max, s) && t < |s.threads|
    ensures Inv(max, ThreadStep(max, s, t, step))
  {
    var n := ThreadStep(max, s, t, step);
    if n != s {
      assert t == |s.threads| - 1;
      if step.Drop? && s.queue != [] {
        RemovalKeepsInv(max, s);
      }
      EnqueueMoves(s.removed, s.queue, Pending(s.threads));
      assert s.removed + s.queue + [] == s.removed + s.queue;
    }
  }

  lemma {:induction false} StepKeepsInv(max: int, s: State, step: Step)
    requires Inv(max, s) && step != RacingStart
    ensures Inv(max, Next(max, s, step))
  {
    if step.Start? {
      assert !Alive(s) && s.threads != [] ==> s.threads[|s.threads| - 1] == Ended;
    } else if step.ReaderGet? {
      if s.queue != [] {
        RemovalKeepsInv(max, s);
      }
    } else if !step.Stop? {
      if step.t < |s.threads| {
        ThreadStepKeepsInv(max, s, step.t, step);
      }
    }
  }

  /**
   With starts that do not race there is one consumer at a time, and then for every schedule of polls, drops, stops,
   restarts and readers: removed entries, then the queue, then the alert in hand are the delivered sequence; no second
   put finds the queue full; and the queue never exceeds its size.
   */
  lemma {:induction false} SerialStartsLoseNothing(max: int, steps: seq<Step>)
    requires RacingStart !in steps
    ensures Inv(max, Run(max, steps))
  {
    if steps != [] {
      var n := |steps| - 1;
      SerialStartsLoseNothing(max, steps[..n]);
      StepKeepsInv(max, Run(max, steps[..n]), steps[n]);
    }
  }

  /** An alert leaves the consumer's hand only into the queue, at its end. */
  lemma {:induction false} NewestIsEnqueued(max: int, steps: seq<Step>, step: Step)
    requires RacingStart !in steps && step != RacingStart
    requires var s := Run(max, steps); Pending(s.threads) != [] && Pending(Next(max, s, step).threads) == []
    ensures var s, n := Run(max, steps), Next(max, Run(max, steps), step);
            n.queue == s.queue + Pending(s.threads)
  {
    SerialStartsLoseNothing(max, steps);
  }

  // ----- two consumers

  /** One thread fills the queue. */
  lemma {:induction false} Fill(max: int, a: Alert, k: nat) returns (steps: seq<Step>)
    requires 0 < max && k <= max
    ensures var s := Run(max, steps);
            |s.queue| == k && s.threads == [Polling, Polling] && s.lost == []
  {
    if k == 0 {
      steps := [Start, RacingStart];
      TwoStarts(max);
    } else {
      var before := Fill(max, a, k - 1);
      hide Run, Next;
      steps := before + [Deliver(0, a)] + [Put(0)];
      RunSnoc(max, before, Deliver(0, a));
      RunSnoc(max, before + [Deliver(0, a)], Put(0));
      DeliverAndPut(max, Run(max, before), a);
    }
  }

  lemma {:induction false} TwoStarts(max: int)
    ensures var s := Run(max, [Start, RacingStart]); s.queue == [] && s.threads == [Polling, Polling] && s.lost == []
  {
    RunSnoc(max, [], Start);
    RunSnoc(max, [Start], RacingStart);
    assert [] + [Start] == [Start] && [Start] + [RacingStart] == [Start, RacingStart];
  }

  lemma {:induction false} DeliverAndPut(max: int, s: State, a: Alert)
    requires |s.queue| < max && s.threads == [Polling, Polling]
    ensures var t := Next(max, Next(max, s, Deliver(0, a)), Put(0));
            |t.queue| == |s.queue| + 1 && t.threads == [Polling, Polling] && t.lost == s.lost
  {
  }

  lemma {:induction false} SecondDrops(max: int, s: State, a: Alert)
    requires |s.queue| == max > 0 && s.threads == [Polling, Polling]
    ensures var t := Next(max, Next(max, Next(max, s, Deliver(1, a)), Put(1)), Drop(1));
            |t.queue| == max - 1 && t.threads == [Polling, Retrying(a)] && t.lost == s.lost
  {
    assert Next(max, Next(max, s, Deliver(1, a)), Put(1)).threads == [Polling, Dropping(a)];
  }

  lemma {:induction false} FirstRefills(max: int, s: State, a: Alert)
    requires |s.queue| == max - 1 && 0 < max && s.threads == [Polling, Retrying(a)] && s.lost == []
    ensures Next(max, Next(max, Next(max, s, Deliver(0, a)), Put(0)), Retry(1)).lost == [a]
  {
    var t := Next(max, Next(max, s, Deliver(0, a)), Put(0));
    assert t.threads == [Polling, Retrying(a)] && |t.queue| == max;
  }

  /** If two starts race, two consumers can make the second put fail at any positive size, and the alert is lost. */
  lemma {:induction false} RacingStartsCanLose(max: int, a: Alert) returns (steps: seq<Step>)
    requires 0 < max
    ensures Run(max, steps).lost == [a]
  {
    steps := Fill(max, a, max);
    var s0 := Run(max, steps);
    var s3 := Next(max, Next(max, Next(max, s0, Deliver(1, a)), Put(1)), Drop(1));
    var s5 := Next(max, Next(max, s3, Deliver(0, a)), Put(0));
    SecondDrops(max, s0, a);
    FirstRefills(max, s3, a);
    hide Next, Run;
    RunSnoc(max, steps, Deliver(1, a));
    steps := steps + [Deliver(1, a)];
    RunSnoc(max, steps, Put(1));
    steps := steps + [Put(1)];
    RunSnoc(max, steps, Drop(1));
    steps := steps + [Drop(1)];
    RunSnoc(max, steps, Deliver(0, a));
    steps := steps + [Deliver(0, a)];
    RunSnoc(max, steps, Put(0));
    steps := steps + [Put(0)];
    RunSnoc(max, steps, Retry(1));
    steps := steps + [Retry(1)];
  }

  // ----- exactly when an alert can be lost

  lemma {:induction false} UnboundedLosesNothing(max: int, steps: seq<Step>)
    requires max <= 0
    ensures Run(max, steps).lost == []
  {
    if steps != [] {
      UnboundedLosesNothing(max, steps[..|steps| - 1]);
    }
  }

  /** No schedule loses an alert. Without `racing`, schedules have no racing starts. */
  ghost predicate NeverLoses(max: int, racing: bool) {
    forall steps :: (RacingStart in steps ==> racing) ==> Run(max, steps).lost == []
  }

  /** Schedules lose nothing exactly when starts cannot race or the queue is unbounded. */
  lemma {:induction false} LossIsExact(max: int, racing: bool)
    ensures NeverLoses(max, racing) <==> !racing || max <= 0
  {
    if !racing || max <= 0 {
      forall steps | RacingStart in steps ==> racing
        ensures Run(max, steps).lost == []
      {
        if max <= 0 {
          UnboundedLosesNothing(max, steps);
        } else {
          SerialStartsLoseNothing(max, steps);
        }
      }
    } else {
      var steps := RacingStartsCanLose(max, Alert("", ""));
      assert Run(max, steps).lost != [];
    }
  }
}
