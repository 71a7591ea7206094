/**
 The buffered append sink: records are buffered, flushed after a second or when the buffer is full, deduplicated within
 a batch, and either appended, reported to the dead-letter log, or discarded when no table was loaded. Each write has an
 arbitrary outcome and each flush reads the clock again; both are parameters. Ghost logs keep every record and batch.
 */
module IcebergSink {
  import opened Basics

  datatype Record = Record(id: Option<string>, body: string)

  /** A missing id deduplicates as the empty string and is reported as unknown. */
  function DedupKey(r: Record): string { if r.id.Some? then r.id.value else "" }
  function ReportKey(r: Record): string { if r.id.Some? then r.id.value else "unknown" }

  // ----- first-wins deduplication

  predicate HasKey(records: seq<Record>, key: string) {
    exists j :: 0 <= j < |records| && DedupKey(records[j]) == key
  }

  function Dedup(records: seq<Record>): seq<Record> {
    if records == [] then []
    else
      var init, last := records[..|records| - 1], records[|records| - 1];
      Dedup(init) + if HasKey(init, DedupKey(last)) then [] else [last]
  }

  method Deduplicate(records: seq<Record>) returns (kept: seq<Record>)
    ensures kept == Dedup(records)
  {
    var seen: set<string> := {};
    kept := [];
    for i := 0 to |records|
      invariant kept == Dedup(records[..i])
      invariant forall key :: key in seen <==> HasKey(records[..i], key)
    {
      assert records[..i + 1][..i] == records[..i] && records[..i + 1][i] == records[i];
      if DedupKey(records[i]) !in seen {
        seen := seen + {DedupKey(records[i])};
        kept := kept + [records[i]];
      }
      HasKeySnoc(records[..i], records[i]);
      assert records[..i + 1] == records[..i] + [records[i]];
    }
    assert records[..|records|] == records;
  }

  lemma {:induction false} HasKeySnoc(records: seq<Record>, r: Record)
    ensures forall key :: HasKey(records + [r], key) <==> HasKey(records, key) || key == DedupKey(r)
  {
    forall key | HasKey(records, key) || key == DedupKey(r)
      ensures HasKey(records + [r], key)
    {
      if HasKey(records, key) {
        var j :| 0 <= j < |records| && DedupKey(records[j]) == key;
        assert (records + [r])[j] == records[j];
      } else {
        assert (records + [r])[|records|] == r;
      }
    }
  }

  predicate SeenBefore(records: seq<Record>, i: nat)
    requires i < |records|
  {
    exists j :: 0 <= j < i && DedupKey(records[j]) == DedupKey(records[i])
  }

  /** The positions of the first occurrences of each id. */
  function Firsts(records: seq<Record>): seq<nat> {
    if records == [] then []
    else
      var n := |records| - 1;
      Firsts(records[..n]) + if SeenBefore(records, n) then [] else [n]
  }

  lemma {:induction false} FirstsMeaning(records: seq<Record>)
    ensures var f := Firsts(records);
            && (forall i | 0 <= i < |f| :: f[i] < |records| && !SeenBefore(records, f[i]))
            && (forall i, j | 0 <= i < j < |f| :: f[i] < f[j])
            && (forall k: nat | k < |records| && !SeenBefore(records, k) :: k in f)
  {
    if records != [] {
      var n := |records| - 1;
      var init := records[..n];
      FirstsMeaning(init);
      assert forall k: nat | k < n :: SeenBefore(records, k) == SeenBefore(init, k);
    }
  }

  /** Deduplication keeps exactly the first occurrence of each id, in order. */
  lemma {:induction false} DedupKeepsFirsts(records: seq<Record>)
    ensures |Dedup(records)| == |Firsts(records)| <= |records|
    ensures forall i | 0 <= i < |Firsts(records)| ::
              Firsts(records)[i] < |records| && Dedup(records)[i] == records[Firsts(records)[i]]
    ensures records != [] ==> Dedup(records) != [] && Dedup(records)[0] == records[0]
  {
    if records != [] {
      var n := |records| - 1;
      DedupKeepsFirsts(records[..n]);
      assert SeenBefore(records, n) <==> HasKey(records[..n], DedupKey(records[n])) by {
        assert forall j | 0 <= j < n :: records[..n][j] == records[j];
      }
    }
  }

  function IdOf(r: Record): string {
    match r.id
    case Some(id) => id
    case None => ""
  }

  /** The first record, and all later ones whose transaction id did not occur before them. */
  ghost predicate IsFirstWins(kept: seq<Record>, records: seq<Record>) {
    exists f: seq<nat> ::
      |f| == |kept| && SelectsFirsts(f, records) && forall i | 0 <= i < |f| :: kept[i] == records[f[i]]
  }

  /** The positions, in order, of the records whose id, the empty one if missing, does not occur before. */
  ghost predicate SelectsFirsts(f: seq<nat>, records: seq<Record>) {
    && (forall i | 0 <= i < |f| :: f[i] < |records|)
    && (forall i, j | 0 <= i < j < |f| :: f[i] < f[j])
    && (forall k: nat | k < |records| :: k in f <==> forall j | 0 <= j < k :: IdOf(records[j]) != IdOf(records[k]))
  }

  /** Deduplication goes by the transaction id alone: the first record of each id is kept. */
  lemma {:induction false} DedupIsFirstWins(records: seq<Record>)
    ensures IsFirstWins(Dedup(records), records)
  {
    FirstsMeaning(records);
    DedupKeepsFirsts(records);
    var f := Firsts(records);
    forall k: nat | k < |records|
      ensures k in f <==> forall j | 0 <= j < k :: IdOf(records[j]) != IdOf(records[k])
    {
      assert k in f <==> !SeenBefore(records, k);
    }
    assert SelectsFirsts(f, records);
  }

  /** The ids that are left are pairwise distinct. */
  lemma {:induction false} DedupKeysAreDistinct(records: seq<Record>)
    ensures forall i, j | 0 <= i < j < |Dedup(records)| :: DedupKey(Dedup(records)[i]) != DedupKey(Dedup(records)[j])
  {
    FirstsMeaning(records);
    DedupKeepsFirsts(records);
    var f, d := Firsts(records), Dedup(records);
    forall i, j | 0 <= i < j < |d|
      ensures DedupKey(d[i]) != DedupKey(d[j])
    {
      assert !SeenBefore(records, f[j]) && f[i] < f[j];
    }
  }

  // ----- outcomes

  datatype FlushError = TimedOut | CircuitOpen | OsFailure | OtherFailure
  datatype Attempt = Appended | Failed(error: FlushError)

  /** What one flush meets: the clock it reads, and how its write ends. */
  datatype Outcome = Outcome(now: real, attempt: Attempt)

  datatype Reason = Timeout | CircuitIsOpen | CatalogUnavailable | FlushFailed

  function ClassifyFlushError(e: FlushError): Reason {
    match e
    case TimedOut => Timeout
    case CircuitOpen => CircuitIsOpen
    case OsFailure => CatalogUnavailable
    case OtherFailure => FlushFailed
  }

  datatype Report =
    | Success(rows: seq<Record>) | Dlq(reason: Reason, firstId: string, size: nat) | NoTable(rows: seq<Record>)

  datatype Trigger = Elapsed | Full | Closing
  datatype Arrival = Arrival(record: Record, at: real)

  /** One flush of a non-empty buffer: what it took, why it ran, what it met and reported, which hooks it called. */
  datatype Batch = Batch(arrivals: seq<Arrival>, trigger: Trigger, tableLoaded: bool, attempt: Attempt, report: Report,
                         overflowHook: bool, catalogHook: bool)

  function Records(arrivals: seq<Arrival>): (r: seq<Record>)
    ensures |r| == |arrivals| && forall i | 0 <= i < |r| :: r[i] == arrivals[i].record
  {
    seq(|arrivals|, i requires 0 <= i < |arrivals| => arrivals[i].record)
  }

  /** The dead-letter reason of each error. */
  predicate IsReasonOf(reason: Reason, e: FlushError) {
    && (e == TimedOut ==> reason == Timeout)
    && (e == CircuitOpen ==> reason == CircuitIsOpen)
    && (e == OsFailure ==> reason == CatalogUnavailable)
    && (e == OtherFailure ==> reason == FlushFailed)
  }

  /**
   A non-empty batch with exactly one report: no table, the rows appended, or a dead letter with the reason of the error
   that names the first record. The rows are those of the deduplicated batch.
   */
  ghost predicate Reported(b: Batch, bufferMax: int) {
    && b.arrivals != []
    && (b.overflowHook <==> bufferMax <= |b.arrivals|)
    && (b.catalogHook <==> b.tableLoaded && b.attempt == Failed(OsFailure))
    && (b.report.NoTable? <==> !b.tableLoaded)
    && (b.report.Success? <==> b.tableLoaded && b.attempt == Appended)
    && match b.report
       case Success(rows) => rows == Dedup(Records(b.arrivals))
       case NoTable(rows) => rows == Dedup(Records(b.arrivals))
       case Dlq(reason, firstId, size) =>
         && IsReasonOf(reason, b.attempt.error) && size == |Dedup(Records(b.arrivals))|
         && firstId == (if b.arrivals[0].record.id.Some? then b.arrivals[0].record.id.value else "unknown")
  }

  /** A batch as the triggers shape it, when a flush reads the clock at most `lag` after the arrival that causes it. */
  ghost predicate WellShaped(b: Batch, bufferMax: int, lag: real) {
    && |b.arrivals| <= bufferMax
    && (b.overflowHook <==> b.trigger == Full)
    && (forall i, j | 0 <= i <= j < |b.arrivals| :: 0.0 <= b.arrivals[j].at - b.arrivals[i].at < 1.0 + lag)
  }

  function Flatten(batches: seq<Batch>): seq<Arrival> {
    if batches == [] then [] else Flatten(batches[..|batches| - 1]) + batches[|batches| - 1].arrivals
  }

  lemma {:induction false} FlattenSnoc(batches: seq<Batch>, b: Batch)
    ensures Flatten(batches + [b]) == Flatten(batches) + b.arrivals
  {
    assert (batches + [b])[..|batches|] == batches;
  }

  /**
   The shape of what is buffered: in clock order, not older than the last flush by more than the lag, and within a
   second of that flush once there are two.
   */
  ghost predicate PendingShaped(pending: seq<Arrival>, lastFlush: real, clock: real, lag: real) {
    && 0.0 <= lag && lastFlush <= clock
    && (forall i | 0 <= i < |pending| :: lastFlush - lag <= pending[i].at <= clock)
    && (forall i, j | 0 <= i <= j < |pending| :: pending[i].at <= pending[j].at)
    && (2 <= |pending| ==> forall i | 0 <= i < |pending| :: pending[i].at < lastFlush + 1.0)
  }

  lemma {:induction false} AppendKeepsShape(pending: seq<Arrival>, lastFlush: real, clock: real, lag: real, a: Arrival)
    requires PendingShaped(pending, lastFlush, clock, lag) && lastFlush - lag <= a.at <= clock
    requires pending == [] || (pending[|pending| - 1].at <= a.at && a.at - lastFlush < 1.0)
    ensures PendingShaped(pending + [a], lastFlush, clock, lag)
  {
  }

  /** Records that share a flush arrived less than a second and the lag apart. */
  lemma {:induction false} PendingMakesShapedBatch(pending: seq<Arrival>, lastFlush: real, clock: real, lag: real)
    requires PendingShaped(pending, lastFlush, clock, lag)
    ensures forall i, j | 0 <= i <= j < |pending| :: 0.0 <= pending[j].at - pending[i].at < 1.0 + lag
  {
  }

  // ----- the sink on values

  datatype State = State(pending: seq<Arrival>, batches: seq<Batch>, lastFlush: real, clock: real)

  function MakeReport(records: seq<Record>, tableLoaded: bool, attempt: Attempt): Report
    requires records != []
  {
    if !tableLoaded then NoTable(Dedup(records))
    else if attempt.Appended? then Success(Dedup(records))
    else Dlq(ClassifyFlushError(attempt.error), ReportKey(records[0]), |Dedup(records)|)
  }

  function Flushed(s: State, bufferMax: int, tableLoaded: bool, o: Outcome, trigger: Trigger): State {
    if s.pending == [] then s
    else
      var report := MakeReport(Records(s.pending), tableLoaded, o.attempt);
      var b := Batch(s.pending, trigger, tableLoaded, o.attempt, report, bufferMax <= |s.pending|,
                     report.Dlq? && report.reason == CatalogUnavailable);
      State([], s.batches + [b], o.now, o.now)
  }

  /** The clock has been read for an arrival, and the time trigger has been tried. */
  function Timed(s: State, bufferMax: int, tableLoaded: bool, at: real, o: Outcome): State {
    if at - s.lastFlush >= 1.0 then Flushed(s.(clock := at), bufferMax, tableLoaded, o, Elapsed) else s.(clock := at)
  }

  function WithArrival(s: State, a: Arrival): State { s.(pending := s.pending + [a]) }

  function Invoked(s: State, bufferMax: int, tableLoaded: bool, a: Arrival, onElapsed: Outcome,
                   onFull: Outcome): State {
    var t := WithArrival(Timed(s, bufferMax, tableLoaded, a.at, onElapsed), a);
    if |t.pending| >= bufferMax then Flushed(t, bufferMax, tableLoaded, onFull, Full) else t
  }

  /**
   Exactly when an invocation flushes: first what is buffered, if the last flush was a second ago; then everything, if
   the record fills the buffer.
   */
  lemma {:induction false} TriggersAreExact(s: State, bufferMax: int, tableLoaded: bool, a: Arrival, onElapsed: Outcome,
                                            onFull: Outcome)
    ensures var t := Invoked(s, bufferMax, tableLoaded, a, onElapsed, onFull);
            var elapsed := s.pending != [] && s.lastFlush + 1.0 <= a.at;
            var rest := (if elapsed then [] else s.pending) + [a];
            var full, n := bufferMax <= |rest|, |s.batches|;
            && |t.batches| == n + (if elapsed then 1 else 0) + (if full then 1 else 0) && t.batches[..n] == s.batches
            && (elapsed ==> t.batches[n].arrivals == s.pending && t.batches[n].trigger == Elapsed)
            && (full ==> t.batches[|t.batches| - 1].arrivals == rest && t.batches[|t.batches| - 1].trigger == Full)
            && t.pending == (if full then [] else rest)
            && t.lastFlush == if full then onFull.now else if elapsed then onElapsed.now else s.lastFlush
  {
    hide MakeReport;
  }

  /** Every invoked record is, in order, in exactly one batch, reported exactly once, or still buffered. */
  ghost predicate Conserved(s: State, invoked: seq<Arrival>, bufferMax: int) {
    && invoked == Flatten(s.batches) + s.pending
    && forall b | b in s.batches :: Reported(b, bufferMax)
  }

  ghost predicate Shaped(s: State, bufferMax: int, lag: real) {
    && |s.pending| < bufferMax
    && (forall b | b in s.batches :: WellShaped(b, bufferMax, lag))
    && PendingShaped(s.pending, s.lastFlush, s.clock, lag)
  }

  /** One invocation's readings: the clock never runs backwards, and a time-triggered flush reads it within a lag. */
  predicate InOrder(clock: real, at: real, onElapsed: Outcome, onFull: Outcome, lag: real) {
    clock <= at <= onElapsed.now <= onFull.now && onElapsed.now - at <= lag
  }

  lemma {:induction false} FlushConserves(s: State, invoked: seq<Arrival>, bufferMax: int, tableLoaded: bool,
                                          o: Outcome, trigger: Trigger)
    requires Conserved(s, invoked, bufferMax)
    ensures Conserved(Flushed(s, bufferMax, tableLoaded, o, trigger), invoked, bufferMax)
  {
    if s.pending != [] {
      var t := Flushed(s, bufferMax, tableLoaded, o, trigger);
      var b := t.batches[|s.batches|];
      FlattenSnoc(s.batches, b);
      FlushIsReported(s, bufferMax, tableLoaded, o, trigger);
      assert t.batches == s.batches + [b] && b.arrivals == s.pending && t.pending == [];
      hide Reported, Flatten, MakeReport, Records, Flushed;
    }
  }

  lemma {:induction false} FlushIsReported(s: State, bufferMax: int, tableLoaded: bool, o: Outcome, trigger: Trigger)
    requires s.pending != []
    ensures Reported(Flushed(s, bufferMax, tableLoaded, o, trigger).batches[|s.batches|], bufferMax)
  {
    hide Dedup;
  }

  /** The state just after the append of an invocation. */
  lemma {:induction false} AppendConserves(s: State, invoked: seq<Arrival>, bufferMax: int, tableLoaded: bool,
                                           a: Arrival, onElapsed: Outcome)
    requires Conserved(s, invoked, bufferMax)
    ensures Conserved(WithArrival(Timed(s, bufferMax, tableLoaded, a.at, onElapsed), a), invoked + [a], bufferMax)
  {
    FlushConserves(s.(clock := a.at), invoked, bufferMax, tableLoaded, onElapsed, Elapsed);
    var s1 := Timed(s, bufferMax, tableLoaded, a.at, onElapsed);
    assert Conserved(s1, invoked, bufferMax);
    hide Flushed, Reported, Flatten, Timed;
    AppendAssoc(Flatten(s1.batches), s1.pending, [a]);
  }

  /** Whatever the writes do and whatever the clock says, an invocation loses and duplicates nothing. */
  lemma {:induction false} InvokeConserves(s: State, invoked: seq<Arrival>, bufferMax: int, tableLoaded: bool,
                                           a: Arrival, onElapsed: Outcome, onFull: Outcome)
    requires Conserved(s, invoked, bufferMax)
    ensures Conserved(Invoked(s, bufferMax, tableLoaded, a, onElapsed, onFull), invoked + [a], bufferMax)
  {
    hide Flushed, Timed, Conserved;
    AppendConserves(s, invoked, bufferMax, tableLoaded, a, onElapsed);
    var t := WithArrival(Timed(s, bufferMax, tableLoaded, a.at, onElapsed), a);
    FlushConserves(t, invoked + [a], bufferMax, tableLoaded, onFull, Full);
  }

  /** A flush keeps the shape of the batches when a full trigger means a full buffer and the other way round. */
  lemma {:induction false} FlushKeepsShape(s: State, bufferMax: int, tableLoaded: bool, o: Outcome, trigger: Trigger,
                                           lag: real)
    requires 1 <= bufferMax && (forall b | b in s.batches :: WellShaped(b, bufferMax, lag))
    requires PendingShaped(s.pending, s.lastFlush, s.clock, lag) && s.clock <= o.now
    requires |s.pending| <= bufferMax && (trigger == Full <==> |s.pending| == bufferMax)
    ensures var t := Flushed(s, bufferMax, tableLoaded, o, trigger); Shaped(t, bufferMax, lag) && t.pending == []
  {
    PendingMakesShapedBatch(s.pending, s.lastFlush, s.clock, lag);
  }

  /**
   With a clock that does not run backwards, an invocation keeps every batch and the buffer in shape. Without lag, that
   is with a clock held within each invocation, records of a batch arrived less than a second apart.
   */
  lemma {:induction false} InvokeKeepsShape(s: State, bufferMax: int, tableLoaded: bool, a: Arrival, onElapsed: Outcome,
                                            onFull: Outcome, lag: real)
    requires Shaped(s, bufferMax, lag) && InOrder(s.clock, a.at, onElapsed, onFull, lag)
    ensures Shaped(Invoked(s, bufferMax, tableLoaded, a, onElapsed, onFull), bufferMax, lag)
  {
    FlushKeepsShape(s.(clock := a.at), bufferMax, tableLoaded, onElapsed, Elapsed, lag);
    var s1 := Timed(s, bufferMax, tableLoaded, a.at, onElapsed);
    AppendKeepsShape(s1.pending, s1.lastFlush, s1.clock, lag, a);
    var t := WithArrival(s1, a);
    if |t.pending| >= bufferMax {
      FlushKeepsShape(t, bufferMax, tableLoaded, onFull, Full, lag);
    }
  }

  lemma {:induction false} CloseLeavesNothing(s: State, invoked: seq<Arrival>, bufferMax: int, tableLoaded: bool,
                                              o: Outcome)
    requires Conserved(s, invoked, bufferMax)
    ensures var t := Flushed(s, bufferMax, tableLoaded, o, Closing);
            && t.pending == [] && invoked == Flatten(t.batches) && Conserved(t, invoked, bufferMax)
            && (forall lag :: Shaped(s, bufferMax, lag) && s.clock <= o.now ==> Shaped(t, bufferMax, lag))
  {
    FlushConserves(s, invoked, bufferMax, tableLoaded, o, Closing);
    forall lag | Shaped(s, bufferMax, lag) && s.clock <= o.now
      ensures Shaped(Flushed(s, bufferMax, tableLoaded, o, Closing), bufferMax, lag)
    {
      FlushKeepsShape(s, bufferMax, tableLoaded, o, Closing, lag);
    }
  }

  // ----- exactly when the records of a batch lie within a second

  datatype Call = Invoke(a: Arrival, onElapsed: Outcome, onFull: Outcome) | Close(o: Outcome)

  function AfterCall(s: State, bufferMax: int, tableLoaded: bool, call: Call): State {
    match call
    case Invoke(a, onElapsed, onFull) => Invoked(s, bufferMax, tableLoaded, a, onElapsed, onFull)
    case Close(o) => Flushed(s, bufferMax, tableLoaded, o, Closing)
  }

  /** A sink that was made at `start`, after some calls. */
  function Run(start: real, bufferMax: int, tableLoaded: bool, calls: seq<Call>): State {
    if calls == [] then State([], [], start, start)
    else
      var n := |calls| - 1;
      AfterCall(Run(start, bufferMax, tableLoaded, calls[..n]), bufferMax, tableLoaded, calls[n])
  }

  predicate CallInOrder(clock: real, call: Call, lag: real) {
    match call
    case Invoke(a, onElapsed, onFull) => InOrder(clock, a.at, onElapsed, onFull, lag)
    case Close(o) => clock <= o.now
  }

  /** Over the whole run the clock never runs backwards, and time-triggered flushes read it within the lag. */
  predicate RunInOrder(start: real, bufferMax: int, tableLoaded: bool, calls: seq<Call>, lag: real) {
    calls == [] ||
    var n := |calls| - 1;
    && RunInOrder(start, bufferMax, tableLoaded, calls[..n], lag)
    && CallInOrder(Run(start, bufferMax, tableLoaded, calls[..n]).clock, calls[n], lag)
  }

  lemma {:induction false} RunIsShaped(start: real, bufferMax: int, tableLoaded: bool, calls: seq<Call>, lag: real)
    requires 1 <= bufferMax && 0.0 <= lag && RunInOrder(start, bufferMax, tableLoaded, calls, lag)
    ensures Shaped(Run(start, bufferMax, tableLoaded, calls), bufferMax, lag)
  {
    if calls != [] {
      var n := |calls| - 1;
      RunIsShaped(start, bufferMax, tableLoaded, calls[..n], lag);
      var s := Run(start, bufferMax, tableLoaded, calls[..n]);
      hide Flushed, Invoked;
      match calls[n]
      case Invoke(a, onElapsed, onFull) => InvokeKeepsShape(s, bufferMax, tableLoaded, a, onElapsed, onFull, lag);
      case Close(o) => FlushKeepsShape(s, bufferMax, tableLoaded, o, Closing, lag);
    }
  }

  ghost predicate Short(b: Batch) {
    forall i, j | 0 <= i <= j < |b.arrivals| :: b.arrivals[j].at - b.arrivals[i].at < 1.0
  }

  ghost predicate AllShort(bufferMax: int, lag: real) {
    forall start, tableLoaded, calls | RunInOrder(start, bufferMax, tableLoaded, calls, lag) ::
      forall b | b in Run(start, bufferMax, tableLoaded, calls).batches :: Short(b)
  }

  /**
   The records of every batch arrived less than a second apart, exactly when the clock is held within each invocation or
   there is no room for two records.
   */
  lemma {:induction false} ShortBatchesAreExact(bufferMax: int, lag: real)
    requires 1 <= bufferMax && 0.0 <= lag
    ensures AllShort(bufferMax, lag) <==> lag == 0.0 || bufferMax == 1
  {
    if lag == 0.0 || bufferMax == 1 {
      forall start, tableLoaded, calls | RunInOrder(start, bufferMax, tableLoaded, calls, lag)
        ensures forall b | b in Run(start, bufferMax, tableLoaded, calls).batches :: Short(b)
      {
        RunIsShaped(start, bufferMax, tableLoaded, calls, lag);
      }
    } else {
      LagStretchesABatch(Record(None, ""), bufferMax, lag);
      hide Run, RunInOrder;
      var calls := LaggingCalls(Record(None, ""), Min(lag, 2.0));
      var b :| b in Run(0.0, bufferMax, true, calls).batches && !Short(b);
    }
  }

  function Min(x: real, y: real): real { if x < y then x else y }

  /** A flush at 1 + lag restarts the second for the arrival at 1. */
  function LaggingCalls(r: Record, lag: real): seq<Call> {
    var first, late, last := Outcome(0.0, Appended), Outcome(1.0 + lag, Appended), Outcome(2.0 + lag / 2.0, Appended);
    [Invoke(Arrival(r, 0.0), first, first), Invoke(Arrival(r, 1.0), late, late),
     Invoke(Arrival(r, last.now), last, last), Close(last)]
  }

  lemma {:induction false} RunSnoc(start: real, bufferMax: int, tableLoaded: bool, calls: seq<Call>, call: Call,
                                   lag: real)
    ensures var s := Run(start, bufferMax, tableLoaded, calls);
            && Run(start, bufferMax, tableLoaded, calls + [call]) == AfterCall(s, bufferMax, tableLoaded, call)
            && (RunInOrder(start, bufferMax, tableLoaded, calls + [call], lag) <==>
                RunInOrder(start, bufferMax, tableLoaded, calls, lag) && CallInOrder(s.clock, call, lag))
  {
    assert (calls + [call])[..|calls|] == calls;
  }

  /** With any lag a concrete run puts records a second or more apart into one batch. */
  lemma {:induction false} LagStretchesABatch(r: Record, bufferMax: int, lag: real)
    requires 2 <= bufferMax && 0.0 < lag
    ensures var calls := LaggingCalls(r, Min(lag, 2.0));
            && RunInOrder(0.0, bufferMax, true, calls, lag)
            && exists b :: b in Run(0.0, bufferMax, true, calls).batches && !Short(b)
  {
    var d := Min(lag, 2.0);
    var calls := LaggingCalls(r, d);
    var c1, c2, c3 := [calls[0]], [calls[0], calls[1]], [calls[0], calls[1], calls[2]];
    RunSnoc(0.0, bufferMax, true, [], calls[0], lag);
    RunSnoc(0.0, bufferMax, true, c1, calls[1], lag);
    RunSnoc(0.0, bufferMax, true, c2, calls[2], lag);
    RunSnoc(0.0, bufferMax, true, c3, calls[3], lag);
    assert [] + [calls[0]] == c1 && c1 + [calls[1]] == c2 && c2 + [calls[2]] == c3 && c3 + [calls[3]] == calls;
    var s0 := State([], [], 0.0, 0.0);
    assert Run(0.0, bufferMax, true, []) == s0 && RunInOrder(0.0, bufferMax, true, [], lag);
    hide Run, RunInOrder;
    LaggingStates(r, bufferMax, d, s0, Run(0.0, bufferMax, true, c1), Run(0.0, bufferMax, true, c2),
                  Run(0.0, bufferMax, true, c3));
    SpansASecond(Run(0.0, bufferMax, true, calls).batches[1]);
  }

  lemma {:induction false} LaggingStates(r: Record, bufferMax: int, lag: real, s0: State, s1: State, s2: State,
                                         s3: State)
    requires 2 <= bufferMax && 0.0 < lag <= 2.0 && s0 == State([], [], 0.0, 0.0)
    requires var calls := LaggingCalls(r, lag);
             && s1 == AfterCall(s0, bufferMax, true, calls[0]) && s2 == AfterCall(s1, bufferMax, true, calls[1])
             && s3 == AfterCall(s2, bufferMax, true, calls[2])
    ensures s1.clock == 0.0 && s2.clock == 1.0 + lag && s3.clock == 2.0 + lag / 2.0
    ensures var s4 := AfterCall(s3, bufferMax, true, LaggingCalls(r, lag)[3]);
            |s4.batches| == 2 && s4.batches[1].arrivals == [Arrival(r, 1.0), Arrival(r, 2.0 + lag / 2.0)]
  {
    hide MakeReport;
    assert s1 == State([Arrival(r, 0.0)], [], 0.0, 0.0);
    assert s2.pending == [Arrival(r, 1.0)] && |s2.batches| == 1;
    var stretched := [Arrival(r, 1.0), Arrival(r, 2.0 + lag / 2.0)];
    assert if bufferMax == 2 then |s3.batches| == 2 && s3.batches[1].arrivals == stretched && s3.pending == []
           else s3.pending == stretched && |s3.batches| == 1;
  }

  lemma {:induction false} SpansASecond(b: Batch)
    requires |b.arrivals| == 2 && b.arrivals[1].at - b.arrivals[0].at >= 1.0
    ensures !Short(b)
  {
  }

  // ----- what a run reports

  function ArrivalsOf(calls: seq<Call>): seq<Arrival> {
    if calls == [] then []
    else
      var n := |calls| - 1;
      ArrivalsOf(calls[..n]) + if calls[n].Invoke? then [calls[n].a] else []
  }

  /** The call has a flush with this trigger, and its write ends so. */
  predicate Meets(call: Call, trigger: Trigger, attempt: Attempt) {
    match trigger
    case Elapsed => call.Invoke? && call.onElapsed.attempt == attempt
    case Full => call.Invoke? && call.onFull.attempt == attempt
    case Closing => call.Close? && call.o.attempt == attempt
  }

  /** The batch is about the table the sink has and the end of a write that one of the calls met. */
  ghost predicate Faithful(b: Batch, tableLoaded: bool, calls: seq<Call>) {
    b.tableLoaded == tableLoaded && exists call :: call in calls && Meets(call, b.trigger, b.attempt)
  }

  /**
   Over every run of invocations and closes, whatever the clock and the writes do: every invoked record is, in order, in
   one batch or buffered; and every batch is reported as the table and the end of its own write demand.
   */
  lemma {:induction false} RunIsReported(start: real, bufferMax: int, tableLoaded: bool, calls: seq<Call>)
    ensures var s := Run(start, bufferMax, tableLoaded, calls);
            && Conserved(s, ArrivalsOf(calls), bufferMax)
            && forall b | b in s.batches :: Faithful(b, tableLoaded, calls)
  {
    if calls != [] {
      var n := |calls| - 1;
      RunIsReported(start, bufferMax, tableLoaded, calls[..n]);
      var s := Run(start, bufferMax, tableLoaded, calls[..n]);
      CallIsFaithful(s, bufferMax, tableLoaded, calls[n]);
      forall b | Faithful(b, tableLoaded, calls[..n]) || Faithful(b, tableLoaded, [calls[n]])
        ensures Faithful(b, tableLoaded, calls)
      {
        FaithfulGrows(b, tableLoaded, calls);
      }
      hide Flushed, Timed, Conserved, Faithful;
      match calls[n]
      case Invoke(a, onElapsed, onFull) =>
        InvokeConserves(s, ArrivalsOf(calls[..n]), bufferMax, tableLoaded, a, onElapsed, onFull);
      case Close(o) =>
        FlushConserves(s, ArrivalsOf(calls[..n]), bufferMax, tableLoaded, o, Closing);
    }
  }

  lemma {:induction false} FaithfulGrows(b: Batch, tableLoaded: bool, calls: seq<Call>)
    requires calls != []
    requires Faithful(b, tableLoaded, calls[..|calls| - 1]) || Faithful(b, tableLoaded, [calls[|calls| - 1]])
    ensures Faithful(b, tableLoaded, calls)
  {
  }

  lemma {:induction false} CallIsFaithful(s: State, bufferMax: int, tableLoaded: bool, call: Call)
    ensures forall b | b in AfterCall(s, bufferMax, tableLoaded, call).batches ::
              b in s.batches || Faithful(b, tableLoaded, [call])
  {
    hide MakeReport;
    assert call in [call];
    assert forall trigger, attempt | Meets(call, trigger, attempt) ::
        exists c :: c in [call] && Meets(c, trigger, attempt);
  }

  /** If all writes of a run over a table end in the same error, every batch is a dead letter with its reason. */
  lemma {:induction false} FailuresAreDeadLetters(start: real, bufferMax: int, calls: seq<Call>, e: FlushError)
    requires forall call, trigger, attempt | call in calls && Meets(call, trigger, attempt) :: attempt == Failed(e)
    ensures forall b | b in Run(start, bufferMax, true, calls).batches ::
              b.report.Dlq? && IsReasonOf(b.report.reason, e)
  {
    RunIsReported(start, bufferMax, true, calls);
  }

  // ----- the sink in place

  class Sink {
    const bufferMax: int
    var buffer: seq<Record>
    var lastFlush: real
    var tableLoaded: bool
    ghost var invoked: seq<Arrival>
    ghost var model: State

    ghost predicate Valid()
      reads this
    {
      && buffer == Records(model.pending) && lastFlush == model.lastFlush
      && Conserved(model, invoked, bufferMax)
    }

    constructor (bufferMax: int, now: real)
      ensures Valid() && this.bufferMax == bufferMax && invoked == [] && !tableLoaded
      ensures model == State([], [], now, now)
      ensures forall lag | 0.0 <= lag && 1 <= bufferMax :: Shaped(model, bufferMax, lag)
    {
      this.bufferMax := bufferMax;
      buffer, lastFlush, tableLoaded := [], now, false;
      invoked, model := [], State([], [], now, now);
    }

    method Open(loaded: bool)
      requires Valid()
      modifies this`tableLoaded
      ensures Valid() && tableLoaded == loaded
    {
      tableLoaded := loaded;
    }

    /** Deduplicates and writes the buffered batch, and makes its report. */
    method WriteBatch(attempt: Attempt) returns (report: Report, catalogHook: bool)
      requires buffer != []
      ensures report == MakeReport(buffer, tableLoaded, attempt)
      ensures catalogHook <==> report.Dlq? && report.reason == CatalogUnavailable
    {
      var rows := Deduplicate(buffer);
      DedupKeepsFirsts(buffer);
      var firstId := ReportKey(rows[0]);
      catalogHook := false;
      if !tableLoaded {
        report := NoTable(rows);
      } else if attempt.Appended? {
        report := Success(rows);
      } else {
        var reason := ClassifyFlushError(attempt.error);
        catalogHook := reason == CatalogUnavailable;
        report := Dlq(reason, firstId, |rows|);
      }
    }

    /** Flushes a non-empty buffer: one report, and the buffer is empty afterwards whatever happened. */
    method Flush(o: Outcome, ghost trigger: Trigger)
        returns (report: Option<Report>, catalogHook: bool, overflowHook: bool)
      requires Valid()
      modifies this`buffer, this`lastFlush, this`model
      ensures Valid() && buffer == []
      ensures model == Flushed(old(model), bufferMax, tableLoaded, o, trigger)
      ensures report.None? <==> old(buffer) == []
      ensures report.Some? ==> model.batches == old(model.batches) +
                                 [Batch(old(model.pending), trigger, tableLoaded, o.attempt, report.value, overflowHook,
                                        catalogHook)]
    {
      hide Conserved, MakeReport;
      report, catalogHook, overflowHook := None, false, false;
      if buffer == [] {
        return;
      }
      FlushConserves(model, invoked, bufferMax, tableLoaded, o, trigger);
      lastFlush := o.now;
      var made;
      made, catalogHook := WriteBatch(o.attempt);
      report := Some(made);
      overflowHook := |buffer| >= bufferMax;
      model := Flushed(model, bufferMax, tableLoaded, o, trigger);
      buffer := [];
    }

    /** Adds one record: first the time trigger, then the append, then the size trigger. */
    method Invoke(record: Record, now: real, onElapsed: Outcome, onFull: Outcome)
      requires Valid()
      modifies this
      ensures Valid() && tableLoaded == old(tableLoaded) && invoked == old(invoked) + [Arrival(record, now)]
      ensures model == Invoked(old(model), bufferMax, tableLoaded, Arrival(record, now), onElapsed, onFull)
      ensures forall lag |
                old(Shaped(model, bufferMax, lag)) && InOrder(old(model.clock), now, onElapsed, onFull, lag) ::
                Shaped(model, bufferMax, lag)
    {
      hide Conserved, Shaped, Flushed;
      ghost var a := Arrival(record, now);
      AppendConserves(model, invoked, bufferMax, tableLoaded, a, onElapsed);
      forall lag | Shaped(model, bufferMax, lag) && InOrder(model.clock, now, onElapsed, onFull, lag)
        ensures Shaped(Invoked(model, bufferMax, tableLoaded, a, onElapsed, onFull), bufferMax, lag)
      {
        InvokeKeepsShape(model, bufferMax, tableLoaded, a, onElapsed, onFull, lag);
      }
      model := model.(clock := now);
      ClockIsIdle(old(model), invoked, bufferMax, now);
      if now - lastFlush >= 1.0 {
        var _, _, _ := Flush(onElapsed, Elapsed);
      }
      buffer := buffer + [record];
      model := WithArrival(model, a);
      invoked := invoked + [a];
      if |buffer| >= bufferMax {
        var _, _, _ := Flush(onFull, Full);
      }
    }

    lemma {:induction false} ClockIsIdle(s: State, log: seq<Arrival>, max: int, now: real)
      ensures Conserved(s.(clock := now), log, max) <==> Conserved(s, log, max)
    {
    }

    /** The shutdown flush leaves nothing behind. */
    method Close(o: Outcome)
      requires Valid()
      modifies this
      ensures Valid() && buffer == [] && invoked == old(invoked) == Flatten(model.batches)
      ensures forall lag | old(Shaped(model, bufferMax, lag)) && old(model.clock) <= o.now ::
                Shaped(model, bufferMax, lag)
    {
      hide Conserved, Shaped, Flushed;
      CloseLeavesNothing(model, invoked, bufferMax, tableLoaded, o);
      var _, _, _ := Flush(o, Closing);
    }
  }

  // ----- counting

  /** Rows appended, rows reported to the dead-letter log, rows discarded for want of a table, duplicates dropped. */
  datatype Counts = Counts(succeeded: nat, dlq: nat, discarded: nat, duplicates: nat)

  ghost function Count(b: Batch): (c: Counts)
    requires |Dedup(Records(b.arrivals))| <= |b.arrivals|
    ensures (b.report.Success? || c.succeeded == 0) && (b.report.Dlq? || c.dlq == 0)
    ensures b.report.NoTable? || c.discarded == 0
  {
    var dropped := |b.arrivals| - |Dedup(Records(b.arrivals))|;
    match b.report
    case Success(rows) => Counts(|rows|, 0, 0, dropped)
    case Dlq(_, _, size) => Counts(0, size, 0, dropped)
    case NoTable(rows) => Counts(0, 0, |rows|, dropped)
  }

  ghost function Tally(batches: seq<Batch>): Counts
    requires forall b | b in batches :: |Dedup(Records(b.arrivals))| <= |b.arrivals|
  {
    if batches == [] then Counts(0, 0, 0, 0)
    else
      var n := |batches| - 1;
      var rest, last := Tally(batches[..n]), Count(batches[n]);
      Counts(rest.succeeded + last.succeeded, rest.dlq + last.dlq, rest.discarded + last.discarded,
             rest.duplicates + last.duplicates)
  }

  /** Records in = rows appended + rows reported + rows discarded + duplicates dropped, over all batches. */
  lemma {:induction false} BatchesConserveRecords(batches: seq<Batch>, bufferMax: int)
    requires forall b | b in batches :: Reported(b, bufferMax)
    ensures forall b | b in batches :: |Dedup(Records(b.arrivals))| <= |b.arrivals|
    ensures var c := Tally(batches); |Flatten(batches)| == c.succeeded + c.dlq + c.discarded + c.duplicates
  {
    forall b | b in batches
      ensures |Dedup(Records(b.arrivals))| <= |b.arrivals|
    {
      DedupKeepsFirsts(Records(b.arrivals));
    }
    if batches != [] {
      var n := |batches| - 1;
      BatchesConserveRecords(batches[..n], bufferMax);
      assert batches[n] in batches;
    }
  }

  /** In every reachable state of a sink: the invoked records are all accounted for, the buffered ones included. */
  lemma {:induction false} SinkConservation(sink: Sink)
    requires sink.Valid()
    ensures forall b | b in sink.model.batches :: |Dedup(Records(b.arrivals))| <= |b.arrivals|
    ensures var c := Tally(sink.model.batches);
            |sink.invoked| == c.succeeded + c.dlq + c.duplicates + c.discarded + |sink.buffer|
  {
    BatchesConserveRecords(sink.model.batches, sink.bufferMax);
  }
}
