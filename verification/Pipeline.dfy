/**
 The enrichment job as a network of keyed operators: deduplication by transaction id, velocity by account, device
 profile by API key, then record assembly. One watermark reaches all of them, and each key of an operator sees its own
 single-key run: the steps of the network that reach that key.
 */
module Pipeline {
  import opened Basics
  import opened Dedup
  import opened Assembly
  import opened Rules
  import Velocity
  import VelocityTheorems
  import Device

  datatype Step = Deliver(d: Delivery<RawTxn>, geo: Geo) | Watermark(to: int)

  function Deliveries(steps: seq<Step>): seq<Delivery<RawTxn>> {
    if steps == [] then []
    else
      var n := |steps| - 1;
      Deliveries(steps[..n]) + if steps[n].Deliver? then [steps[n].d] else []
  }

  function CurrentWatermark(steps: seq<Step>): Option<int> {
    if steps == [] then None
    else
      var n := |steps| - 1;
      var w := CurrentWatermark(steps[..n]);
      if steps[n].Watermark? && (w.None? || w.value < steps[n].to) then Some(steps[n].to) else w
  }

  predicate IsUnique(steps: seq<Step>, step: Step) { step.Deliver? && Passes(Seen(Deliveries(steps)), step.d) }

  /** The velocity operator lets the delivery through: it is unique and not too late. */
  predicate Forwards(steps: seq<Step>, lateness: int, step: Step) {
    IsUnique(steps, step) && Velocity.Accepts(CurrentWatermark(steps), lateness, step.d.txn.timestamp)
  }

  /** What the velocity state of one account gets to see. */
  function AccountSteps(steps: seq<Step>, account: string): seq<Velocity.Step> {
    if steps == [] then []
    else
      var init, step := steps[..|steps| - 1], steps[|steps| - 1];
      var rest := AccountSteps(init, account);
      match step
      case Watermark(to) => rest + [Velocity.Advance(to)]
      case Deliver(d, _) =>
        if IsUnique(init, step) && d.txn.account == account then rest + [Velocity.Arrive(EventOf(d.txn))] else rest
  }

  /** What the device state of one API key gets to see. */
  function DeviceSteps(steps: seq<Step>, lateness: int, key: string): seq<Device.Step> {
    if steps == [] then []
    else
      var init, step := steps[..|steps| - 1], steps[|steps| - 1];
      var rest := DeviceSteps(init, lateness, key);
      match step
      case Watermark(to) => rest + [Device.Advance(to)]
      case Deliver(d, geo) =>
        if Forwards(init, lateness, step) && d.txn.apiKey == Some(key) && key != ""
        then rest + [Device.Arrive(Device.Event(d.txn.timestamp, geo.country))] else rest
  }

  /** The account's transactions that the velocity operator accepted. */
  function AcceptedTxns(steps: seq<Step>, lateness: int, account: string): seq<RawTxn> {
    if steps == [] then []
    else
      var init, step := steps[..|steps| - 1], steps[|steps| - 1];
      AcceptedTxns(init, lateness, account) +
      if Forwards(init, lateness, step) && step.d.txn.account == account then [step.d.txn] else []
  }

  function EventsOf(txns: seq<RawTxn>): (events: seq<Velocity.Event>)
    ensures |events| == |txns| && forall i | 0 <= i < |txns| :: events[i] == EventOf(txns[i])
  {
    seq(|txns|, i requires 0 <= i < |txns| => EventOf(txns[i]))
  }

  lemma {:induction false} Snoc(steps: seq<Step>, lateness: int, step: Step)
    ensures (steps + [step])[..|steps|] == steps
    ensures Deliveries(steps + [step]) == Deliveries(steps) + if step.Deliver? then [step.d] else []
    ensures var w := CurrentWatermark(steps);
            CurrentWatermark(steps + [step]) ==
            if step.Watermark? && (w.None? || w.value < step.to) then Some(step.to) else w
  {
  }

  /** The device fields that go with a forwarded delivery. */
  function DeviceFields(steps: seq<Step>, lateness: int, txn: RawTxn, geo: Geo): Device.Fields {
    if txn.apiKey.None? || txn.apiKey.value == "" then Device.NULL_FIELDS
    else
      var profile := Device.Run(DeviceSteps(steps, lateness, txn.apiKey.value)).profile;
      Device.FieldsOf(profile, Device.Updated(profile, Device.Event(txn.timestamp, geo.country)))
  }

  lemma {:induction false} AccountSnoc(steps: seq<Step>, lateness: int, step: Step, account: string)
    ensures var before, after := Velocity.Run(AccountSteps(steps, account), lateness),
                                 Velocity.Run(AccountSteps(steps + [step], account), lateness);
            match step
            case Watermark(to) => after == Velocity.Next(before, lateness, Velocity.Advance(to))
            case Deliver(d, _) =>
              after == if IsUnique(steps, step) && d.txn.account == account
                       then Velocity.Next(before, lateness, Velocity.Arrive(EventOf(d.txn))) else before
  {
    Snoc(steps, lateness, step);
    var rest := AccountSteps(steps, account);
    match step
    case Watermark(to) => Velocity.RunSnoc(rest, lateness, Velocity.Advance(to));
    case Deliver(d, _) => Velocity.RunSnoc(rest, lateness, Velocity.Arrive(EventOf(d.txn)));
  }

  lemma {:induction false} DeviceSnoc(steps: seq<Step>, lateness: int, step: Step, key: string)
    ensures var before, after := Device.Run(DeviceSteps(steps, lateness, key)),
                                 Device.Run(DeviceSteps(steps + [step], lateness, key));
            match step
            case Watermark(to) => after == Device.Next(before, Device.Advance(to))
            case Deliver(d, geo) =>
              after == if Forwards(steps, lateness, step) && d.txn.apiKey == Some(key) && key != ""
                       then Device.Next(before, Device.Arrive(Device.Event(d.txn.timestamp, geo.country))) else before
  {
    Snoc(steps, lateness, step);
    var rest := DeviceSteps(steps, lateness, key);
    match step
    case Watermark(to) => Device.RunSnoc(rest, Device.Advance(to));
    case Deliver(d, geo) => Device.RunSnoc(rest, Device.Arrive(Device.Event(d.txn.timestamp, geo.country)));
  }

  lemma {:induction false} AccountWatermark(steps: seq<Step>, lateness: int, account: string)
    ensures Velocity.Run(AccountSteps(steps, account), lateness).watermark == CurrentWatermark(steps)
  {
    assert CurrentWatermark([]) == None;
    if steps != [] {
      hide Velocity.Run, AccountSteps, IsUnique, CurrentWatermark, Velocity.Evicted, Velocity.Put;
      var n := |steps| - 1;
      AccountWatermark(steps[..n], lateness, account);
      assert steps == steps[..n] + [steps[n]];
      AccountSnoc(steps[..n], lateness, steps[n], account);
      Snoc(steps[..n], lateness, steps[n]);
    }
  }

  lemma {:induction false} DeviceWatermark(steps: seq<Step>, lateness: int, key: string)
    ensures Device.Run(DeviceSteps(steps, lateness, key)).watermark == CurrentWatermark(steps)
  {
    assert CurrentWatermark([]) == None;
    if steps != [] {
      hide Device.Run, DeviceSteps, Forwards, CurrentWatermark, Device.Clears;
      var n := |steps| - 1;
      DeviceWatermark(steps[..n], lateness, key);
      assert steps == steps[..n] + [steps[n]];
      DeviceSnoc(steps[..n], lateness, steps[n], key);
      Snoc(steps[..n], lateness, steps[n]);
    }
  }

  /** Every key of both operators sees the network's watermark. */
  lemma {:induction false} WatermarksAgree(steps: seq<Step>, lateness: int, account: string, key: string)
    ensures Velocity.Run(AccountSteps(steps, account), lateness).watermark == CurrentWatermark(steps)
    ensures Device.Run(DeviceSteps(steps, lateness, key)).watermark == CurrentWatermark(steps)
  {
    AccountWatermark(steps, lateness, account);
    DeviceWatermark(steps, lateness, key);
  }

  /** The account's accepted log in the network is the accepted log of its single-key run. */
  lemma {:induction false} AcceptedLogsAgree(steps: seq<Step>, lateness: int, account: string)
    ensures EventsOf(AcceptedTxns(steps, lateness, account)) ==
            Velocity.Accepted(AccountSteps(steps, account), lateness)
  {
    if steps != [] {
      var n := |steps| - 1;
      var init, step := steps[..n], steps[n];
      AcceptedLogsAgree(init, lateness, account);
      WatermarksAgree(init, lateness, account, "");
      match step
      case Watermark(to) => Velocity.RunSnoc(AccountSteps(init, account), lateness, Velocity.Advance(to));
      case Deliver(d, _) =>
        Velocity.RunSnoc(AccountSteps(init, account), lateness, Velocity.Arrive(EventOf(d.txn)));
        assert EventsOf(AcceptedTxns(init, lateness, account) + [d.txn]) ==
               EventsOf(AcceptedTxns(init, lateness, account)) + [EventOf(d.txn)];
    }
  }

  // ----- redeliveries are absorbed before they are counted

  /** Deliveries carry the id of their transaction. */
  ghost predicate Keyed(steps: seq<Step>) {
    forall s | s in steps && s.Deliver? :: s.d.id == s.d.txn.id
  }

  ghost predicate DistinctTxns(txns: seq<RawTxn>) {
    forall i, j | 0 <= i < j < |txns| :: txns[i].id != txns[j].id
  }

  lemma {:induction false} AcceptedWasDelivered(steps: seq<Step>, lateness: int, account: string,
                                                txn: RawTxn) returns (k: nat)
    requires Keyed(steps) && txn in AcceptedTxns(steps, lateness, account)
    ensures k < |Deliveries(steps)| && Deliveries(steps)[k].id == txn.id
  {
    var n := |steps| - 1;
    if txn in AcceptedTxns(steps[..n], lateness, account) {
      k := AcceptedWasDelivered(steps[..n], lateness, account, txn);
    } else {
      k := |Deliveries(steps)| - 1;
      assert steps[n] in steps;
    }
  }

  lemma {:induction false} PrefixWithinTtl(steps: seq<Step>)
    requires steps != [] && WithinTtl(Deliveries(steps)) && Keyed(steps)
    ensures WithinTtl(Deliveries(steps[..|steps| - 1])) && Keyed(steps[..|steps| - 1])
  {
    var ds, init := Deliveries(steps), Deliveries(steps[..|steps| - 1]);
    assert init == ds[..|init|];
    assert forall i | 0 <= i < |init| :: init[i] == ds[i];
  }

  /** A delivery that passes deduplication within the time-to-live is the first of its id. */
  lemma {:induction false} UniqueIsFirst(steps: seq<Step>, step: Step)
    requires step.Deliver? && IsUnique(steps, step) && WithinTtl(Deliveries(steps) + [step.d])
    ensures forall k | 0 <= k < |Deliveries(steps)| :: Deliveries(steps)[k].id != step.d.id
  {
    var ds := Deliveries(steps);
    var all := ds + [step.d];
    assert all[|ds|] == step.d && forall j | 0 <= j < |ds| :: all[j] == ds[j];
    if step.d.id in Seen(ds) {
      var w := SeenHasWriter(ds, step.d.id);
      assert false;
    }
    forall k | 0 <= k < |ds|
      ensures ds[k].id != step.d.id
    {
      DeliveredIsSeen(ds, k);
    }
  }

  lemma {:induction false} AcceptedTxnsAreDistinct(steps: seq<Step>, lateness: int, account: string)
    requires Keyed(steps) && WithinTtl(Deliveries(steps))
    ensures DistinctTxns(AcceptedTxns(steps, lateness, account))
  {
    if steps != [] {
      var n := |steps| - 1;
      PrefixWithinTtl(steps);
      AcceptedTxnsAreDistinct(steps[..n], lateness, account);
      if Forwards(steps[..n], lateness, steps[n]) {
        assert steps[n] in steps;
        UniqueIsFirst(steps[..n], steps[n]);
        forall t | t in AcceptedTxns(steps[..n], lateness, account)
          ensures t.id != steps[n].d.txn.id
        {
          var k := AcceptedWasDelivered(steps[..n], lateness, account, t);
        }
      }
    }
  }

  ghost function IdsFrom(txns: seq<RawTxn>, cutoff: int): set<string> {
    set t | t in txns && cutoff <= Velocity.Bucket(t.timestamp) :: t.id
  }

  lemma {:induction false} IdsFromSnoc(txns: seq<RawTxn>, last: RawTxn, cutoff: int)
    ensures IdsFrom(txns + [last], cutoff) ==
            IdsFrom(txns, cutoff) + if cutoff <= Velocity.Bucket(last.timestamp) then {last.id} else {}
  {
  }

  lemma {:induction false} EventsOfSnoc(txns: seq<RawTxn>, last: RawTxn)
    ensures EventsOf(txns + [last]) == EventsOf(txns) + [EventOf(last)]
  {
  }

  lemma {:induction false} TallyCountsIds(txns: seq<RawTxn>, cutoff: int)
    requires DistinctTxns(txns)
    ensures Velocity.Tally(EventsOf(txns), Velocity.InBuckets(cutoff)).count == |IdsFrom(txns, cutoff)|
  {
    NoIdsFrom(cutoff);
    if txns != [] {
      var n := |txns| - 1;
      var init, last := txns[..n], txns[n];
      assert txns == init + [last];
      FreshId(init, last, cutoff);
      hide IdsFrom, EventsOf, Velocity.Tally, DistinctTxns;
      TallyCountsIds(init, cutoff);
      EventsOfSnoc(init, last);
      Velocity.TallySnoc(EventsOf(init), EventOf(last), Velocity.InBuckets(cutoff));
      IdsFromSnoc(init, last, cutoff);
    }
  }

  lemma {:induction false} NoIdsFrom(cutoff: int)
    ensures IdsFrom([], cutoff) == {}
  {
  }

  lemma {:induction false} FreshId(txns: seq<RawTxn>, last: RawTxn, cutoff: int)
    requires DistinctTxns(txns + [last])
    ensures DistinctTxns(txns) && last.id !in IdsFrom(txns, cutoff)
  {
    var all := txns + [last];
    forall t | t in txns
      ensures t.id != last.id
    {
      var i :| 0 <= i < |txns| && txns[i] == t;
      assert all[i] == t && all[|txns|] == last;
    }
    forall i, j | 0 <= i < j < |txns|
      ensures txns[i].id != txns[j].id
    {
      assert all[i] == txns[i] && all[j] == txns[j];
    }
  }

  /** The velocity windows that go with a forwarded delivery. */
  ghost function Windows(steps: seq<Step>, lateness: int, txn: RawTxn): (v: seq<Velocity.Cell>)
    ensures |v| == |Velocity.WINDOWS|
  {
    VelocityTheorems.Answer(AccountSteps(steps, txn.account), lateness, EventOf(txn))
  }

  lemma {:induction false} ScanAt(log: seq<Velocity.Event>, b: int, i: nat)
    requires i < |Velocity.WINDOWS|
    ensures Velocity.Scan(log, b)[i] == Velocity.Tally(log, Velocity.InBuckets(b - Velocity.WINDOWS[i]))
  {
    assert i == 0 || i == 1 || i == 2 || i == 3;
  }

  lemma {:induction false} WindowsAreTallies(steps: seq<Step>, lateness: int, step: Step, i: nat)
    requires lateness <= Velocity.MAX_SAFE_LATENESS && i < |Velocity.WINDOWS| && Forwards(steps, lateness, step)
    ensures var txn := step.d.txn;
            var all := AcceptedTxns(steps, lateness, txn.account) + [txn];
            Windows(steps, lateness, txn)[i] ==
            Velocity.Tally(EventsOf(all), Velocity.InBuckets(Velocity.Bucket(txn.timestamp) - Velocity.WINDOWS[i]))
  {
    hide AccountSteps, AcceptedTxns, CurrentWatermark, Velocity.Run, Velocity.Accepted, Velocity.Scan, Velocity.Tally;
    hide VelocityTheorems.Answer;
    var txn := step.d.txn;
    var accepted := AcceptedTxns(steps, lateness, txn.account);
    WatermarksAgree(steps, lateness, txn.account, "");
    AcceptedLogsAgree(steps, lateness, txn.account);
    VelocityTheorems.EvictionIsInvisible(AccountSteps(steps, txn.account), lateness, EventOf(txn));
    assert EventsOf(accepted + [txn]) == EventsOf(accepted) + [EventOf(txn)];
    ScanAt(EventsOf(accepted + [txn]), Velocity.Bucket(txn.timestamp), i);
  }

  /** The delivery counts itself: the windows are tallies of what is accepted once it has been. */
  lemma {:induction false} WindowsIncludeTheDelivery(steps: seq<Step>, lateness: int, step: Step, i: nat)
    requires lateness <= Velocity.MAX_SAFE_LATENESS && i < |Velocity.WINDOWS| && Forwards(steps, lateness, step)
    ensures var txn := step.d.txn;
            Windows(steps, lateness, txn)[i] ==
            Velocity.Tally(EventsOf(AcceptedTxns(steps + [step], lateness, txn.account)),
                           Velocity.InBuckets(Velocity.Bucket(txn.timestamp) - Velocity.WINDOWS[i]))
  {
    assert step.Deliver?;
    hide Windows, AcceptedTxns, EventsOf, Velocity.Bucket, Velocity.Tally, Forwards;
    AcceptedSnoc(steps, lateness, step, step.d.txn.account);
    WindowsAreTallies(steps, lateness, step, i);
  }

  /**
   At-least-once delivery is absorbed. When every redelivery comes within the time-to-live, each count equals the
   number of distinct ids of the account that the velocity operator accepted from the window's first bucket on, the
   current one included, however often each was delivered.
   */
  lemma {:induction false} CountsAreDistinctIds(steps: seq<Step>, lateness: int, step: Step, i: nat)
    requires lateness <= Velocity.MAX_SAFE_LATENESS && i < |Velocity.WINDOWS|
    requires Forwards(steps, lateness, step) && Keyed(steps + [step]) && WithinTtl(Deliveries(steps + [step]))
    ensures var txn := step.d.txn;
            var ids := IdsFrom(AcceptedTxns(steps + [step], lateness, txn.account),
                               Velocity.Bucket(txn.timestamp) - Velocity.WINDOWS[i]);
            Windows(steps, lateness, txn)[i].count == |ids|
  {
    var account, cutoff := step.d.txn.account, Velocity.Bucket(step.d.txn.timestamp) - Velocity.WINDOWS[i];
    var after := AcceptedTxns(steps + [step], lateness, account);
    assert Windows(steps, lateness, step.d.txn)[i] == Velocity.Tally(EventsOf(after), Velocity.InBuckets(cutoff)) by {
      hide Windows, AcceptedTxns, EventsOf, Velocity.Bucket, Velocity.Tally, Forwards, Keyed, WithinTtl;
      WindowsIncludeTheDelivery(steps, lateness, step, i);
    }
    assert Velocity.Tally(EventsOf(after), Velocity.InBuckets(cutoff)).count == |IdsFrom(after, cutoff)| by {
      hide AcceptedTxns, EventsOf, Velocity.Bucket, Velocity.Tally, Forwards, Keyed, WithinTtl;
      AcceptedCountsIds(steps + [step], lateness, account, cutoff);
    }
    hide *;
  }

  /** The count of the window is the number of distinct ids, for the redeliveries that come within the time-to-live. */
  ghost predicate CountsIds(steps: seq<Step>, lateness: int, step: Step, i: nat)
    requires step.Deliver? && i < |Velocity.WINDOWS|
  {
    var txn := step.d.txn;
    var from := Velocity.Bucket(txn.timestamp) - Velocity.WINDOWS[i];
    Windows(steps, lateness, txn)[i].count == |IdsFrom(AcceptedTxns(steps + [step], lateness, txn.account), from)|
  }

  ghost predicate AllCountIds(lateness: int) {
    forall steps, step, i: nat |
      i < |Velocity.WINDOWS| && Forwards(steps, lateness, step) && Keyed(steps + [step])
      && WithinTtl(Deliveries(steps + [step])) ::
      CountsIds(steps, lateness, step, i)
  }

  lemma {:induction false} AcceptedCountsIds(steps: seq<Step>, lateness: int, account: string, cutoff: int)
    requires Keyed(steps) && WithinTtl(Deliveries(steps))
    ensures Velocity.Tally(EventsOf(AcceptedTxns(steps, lateness, account)), Velocity.InBuckets(cutoff)).count ==
            |IdsFrom(AcceptedTxns(steps, lateness, account), cutoff)|
  {
    AcceptedTxnsAreDistinct(steps, lateness, account);
    hide *;
    TallyCountsIds(AcceptedTxns(steps, lateness, account), cutoff);
  }

  lemma {:induction false} AcceptedSnoc(steps: seq<Step>, lateness: int, step: Step, account: string)
    ensures AcceptedTxns(steps + [step], lateness, account) ==
            AcceptedTxns(steps, lateness, account) +
            if Forwards(steps, lateness, step) && step.d.txn.account == account then [step.d.txn] else []
  {
    Snoc(steps, lateness, step);
  }

  // ----- beyond the safe lateness a count misses an id

  const GEO := Geo(None, None, None, None)

  /** A first delivery of a transaction of one account. */
  function First(id: string, e: Velocity.Event): Step {
    var txn := RawTxn(id, "", "", e.amount, "", 0, 0, "", "", "", "", None, "", None, None, "", e.time);
    Deliver(Delivery(id, 0, txn), GEO)
  }

  /** A fresh id passes and reaches the account. */
  lemma {:induction false} FirstReaches(steps: seq<Step>, id: string, e: Velocity.Event)
    requires forall k | 0 <= k < |Deliveries(steps)| :: Deliveries(steps)[k].id != id
    ensures IsUnique(steps, First(id, e))
    ensures Deliveries(steps + [First(id, e)]) == Deliveries(steps) + [First(id, e).d]
    ensures AccountSteps(steps + [First(id, e)], "") == AccountSteps(steps, "") + [Velocity.Arrive(e)]
  {
    Snoc(steps, 0, First(id, e));
    if id in Seen(Deliveries(steps)) {
      var k := SeenHasWriter(Deliveries(steps), id);
      assert false;
    }
    assert EventOf(First(id, e).d.txn) == e;
  }

  const OLD_EVENT := Velocity.Event(Velocity.MINUTE - 1, 0)
  const NEXT_EVENT := Velocity.Event(Velocity.MINUTE, 0)
  const LATE_EVENT := Velocity.Event(1441 * Velocity.MINUTE - 1, 0)

  const OLD := First("1", OLD_EVENT)
  const NEIGHBOUR := First("2", NEXT_EVENT)
  const LATE := First("3", LATE_EVENT)
  const LATE_TRACE: seq<Step> := [OLD, NEIGHBOUR, Watermark(Velocity.MINUTE + Velocity.RETENTION)]

  lemma {:induction false} NeighboursReach()
    ensures AccountSteps([OLD, NEIGHBOUR], "") == [Velocity.Arrive(OLD_EVENT), Velocity.Arrive(NEXT_EVENT)]
    ensures Deliveries([OLD, NEIGHBOUR]) == [OLD.d, NEIGHBOUR.d]
  {
    assert Deliveries([]) == [] && AccountSteps([], "") == [];
    hide Deliveries, AccountSteps, IsUnique;
    FirstReaches([], "1", OLD_EVENT);
    assert [] + [OLD] == [OLD] && [OLD] + [NEIGHBOUR] == [OLD, NEIGHBOUR];
    FirstReaches([OLD], "2", NEXT_EVENT);
  }

  lemma {:induction false} WatermarkReaches(steps: seq<Step>, to: int, account: string)
    ensures AccountSteps(steps + [Watermark(to)], account) == AccountSteps(steps, account) + [Velocity.Advance(to)]
    ensures Deliveries(steps + [Watermark(to)]) == Deliveries(steps)
  {
    Snoc(steps, 0, Watermark(to));
  }

  lemma {:induction false} LateTraceReaches()
    ensures AccountSteps(LATE_TRACE, "") == VelocityTheorems.LateRun(0)
    ensures Deliveries(LATE_TRACE) == [OLD.d, NEIGHBOUR.d]
    ensures IsUnique(LATE_TRACE, LATE)
  {
    hide Deliveries, AccountSteps, IsUnique;
    NeighboursReach();
    WatermarkReaches([OLD, NEIGHBOUR], Velocity.MINUTE + Velocity.RETENTION, "");
    assert [OLD, NEIGHBOUR] + [Watermark(Velocity.MINUTE + Velocity.RETENTION)] == LATE_TRACE;
    FirstReaches(LATE_TRACE, "3", LATE_EVENT);
  }

  lemma {:induction false} LateTraceAccepts(lateness: int)
    requires Velocity.MAX_SAFE_LATENESS < lateness
    ensures Forwards(LATE_TRACE, lateness, LATE)
    ensures Windows(LATE_TRACE, lateness, LATE.d.txn)[3].count == 2
    ensures Velocity.Tally(EventsOf(AcceptedTxns(LATE_TRACE + [LATE], lateness, "")), Velocity.InBuckets(0)).count == 3
  {
    var late := EventOf(LATE.d.txn);
    LateTraceReaches();
    VelocityTheorems.LateEventIsMiscounted(lateness, 0, late);
    WatermarksAgree(LATE_TRACE, lateness, "", "");
    AcceptedLogsAgree(LATE_TRACE, lateness, "");
    AcceptedSnoc(LATE_TRACE, lateness, LATE, "");
    hide AccountSteps, AcceptedTxns, CurrentWatermark, IsUnique, Velocity.Run, Velocity.Accepted, Velocity.Tally;
    hide VelocityTheorems.Answer, VelocityTheorems.LateRun;
    EventsOfSnoc(AcceptedTxns(LATE_TRACE, lateness, ""), LATE.d.txn);
  }

  lemma {:induction false} LateTraceIsKeyed()
    ensures Keyed(LATE_TRACE + [LATE]) && WithinTtl(Deliveries(LATE_TRACE + [LATE]))
  {
    LateTraceReaches();
    Snoc(LATE_TRACE, 0, LATE);
    hide Deliveries;
  }

  /** Three distinct ids, of which the widest window counts two. */
  lemma {:induction false} LateIdIsMissed(lateness: int)
    requires Velocity.MAX_SAFE_LATENESS < lateness
    ensures !AllCountIds(lateness)
  {
    LateTraceIsKeyed();
    LateTraceAccepts(lateness);
    AcceptedCountsIds(LATE_TRACE + [LATE], lateness, "", 0);
    LateBucket();
    hide Windows, Forwards, Keyed, WithinTtl, Deliveries, AcceptedTxns, IdsFrom, EventsOf, AllCountIds;
    hide Velocity.Tally, Velocity.Bucket;
    assert !CountsIds(LATE_TRACE, lateness, LATE, 3);
    hide CountsIds;
    OneMissedIsEnough(LATE_TRACE, lateness, LATE, 3);
  }

  lemma {:induction false} LateBucket()
    ensures LATE.Deliver? && LATE.d.txn.account == "" && Velocity.Bucket(LATE.d.txn.timestamp) == 1440
    ensures Velocity.WINDOWS[3] == 1440
  {
  }

  lemma {:induction false} OneMissedIsEnough(steps: seq<Step>, lateness: int, step: Step, i: nat)
    requires i < |Velocity.WINDOWS| && Forwards(steps, lateness, step) && Keyed(steps + [step])
    requires WithinTtl(Deliveries(steps + [step])) && !CountsIds(steps, lateness, step, i)
    ensures !AllCountIds(lateness)
  {
    hide Forwards, Keyed, WithinTtl, Deliveries, CountsIds;
  }

  /** With redeliveries within the time-to-live, every count is a number of ids exactly up to the safe lateness. */
  lemma {:induction false} IdCountsAreExact(lateness: int)
    ensures AllCountIds(lateness) <==> lateness <= Velocity.MAX_SAFE_LATENESS
  {
    if lateness <= Velocity.MAX_SAFE_LATENESS {
      forall steps, step, i: nat |
        i < |Velocity.WINDOWS| && Forwards(steps, lateness, step) && Keyed(steps + [step])
        && WithinTtl(Deliveries(steps + [step]))
        ensures CountsIds(steps, lateness, step, i)
      {
        CountsAreDistinctIds(steps, lateness, step, i);
      }
    } else {
      LateIdIsMissed(lateness);
    }
  }

  /** The device fields of a forwarded delivery flag a new device exactly when no event of the key is live. */
  lemma {:induction false} NewDeviceIsFlaggedExactly(steps: seq<Step>, lateness: int, txn: RawTxn, geo: Geo)
    requires txn.apiKey.Some? && txn.apiKey.value != ""
    ensures Device.IsNew(DeviceFields(steps, lateness, txn, geo)) <==>
            Device.Live(DeviceSteps(steps, lateness, txn.apiKey.value)) == []
  {
    Device.EmittedFields(DeviceSteps(steps, lateness, txn.apiKey.value), Device.Event(txn.timestamp, geo.country));
  }

  // ----- decisions over the whole network

  /** The record that the network assembles for a forwarded delivery. */
  ghost function Enriched(steps: seq<Step>, lateness: int, step: Step, now: int, version: string): Txn
    requires step.Deliver?
  {
    var txn := step.d.txn;
    Assemble(txn, Windows(steps, lateness, txn), step.geo, DeviceFields(steps, lateness, txn, step.geo), now, version)
  }

  /** No device is ever marked as known fraud, so no known-fraud rule matches what the network assembles. */
  lemma {:induction false} KnownFraudNeverMatches(steps: seq<Step>, lateness: int, step: Step, now: int,
                                                  version: string, r: Rule)
    requires step.Deliver? && IsKnownFraudRule(r)
    ensures Evaluate(r, Enriched(steps, lateness, step, now, version)) == Verdict(false)
  {
    var txn := step.d.txn;
    var device := DeviceFields(steps, lateness, txn, step.geo);
    if txn.apiKey.Some? && txn.apiKey.value != "" {
      var e := Device.Event(txn.timestamp, step.geo.country);
      Device.EmittedFields(DeviceSteps(steps, lateness, txn.apiKey.value), e);
    }
    assert device.knownFraud != Some(true);
    KnownFraudIsTheDevices(txn, Windows(steps, lateness, txn), step.geo, device, now, version, r);
    hide DeviceFields, Windows, Assemble, Evaluate;
  }

  /**
   Two traces of the network, in one of which the velocity operator accepted at least the other's events of the account,
   with non-negative amounts; everything else may differ. If both forward the same transaction with the same device
   fields, the same rules never judge it lower after the richer trace.
   */
  lemma {:induction false} NetworkDecisionsAreMonotone(rules: seq<Rule>, few: seq<Step>, many: seq<Step>, lateness: int,
                                                       step: Step, now: int, version: string)
    requires lateness <= Velocity.MAX_SAFE_LATENESS && Forwards(few, lateness, step) && Forwards(many, lateness, step)
    requires var small := EventsOf(AcceptedTxns(few, lateness, step.d.txn.account));
             var large := EventsOf(AcceptedTxns(many, lateness, step.d.txn.account));
             multiset(small) <= multiset(large) && VelocityTheorems.NonNegative(large)
    requires DeviceFields(few, lateness, step.d.txn, step.geo) == DeviceFields(many, lateness, step.d.txn, step.geo)
    ensures NeverLower(rules, Enriched(few, lateness, step, now, version), Enriched(many, lateness, step, now, version))
  {
    var txn := step.d.txn;
    AcceptedLogsAgree(few, lateness, txn.account);
    AcceptedLogsAgree(many, lateness, txn.account);
    WatermarksAgree(few, lateness, txn.account, "");
    WatermarksAgree(many, lateness, txn.account, "");
    hide AccountSteps, AcceptedTxns, DeviceFields, CurrentWatermark, IsUnique, Velocity.Run, Velocity.Accepted;
    hide Assemble, NeverLower;
    var c := Context(txn, step.geo, DeviceFields(few, lateness, txn, step.geo), now, version);
    DecisionsAreMonotoneInHistory(rules, c, lateness, AccountSteps(few, txn.account), AccountSteps(many, txn.account));
  }
}
