/** What the network's records say, and exactly what the shipped rules decide about them. */
module Verdicts {
  import opened Basics
  import opened Dedup
  import opened Rules
  import opened Evaluator
  import opened Decisions
  import opened Assembly
  import opened Pipeline
  import opened RuleMeaning
  import Velocity
  import Device

  /** A delivery that the network forwards, with safe lateness and redeliveries within the time-to-live. */
  ghost predicate Regular(steps: seq<Step>, lateness: int, step: Step) {
    && lateness <= 41_000 && Forwards(steps, lateness, step)
    && Keyed(steps + [step]) && WithinTtl(Deliveries(steps + [step]))
  }

  /** The accepted transactions of the delivery's account in its minute and the `minutes` before, itself included. */
  ghost function Recent(steps: seq<Step>, lateness: int, step: Step, minutes: int): seq<RawTxn>
    requires step.Deliver?
  {
    From(AcceptedTxns(steps + [step], lateness, step.d.txn.account), step.d.txn.timestamp / 60_000 - minutes)
  }

  /** The widths of the four windows. */
  function Minutes(i: nat): int { if i == 0 then 1 else if i == 1 then 5 else if i == 2 then 60 else 1440 }

  /** The transactions in minute `first` or later. */
  function From(txns: seq<RawTxn>, first: int): seq<RawTxn> {
    if txns == [] then []
    else
      var n := |txns| - 1;
      From(txns[..n], first) + if first <= txns[n].timestamp / 60_000 then [txns[n]] else []
  }

  function Sum(txns: seq<RawTxn>): int { if txns == [] then 0 else Sum(txns[..|txns| - 1]) + txns[|txns| - 1].amount }

  lemma {:induction false} TallyIsSum(txns: seq<RawTxn>, first: int)
    ensures Velocity.Tally(EventsOf(txns), Velocity.InBuckets(first)) ==
            Velocity.Cell(|From(txns, first)|, Sum(From(txns, first)))
  {
    if txns != [] {
      var n := |txns| - 1;
      TallyIsSum(txns[..n], first);
      EventsOfSnoc(txns[..n], txns[n]);
      assert txns == txns[..n] + [txns[n]];
      Velocity.TallySnoc(EventsOf(txns[..n]), EventOf(txns[n]), Velocity.InBuckets(first));
      SumSnoc(From(txns[..n], first), txns[n]);
      assert From(txns, first) ==
             From(txns[..n], first) + if first <= txns[n].timestamp / 60_000 then [txns[n]] else [];
      assert From(txns[..n], first) + [] == From(txns[..n], first);
      hide Velocity.Tally, EventsOf, Sum, From;
    }
  }

  lemma {:induction false} SumSnoc(txns: seq<RawTxn>, last: RawTxn)
    ensures Sum(txns + [last]) == Sum(txns) + last.amount
  {
    assert (txns + [last])[..|txns|] == txns;
  }

  /** An amount in units of 1/10000, as a number. */
  function Units(unscaled: int): Value { Num(unscaled as real / 10000.0) }

  /** The device's live events before the delivery; none without a key. */
  ghost function Visits(steps: seq<Step>, lateness: int, step: Step): seq<Device.Event>
    requires step.Deliver?
  {
    if HasKey(step) then Device.Live(DeviceSteps(steps, lateness, step.d.txn.apiKey.value)) else []
  }

  predicate HasKey(step: Step)
    requires step.Deliver?
  {
    step.d.txn.apiKey.Some? && step.d.txn.apiKey.value != ""
  }

  /** What the network's record says under a key. */
  lemma {:induction false} EnrichedReads(f: Field, steps: seq<Step>, lateness: int, step: Step, now: int,
                                         version: string)
    requires step.Deliver?
    ensures var v, device := Windows(steps, lateness, step.d.txn), DeviceFields(steps, lateness, step.d.txn, step.geo);
            var expected := Recorded(f, step.d.txn, v, step.geo, device, now, version);
            Get(Enriched(steps, lateness, step, now, version), f) == if expected.Some? then expected.value else Null
  {
    hide Assemble, Windows, DeviceFields, Recorded;
    var v, device := Windows(steps, lateness, step.d.txn), DeviceFields(steps, lateness, step.d.txn, step.geo);
    ReadBack(f, step.d.txn, v, step.geo, device, now, version);
  }

  /** The velocity fields: counts and sums of the last 1, 5, 60 and 1440 minutes, and the counts are of distinct ids. */
  lemma {:induction false} VelocityFieldsMeaning(steps: seq<Step>, lateness: int, step: Step, now: int, version: string,
                                                 i: nat)
    requires Regular(steps, lateness, step) && i < 4
    ensures var rec, recent := Enriched(steps, lateness, step, now, version), Recent(steps, lateness, step, Minutes(i));
            && Get(rec, VelCount(i)) == Num(|recent| as real) && Get(rec, VelAmount(i)) == Units(Sum(recent))
            && DistinctTxns(recent)
  {
    assert step.Deliver?;
    hide Enriched, Windows, Recent, Regular, DeviceFields, DistinctTxns, Minutes, Sum, Recorded, Units;
    VelocityRecorded(i, step.d.txn, Windows(steps, lateness, step.d.txn), step.geo,
                     DeviceFields(steps, lateness, step.d.txn, step.geo), now, version);
    WindowsAreRecent(steps, lateness, step, i);
    RecentAreDistinct(steps, lateness, step, Minutes(i));
    EnrichedReads(VelCount(i), steps, lateness, step, now, version);
    EnrichedReads(VelAmount(i), steps, lateness, step, now, version);
  }

  lemma {:induction false} VelocityRecorded(i: nat, txn: RawTxn, v: seq<Velocity.Cell>, geo: Geo, device: Device.Fields,
                                            now: int, version: string)
    requires i < 4 && |v| == |Velocity.WINDOWS|
    ensures Recorded(VelCount(i), txn, v, geo, device, now, version) == Some(Num(v[i].count as real))
    ensures Recorded(VelAmount(i), txn, v, geo, device, now, version) == Some(Units(v[i].total))
  {
  }

  lemma {:induction false} WindowsAreRecent(steps: seq<Step>, lateness: int, step: Step, i: nat)
    requires Regular(steps, lateness, step) && i < 4
    ensures var recent := Recent(steps, lateness, step, Minutes(i));
            Windows(steps, lateness, step.d.txn)[i] == Velocity.Cell(|recent|, Sum(recent))
  {
    assert step.Deliver?;
    hide Windows, AcceptedTxns, Forwards, Keyed, WithinTtl, Deliveries, Velocity.Tally, EventsOf, Sum, Recent;
    hide Minutes, Velocity.Bucket;
    WindowsIncludeTheDelivery(steps, lateness, step, i);
    RecentTally(steps, lateness, step, i);
  }

  lemma {:induction false} RecentTally(steps: seq<Step>, lateness: int, step: Step, i: nat)
    requires step.Deliver? && i < |Velocity.WINDOWS|
    ensures var recent, txn := Recent(steps, lateness, step, Minutes(i)), step.d.txn;
            Velocity.Tally(EventsOf(AcceptedTxns(steps + [step], lateness, txn.account)),
                           Velocity.InBuckets(Velocity.Bucket(txn.timestamp) - Velocity.WINDOWS[i])) ==
            Velocity.Cell(|recent|, Sum(recent))
  {
    hide AcceptedTxns, Velocity.Tally, EventsOf, Sum, From, Minutes, Velocity.Bucket;
    FirstMinute(step.d.txn.timestamp, i);
    TallyIsSum(AcceptedTxns(steps + [step], lateness, step.d.txn.account), step.d.txn.timestamp / 60_000 - Minutes(i));
  }

  lemma {:induction false} RecentAreDistinct(steps: seq<Step>, lateness: int, step: Step, minutes: int)
    requires Regular(steps, lateness, step)
    ensures DistinctTxns(Recent(steps, lateness, step, minutes))
  {
    var account := step.d.txn.account;
    AcceptedTxnsAreDistinct(steps + [step], lateness, account);
    hide AcceptedTxns, Forwards, Keyed, WithinTtl, Deliveries, From, DistinctTxns;
    FromKeepsDistinct(AcceptedTxns(steps + [step], lateness, account), step.d.txn.timestamp / 60_000 - minutes);
  }

  lemma {:induction false} FirstMinute(timestamp: int, i: nat)
    requires i < 4
    ensures |Velocity.WINDOWS| == 4
    ensures Velocity.Bucket(timestamp) - Velocity.WINDOWS[i] == timestamp / 60_000 - Minutes(i)
  {
  }

  lemma {:induction false} FromKeepsDistinct(txns: seq<RawTxn>, first: int)
    requires DistinctTxns(txns)
    ensures DistinctTxns(From(txns, first)) && forall t | t in From(txns, first) :: t in txns
  {
    if txns != [] {
      var n := |txns| - 1;
      assert DistinctTxns(txns[..n]);
      FromKeepsDistinct(txns[..n], first);
      forall t | t in txns[..n]
        ensures t.id != txns[n].id
      {
        var k :| 0 <= k < n && txns[k] == t;
      }
    }
  }

  /** The device fields: the first live event, their number with this one, the preceding one, and novelty. */
  lemma {:induction false} DeviceFieldsMeaning(steps: seq<Step>, lateness: int, step: Step, now: int, version: string)
    requires step.Deliver?
    ensures var rec := Enriched(steps, lateness, step, now, version);
            var visits, keyed := Visits(steps, lateness, step), HasKey(step);
            && Get(rec, DeviceIsNew) == Flag(keyed && visits == [])
            && Get(rec, DeviceTxnCount) == (if keyed then Num((|visits| + 1) as real) else Null)
            && Get(rec, DeviceFirstSeen) ==
               (if !keyed then Null
                else if visits == [] then Num(step.d.txn.timestamp as real) else Num(visits[0].time as real))
            && Get(rec, DeviceKnownFraud) == (if keyed then Flag(false) else Null)
            && Get(rec, PrevTxnTimeMs) == (if visits == [] then Null else Num(visits[|visits| - 1].time as real))
            && Get(rec, PrevGeoCountry) ==
               (if visits == [] || visits[|visits| - 1].country.None? then Null
                else Text(visits[|visits| - 1].country.value))
  {
    hide Enriched, Windows, Visits, DeviceFields, HasKey;
    DeviceFieldsOf(steps, lateness, step);
    EnrichedReads(DeviceIsNew, steps, lateness, step, now, version);
    EnrichedReads(DeviceTxnCount, steps, lateness, step, now, version);
    EnrichedReads(DeviceFirstSeen, steps, lateness, step, now, version);
    EnrichedReads(DeviceKnownFraud, steps, lateness, step, now, version);
    EnrichedReads(PrevTxnTimeMs, steps, lateness, step, now, version);
    EnrichedReads(PrevGeoCountry, steps, lateness, step, now, version);
  }

  lemma {:induction false} DeviceFieldsOf(steps: seq<Step>, lateness: int, step: Step)
    requires step.Deliver?
    ensures var f, visits := DeviceFields(steps, lateness, step.d.txn, step.geo), Visits(steps, lateness, step);
            var last := |visits| - 1;
            if HasKey(step)
            then && f.txnCount == Some(|visits| + 1) && f.knownFraud == Some(false)
                 && f.firstSeen == Some(if visits == [] then step.d.txn.timestamp else visits[0].time)
                 && f.prevTime == (if visits == [] then None else Some(visits[last].time))
                 && f.prevCountry == (if visits == [] then None else visits[last].country)
            else visits == [] && f == Device.Fields(None, None, None, None, None)
  {
    var txn := step.d.txn;
    if HasKey(step) {
      hide Device.Live, DeviceSteps, Device.Run, Device.Updated;
      var e := Device.Event(txn.timestamp, step.geo.country);
      Device.EmittedFields(DeviceSteps(steps, lateness, txn.apiKey.value), e);
    }
  }

  lemma {:induction false} NoveltyAndNetwork(steps: seq<Step>, lateness: int, step: Step, now: int, version: string)
    requires step.Deliver?
    ensures var rec, networkClass := Enriched(steps, lateness, step, now, version), step.geo.networkClass;
            && Get(rec, DeviceIsNew) == Flag(HasKey(step) && Visits(steps, lateness, step) == [])
            && Get(rec, GeoNetworkClass) == if networkClass.Some? then Text(networkClass.value) else Null
  {
    hide Enriched, Windows, DeviceFields, Visits, HasKey;
    DeviceFieldsMeaning(steps, lateness, step, now, version);
    EnrichedReads(GeoNetworkClass, steps, lateness, step, now, version);
  }

  lemma {:induction false} AmountFieldsMeaning(steps: seq<Step>, lateness: int, step: Step, now: int, version: string)
    requires step.Deliver?
    ensures var rec := Enriched(steps, lateness, step, now, version);
            Get(rec, TxnAmount) == Get(rec, Amount) == Units(step.d.txn.amount)
  {
    hide Enriched, Windows, DeviceFields;
    EnrichedReads(TxnAmount, steps, lateness, step, now, version);
    EnrichedReads(Amount, steps, lateness, step, now, version);
  }

  /** The conditions under which the shipped rules match, in terms of what happened. */
  datatype Shipped = Shipped(burst: bool, spend: bool, busy: bool, dailySpend: bool, newDevicePurchase: bool,
                             newDeviceHosted: bool)

  /** More than 5 in one minute, 2000 in five, 10 in five, 10000 in a day, 500 from a new device, in 1/10000 units. */
  ghost function ShippedConditions(steps: seq<Step>, lateness: int, step: Step): Shipped
    requires step.Deliver?
  {
    var isNew := HasKey(step) && Visits(steps, lateness, step) == [];
    Shipped(|Recent(steps, lateness, step, 1)| > 5, Sum(Recent(steps, lateness, step, 5)) > 20_000_000,
            |Recent(steps, lateness, step, 5)| > 10, Sum(Recent(steps, lateness, step, 1440)) > 100_000_000,
            isNew && step.d.txn.amount > 5_000_000, isNew && step.geo.networkClass == Some("HOSTING"))
  }

  predicate IsCountRule(r: Rule, window: nat, threshold: nat) {
    && r.family == VelocityFamily
    && r.conditions.field == Some(VelCount(window)) && r.conditions.count == Some(Num(threshold as real))
  }

  predicate IsAmountRule(r: Rule, window: nat, threshold: nat) {
    && r.family == VelocityFamily && r.conditions.count.None?
    && r.conditions.field == Some(VelAmount(window)) && r.conditions.amount == Some(Readable(threshold as real))
  }

  predicate IsNewDeviceRule(r: Rule, amount: Option<Threshold>, networkClass: Option<Value>) {
    && r.family == NewDevice && r.conditions.deviceCount.None?
    && r.conditions.amount == amount && r.conditions.networkClass == networkClass
  }

  /** The conditions of the shipped rules, by position; four of them can never match. */
  ghost predicate AreShipped(rules: seq<Rule>) {
    && |rules| == 10
    && IsCountRule(rules[0], 0, 5) && IsAmountRule(rules[1], 1, 2000)
    && IsCountRule(rules[2], 1, 10) && IsAmountRule(rules[3], 3, 10000)
    && rules[4].family == ImpossibleTravel && rules[5].family == ImpossibleTravel
    && IsNewDeviceRule(rules[6], Some(Readable(500.0)), None)
    && rules[7].family == NewDevice && rules[7].conditions.amount.None? && rules[7].conditions.deviceCount.Some?
    && IsKnownFraudRule(rules[8])
    && IsNewDeviceRule(rules[9], None, Some(Text("HOSTING")))
  }

  lemma {:induction false} ShippedRulesAreShipped()
    ensures AreShipped(SHIPPED_RULES)
  {
  }

  lemma {:induction false} CountRule(r: Rule, rec: Txn, window: nat, threshold: nat, count: nat)
    requires IsCountRule(r, window, threshold) && Get(rec, VelCount(window)) == Num(count as real)
    ensures Evaluate(r, rec) == Verdict(count > threshold)
  {
    VelocityMeaning(rec, r.conditions);
    hide EvaluateVelocity;
  }

  lemma {:induction false} AmountRule(r: Rule, rec: Txn, window: nat, threshold: nat, unscaled: int)
    requires IsAmountRule(r, window, threshold) && Get(rec, VelAmount(window)) == Units(unscaled)
    ensures Evaluate(r, rec) == Verdict(unscaled > 10000 * threshold)
  {
    VelocityMeaning(rec, r.conditions);
    hide EvaluateVelocity;
  }

  lemma {:induction false} PurchaseRule(r: Rule, rec: Txn, isNew: bool, unscaled: int)
    requires IsNewDeviceRule(r, Some(Readable(500.0)), None)
    requires Get(rec, DeviceIsNew) == Flag(isNew) && Get(rec, TxnAmount) == Units(unscaled)
    ensures Evaluate(r, rec) == Verdict(isNew && unscaled > 5_000_000)
  {
    HighAmountMeaning(rec, r.conditions);
    hide EvaluateNewDevice;
  }

  lemma {:induction false} HostedRule(r: Rule, rec: Txn, isNew: bool, networkClass: Option<string>)
    requires IsNewDeviceRule(r, None, Some(Text("HOSTING"))) && Get(rec, DeviceIsNew) == Flag(isNew)
    requires Get(rec, GeoNetworkClass) == if networkClass.Some? then Text(networkClass.value) else Null
    ensures Evaluate(r, rec) == Verdict(isNew && networkClass == Some("HOSTING"))
  {
    NetworkMeaning(rec, r.conditions);
    hide EvaluateNewDevice;
  }

  lemma {:induction false} ShippedRulesMeaning(rules: seq<Rule>, steps: seq<Step>, lateness: int, step: Step, now: int,
                                               version: string)
    requires AreShipped(rules) && Regular(steps, lateness, step)
    ensures var rec, c := Enriched(steps, lateness, step, now, version), ShippedConditions(steps, lateness, step);
            && Evaluate(rules[0], rec) == Verdict(c.burst) && Evaluate(rules[1], rec) == Verdict(c.spend)
            && Evaluate(rules[2], rec) == Verdict(c.busy) && Evaluate(rules[3], rec) == Verdict(c.dailySpend)
            && Evaluate(rules[6], rec) == Verdict(c.newDevicePurchase)
            && Evaluate(rules[9], rec) == Verdict(c.newDeviceHosted)
            && (forall i | i in {4, 5, 7, 8} :: Evaluate(rules[i], rec) == Verdict(false))
  {
    hide Enriched, Recent, Visits, Sum, Regular, Evaluate, IsCountRule, IsAmountRule, IsNewDeviceRule, IsKnownFraudRule;
    VelocityRulesMeaning(rules, steps, lateness, step, now, version);
    NewDeviceRulesMeaning(rules, steps, lateness, step, now, version);
    SilentRulesMeaning(rules, steps, lateness, step, now, version);
  }

  lemma {:induction false} VelocityRulesMeaning(rules: seq<Rule>, steps: seq<Step>, lateness: int, step: Step, now: int,
                                                version: string)
    requires AreShipped(rules) && Regular(steps, lateness, step)
    ensures var rec, c := Enriched(steps, lateness, step, now, version), ShippedConditions(steps, lateness, step);
            && Evaluate(rules[0], rec) == Verdict(c.burst) && Evaluate(rules[1], rec) == Verdict(c.spend)
            && Evaluate(rules[2], rec) == Verdict(c.busy) && Evaluate(rules[3], rec) == Verdict(c.dailySpend)
  {
    assert step.Deliver?;
    hide Enriched, Recent, Visits, Sum, Regular, DistinctTxns, Evaluate, HasKey, Units;
    hide IsCountRule, IsAmountRule, IsNewDeviceRule, IsKnownFraudRule;
    var rec := Enriched(steps, lateness, step, now, version);
    VelocityFieldsMeaning(steps, lateness, step, now, version, 0);
    VelocityFieldsMeaning(steps, lateness, step, now, version, 1);
    VelocityFieldsMeaning(steps, lateness, step, now, version, 3);
    CountRule(rules[0], rec, 0, 5, |Recent(steps, lateness, step, 1)|);
    AmountRule(rules[1], rec, 1, 2000, Sum(Recent(steps, lateness, step, 5)));
    CountRule(rules[2], rec, 1, 10, |Recent(steps, lateness, step, 5)|);
    AmountRule(rules[3], rec, 3, 10000, Sum(Recent(steps, lateness, step, 1440)));
  }

  lemma {:induction false} NewDeviceRulesMeaning(rules: seq<Rule>, steps: seq<Step>, lateness: int, step: Step,
                                                 now: int, version: string)
    requires AreShipped(rules) && Regular(steps, lateness, step)
    ensures var rec, c := Enriched(steps, lateness, step, now, version), ShippedConditions(steps, lateness, step);
            && Evaluate(rules[6], rec) == Verdict(c.newDevicePurchase)
            && Evaluate(rules[9], rec) == Verdict(c.newDeviceHosted)
  {
    assert step.Deliver?;
    hide Recent, Visits, Sum, Windows, DeviceFields, Enriched, Regular, HasKey, Evaluate;
    hide IsCountRule, IsAmountRule, IsNewDeviceRule, IsKnownFraudRule;
    hide Units, Recorded;
    NoveltyAndNetwork(steps, lateness, step, now, version);
    AmountFieldsMeaning(steps, lateness, step, now, version);
    var rec := Enriched(steps, lateness, step, now, version);
    var isNew := HasKey(step) && Visits(steps, lateness, step) == [];
    PurchaseRule(rules[6], rec, isNew, step.d.txn.amount);
    HostedRule(rules[9], rec, isNew, step.geo.networkClass);
  }

  lemma {:induction false} SilentRulesMeaning(rules: seq<Rule>, steps: seq<Step>, lateness: int, step: Step, now: int,
                                              version: string)
    requires AreShipped(rules) && Regular(steps, lateness, step)
    ensures var rec := Enriched(steps, lateness, step, now, version);
            forall i | i in {4, 5, 7, 8} :: Evaluate(rules[i], rec) == Verdict(false)
  {
    hide Windows, DeviceFields, Assemble, Evaluate;
    var txn, rec := step.d.txn, Enriched(steps, lateness, step, now, version);
    AssembleIsAssembled(txn, Windows(steps, lateness, txn), step.geo, DeviceFields(steps, lateness, txn, step.geo), now,
                        version);
    hide Assembled, Regular;
    ImpossibleTravelNeverMatches(rec, rules[4]);
    ImpossibleTravelNeverMatches(rec, rules[5]);
    RapidNewDeviceNeverMatches(rec, rules[7]);
    KnownFraudNeverMatches(steps, lateness, step, now, version, rules[8]);
  }

  /** Exactly what the shipped rules, all active, decide about a forwarded delivery. */
  lemma {:induction false} ShippedDecision(steps: seq<Step>, lateness: int, step: Step, now: int, version: string)
    requires Regular(steps, lateness, step)
    ensures var c := ShippedConditions(steps, lateness, step);
            Judge(SHIPPED_RULES, Enriched(steps, lateness, step, now, version)) ==
            if c.burst || c.spend || c.newDevicePurchase || c.newDeviceHosted then Judgement(BLOCK, 0.8, Some(High))
            else if c.busy || c.dailySpend then Judgement(FLAG, 0.3, Some(Medium))
            else Judgement(ALLOW, 0.0, None)
  {
    var rec, c := Enriched(steps, lateness, step, now, version), ShippedConditions(steps, lateness, step);
    hide Enriched, ShippedConditions, Regular, Evaluate, Judge, Fires, AnyRaises, AreShipped, HasShippedShape;
    ShippedRulesAreShipped();
    ShippedRulesMeaning(SHIPPED_RULES, steps, lateness, step, now, version);
    ShippedShape();
    ShippedFire(SHIPPED_RULES, rec, c);
    JudgeByFiring(SHIPPED_RULES, rec);
  }

  /** The shipped rules are enabled and active, with the severities of the rule file. */
  ghost predicate HasShippedShape(rules: seq<Rule>) {
    && |rules| == 10
    && (forall i | 0 <= i < 10 :: rules[i].enabled && rules[i].mode == Active)
    && (forall i | 0 <= i < 10 ::
          rules[i].severity == [High, High, Medium, Medium, Critical, High, High, Medium, Critical, High][i])
  }

  lemma {:induction false} ShippedShape()
    ensures HasShippedShape(SHIPPED_RULES)
  {
  }

  lemma {:induction false} ShippedFire(rules: seq<Rule>, rec: Txn, c: Shipped)
    requires HasShippedShape(rules)
    requires Evaluate(rules[0], rec) == Verdict(c.burst) && Evaluate(rules[1], rec) == Verdict(c.spend)
    requires Evaluate(rules[2], rec) == Verdict(c.busy) && Evaluate(rules[3], rec) == Verdict(c.dailySpend)
    requires Evaluate(rules[6], rec) == Verdict(c.newDevicePurchase)
    requires Evaluate(rules[9], rec) == Verdict(c.newDeviceHosted)
    requires forall i | i in {4, 5, 7, 8} :: Evaluate(rules[i], rec) == Verdict(false)
    ensures !AnyRaises(rules, rec) && !Fires(rules, rec, Critical)
    ensures Fires(rules, rec, High) <==> c.burst || c.spend || c.newDevicePurchase || c.newDeviceHosted
    ensures Fires(rules, rec, Medium) <==>
            c.burst || c.spend || c.newDevicePurchase || c.newDeviceHosted || c.busy || c.dailySpend
    ensures Fires(rules, rec, Low) <==> Fires(rules, rec, Medium)
  {
    hide Evaluate, Fires, AnyRaises;
    var matched :=
      [c.burst, c.spend, c.busy, c.dailySpend, false, false, c.newDevicePurchase, false, false, c.newDeviceHosted];
    forall i: nat | i < 10
      ensures Evaluate(rules[i], rec) == Verdict(matched[i])
    {
      assert i in {4, 5, 7, 8} || i in {0, 1, 2, 3, 6, 9};
    }
    RulesFire(rules, rec, matched, High);
    RulesFire(rules, rec, matched, Medium);
    RulesFire(rules, rec, matched, Low);
    RulesFire(rules, rec, matched, Critical);
  }

  /** Active rules that do not raise fire when one that matches is severe enough. */
  lemma {:induction false} RulesFire(rules: seq<Rule>, rec: Txn, matched: seq<bool>, least: Severity)
    requires |rules| == |matched| && forall i | 0 <= i < |rules| :: rules[i].enabled && rules[i].mode == Active
    requires forall i | 0 <= i < |rules| :: Evaluate(rules[i], rec) == Verdict(matched[i])
    ensures !AnyRaises(rules, rec)
    ensures Fires(rules, rec, least) <==>
            exists i :: 0 <= i < |rules| && matched[i] && Rank(least) <= Rank(rules[i].severity)
  {
    hide Evaluate;
    if r :| r in rules && Hits(r, rec, Active) && Rank(least) <= Rank(r.severity) {
      var i :| 0 <= i < |rules| && rules[i] == r;
    }
    if i :| 0 <= i < |rules| && matched[i] && Rank(least) <= Rank(rules[i].severity) {
      assert rules[i] in rules;
    }
  }
}
