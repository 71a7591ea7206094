/** The enriched record, what the rules see of it, and how the verdict moves with the account's history. */
module Assembly {
  import opened Basics
  import opened Rules
  import opened Evaluator
  import opened Decisions
  import Velocity
  import VelocityTheorems
  import Device

  /** A transaction as its stream record carries it: `timestamp` is the record's, `eventTime` a field of the payload. */
  datatype RawTxn = RawTxn(id: string, account: string, merchant: string, amount: int, currency: string, eventTime: int,
                           processingTime: int, channel: string, cardBin: string, cardLast4: string, subnet: string,
                           apiKey: Option<string>, oauthScope: string, geoLat: Option<real>, geoLon: Option<real>,
                           maskingLibVersion: string, timestamp: int)

  datatype Geo = Geo(country: Option<string>, city: Option<string>, networkClass: Option<string>,
                     confidence: Option<real>)

  function OptText(o: Option<string>): Value { if o.Some? then Text(o.value) else Null }
  function OptReal(o: Option<real>): Value { if o.Some? then Num(o.value) else Null }
  function OptInt(o: Option<int>): Value { if o.Some? then Num(o.value as real) else Null }
  function OptFlag(o: Option<bool>): Value { if o.Some? then Flag(o.value) else Null }

  /** A decimal with four places, from its unscaled integer. */
  function Money(unscaled: int): Value { Num(unscaled as real / 10000.0) }

  function Max(a: int, b: int): int { if a < b then b else a }

  function TxnPart(txn: RawTxn): Txn {
    map[TransactionId := Text(txn.id), AccountId := Text(txn.account), MerchantId := Text(txn.merchant),
        Amount := Money(txn.amount), Currency := Text(txn.currency), EventTime := Num(txn.eventTime as real),
        ProcessingTime := Num(txn.processingTime as real), Channel := Text(txn.channel), CardBin := Text(txn.cardBin),
        CardLast4 := Text(txn.cardLast4), CallerIpSubnet := Text(txn.subnet), ApiKeyId := OptText(txn.apiKey),
        OauthScope := Text(txn.oauthScope), GeoLat := OptReal(txn.geoLat), GeoLon := OptReal(txn.geoLon),
        MaskingLibVersion := Text(txn.maskingLibVersion)]
  }

  function VelocityPart(v: seq<Velocity.Cell>): Txn
    requires |v| == |Velocity.WINDOWS|
  {
    map[VelCount(0) := Num(v[0].count as real), VelAmount(0) := Money(v[0].total),
        VelCount(1) := Num(v[1].count as real), VelAmount(1) := Money(v[1].total),
        VelCount(2) := Num(v[2].count as real), VelAmount(2) := Money(v[2].total),
        VelCount(3) := Num(v[3].count as real), VelAmount(3) := Money(v[3].total)]
  }

  function GeoPart(geo: Geo): Txn {
    map[GeoCountry := OptText(geo.country), GeoCity := OptText(geo.city), GeoNetworkClass := OptText(geo.networkClass),
        GeoConfidence := OptReal(geo.confidence)]
  }

  function DevicePart(device: Device.Fields): Txn {
    map[DeviceFirstSeen := OptInt(device.firstSeen), DeviceTxnCount := OptInt(device.txnCount),
        DeviceKnownFraud := OptFlag(device.knownFraud), PrevGeoCountry := OptText(device.prevCountry),
        PrevTxnTimeMs := OptInt(device.prevTime), DeviceIsNew := Flag(Device.IsNew(device))]
  }

  function StampPart(txn: RawTxn, now: int, version: string): Txn {
    map[TxnAmount := Money(txn.amount), EnrichmentTime := Num(now as real),
        EnrichmentLatencyMs := Num(Max(0, now - txn.processingTime) as real), ProcessorVersion := Text(version),
        SchemaVersion := Text("1")]
  }

  function Assemble(txn: RawTxn, v: seq<Velocity.Cell>, geo: Geo, device: Device.Fields, now: int, version: string): Txn
    requires |v| == |Velocity.WINDOWS|
  {
    TxnPart(txn) + VelocityPart(v) + (GeoPart(geo) + DevicePart(device) + StampPart(txn, now, version))
  }

  /** The facts about assembled records that the rules turn on. */
  ghost predicate Assembled(rec: Txn) {
    && DeviceCount24h !in rec && TxnTimeMs !in rec
    && (forall i | 0 <= i < 4 :: Get(rec, VelCount(i)).Num? && Get(rec, VelAmount(i)).Num?)
    && (forall i | 4 <= i :: VelCount(i) !in rec && VelAmount(i) !in rec)
    && Get(rec, Amount).Num? && Get(rec, TxnAmount).Num?
    && Get(rec, DeviceIsNew).Flag?
  }

  /** What an assembled record says under a key, and which keys it has; four windows, narrowest first. */
  function Recorded(f: Field, txn: RawTxn, v: seq<Velocity.Cell>, geo: Geo, device: Device.Fields, now: int,
                    version: string): Option<Value>
    requires |v| == |Velocity.WINDOWS|
  {
    match f
    case TransactionId => Some(Text(txn.id))
    case AccountId => Some(Text(txn.account))
    case MerchantId => Some(Text(txn.merchant))
    case Amount => Some(Num(txn.amount as real / 10000.0))
    case Currency => Some(Text(txn.currency))
    case EventTime => Some(Num(txn.eventTime as real))
    case ProcessingTime => Some(Num(txn.processingTime as real))
    case Channel => Some(Text(txn.channel))
    case CardBin => Some(Text(txn.cardBin))
    case CardLast4 => Some(Text(txn.cardLast4))
    case CallerIpSubnet => Some(Text(txn.subnet))
    case ApiKeyId => Some(if txn.apiKey.Some? then Text(txn.apiKey.value) else Null)
    case OauthScope => Some(Text(txn.oauthScope))
    case GeoLat => Some(if txn.geoLat.Some? then Num(txn.geoLat.value) else Null)
    case GeoLon => Some(if txn.geoLon.Some? then Num(txn.geoLon.value) else Null)
    case MaskingLibVersion => Some(Text(txn.maskingLibVersion))
    case VelCount(i) => if i < 4 then Some(Num(v[i].count as real)) else None
    case VelAmount(i) => if i < 4 then Some(Num(v[i].total as real / 10000.0)) else None
    case GeoCountry => Some(if geo.country.Some? then Text(geo.country.value) else Null)
    case GeoCity => Some(if geo.city.Some? then Text(geo.city.value) else Null)
    case GeoNetworkClass => Some(if geo.networkClass.Some? then Text(geo.networkClass.value) else Null)
    case GeoConfidence => Some(if geo.confidence.Some? then Num(geo.confidence.value) else Null)
    case DeviceFirstSeen => Some(if device.firstSeen.Some? then Num(device.firstSeen.value as real) else Null)
    case DeviceTxnCount => Some(if device.txnCount.Some? then Num(device.txnCount.value as real) else Null)
    case DeviceKnownFraud => Some(if device.knownFraud.Some? then Flag(device.knownFraud.value) else Null)
    case PrevGeoCountry => Some(if device.prevCountry.Some? then Text(device.prevCountry.value) else Null)
    case PrevTxnTimeMs => Some(if device.prevTime.Some? then Num(device.prevTime.value as real) else Null)
    case DeviceIsNew => Some(Flag(device.txnCount == Some(1)))
    case TxnAmount => Some(Num(txn.amount as real / 10000.0))
    case EnrichmentTime => Some(Num(now as real))
    case EnrichmentLatencyMs => Some(Num(if txn.processingTime <= now then (now - txn.processingTime) as real else 0.0))
    case ProcessorVersion => Some(Text(version))
    case SchemaVersion => Some(Text("1"))
    case DeviceCount24h => None
    case TxnTimeMs => None
    case Other(_) => None
  }

  /** Each part of the record holds the keys it should, and no part overwrites another. */
  lemma {:induction false} ReadBack(f: Field, txn: RawTxn, v: seq<Velocity.Cell>, geo: Geo, device: Device.Fields,
                                    now: int, version: string)
    requires |v| == |Velocity.WINDOWS|
    ensures var rec := Assemble(txn, v, geo, device, now, version);
            var expected := Recorded(f, txn, v, geo, device, now, version);
            (f in rec <==> expected.Some?) && (f in rec ==> rec[f] == expected.value)
  {
    TxnPartReads(f, txn, v, geo, device, now, version);
    VelocityPartReads(f, txn, v, geo, device, now, version);
    GeoPartReads(f, txn, v, geo, device, now, version);
    DevicePartReads(f, txn, v, geo, device, now, version);
    StampPartReads(f, txn, v, geo, device, now, version);
    hide TxnPart, VelocityPart, GeoPart, DevicePart, StampPart;
  }

  /** A part of a record: it has the key if `has`, with the expected value. */
  ghost predicate Reads(part: Txn, f: Field, has: bool, expected: Option<Value>) {
    (f in part <==> has) && (has ==> expected == Some(part[f]))
  }

  predicate IsTxnField(f: Field) {
    || f.TransactionId? || f.AccountId? || f.MerchantId? || f.Amount? || f.Currency? || f.EventTime?
    || f.ProcessingTime? || f.Channel? || f.CardBin? || f.CardLast4? || f.CallerIpSubnet? || f.ApiKeyId?
    || f.OauthScope? || f.GeoLat? || f.GeoLon? || f.MaskingLibVersion?
  }

  lemma {:induction false} TxnPartReads(f: Field, txn: RawTxn, v: seq<Velocity.Cell>, geo: Geo, device: Device.Fields,
                                        now: int, version: string)
    requires |v| == |Velocity.WINDOWS|
    ensures Reads(TxnPart(txn), f, IsTxnField(f), Recorded(f, txn, v, geo, device, now, version))
  {
  }

  lemma {:induction false} VelocityPartReads(f: Field, txn: RawTxn, v: seq<Velocity.Cell>, geo: Geo,
                                             device: Device.Fields, now: int, version: string)
    requires |v| == |Velocity.WINDOWS|
    ensures Reads(VelocityPart(v), f, (f.VelCount? || f.VelAmount?) && f.window < 4,
                  Recorded(f, txn, v, geo, device, now, version))
  {
    if f.VelCount? && f.window < 4 {
      assert f in [VelCount(0), VelCount(1), VelCount(2), VelCount(3)];
    }
    if f.VelAmount? && f.window < 4 {
      assert f in [VelAmount(0), VelAmount(1), VelAmount(2), VelAmount(3)];
    }
  }

  lemma {:induction false} GeoPartReads(f: Field, txn: RawTxn, v: seq<Velocity.Cell>, geo: Geo, device: Device.Fields,
                                        now: int, version: string)
    requires |v| == |Velocity.WINDOWS|
    ensures Reads(GeoPart(geo), f, f.GeoCountry? || f.GeoCity? || f.GeoNetworkClass? || f.GeoConfidence?,
                  Recorded(f, txn, v, geo, device, now, version))
  {
  }

  lemma {:induction false} DevicePartReads(f: Field, txn: RawTxn, v: seq<Velocity.Cell>, geo: Geo,
                                           device: Device.Fields, now: int, version: string)
    requires |v| == |Velocity.WINDOWS|
    ensures Reads(DevicePart(device), f,
                  f.DeviceFirstSeen? || f.DeviceTxnCount? || f.DeviceKnownFraud? || f.PrevGeoCountry?
                  || f.PrevTxnTimeMs? || f.DeviceIsNew?, Recorded(f, txn, v, geo, device, now, version))
  {
  }

  lemma {:induction false} StampPartReads(f: Field, txn: RawTxn, v: seq<Velocity.Cell>, geo: Geo,
                                          device: Device.Fields, now: int, version: string)
    requires |v| == |Velocity.WINDOWS|
    ensures Reads(StampPart(txn, now, version), f,
                  f.TxnAmount? || f.EnrichmentTime? || f.EnrichmentLatencyMs? || f.ProcessorVersion?
                  || f.SchemaVersion?,
                  Recorded(f, txn, v, geo, device, now, version))
  {
  }

  lemma {:induction false} AssembleIsAssembled(txn: RawTxn, v: seq<Velocity.Cell>, geo: Geo, device: Device.Fields,
                                               now: int, version: string)
    requires |v| == |Velocity.WINDOWS|
    ensures Assembled(Assemble(txn, v, geo, device, now, version))
  {
    hide Assemble;
    var rec := Assemble(txn, v, geo, device, now, version);
    forall i
      ensures if i < 4 then Get(rec, VelCount(i)).Num? && Get(rec, VelAmount(i)).Num?
              else VelCount(i) !in rec && VelAmount(i) !in rec
    {
      ReadBack(VelCount(i), txn, v, geo, device, now, version);
      ReadBack(VelAmount(i), txn, v, geo, device, now, version);
    }
    ReadBack(DeviceCount24h, txn, v, geo, device, now, version);
    ReadBack(TxnTimeMs, txn, v, geo, device, now, version);
    ReadBack(Amount, txn, v, geo, device, now, version);
    ReadBack(TxnAmount, txn, v, geo, device, now, version);
    ReadBack(DeviceIsNew, txn, v, geo, device, now, version);
  }

  /** No assembled record carries the current-time key, so no impossible-travel rule ever matches or raises on one. */
  lemma {:induction false} ImpossibleTravelNeverMatches(rec: Txn, r: Rule)
    requires Assembled(rec) && r.family == ImpossibleTravel
    ensures Evaluate(r, rec) == Verdict(false)
  {
  }

  /** Nor does one carry the daily device count, so the rapid new-device rule never matches or raises either. */
  lemma {:induction false} RapidNewDeviceNeverMatches(rec: Txn, r: Rule)
    requires Assembled(rec) && r.family == NewDevice && r.conditions.amount.None? && r.conditions.deviceCount.Some?
    ensures Evaluate(r, rec) == Verdict(false)
  {
  }

  /** A known-fraud rule matches exactly when the device fields say so. */
  lemma {:induction false} KnownFraudIsTheDevices(txn: RawTxn, v: seq<Velocity.Cell>, geo: Geo, device: Device.Fields,
                                                  now: int, version: string, r: Rule)
    requires |v| == |Velocity.WINDOWS| && IsKnownFraudRule(r)
    ensures Evaluate(r, Assemble(txn, v, geo, device, now, version)) == Verdict(device.knownFraud == Some(true))
  {
    hide Assemble;
    ReadBack(DeviceKnownFraud, txn, v, geo, device, now, version);
  }

  predicate IsKnownFraudRule(r: Rule) {
    var c := r.conditions;
    r.family == NewDevice && c.amount.None? && c.deviceCount.None? && c.networkClass.None?
  }

  /** A rule whose thresholds are numbers and whose velocity field, if any, is a velocity or amount field. */
  predicate WellTyped(r: Rule) {
    var c := r.conditions;
    match r.family
    case VelocityFamily =>
      && (c.field.Some? ==> c.field.value.VelCount? || c.field.value.VelAmount? || c.field.value in {Amount, TxnAmount})
      && (c.count.Some? ==> Numeric(c.count.value).Some?) && (c.amount.Some? ==> c.amount.value.Readable?)
    case ImpossibleTravel => true
    case NewDevice => c.amount.Some? ==> c.amount.value.Readable?
  }

  /** Over assembled records, shadow rules of a well-typed rule set never interfere. */
  lemma {:induction false} WellTypedRulesDoNotInterfere(rules: seq<Rule>, rec: Txn)
    requires Assembled(rec) && forall r | r in rules :: WellTyped(r)
    ensures !AnyRaises(rules, rec)
    ensures Judge(rules, rec) == Judge(ActiveOnly(rules), rec)
  {
    forall r | r in rules
      ensures Evaluate(r, rec).Verdict?
    {
      WellTypedNeverRaises(r, rec);
    }
    hide Evaluate;
    NonInterferenceIsExact(rules, rec);
  }

  lemma {:induction false} WellTypedNeverRaises(r: Rule, rec: Txn)
    requires Assembled(rec) && WellTyped(r)
    ensures Evaluate(r, rec).Verdict?
  {
    var c := r.conditions;
    if r.family == VelocityFamily && c.field.Some? && (c.field.value.VelCount? || c.field.value.VelAmount?) {
      var i := c.field.value.window;
      assert Get(rec, VelCount(i)).Num? || VelCount(i) !in rec;
      assert Get(rec, VelAmount(i)).Num? || VelAmount(i) !in rec;
    }
  }

  const SHIPPED_RULES: seq<Rule> := [
    Rule("VEL-001", VelocityFamily, NO_CONDITIONS.(field := Some(VelCount(0)), count := Some(Num(5.0))), High, true,
         Active),
    Rule("VEL-002", VelocityFamily, NO_CONDITIONS.(field := Some(VelAmount(1)), amount := Some(Readable(2000.0))), High,
         true, Active),
    Rule("VEL-003", VelocityFamily, NO_CONDITIONS.(field := Some(VelCount(1)), count := Some(Num(10.0))), Medium,
         true, Active),
    Rule("VEL-004", VelocityFamily, NO_CONDITIONS.(field := Some(VelAmount(3)), amount := Some(Readable(10000.0))),
         Medium, true, Active),
    Rule("IT-001", ImpossibleTravel, NO_CONDITIONS.(windowMs := Some(Num(3600000.0))), Critical, true, Active),
    Rule("IT-002", ImpossibleTravel, NO_CONDITIONS.(count := Some(Num(3.0))), High, true, Active),
    Rule("ND-001", NewDevice, NO_CONDITIONS.(amount := Some(Readable(500.0))), High, true, Active),
    Rule("ND-002", NewDevice, NO_CONDITIONS.(deviceCount := Some(Num(3.0)), velCount := Some(Num(5.0))), Medium,
         true, Active),
    Rule("ND-003", NewDevice, NO_CONDITIONS, Critical, true, Active),
    Rule("ND-004", NewDevice, NO_CONDITIONS.(networkClass := Some(Text("HOSTING"))), High, true, Active)
  ]

  /** Whatever modes the shipped rules have been switched to, they never raise and shadows never interfere. */
  lemma {:induction false} ShippedRulesAreSafe(rules: seq<Rule>, rec: Txn)
    requires Assembled(rec) && |rules| == |SHIPPED_RULES|
    requires forall i | 0 <= i < |rules| :: rules[i] == SHIPPED_RULES[i].(mode := rules[i].mode)
    ensures !AnyRaises(rules, rec) && Judge(rules, rec) == Judge(ActiveOnly(rules), rec)
  {
    forall r | r in rules
      ensures WellTyped(r)
    {
      var i :| 0 <= i < |rules| && rules[i] == r;
      assert WellTyped(SHIPPED_RULES[i]);
    }
    WellTypedRulesDoNotInterfere(rules, rec);
  }

  const TEXT_COUNT := Rule("VEL-X1", VelocityFamily, NO_CONDITIONS.(field := Some(GeoCountry), count := Some(Num(5.0))),
                           Low, true, Shadow)

  /**
   A shadow count rule over a text field raises on every located transaction, and turns the BLOCK that the first shipped
   rule gives after five transactions in a minute into an ALLOW without an alert.
   */
  lemma {:induction false} RaisingShadowRuleInterferes(txn: RawTxn, v: seq<Velocity.Cell>, geo: Geo,
                                                       device: Device.Fields, now: int, version: string)
    requires |v| == |Velocity.WINDOWS| && 5 < v[0].count && geo.country.Some?
    ensures var rec := Assemble(txn, v, geo, device, now, version);
            && Judge([SHIPPED_RULES[0]], rec) == Judgement(BLOCK, 0.8, Some(High))
            && Judge([SHIPPED_RULES[0], TEXT_COUNT], rec) == Judgement(ALLOW, 0.0, None)
  {
    LocatedBurst(txn, v, geo, device, now, version);
    hide Assemble;
    BurstIsSilenced(Assemble(txn, v, geo, device, now, version));
  }

  lemma {:induction false} LocatedBurst(txn: RawTxn, v: seq<Velocity.Cell>, geo: Geo, device: Device.Fields, now: int,
                                        version: string)
    requires |v| == |Velocity.WINDOWS| && geo.country.Some?
    ensures var rec := Assemble(txn, v, geo, device, now, version);
            Get(rec, VelCount(0)) == Num(v[0].count as real) && Get(rec, GeoCountry).Text?
  {
    hide Assemble;
    ReadBack(VelCount(0), txn, v, geo, device, now, version);
    ReadBack(GeoCountry, txn, v, geo, device, now, version);
  }

  lemma {:induction false} BurstIsSilenced(rec: Txn)
    requires Get(rec, VelCount(0)).Num? && Get(rec, VelCount(0)).n > 5.0 && Get(rec, GeoCountry).Text?
    ensures Judge([SHIPPED_RULES[0]], rec) == Judgement(BLOCK, 0.8, Some(High))
    ensures Judge([SHIPPED_RULES[0], TEXT_COUNT], rec) == Judgement(ALLOW, 0.0, None)
  {
    var burst := SHIPPED_RULES[0];
    assert Evaluate(burst, rec) == Verdict(true) && Evaluate(TEXT_COUNT, rec) == Raised;
    hide Evaluate;
    assert !AnyRaises([burst], rec);
    assert Hits(burst, rec, Active) && burst in [burst];
    assert Fires([burst], rec, High) && !Fires([burst], rec, Critical);
    JudgeMeaning([burst], rec);
    assert TEXT_COUNT in [burst, TEXT_COUNT];
  }

  // ----- the verdict is monotone in the account's history

  /** The same record, except that velocity fields are numbers that may be larger. */
  ghost predicate Grows(small: Txn, large: Txn) {
    forall f :: ReadsAlike(small, large, f)
  }

  lemma {:induction false} EvaluateIsMonotone(r: Rule, small: Txn, large: Txn)
    requires Grows(small, large)
    ensures Evaluate(r, small).Raised? == Evaluate(r, large).Raised?
    ensures Evaluate(r, small) == Verdict(true) ==> Evaluate(r, large) == Verdict(true)
  {
    hide EvaluateVelocity, EvaluateImpossibleTravel, EvaluateNewDevice, Grows;
    match r.family
    case VelocityFamily => VelocityIsMonotone(r.conditions, small, large);
    case ImpossibleTravel => TravelIsMonotone(r.conditions, small, large);
    case NewDevice => NewDeviceIsMonotone(r.conditions, small, large);
  }

  lemma {:induction false} VelocityIsMonotone(c: Conditions, small: Txn, large: Txn)
    requires Grows(small, large)
    ensures EvaluateVelocity(small, c).Raised? == EvaluateVelocity(large, c).Raised?
    ensures EvaluateVelocity(small, c) == Verdict(true) ==> EvaluateVelocity(large, c) == Verdict(true)
  {
    assert c.field.Some? ==> ReadsAlike(small, large, c.field.value);
  }

  lemma {:induction false} TravelIsMonotone(c: Conditions, small: Txn, large: Txn)
    requires Grows(small, large)
    ensures EvaluateImpossibleTravel(small, c).Raised? == EvaluateImpossibleTravel(large, c).Raised?
    ensures EvaluateImpossibleTravel(small, c) == Verdict(true) ==> EvaluateImpossibleTravel(large, c) == Verdict(true)
  {
    assert ReadsAlike(small, large, PrevGeoCountry) && ReadsAlike(small, large, PrevTxnTimeMs);
    assert ReadsAlike(small, large, GeoCountry) && ReadsAlike(small, large, TxnTimeMs);
  }

  lemma {:induction false} NewDeviceIsMonotone(c: Conditions, small: Txn, large: Txn)
    requires Grows(small, large)
    ensures EvaluateNewDevice(small, c).Raised? == EvaluateNewDevice(large, c).Raised?
    ensures EvaluateNewDevice(small, c) == Verdict(true) ==> EvaluateNewDevice(large, c) == Verdict(true)
  {
    assert ReadsAlike(small, large, DeviceIsNew) && ReadsAlike(small, large, TxnAmount);
    assert ReadsAlike(small, large, DeviceCount24h) && ReadsAlike(small, large, VelCount(0));
    assert ReadsAlike(small, large, GeoNetworkClass) && ReadsAlike(small, large, DeviceKnownFraud);
  }

  lemma {:induction false} JudgeIsMonotone(rules: seq<Rule>, small: Txn, large: Txn)
    requires Grows(small, large)
    ensures Level(Judge(rules, small).decision) <= Level(Judge(rules, large).decision)
    ensures Judge(rules, small).score <= Judge(rules, large).score
  {
    forall r
      ensures Evaluate(r, small).Raised? == Evaluate(r, large).Raised?
      ensures Evaluate(r, small) == Verdict(true) ==> Evaluate(r, large) == Verdict(true)
    {
      EvaluateIsMonotone(r, small, large);
    }
    JudgeMeaning(rules, small);
    JudgeMeaning(rules, large);
    hide Evaluate, Judge;
    assert AnyRaises(rules, small) == AnyRaises(rules, large);
    assert forall s :: Fires(rules, small, s) ==> Fires(rules, large, s);
  }

  lemma {:induction false} RecordsGrow(txn: RawTxn, v: seq<Velocity.Cell>, w: seq<Velocity.Cell>, geo: Geo,
                                       device: Device.Fields, now: int, version: string)
    requires |v| == |w| == |Velocity.WINDOWS| && forall i | 0 <= i < |v| :: Velocity.AtMost(v[i], w[i])
    ensures Grows(Assemble(txn, v, geo, device, now, version), Assemble(txn, w, geo, device, now, version))
  {
    hide Assemble;
    forall f
      ensures ReadsAlike(Assemble(txn, v, geo, device, now, version), Assemble(txn, w, geo, device, now, version), f)
    {
      ReadBack(f, txn, v, geo, device, now, version);
      ReadBack(f, txn, w, geo, device, now, version);
      if (f.VelCount? || f.VelAmount?) && f.window < 4 {
        assert Velocity.AtMost(v[f.window], w[f.window]);
      }
    }
  }

  /** Both records have the key or neither has, with the same value or a larger velocity. */
  ghost predicate ReadsAlike(small: Txn, large: Txn, f: Field) {
    && (f in small <==> f in large)
    && (f in small ==>
          || small[f] == large[f]
          || ((f.VelCount? || f.VelAmount?) && small[f].Num? && large[f].Num? && small[f].n <= large[f].n))
  }

  lemma {:induction false} ScansGrow(small: seq<Velocity.Event>, large: seq<Velocity.Event>, e: Velocity.Event)
    requires multiset(small) <= multiset(large) && VelocityTheorems.NonNegative(large)
    ensures var b := Velocity.Bucket(e.time);
            var v, w := Velocity.Scan(small + [e], b), Velocity.Scan(large + [e], b);
            forall i | 0 <= i < |v| :: Velocity.AtMost(v[i], w[i])
  {
    var b := Velocity.Bucket(e.time);
    forall c
      ensures Velocity.AtMost(Velocity.Tally(small + [e], Velocity.InBuckets(c)),
                              Velocity.Tally(large + [e], Velocity.InBuckets(c)))
    {
      VelocityTheorems.TallyOfSubHistory(small, large, Velocity.InBuckets(c));
      Velocity.TallySnoc(small, e, Velocity.InBuckets(c));
      Velocity.TallySnoc(large, e, Velocity.InBuckets(c));
    }
  }

  function EventOf(txn: RawTxn): Velocity.Event { Velocity.Event(txn.timestamp, txn.amount) }

  /** Both runs admit the event, and the accepted log of one, without negative amounts, includes that of the other. */
  ghost predicate Richer(few: seq<Velocity.Step>, many: seq<Velocity.Step>, lateness: int, e: Velocity.Event) {
    && VelocityTheorems.Admits(few, lateness, e) && VelocityTheorems.Admits(many, lateness, e)
    && multiset(Velocity.Accepted(few, lateness)) <= multiset(Velocity.Accepted(many, lateness))
    && VelocityTheorems.NonNegative(Velocity.Accepted(many, lateness))
  }

  ghost predicate NeverLower(rules: seq<Rule>, small: Txn, large: Txn) {
    && Level(Judge(rules, small).decision) <= Level(Judge(rules, large).decision)
    && Judge(rules, small).score <= Judge(rules, large).score
  }

  /** What surrounds the velocity windows in an assembled record. */
  datatype Context = Context(txn: RawTxn, geo: Geo, device: Device.Fields, now: int, version: string)

  /** The record of the context's transaction when it arrives after the account's run. */
  ghost function RecordAfter(steps: seq<Velocity.Step>, lateness: int, c: Context): Txn {
    Assemble(c.txn, VelocityTheorems.Answer(steps, lateness, EventOf(c.txn)), c.geo, c.device, c.now, c.version)
  }

  /**
   One account history is a sub-multiset of another, whose amounts are not negative. Then the same next transaction,
   with the same other fields and rules, never gets a lower decision or score after the larger history: through
   buckets and eviction, record assembly, rule families and decision mapping.
   */
  lemma {:induction false} DecisionsAreMonotoneInHistory(rules: seq<Rule>, c: Context, lateness: int,
                                                         few: seq<Velocity.Step>, many: seq<Velocity.Step>)
    requires lateness <= Velocity.MAX_SAFE_LATENESS && Richer(few, many, lateness, EventOf(c.txn))
    ensures NeverLower(rules, RecordAfter(few, lateness, c), RecordAfter(many, lateness, c))
  {
    var e := EventOf(c.txn);
    var v, w := VelocityTheorems.Answer(few, lateness, e), VelocityTheorems.Answer(many, lateness, e);
    VelocityTheorems.EvictionIsInvisible(few, lateness, e);
    VelocityTheorems.EvictionIsInvisible(many, lateness, e);
    ScansGrow(Velocity.Accepted(few, lateness), Velocity.Accepted(many, lateness), e);
    hide Assemble, Judge;
    RecordsGrow(c.txn, v, w, c.geo, c.device, c.now, c.version);
    JudgeIsMonotone(rules, RecordAfter(few, lateness, c), RecordAfter(many, lateness, c));
  }

  ghost predicate MonotoneInHistory(lateness: int) {
    forall rules, c: Context, few, many | Richer(few, many, lateness, EventOf(c.txn)) ::
      NeverLower(rules, RecordAfter(few, lateness, c), RecordAfter(many, lateness, c))
  }

  lemma {:induction false} RicherRuns(lateness: int, amount: nat, late: Velocity.Event)
    requires VelocityTheorems.IsLate(lateness, late)
    ensures Richer(VelocityTheorems.LoneRun(amount), VelocityTheorems.LateRun(amount), lateness, late)
  {
    VelocityTheorems.LoneRunIsCounted(lateness, amount, late);
    VelocityTheorems.LoneRunState(lateness, amount);
    VelocityTheorems.LateEventIsMiscounted(lateness, amount, late);
    VelocityTheorems.LateRunState(lateness, amount);
    hide Velocity.Accepted, VelocityTheorems.LoneRun, VelocityTheorems.LateRun;
  }

  lemma {:induction false} LowerVerdict(rules: seq<Rule>, small: Txn, large: Txn)
    requires Judge(rules, small).decision == FLAG && Judge(rules, large).decision == ALLOW
    ensures !NeverLower(rules, small, large)
  {
  }

  /** Beyond the safe lateness one more event can evict the bucket that made a day's amount suspicious. */
  lemma {:induction false} RicherHistoryCanClear(lateness: int, c: Context)
    requires Velocity.MAX_SAFE_LATENESS < lateness && EventOf(c.txn) == Velocity.Event(1441 * Velocity.MINUTE - 1, 0)
    ensures !MonotoneInHistory(lateness)
  {
    var e, amount := EventOf(c.txn), 10001 * 10000;
    var few, many := VelocityTheorems.LoneRun(amount), VelocityTheorems.LateRun(amount);
    RicherRuns(lateness, amount, e);
    VelocityTheorems.LoneRunIsCounted(lateness, amount, e);
    VelocityTheorems.LateEventIsMiscounted(lateness, amount, e);
    DayAmount(few, lateness, c);
    DayAmount(many, lateness, c);
    DayAmountDecides(RecordAfter(few, lateness, c));
    DayAmountDecides(RecordAfter(many, lateness, c));
    hide Judge, RecordAfter, Get, Richer, VelocityTheorems.Answer, VelocityTheorems.LoneRun, VelocityTheorems.LateRun;
    LowerVerdict([SHIPPED_RULES[3]], RecordAfter(few, lateness, c), RecordAfter(many, lateness, c));
    assert !NeverLower([SHIPPED_RULES[3]], RecordAfter(few, lateness, c), RecordAfter(many, lateness, c));
  }

  lemma {:induction false} DayAmount(steps: seq<Velocity.Step>, lateness: int, c: Context)
    ensures Get(RecordAfter(steps, lateness, c), VelAmount(3)) ==
            Money(VelocityTheorems.Answer(steps, lateness, EventOf(c.txn))[3].total)
  {
    hide VelocityTheorems.Answer, Assemble;
    var v := VelocityTheorems.Answer(steps, lateness, EventOf(c.txn));
    ReadBack(VelAmount(3), c.txn, v, c.geo, c.device, c.now, c.version);
  }

  lemma {:induction false} DayAmountDecides(rec: Txn)
    requires Get(rec, VelAmount(3)).Num?
    ensures Judge([SHIPPED_RULES[3]], rec).decision == if Get(rec, VelAmount(3)).n > 10000.0 then FLAG else ALLOW
  {
    var rule := SHIPPED_RULES[3];
    assert Evaluate(rule, rec) == Verdict(Get(rec, VelAmount(3)).n > 10000.0);
    hide Evaluate;
    assert !AnyRaises([rule], rec);
    assert rule in [rule] && (Hits(rule, rec, Active) ==> Fires([rule], rec, Low)) && !Fires([rule], rec, High);
    JudgeMeaning([rule], rec);
  }

  /** A larger history never lowers the verdict on the next transaction exactly when the lateness is at most 41 s. */
  lemma {:induction false} MonotonicityIsExact(lateness: int)
    ensures MonotoneInHistory(lateness) <==> lateness <= Velocity.MAX_SAFE_LATENESS
  {
    if lateness <= Velocity.MAX_SAFE_LATENESS {
      forall rules, c: Context, few, many | Richer(few, many, lateness, EventOf(c.txn))
        ensures NeverLower(rules, RecordAfter(few, lateness, c), RecordAfter(many, lateness, c))
      {
        DecisionsAreMonotoneInHistory(rules, c, lateness, few, many);
      }
    } else {
      var txn := RawTxn("", "", "", 0, "", 0, 0, "", "", "", "", None, "", None, None, "", 1441 * Velocity.MINUTE - 1);
      RicherHistoryCanClear(lateness, Context(txn, Geo(None, None, None, None), Device.NULL_FIELDS, 0, ""));
    }
  }
}
