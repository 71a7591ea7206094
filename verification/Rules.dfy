/**
 Rule definitions and the three rule families.

 A transaction is a dictionary from field names to values, and a rule's conditions are the optional keys its family
 reads. A comparison between incomparable values raises, a missing key that is subscripted raises, and an amount
 threshold that the decimal library cannot read raises: `Raised` stands for all three.
 */
module Rules {
  import opened Basics

  /** Field names: the keys of the assembled record, two keys that only rules mention, and any other name. */
  datatype Field =
    | TransactionId | AccountId | MerchantId | Amount | Currency | EventTime | ProcessingTime | Channel | CardBin
    | CardLast4 | CallerIpSubnet | ApiKeyId | OauthScope | GeoLat | GeoLon | MaskingLibVersion
    | VelCount(window: nat) | VelAmount(window: nat)
    | GeoCountry | GeoCity | GeoNetworkClass | GeoConfidence
    | DeviceFirstSeen | DeviceTxnCount | DeviceKnownFraud | PrevGeoCountry | PrevTxnTimeMs | DeviceIsNew
    | TxnAmount | EnrichmentTime | EnrichmentLatencyMs | ProcessorVersion | SchemaVersion
    | DeviceCount24h | TxnTimeMs
    | Other(name: string)

  datatype Value = Num(n: real) | Text(s: string) | Flag(b: bool) | Null

  type Txn = map<Field, Value>

  /** A missing key reads as null. */
  function Get(txn: Txn, f: Field): Value { if f in txn then txn[f] else Null }

  /** An amount threshold, after the decimal library has tried to read it. */
  datatype Threshold = Readable(v: real) | Unreadable

  datatype Conditions = Conditions(field: Option<Field>, count: Option<Value>, amount: Option<Threshold>,
                                   deviceCount: Option<Value>, velCount: Option<Value>, networkClass: Option<Value>,
                                   windowMs: Option<Value>)

  const NO_CONDITIONS := Conditions(None, None, None, None, None, None, None)

  datatype Family = VelocityFamily | ImpossibleTravel | NewDevice
  datatype Mode = Active | Shadow
  datatype Severity = Low | Medium | High | Critical

  datatype Rule = Rule(id: string, family: Family, conditions: Conditions, severity: Severity, enabled: bool,
                       mode: Mode)

  datatype Outcome = Verdict(matched: bool) | Raised

  function Rank(s: Severity): nat {
    match s
    case Low => 0
    case Medium => 1
    case High => 2
    case Critical => 3
  }

  // ----- comparisons

  /** Numbers, with booleans counting as 0 and 1. */
  function Numeric(v: Value): Option<real> {
    match v
    case Num(n) => Some(n)
    case Flag(b) => Some(if b then 1.0 else 0.0)
    case _ => None
  }

  predicate TextLess(a: string, b: string) {
    b != "" && (a == "" || a[0] < b[0] || (a[0] == b[0] && TextLess(a[1..], b[1..])))
  }

  function Above(a: Value, b: Value): Outcome {
    if Numeric(a).Some? && Numeric(b).Some? then Verdict(Numeric(a).value > Numeric(b).value)
    else if a.Text? && b.Text? then Verdict(TextLess(b.s, a.s))
    else Raised
  }

  function AtLeast(a: Value, b: Value): Outcome {
    if Numeric(a).Some? && Numeric(b).Some? then Verdict(Numeric(a).value >= Numeric(b).value)
    else if a.Text? && b.Text? then Verdict(!TextLess(a.s, b.s))
    else Raised
  }

  function AboveAmount(a: Value, t: Threshold): Outcome {
    match t
    case Unreadable => Raised
    case Readable(v) => if Numeric(a).Some? then Verdict(Numeric(a).value > v) else Raised
  }

  predicate Equal(a: Value, b: Value) {
    a == b || (Numeric(a).Some? && Numeric(a) == Numeric(b))
  }

  predicate Truthy(v: Value) {
    match v
    case Num(n) => n != 0.0
    case Text(s) => s != ""
    case Flag(b) => b
    case Null => false
  }

  // ----- the families

  function EvaluateVelocity(txn: Txn, c: Conditions): Outcome {
    if c.field.None? then Verdict(false)
    else
      var value := Get(txn, c.field.value);
      if value.Null? then Verdict(false)
      else if c.count.Some? then Above(value, c.count.value)
      else if c.amount.Some? then AboveAmount(value, c.amount.value)
      else Verdict(false)
  }

  function EvaluateImpossibleTravel(txn: Txn, c: Conditions): Outcome {
    var prevCountry, prevTime := Get(txn, PrevGeoCountry), Get(txn, PrevTxnTimeMs);
    var country, time := Get(txn, GeoCountry), Get(txn, TxnTimeMs);
    if prevCountry.Null? || prevTime.Null? || country.Null? || time.Null? then Verdict(false)
    else if Equal(prevCountry, country) then Verdict(false)
    else if c.windowMs.None? then Verdict(false)
    else if Numeric(time).None? || Numeric(prevTime).None? then Raised
    else
      var delta := Numeric(time).value - Numeric(prevTime).value;
      AtLeast(c.windowMs.value, Num(if delta < 0.0 then -delta else delta))
  }

  function NewDeviceHighAmount(txn: Txn, t: Threshold): Outcome {
    if !Truthy(Get(txn, DeviceIsNew)) || Get(txn, TxnAmount).Null? then Verdict(false)
    else AboveAmount(Get(txn, TxnAmount), t)
  }

  function NewDeviceRapid(txn: Txn, deviceCount: Value, velCount: Option<Value>): Outcome {
    var devices, count := Get(txn, DeviceCount24h), Get(txn, VelCount(0));
    if !Truthy(Get(txn, DeviceIsNew)) || devices.Null? || count.Null? then Verdict(false)
    else
      var first := AtLeast(devices, deviceCount);
      if first != Verdict(true) then first
      else if velCount.None? then Raised
      else AtLeast(count, velCount.value)
  }

  function NewDeviceFromNetwork(txn: Txn, networkClass: Value): Outcome {
    if !Truthy(Get(txn, DeviceIsNew)) || Get(txn, GeoNetworkClass).Null? then Verdict(false)
    else Verdict(Equal(Get(txn, GeoNetworkClass), networkClass))
  }

  function EvaluateNewDevice(txn: Txn, c: Conditions): Outcome {
    if c.amount.Some? then NewDeviceHighAmount(txn, c.amount.value)
    else if c.deviceCount.Some? then NewDeviceRapid(txn, c.deviceCount.value, c.velCount)
    else if c.networkClass.Some? then NewDeviceFromNetwork(txn, c.networkClass.value)
    else Verdict(Get(txn, DeviceKnownFraud) == Flag(true))
  }

  function Evaluate(r: Rule, txn: Txn): Outcome {
    match r.family
    case VelocityFamily => EvaluateVelocity(txn, r.conditions)
    case ImpossibleTravel => EvaluateImpossibleTravel(txn, r.conditions)
    case NewDevice => EvaluateNewDevice(txn, r.conditions)
  }

  // ----- rule ids

  predicate Alphanumeric(c: char) { 'a' <= c <= 'z' || 'A' <= c <= 'Z' || '0' <= c <= '9' }

  /** The id pattern: 2 to 64 characters. A final newline is let through, as the end anchor also matches before one. */
  predicate ValidId(id: string) {
    ValidBody(if id != "" && id[|id| - 1] == '\n' then id[..|id| - 1] else id)
  }

  predicate ValidBody(body: string) {
    && 2 <= |body| <= 64
    && Alphanumeric(body[0]) && Alphanumeric(body[|body| - 1])
    && forall i | 0 <= i < |body| :: Alphanumeric(body[i]) || body[i] == '-' || body[i] == '_'
  }

  const SHADOW_TAG := ":shadow"

  predicate IsTagged(name: string) { |SHADOW_TAG| <= |name| && name[|name| - |SHADOW_TAG|..] == SHADOW_TAG }

  /** A name is tagged when it is some name followed by the suffix. */
  lemma {:induction false} TaggedMeaning(name: string)
    ensures IsTagged(name) <==> exists plain :: name == plain + ":shadow"
  {
    if IsTagged(name) {
      assert name == name[..|name| - 7] + ":shadow";
    }
    if plain :| name == plain + ":shadow" {
      assert name[|name| - 7..] == ":shadow";
    }
  }

  /** The source's pattern: a first and a last letter or digit, up to 62 characters between, and maybe a newline. */
  ghost predicate MatchesPattern(id: string, first: char, middle: string, last: char, end: string) {
    && id == [first] + middle + [last] + end && (end == "" || end == "\n")
    && Alphanumeric(first) && Alphanumeric(last) && |middle| <= 62
    && forall c | c in middle :: Alphanumeric(c) || c in "-_"
  }

  lemma {:induction false} ValidIdMeaning(id: string)
    ensures ValidId(id) <==> exists first, middle, last, end :: MatchesPattern(id, first, middle, last, end)
  {
    if ValidId(id) {
      ValidIdSplits(id);
    }
    if first, middle, last, end :| MatchesPattern(id, first, middle, last, end) {
      PatternIsValid(id, first, middle, last, end);
    }
    hide ValidId, MatchesPattern;
  }

  lemma {:induction false} ValidIdSplits(id: string)
    requires ValidId(id)
    ensures exists first, middle, last, end :: MatchesPattern(id, first, middle, last, end)
  {
    var newline := id[|id| - 1] == '\n';
    var body, end := if newline then id[..|id| - 1] else id, if newline then "\n" else "";
    assert id == body + end;
    hide Alphanumeric;
    var middle := body[1..|body| - 1];
    assert body == [body[0]] + middle + [body[|body| - 1]];
    forall c | c in middle
      ensures Alphanumeric(c) || c in "-_"
    {
      var i :| 0 <= i < |middle| && middle[i] == c;
      assert c == body[i + 1];
    }
    assert MatchesPattern(id, body[0], middle, body[|body| - 1], end);
  }

  lemma {:induction false} PatternIsValid(id: string, first: char, middle: string, last: char, end: string)
    requires MatchesPattern(id, first, middle, last, end)
    ensures ValidId(id)
  {
    var body := [first] + middle + [last];
    assert id == body + end;
    assert id[|id| - 1] == if end == "" then last else '\n';
    assert end == "\n" ==> id[..|id| - 1] == body;
    assert body[0] == first && body[|body| - 1] == last;
    forall i | 0 <= i < |body|
      ensures Alphanumeric(body[i]) || body[i] == '-' || body[i] == '_'
    {
      assert 0 < i < |body| - 1 ==> body[i] == middle[i - 1];
    }
    assert ValidBody(body);
  }

  /** The letters and digits of ASCII. */
  lemma {:induction false} AlphanumericMeaning(c: char)
    ensures Alphanumeric(c) <==> 48 <= c as int <= 57 || 65 <= c as int <= 90 || 97 <= c as int <= 122
  {
  }

  lemma {:induction false} ValidIdHasNoColon(id: string)
    requires ValidId(id)
    ensures forall i | 0 <= i < |id| :: id[i] != ':'
  {
    var body := if id[|id| - 1] == '\n' then id[..|id| - 1] else id;
    forall i | 0 <= i < |id|
      ensures id[i] != ':'
    {
      assert i < |body| ==> id[i] == body[i];
    }
  }

  lemma {:induction false} ValidIdIsUntagged(id: string)
    requires ValidId(id)
    ensures !IsTagged(id)
  {
    ValidIdHasNoColon(id);
    assert SHADOW_TAG[0] == ':';
    assert |id| >= 7 ==> id[|id| - 7..][0] == id[|id| - 7];
  }
}
