/** What each rule family decides about an arbitrary record, case by case, and when it raises. */
module RuleMeaning {
  import opened Basics
  import opened Rules

  /** The values that a condition reads as false. */
  predicate Falsy(v: Value) { v == Null || v == Flag(false) || v == Num(0.0) || v == Text("") }

  predicate Comparable(a: Value, b: Value) {
    (a.Text? && b.Text?) || ((a.Num? || a.Flag?) && (b.Num? || b.Flag?))
  }

  /** The strings agree up to some place, where the first ends or has the smaller character. */
  ghost predicate Before(a: string, b: string) {
    exists k: nat :: k <= |a| && k < |b| && a[..k] == b[..k] && (k == |a| || a[k] < b[k])
  }

  lemma {:induction false} TextOrder(a: string, b: string)
    ensures TextLess(a, b) <==> Before(a, b)
    decreases |a|
  {
    forall k: nat | 0 < k <= |a| && k < |b| && a[..k] == b[..k]
      ensures a[0] == b[0]
    {
      assert a[..k][0] == b[..k][0];
    }
    if a != [] && b != [] && a[0] == b[0] {
      TextOrder(a[1..], b[1..]);
      if k: nat :| k <= |a| && k < |b| && a[..k] == b[..k] && (k == |a| || a[k] < b[k]) {
        assert 0 < k && a[1..][..k - 1] == a[..k][1..] == b[..k][1..] == b[1..][..k - 1];
        assert Before(a[1..], b[1..]);
      }
      var p, q := a[1..], b[1..];
      if k: nat :| k <= |p| && k < |q| && p[..k] == q[..k] && (k == |p| || p[k] < q[k]) {
        assert a[..k + 1] == [a[0]] + a[1..][..k] && b[..k + 1] == [b[0]] + b[1..][..k];
        assert Before(a, b);
      }
    } else {
      assert a[..0] == b[..0];
    }
  }

  /** Comparisons of numbers, of strings, and of what cannot be compared; booleans count as 0 and 1. */
  lemma {:induction false} ComparisonMeaning(a: Value, b: Value)
    ensures a.Num? && b.Num? ==> Above(a, b) == Verdict(a.n > b.n) && AtLeast(a, b) == Verdict(a.n >= b.n)
    ensures a.Text? && b.Text? ==>
              Above(a, b) == Verdict(Before(b.s, a.s)) && AtLeast(a, b) == Verdict(!Before(a.s, b.s))
    ensures a.Flag? ==> Above(a, b) == Above(Num(if a.b then 1.0 else 0.0), b)
    ensures a.Flag? ==> AtLeast(a, b) == AtLeast(Num(if a.b then 1.0 else 0.0), b)
    ensures b.Flag? ==> Above(a, b) == Above(a, Num(if b.b then 1.0 else 0.0))
    ensures b.Flag? ==> AtLeast(a, b) == AtLeast(a, Num(if b.b then 1.0 else 0.0))
    ensures Above(a, b).Raised? <==> !Comparable(a, b)
    ensures AtLeast(a, b).Raised? <==> !Comparable(a, b)
    ensures Equal(a, b) <==> a == b || (a.Num? && b.Flag? && a.n == (if b.b then 1.0 else 0.0))
                             || (a.Flag? && b.Num? && b.n == (if a.b then 1.0 else 0.0))
  {
    if a.Text? && b.Text? {
      TextOrder(a.s, b.s);
      TextOrder(b.s, a.s);
    }
  }

  /** A velocity rule compares one field with its count or else its amount, strictly. */
  lemma {:induction false} VelocityMeaning(txn: Txn, c: Conditions)
    ensures c.field.None? || Get(txn, c.field.value).Null? ==> EvaluateVelocity(txn, c) == Verdict(false)
    ensures c.count.None? && c.amount.None? ==> EvaluateVelocity(txn, c) == Verdict(false)
    ensures forall f, x, t :: c.field == Some(f) && Get(txn, f) == Num(x) && c.count == Some(Num(t)) ==>
                                EvaluateVelocity(txn, c) == Verdict(x > t)
    ensures forall f, x, t ::
              c.field == Some(f) && Get(txn, f) == Num(x) && c.count.None? && c.amount == Some(Readable(t)) ==>
                EvaluateVelocity(txn, c) == Verdict(x > t)
    ensures EvaluateVelocity(txn, c).Raised? <==>
            && c.field.Some? && !Get(txn, c.field.value).Null?
            && if c.count.Some? then !Comparable(Get(txn, c.field.value), c.count.value)
               else c.amount.Some? && (c.amount.value.Unreadable? || Get(txn, c.field.value).Text?)
  {
  }

  /** Impossible travel: both visits known, in different countries, at most the window apart in either direction. */
  lemma {:induction false} ImpossibleTravelMeaning(txn: Txn, c: Conditions)
    ensures Get(txn, PrevGeoCountry).Null? || Get(txn, PrevTxnTimeMs).Null? || Get(txn, GeoCountry).Null?
            || Get(txn, TxnTimeMs).Null? || c.windowMs.None? ==>
              EvaluateImpossibleTravel(txn, c) == Verdict(false)
    ensures forall a, b, x, y, w ::
              && Get(txn, PrevGeoCountry) == Text(a) && Get(txn, GeoCountry) == Text(b)
              && Get(txn, PrevTxnTimeMs) == Num(x) && Get(txn, TxnTimeMs) == Num(y) && c.windowMs == Some(Num(w)) ==>
                EvaluateImpossibleTravel(txn, c) == Verdict(a != b && x - y <= w && y - x <= w)
    ensures EvaluateImpossibleTravel(txn, c).Raised? ==>
              && Get(txn, PrevGeoCountry) != Get(txn, GeoCountry)
              && (Get(txn, PrevTxnTimeMs).Text? || Get(txn, TxnTimeMs).Text? || c.windowMs.value.Text?
                  || c.windowMs.value.Null?)
  {
  }

  // ----- the four new-device rules, told apart by their conditions in this order

  lemma {:induction false} TruthyIsNotFalsy(v: Value)
    ensures Truthy(v) <==> !Falsy(v)
  {
  }

  lemma {:induction false} HighAmountMeaning(txn: Txn, c: Conditions)
    requires c.amount.Some?
    ensures Falsy(Get(txn, DeviceIsNew)) || Get(txn, TxnAmount).Null? ==> EvaluateNewDevice(txn, c) == Verdict(false)
    ensures forall x, t ::
              !Falsy(Get(txn, DeviceIsNew)) && Get(txn, TxnAmount) == Num(x) && c.amount.value == Readable(t) ==>
                EvaluateNewDevice(txn, c) == Verdict(x > t)
    ensures EvaluateNewDevice(txn, c).Raised? <==>
            && !Falsy(Get(txn, DeviceIsNew)) && !Get(txn, TxnAmount).Null?
            && (c.amount.value.Unreadable? || Get(txn, TxnAmount).Text?)
  {
    TruthyIsNotFalsy(Get(txn, DeviceIsNew));
  }

  lemma {:induction false} RapidMeaning(txn: Txn, c: Conditions)
    requires c.amount.None? && c.deviceCount.Some?
    ensures Falsy(Get(txn, DeviceIsNew)) || Get(txn, DeviceCount24h).Null? || Get(txn, VelCount(0)).Null? ==>
              EvaluateNewDevice(txn, c) == Verdict(false)
    ensures forall x, y, s, t ::
              && !Falsy(Get(txn, DeviceIsNew)) && Get(txn, DeviceCount24h) == Num(x) && Get(txn, VelCount(0)) == Num(y)
              && c.deviceCount == Some(Num(s)) && c.velCount == Some(Num(t)) ==>
                EvaluateNewDevice(txn, c) == Verdict(x >= s && y >= t)
    ensures forall x, s ::
              && !Falsy(Get(txn, DeviceIsNew)) && Get(txn, DeviceCount24h) == Num(x) && !Get(txn, VelCount(0)).Null?
              && c.deviceCount == Some(Num(s)) && c.velCount.None? ==>
                EvaluateNewDevice(txn, c) == if x >= s then Raised else Verdict(false)
  {
    TruthyIsNotFalsy(Get(txn, DeviceIsNew));
  }

  lemma {:induction false} NetworkMeaning(txn: Txn, c: Conditions)
    requires c.amount.None? && c.deviceCount.None? && c.networkClass.Some?
    ensures Falsy(Get(txn, DeviceIsNew)) || Get(txn, GeoNetworkClass).Null? ==>
              EvaluateNewDevice(txn, c) == Verdict(false)
    ensures forall x, t ::
              && !Falsy(Get(txn, DeviceIsNew)) && Get(txn, GeoNetworkClass) == Text(x)
              && c.networkClass == Some(Text(t)) ==>
                EvaluateNewDevice(txn, c) == Verdict(x == t)
    ensures !EvaluateNewDevice(txn, c).Raised?
  {
    TruthyIsNotFalsy(Get(txn, DeviceIsNew));
  }

  /** The flag has to be true itself, not just a value that reads as true. */
  lemma {:induction false} KnownFraudMeaning(txn: Txn, c: Conditions)
    requires c.amount.None? && c.deviceCount.None? && c.networkClass.None?
    ensures EvaluateNewDevice(txn, c) == Verdict(DeviceKnownFraud in txn && txn[DeviceKnownFraud] == Flag(true))
  {
  }
}
