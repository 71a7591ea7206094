/** The enrichment job with its keyed state in maps, updated in place, one entry per key that has been seen. */
module EnrichmentJob {
  import opened Basics
  import opened Dedup
  import opened Assembly
  import opened Pipeline
  import Rules
  import Velocity
  import VelocityOperator
  import Device

  datatype KeyedVelocity = KeyedVelocity(buckets: map<int, Velocity.Cell>, timers: set<int>)
  datatype KeyedDevice = KeyedDevice(profile: Option<Device.Profile>, timers: set<int>)

  class Job {
    const lateness: int
    const version: string
    var seen: map<string, int>
    var accounts: map<string, KeyedVelocity>
    var devices: map<string, KeyedDevice>
    var watermark: Option<int>
    ghost var trace: seq<Step>

    function AccountState(account: string): Velocity.State
      reads this
    {
      if account in accounts
      then Velocity.State(accounts[account].buckets, accounts[account].timers, watermark)
      else Velocity.State(map[], {}, watermark)
    }

    function DeviceState(key: string): Device.State
      reads this
    {
      if key in devices
      then Device.State(devices[key].profile, devices[key].timers, watermark)
      else Device.State(None, {}, watermark)
    }

    /** Every keyed state is the single-key run over the steps that reach the key. */
    ghost predicate Valid()
      reads this
    {
      && seen == Seen(Deliveries(trace))
      && watermark == CurrentWatermark(trace)
      && (forall a :: AccountState(a) == Velocity.Run(AccountSteps(trace, a), lateness))
      && (forall k :: DeviceState(k) == Device.Run(DeviceSteps(trace, lateness, k)))
    }

    constructor (lateness: int, version: string)
      ensures Valid() && trace == [] && this.lateness == lateness && this.version == version
    {
      this.lateness, this.version := lateness, version;
      seen, accounts, devices, watermark := map[], map[], map[], None;
      trace := [];
    }

    /** A delivery comes out enriched exactly when it is unique and not late; its fields are those of its own keys. */
    method Process(d: Delivery<RawTxn>, geo: Geo, now: int) returns (rec: Option<Rules.Txn>)
      requires Valid()
      modifies this
      ensures Valid() && trace == old(trace) + [Deliver(d, geo)] && watermark == old(watermark)
      ensures rec.Some? <==> Forwards(old(trace), lateness, Deliver(d, geo))
      ensures rec.Some? ==> rec.value == Assemble(d.txn, Windows(old(trace), lateness, d.txn), geo,
                                                  DeviceFields(old(trace), lateness, d.txn, geo), now, version)
    {
      hide Assemble, Velocity.Run, Velocity.Next, Velocity.WindowSums, Device.Run, Device.Next;
      hide AccountSteps, DeviceSteps, Deliveries, CurrentWatermark;
      ghost var step, before := Deliver(d, geo), trace;
      Snoc(trace, lateness, step);
      rec := Pass(d, geo, now);
      trace := trace + [step];
      SeenSnoc(Deliveries(before), d);
      forall a
        ensures AccountState(a) == Velocity.Run(AccountSteps(trace, a), lateness)
      {
        AccountSnoc(before, lateness, step, a);
      }
      forall k
        ensures DeviceState(k) == Device.Run(DeviceSteps(trace, lateness, k))
      {
        DeviceSnoc(before, lateness, step, k);
      }
    }

    lemma {:induction false} SeenSnoc(ds: seq<Delivery<RawTxn>>, d: Delivery<RawTxn>)
      ensures Seen(ds + [d]) == Record(Seen(ds), d)
    {
      assert (ds + [d])[..|ds|] == ds;
    }

    /** The delivery's way through the operators: each that it reaches updates the entry of the delivery's own key. */
    method Pass(d: Delivery<RawTxn>, geo: Geo, now: int) returns (rec: Option<Rules.Txn>)
      modifies this`seen, this`accounts, this`devices
      ensures seen == Record(old(seen), d)
      ensures rec.Some? <==> Passes(old(seen), d) && Velocity.Accepts(watermark, lateness, d.txn.timestamp)
      ensures forall a :: AccountState(a) ==
                if Passes(old(seen), d) && a == d.txn.account
                then Velocity.Next(old(AccountState(a)), lateness, Velocity.Arrive(EventOf(d.txn)))
                else old(AccountState(a))
      ensures forall k :: DeviceState(k) ==
                if rec.Some? && d.txn.apiKey == Some(k) && k != ""
                then Device.Next(old(DeviceState(k)), Device.Arrive(Device.Event(d.txn.timestamp, geo.country)))
                else old(DeviceState(k))
      ensures rec.Some? ==>
                var v := Velocity.WindowSums(AccountState(d.txn.account).buckets, Velocity.Bucket(d.txn.timestamp));
                rec.value == Assemble(d.txn, v, geo, FieldsFor(old(devices), d.txn, geo), now, version)
    {
      hide Assemble, Velocity.Next, Velocity.WindowSums, Device.Next;
      rec := None;
      LateArrivalIsDropped(AccountState(d.txn.account), lateness, EventOf(d.txn));
      if d.id !in seen || seen[d.id] + TTL <= d.now {
        seen := seen[d.id := d.now];
        if watermark.None? || watermark.value - lateness <= d.txn.timestamp {
          var v := StoreAndCount(d.txn);
          var fields := UpdateProfile(d.txn, geo);
          rec := Some(Assemble(d.txn, v, geo, fields, now, version));
        }
      }
    }

    /** The device fields that the profiles before the delivery give it. */
    function FieldsFor(devices: map<string, KeyedDevice>, txn: RawTxn, geo: Geo): Device.Fields {
      if txn.apiKey.None? || txn.apiKey.value == "" then Device.NULL_FIELDS
      else
        var profile := if txn.apiKey.value in devices then devices[txn.apiKey.value].profile else None;
        Device.FieldsOf(profile, Device.Updated(profile, Device.Event(txn.timestamp, geo.country)))
    }

    lemma {:induction false} LateArrivalIsDropped(s: Velocity.State, lateness: int, e: Velocity.Event)
      ensures !Velocity.Accepts(s.watermark, lateness, e.time) ==> Velocity.Next(s, lateness, Velocity.Arrive(e)) == s
    {
    }

    /** The velocity operator's accepting branch, on the account's own entry. */
    method StoreAndCount(txn: RawTxn) returns (v: seq<Velocity.Cell>)
      requires Velocity.Accepts(watermark, lateness, txn.timestamp)
      modifies this`accounts
      ensures v == Velocity.WindowSums(AccountState(txn.account).buckets, Velocity.Bucket(txn.timestamp))
      ensures AccountState(txn.account) ==
              Velocity.Next(old(AccountState(txn.account)), lateness, Velocity.Arrive(EventOf(txn)))
      ensures txn.account in accounts && accounts == old(accounts)[txn.account := accounts[txn.account]]
    {
      var b := txn.timestamp / Velocity.MINUTE;
      var mine := if txn.account in accounts then accounts[txn.account] else KeyedVelocity(map[], {});
      var existing := if b in mine.buckets then mine.buckets[b] else Velocity.ZERO;
      var buckets := mine.buckets[b := Velocity.Cell(existing.count + 1, existing.total + txn.amount)];
      var timers := mine.timers + {txn.timestamp + Velocity.RETENTION, txn.timestamp + Velocity.IDLE_TTL};
      accounts := accounts[txn.account := KeyedVelocity(buckets, timers)];
      v := VelocityOperator.ComputeVelocity(buckets, b);
    }

    /** The device operator, on the API key's own entry. */
    method UpdateProfile(txn: RawTxn, geo: Geo) returns (f: Device.Fields)
      modifies this`devices
      ensures txn.apiKey.None? || txn.apiKey.value == "" ==> f == Device.NULL_FIELDS && devices == old(devices)
      ensures txn.apiKey.Some? && txn.apiKey.value != "" ==>
                var key, e := txn.apiKey.value, Device.Event(txn.timestamp, geo.country);
                var profile := old(DeviceState(key)).profile;
                && f == Device.FieldsOf(profile, Device.Updated(profile, e))
                && DeviceState(key) == Device.Next(old(DeviceState(key)), Device.Arrive(e))
                && key in devices && devices == old(devices)[key := devices[key]]
    {
      f := Device.NULL_FIELDS;
      if txn.apiKey.Some? && txn.apiKey.value != "" {
        var key := txn.apiKey.value;
        var mine := if key in devices then devices[key] else KeyedDevice(None, {});
        var updated := Device.Updated(mine.profile, Device.Event(txn.timestamp, geo.country));
        devices := devices[key := KeyedDevice(Some(updated), mine.timers + {txn.timestamp + Device.IDLE_TTL})];
        f := Device.FieldsOf(mine.profile, updated);
      }
    }

    /** An advancing watermark fires the due timers of every key of both operators. */
    method AdvanceWatermark(to: int)
      requires Valid()
      modifies this
      ensures Valid() && trace == old(trace) + [Watermark(to)]
    {
      hide Velocity.Run, Velocity.Next, Device.Run, Device.Next, AccountSteps, DeviceSteps;
      ghost var step, before := Watermark(to), trace;
      Snoc(trace, lateness, step);
      if watermark.None? || watermark.value < to {
        FireTimers(to);
        watermark := Some(to);
      }
      trace := trace + [step];
      assert Deliveries(trace) == Deliveries(before);
      forall a
        ensures AccountState(a) == Velocity.Run(AccountSteps(trace, a), lateness)
      {
        AccountSnoc(before, lateness, step, a);
        StaleWatermarkIsIgnored(old(AccountState(a)), old(DeviceState(a)), lateness, to);
        assert old(AccountState(a)) == Velocity.Run(AccountSteps(before, a), lateness);
      }
      forall k
        ensures DeviceState(k) == Device.Run(DeviceSteps(trace, lateness, k))
      {
        DeviceSnoc(before, lateness, step, k);
        StaleWatermarkIsIgnored(old(AccountState(k)), old(DeviceState(k)), lateness, to);
        assert old(DeviceState(k)) == Device.Run(DeviceSteps(before, lateness, k));
      }
    }

    lemma {:induction false} StaleWatermarkIsIgnored(s: Velocity.State, t: Device.State, lateness: int, to: int)
      ensures s.watermark.Some? && to <= s.watermark.value ==> Velocity.Next(s, lateness, Velocity.Advance(to)) == s
      ensures t.watermark.Some? && to <= t.watermark.value ==> Device.Next(t, Device.Advance(to)) == t
    {
    }

    method FireTimers(to: int)
      requires watermark.None? || watermark.value < to
      modifies this`accounts, this`devices
      ensures forall a :: Velocity.State(AccountState(a).buckets, AccountState(a).timers, Some(to)) ==
                          Velocity.Next(old(AccountState(a)), lateness, Velocity.Advance(to))
      ensures forall k :: Device.State(DeviceState(k).profile, DeviceState(k).timers, Some(to)) ==
                          Device.Next(old(DeviceState(k)), Device.Advance(to))
    {
      accounts := map a | a in accounts ::
        var s := accounts[a];
        KeyedVelocity(Velocity.Evicted(s.buckets, Velocity.Due(s.timers, to)), s.timers - Velocity.Due(s.timers, to));
      devices := map k | k in devices ::
        var s := devices[k];
        KeyedDevice(if Device.Due(s.timers, to) != {} then None else s.profile, s.timers - Device.Due(s.timers, to));
      NothingToFire(lateness, watermark, to);
      forall k
        ensures Device.State(DeviceState(k).profile, DeviceState(k).timers, Some(to)) ==
                Device.Next(old(DeviceState(k)), Device.Advance(to))
      {
        ClearsWhenDue(old(DeviceState(k)), to);
      }
    }

    lemma {:induction false} ClearsWhenDue(s: Device.State, to: int)
      requires Device.Advances(s, to)
      ensures Device.Clears(s, Device.Advance(to)) <==> Device.Due(s.timers, to) != {}
    {
      if ts :| ts in s.timers && ts <= to {
        assert ts in Device.Due(s.timers, to);
      } else if Device.Due(s.timers, to) != {} {
        var ts := Pick(Device.Due(s.timers, to));
        assert false;
      }
    }

    lemma {:induction false} NothingToFire(lateness: int, w: Option<int>, to: int)
      requires w.None? || w.value < to
      ensures Velocity.Next(Velocity.State(map[], {}, w), lateness, Velocity.Advance(to)) ==
              Velocity.State(map[], {}, Some(to))
      ensures Device.Next(Device.State(None, {}, w), Device.Advance(to)) == Device.State(None, {}, Some(to))
    {
      assert Velocity.Evicted(map[], Velocity.Due({}, to)) == map[];
    }
  }
}
