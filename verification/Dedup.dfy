/**
 The deduplication operator, keyed by transaction id. An entry lives for 48 hours of processing time after it was
 written, and is written only when a transaction is let through.
 */
module Dedup {
  import opened Basics

  const TTL: int := 48 * 3600 * 1000

  /** A transaction together with the processing time at which it reaches the operator. */
  datatype Delivery<T> = Delivery(id: string, now: int, txn: T)

  /** The keyed state reads as absent: never written, or written at least the time-to-live ago. */
  predicate Passes<T>(seen: map<string, int>, d: Delivery<T>) {
    d.id !in seen || seen[d.id] + TTL <= d.now
  }

  function Record<T>(seen: map<string, int>, d: Delivery<T>): map<string, int> {
    if Passes(seen, d) then seen[d.id := d.now] else seen
  }

  function Seen<T>(ds: seq<Delivery<T>>): map<string, int> {
    if ds == [] then map[] else Record(Seen(ds[..|ds| - 1]), ds[|ds| - 1])
  }

  predicate Emits<T>(ds: seq<Delivery<T>>, i: nat)
    requires i < |ds|
  {
    Passes(Seen(ds[..i]), ds[i])
  }

  predicate IsFirst<T>(ds: seq<Delivery<T>>, i: nat)
    requires i < |ds|
  {
    forall j | 0 <= j < i :: ds[j].id != ds[i].id
  }

  function Output<T>(ds: seq<Delivery<T>>): seq<Delivery<T>> {
    if ds == [] then []
    else
      var n := |ds| - 1;
      Output(ds[..n]) + if Emits(ds, n) then [ds[n]] else []
  }

  function FirstOccurrences<T>(ds: seq<Delivery<T>>): seq<Delivery<T>> {
    if ds == [] then []
    else
      var n := |ds| - 1;
      FirstOccurrences(ds[..n]) + if IsFirst(ds, n) then [ds[n]] else []
  }

  ghost predicate ClockNeverDecreases<T>(ds: seq<Delivery<T>>) {
    forall i, j | 0 <= i < j < |ds| :: ds[i].now <= ds[j].now
  }

  /** Every redelivery of an id comes less than 48 hours after each earlier delivery of it. */
  ghost predicate WithinTtl<T>(ds: seq<Delivery<T>>) {
    forall i, j | 0 <= i < j < |ds| && ds[i].id == ds[j].id :: ds[j].now < ds[i].now + 172_800_000
  }

  lemma {:induction false} OutputSnoc<T>(ds: seq<Delivery<T>>, d: Delivery<T>)
    ensures Output(ds + [d]) == Output(ds) + if Passes(Seen(ds), d) then [d] else []
  {
    assert (ds + [d])[..|ds|] == ds;
  }

  // ----- where the entries come from

  lemma {:induction false} SeenHasWriter<T>(ds: seq<Delivery<T>>, id: string) returns (k: nat)
    requires id in Seen(ds)
    ensures k < |ds| && ds[k].id == id && ds[k].now == Seen(ds)[id] && Emits(ds, k)
  {
    var n := |ds| - 1;
    if Emits(ds, n) && ds[n].id == id {
      k := n;
    } else {
      k := SeenHasWriter(ds[..n], id);
      assert ds[..n][..k] == ds[..k];
    }
  }

  lemma {:induction false} DeliveredIsSeen<T>(ds: seq<Delivery<T>>, k: nat)
    requires k < |ds|
    ensures ds[k].id in Seen(ds)
  {
    if k < |ds| - 1 {
      DeliveredIsSeen(ds[..|ds| - 1], k);
    }
  }

  lemma {:induction false} FirstIsEmitted<T>(ds: seq<Delivery<T>>, i: nat)
    requires i < |ds| && IsFirst(ds, i)
    ensures Emits(ds, i)
  {
    if ds[i].id in Seen(ds[..i]) {
      var k := SeenHasWriter(ds[..i], ds[i].id);
      assert false;
    }
  }

  // ----- the output is the first-occurrence subsequence, exactly within the time-to-live

  lemma {:induction false} OutputCoversFirsts<T>(ds: seq<Delivery<T>>)
    ensures |FirstOccurrences(ds)| <= |Output(ds)|
    ensures (exists i: nat :: i < |ds| && Emits(ds, i) && !IsFirst(ds, i)) ==> |FirstOccurrences(ds)| < |Output(ds)|
    ensures (forall i: nat | i < |ds| && Emits(ds, i) :: IsFirst(ds, i)) ==> FirstOccurrences(ds) == Output(ds)
  {
    if ds != [] {
      var n := |ds| - 1;
      OutputCoversFirsts(ds[..n]);
      if IsFirst(ds, n) {
        FirstIsEmitted(ds, n);
      }
      forall i: nat | i < n
        ensures Emits(ds[..n], i) == Emits(ds, i) && IsFirst(ds[..n], i) == IsFirst(ds, i)
      {
        assert ds[..n][..i] == ds[..i];
      }
    }
  }

  lemma {:induction false} LateRedeliveryLeaks<T>(ds: seq<Delivery<T>>, i: nat, j: nat)
    requires ClockNeverDecreases(ds)
    requires i < j < |ds| && ds[i].id == ds[j].id && ds[i].now + TTL <= ds[j].now
    ensures exists k: nat :: k < |ds| && Emits(ds, k) && !IsFirst(ds, k)
  {
    DeliveredIsSeen(ds[..j], i);
    var k := SeenHasWriter(ds[..j], ds[j].id);
    assert ds[..j][..k] == ds[..k];
    assert Emits(ds, k);
    if IsFirst(ds, k) {
      assert k <= i;
      assert Emits(ds, j) && !IsFirst(ds, j);
    }
  }

  /** Redeliveries are absorbed, and nothing else is, exactly when each comes within the time-to-live. */
  lemma {:induction false} AbsorbsRedeliveriesExactly<T>(ds: seq<Delivery<T>>)
    requires ClockNeverDecreases(ds)
    ensures Output(ds) == FirstOccurrences(ds) <==> WithinTtl(ds)
  {
    OutputCoversFirsts(ds);
    if WithinTtl(ds) {
      forall i: nat | i < |ds| && Emits(ds, i)
        ensures IsFirst(ds, i)
      {
        if !IsFirst(ds, i) {
          var j :| 0 <= j < i && ds[j].id == ds[i].id;
          DeliveredIsSeen(ds[..i], j);
          var k := SeenHasWriter(ds[..i], ds[i].id);
          assert false;
        }
      }
    } else {
      var i, j :| 0 <= i < j < |ds| && ds[i].id == ds[j].id && ds[i].now + TTL <= ds[j].now;
      LateRedeliveryLeaks(ds, i, j);
    }
  }

  lemma {:induction false} FirstOccurrencesAreDelivered<T>(ds: seq<Delivery<T>>)
    ensures forall d | d in FirstOccurrences(ds) :: d in ds
  {
    if ds != [] {
      FirstOccurrencesAreDelivered(ds[..|ds| - 1]);
    }
  }

  ghost predicate DistinctIds<T>(ds: seq<Delivery<T>>) {
    forall i, j | 0 <= i < j < |ds| :: ds[i].id != ds[j].id
  }

  lemma {:induction false} FirstOccurrencesAreDistinct<T>(ds: seq<Delivery<T>>)
    ensures DistinctIds(FirstOccurrences(ds))
  {
    if ds != [] {
      var n := |ds| - 1;
      FirstOccurrencesAreDistinct(ds[..n]);
      FirstOccurrencesAreDelivered(ds[..n]);
      if IsFirst(ds, n) {
        forall d | d in FirstOccurrences(ds[..n])
          ensures d.id != ds[n].id
        {
          assert d in ds[..n];
        }
      }
    }
  }

  /** The operator: one keyed value per id, with the stream so far as its ghost log. */
  class TransactionDedup<T> {
    var seen: map<string, int>
    var seenDict: map<string, int>
    ghost var log: seq<Delivery<T>>
    ghost var pureIds: seq<string>

    ghost predicate Valid()
      reads this
    {
      seen == Seen(log) && forall id :: id in seenDict <==> id in pureIds
    }

    constructor ()
      ensures Valid() && log == [] && pureIds == []
    {
      seen, seenDict := map[], map[];
      log, pureIds := [], [];
    }

    method ProcessElement(d: Delivery<T>) returns (emitted: bool)
      requires Valid()
      modifies this
      ensures Valid() && log == old(log) + [d] && pureIds == old(pureIds)
      ensures Output(log) == old(Output(log)) + if emitted then [d] else []
      ensures (forall e | e in old(log) :: e.id != d.id) ==> emitted
      ensures ClockNeverDecreases(log) && WithinTtl(log) ==> Output(log) == FirstOccurrences(log)
    {
      hide Output, FirstOccurrences, ClockNeverDecreases, WithinTtl;
      OutputSnoc(log, d);
      emitted := d.id !in seen || seen[d.id] + TTL <= d.now;
      if emitted {
        seen := seen[d.id := d.now];
      }
      log := log + [d];
      assert log[..|log| - 1] == old(log);
      if ClockNeverDecreases(log) {
        AbsorbsRedeliveriesExactly(log);
      }
      if forall e | e in old(log) :: e.id != d.id {
        FirstIsEmitted(log, |log| - 1);
      }
    }

    /** The variant without a time-to-live lets an id through exactly once, ever. */
    method ProcessElementPure(id: string, time: int) returns (isNew: bool)
      requires Valid()
      modifies this
      ensures Valid() && pureIds == old(pureIds) + [id] && log == old(log)
      ensures isNew <==> id !in old(pureIds)
    {
      isNew := id !in seenDict;
      if isNew {
        seenDict := seenDict[id := time];
      }
      pureIds := pureIds + [id];
    }
  }
}
