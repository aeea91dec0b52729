/** What one claim does, delivery by delivery (src/capture/spool.ts:356-371). */
module ClaimFacts {
  import opened Prelude
  import opened SpoolTables

  /** No delivery twice, and every delivery is in both tables. */
  ghost predicate ValidBatch(s: Spool, batch: seq<DeliveryId>) {
    && (forall i, j :: 0 <= i < j < |batch| ==> batch[i] != batch[j])
    && (forall id :: id in batch ==> id in s.records && id in s.recovery)
  }

  lemma BatchIsValid(s: Spool, now: int, limit: nat, batch: seq<DeliveryId>)
    requires IsBatch(s, now, limit, batch)
    ensures ValidBatch(s, batch)
  {
    forall i, j | 0 <= i < j < |batch| ensures batch[i] != batch[j] {
      assert Before(s, batch[i], batch[j]);
    }
  }

  /** The rows of one delivery after it was claimed: handed out under a lease, or quarantined if it does not parse. */
  ghost predicate ClaimedFrom(s: Spool, r: Spool, id: DeliveryId, now: int)
    requires id in s.records && id in s.recovery
  {
    && id in r.recovery
    && r.recovery[id].generation == s.recovery[id].generation
    && if ParseRow(s.records[id]).Some?
       then
         && id in r.records
         && r.records[id] == s.records[id].(state := Claimed, attempts := s.records[id].attempts + 1,
                                            leaseUntil := Some(now + LEASE_MS))
         && r.recovery[id] == s.recovery[id].(attempts := s.recovery[id].attempts + 1, updatedAt := now)
       else
         && id !in r.records && r.recovery[id].state == Quarantined
         && r.recovery[id].reason == (if s.records[id].version == 1 then MalformedRecord else UnsupportedSchema)
         && r.recovery[id].attempts == s.recovery[id].attempts
  }

  ghost predicate SameTotals(s: Spool, r: Spool) {
    && r.counters.admitted == s.counters.admitted && r.counters.committed == s.counters.committed
    && |r.records| + r.counters.quarantined == |s.records| + s.counters.quarantined
  }

  lemma ClaimRowFacts(s: Spool, id: DeliveryId, now: int)
    requires id in s.records && id in s.recovery
    ensures SameTotals(s, ClaimRow(s, id, now)) && ClaimedFrom(s, ClaimRow(s, id, now), id, now)
  {
    assert (s.records - {id}).Keys == s.records.Keys - {id};
  }

  /** The rows of a delivery are the same in both spools. */
  ghost predicate SameRows(s: Spool, r: Spool, id: DeliveryId) {
    && (id in r.records <==> id in s.records) && (id in r.recovery <==> id in s.recovery)
    && (id in s.records ==> r.records[id] == s.records[id])
    && (id in s.recovery ==> r.recovery[id] == s.recovery[id])
  }

  lemma ClaimRowFrame(s: Spool, id: DeliveryId, now: int, other: DeliveryId)
    requires other != id
    ensures SameRows(s, ClaimRow(s, id, now), other)
  {
  }

  lemma {:induction false} ClaimRowsFrame(s: Spool, batch: seq<DeliveryId>, now: int, other: DeliveryId)
    requires other !in batch
    ensures SameRows(s, ClaimRows(s, batch, now), other)
  {
    if batch != [] {
      ClaimRowsFrame(s, batch[..|batch| - 1], now, other);
      ClaimRowFrame(ClaimRows(s, batch[..|batch| - 1], now), batch[|batch| - 1], now, other);
    }
  }

  lemma {:induction false} ClaimRowsTotals(s: Spool, batch: seq<DeliveryId>, now: int)
    requires ValidBatch(s, batch)
    ensures SameTotals(s, ClaimRows(s, batch, now))
  {
    if batch != [] {
      var front := batch[..|batch| - 1];
      var last := batch[|batch| - 1];
      ClaimRowsTotals(s, front, now);
      ClaimRowsFrame(s, front, now, last);
      ClaimRowFacts(ClaimRows(s, front, now), last, now);
    }
  }

  lemma {:induction false} ClaimRowsFacts(s: Spool, batch: seq<DeliveryId>, now: int, id: DeliveryId)
    requires ValidBatch(s, batch) && id in batch
    ensures ClaimedFrom(s, ClaimRows(s, batch, now), id, now)
  {
    var front := batch[..|batch| - 1];
    var last := batch[|batch| - 1];
    var t := ClaimRows(s, front, now);
    ClaimRowsFrame(s, front, now, last);
    if id == last {
      ClaimRowFacts(t, last, now);
    } else {
      ClaimRowsFacts(s, front, now, id);
      ClaimRowFrame(t, last, now, id);
    }
  }
}
