/**
 * The class that owns the spool tables. Each method is one transaction, statement by statement (src/capture/spool.ts).
 */
module SpoolStore {
  import opened Prelude
  import opened CaptureRecords
  import opened SpoolTables
  import opened ClaimFacts

  datatype ClaimedRecord = ClaimedRecord(id: DeliveryId, record: CaptureRecord, attempts: nat, admittedAt: int)

  /** What a drainer is handed for a batch: the rows that parse, with the attempt that this claim is. */
  function HandedOut(s: Spool, batch: seq<DeliveryId>): seq<ClaimedRecord>
    requires forall id :: id in batch ==> id in s.records
  {
    if batch == [] then [] else
      var id := batch[|batch| - 1];
      var front := HandedOut(s, batch[..|batch| - 1]);
      match ParseRow(s.records[id])
      case None => front
      case Some(record) => front + [ClaimedRecord(id, record, s.records[id].attempts + 1, s.records[id].admittedAt)]
  }

  /** The row has a record, in the current version. */
  predicate Reads(row: SpoolRow, record: CaptureRecord) {
    row.version == 1 && row.payload == Parsed(record, row.payload.bytes)
  }

  /** What is handed out says what its row says after the claim; whatever of the batch has a record is handed out. */
  lemma {:induction false} HandedOutTells(s: Spool, batch: seq<DeliveryId>, now: int)
    requires ValidBatch(s, batch)
    ensures var handed, t := HandedOut(s, batch), ClaimRows(s, batch, now);
      && (forall c :: c in handed ==>
            && c.id in batch && InState(t, c.id, Claimed) && Reads(t.records[c.id], c.record)
            && c.attempts == t.records[c.id].attempts && c.admittedAt == t.records[c.id].admittedAt)
      && (forall id, record :: id in batch && Reads(s.records[id], record) ==> exists c :: c in handed && c.id == id)
  {
    if batch != [] {
      var front, last := batch[..|batch| - 1], batch[|batch| - 1];
      assert batch == front + [last] && last !in front;
      HandedOutTells(s, front, now);
      ClaimRowsFacts(s, batch, now, last);
      var before := ClaimRows(s, front, now);
      forall id | id in front ensures SameRows(before, ClaimRows(s, batch, now), id) {
        ClaimRowFrame(before, last, now, id);
      }
    }
  }

  ghost predicate IsFirst(s: Spool, ids: set<DeliveryId>, first: DeliveryId)
    requires ids <= s.records.Keys
  {
    first in ids && forall other :: other in ids && other != first ==> Before(s, first, other)
  }

  lemma BeforeIsTotal(s: Spool, a: DeliveryId, b: DeliveryId)
    requires a in s.records && b in s.records && a != b
    ensures Before(s, a, b) || Before(s, b, a)
  {
  }

  lemma BeforeIsTransitive(s: Spool, a: DeliveryId, b: DeliveryId, c: DeliveryId)
    requires a in s.records && b in s.records && c in s.records
    ensures Before(s, a, b) && Before(s, b, c) ==> Before(s, a, c)
  {
  }

  /** A finite nonempty set of rows has a first one in claim order. */
  lemma {:induction false} FirstExists(s: Spool, ids: set<DeliveryId>) returns (first: DeliveryId)
    requires ids != {} && ids <= s.records.Keys
    ensures IsFirst(s, ids, first)
    decreases |ids|
  {
    var some :| some in ids;
    var rest := ids - {some};
    first := some;
    if rest != {} {
      var next := FirstExists(s, rest);
      if Before(s, next, some) {
        first := next;
      }
      forall other | other in ids && other != first ensures Before(s, first, other) {
        BeforeIsTotal(s, some, next);
        if other != some && other != next {
          assert other in rest;
          BeforeIsTransitive(s, some, next, other);
        }
      }
    } else {
      assert ids == {some};
    }
  }

  lemma WakeNone(s: Spool, now: int)
    ensures Wake(s, {}, now) == s
  {
    assert Wake(s, {}, now).recovery == s.recovery && Wake(s, {}, now).records == s.records;
  }

  /** Waking one more delivery. */
  lemma WakeNext(s: Spool, ids: set<DeliveryId>, id: DeliveryId, now: int)
    requires id in s.recovery && id !in ids
    ensures var w := Wake(s, ids, now);
      && w.recovery.Keys == s.recovery.Keys
      && Wake(s, ids + {id}, now) == w.(
        recovery := w.recovery[id := Woken(w.recovery[id], now)],
        records := if id in w.records && w.records[id].state.Pending?
          then w.records[id := w.records[id].(nextRetryAt := now + 100)] else w.records)
  {
    var w, next := Wake(s, ids, now), Wake(s, ids + {id}, now);
    assert next.recovery == w.recovery[id := Woken(w.recovery[id], now)];
    if id in w.records && w.records[id].state.Pending? {
      assert next.records == w.records[id := w.records[id].(nextRetryAt := now + 100)];
    } else {
      assert next.records == w.records;
    }
  }

  class CaptureSpool {
    const limits: Limits
    var records: map<DeliveryId, SpoolRow>
    var recovery: map<DeliveryId, RecoveryRow>
    var quarantine: map<DeliveryId, QuarantineRow>
    var counters: Counters
    var lastRecoveryRow: nat
    var lastQuarantineRow: nat

    function Tables(): Spool
      reads this
    {
      Spool(records, recovery, quarantine, counters, lastRecoveryRow, lastQuarantineRow)
    }

    constructor (maxActiveRecords: nat, maxActiveBytes: nat)
      ensures Tables() == EMPTY && limits == Limits(maxActiveRecords, maxActiveBytes)
    {
      limits := Limits(maxActiveRecords, maxActiveBytes);
      records, recovery, quarantine, counters := map[], map[], map[], Counters(0, 0, 0, 0);
      lastRecoveryRow, lastQuarantineRow := 0, 0;
    }

    method UsedBytes() returns (bytes: nat)
      ensures bytes == TotalBytes(records)
    {
      bytes := 0;
      var rest := records;
      while rest != map[]
        invariant bytes + TotalBytes(rest) == TotalBytes(records)
        decreases |rest|
      {
        var id :| id in rest;
        TotalBytesRemove(rest, id);
        bytes := bytes + rest[id].payloadBytes;
        rest := rest - {id};
      }
    }

    method Admit(id: DeliveryId, record: CaptureRecord, bytes: nat, now: int) returns (admission: Admission)
      modifies this
      ensures (Tables(), admission) ==
              SpoolTables.Admit(old(Tables()), limits, TotalBytes(old(records)), id, record, bytes, now)
    {
      if id in records {
        return Duplicate;
      }
      if id in recovery && Terminal(recovery[id].state) {
        return Duplicate;
      }
      var usedBytes := UsedBytes();
      if |records| >= limits.maxRecords || usedBytes + bytes > limits.maxBytes {
        counters := counters.(failedAdmission := counters.failedAdmission + 1);
        return CapacityExhausted;
      }
      if id in recovery {
        return KeyConflict;
      }
      records := records[id := SpoolRow(SPOOL_VERSION, Parsed(record, bytes), bytes, Pending, now, 0, now, None)];
      counters := counters.(admitted := counters.admitted + 1);
      lastRecoveryRow := lastRecoveryRow + 1;
      recovery := recovery[id := RecoveryRow(lastRecoveryRow, Eligible, UnknownLegacy, 1, 0, None, now)];
      return Admitted;
    }

    /** SELECT ... ORDER BY admitted_at, delivery_id LIMIT ? */
    method SelectClaimable(now: int, limit: nat) returns (batch: seq<DeliveryId>)
      ensures IsBatch(Tables(), now, limit, batch)
    {
      batch := [];
      var rest := set id | id in records && Claimable(Tables(), id, now);
      while rest != {} && |batch| < limit
        invariant |batch| <= limit
        invariant forall i :: 0 <= i < |batch| ==> Claimable(Tables(), batch[i], now)
        invariant forall i, j :: 0 <= i < j < |batch| ==> Before(Tables(), batch[i], batch[j])
        invariant rest <= records.Keys
        invariant forall id :: id in rest ==> Claimable(Tables(), id, now)
        invariant forall id :: id in records && Claimable(Tables(), id, now) && id !in batch ==> id in rest
        invariant forall i, id :: 0 <= i < |batch| && id in rest ==> Before(Tables(), batch[i], id)
        decreases rest
      {
        ghost var least := FirstExists(Tables(), rest);
        var first :|
          first in rest && forall other :: other in rest && other != first ==> Before(Tables(), first, other);
        batch := batch + [first];
        rest := rest - {first};
      }
    }

    method QuarantineRow(id: DeliveryId, code: QuarantineCode, reason: Reason, now: int)
      requires id in records
      modifies this
      ensures Tables() == SpoolTables.MoveToQuarantine(old(Tables()), id, code, reason, now)
    {
      hide NewestCopies;
      if id !in quarantine {
        lastQuarantineRow := lastQuarantineRow + 1;
        quarantine := quarantine[id := SpoolTables.QuarantineRow(lastQuarantineRow, records[id].payload, code, now)];
      }
      quarantine := NewestCopies(quarantine);
      records := records - {id};
      counters := counters.(quarantined := counters.quarantined + 1);
      if id in recovery {
        recovery := recovery[id := recovery[id].(state := Quarantined, reason := reason, updatedAt := now)];
      }
    }

    method ClaimSelected(id: DeliveryId, row: SpoolRow, now: int)
      requires id in records && records[id] == row
      modifies this
      ensures Tables() == SpoolTables.ClaimRow(old(Tables()), id, now)
    {
      if ParseRow(row).None? {
        if row.version == SPOOL_VERSION {
          QuarantineRow(id, Corrupt, MalformedRecord, now);
        } else {
          QuarantineRow(id, Unsupported, UnsupportedSchema, now);
        }
      } else {
        records := records[id := records[id].(state := Claimed, attempts := records[id].attempts + 1,
                                              leaseUntil := Some(now + LEASE_MS))];
        if id in recovery {
          recovery := recovery[id := recovery[id].(attempts := recovery[id].attempts + 1, updatedAt := now)];
        }
      }
    }

    /**
     * The rows that parse are handed out under a lease of thirty seconds; None when the limit is not between 1 and 100.
     */
    method Claim(now: int, limit: int) returns (claimed: Option<seq<ClaimedRecord>>)
      modifies this
      ensures claimed.None? <==> limit < 1 || limit > 100
      ensures claimed.None? ==> Tables() == old(Tables())
      ensures claimed.Some? ==> exists batch ::
        && IsBatch(BeforeClaim(old(Tables()), now), now, limit, batch)
        && Tables() == SpoolTables.Claim(old(Tables()), batch, now)
        && claimed.value == HandedOut(BeforeClaim(old(Tables()), now), batch)
    {
      if limit < 1 || limit > 100 {
        return None;
      }
      records := ExpireLeases(records, now);
      recovery := HoldExhausted(records, recovery, now);
      ghost var before := Tables();
      assert before == BeforeClaim(old(Tables()), now);
      var batch := SelectClaimable(now, limit);
      BatchIsValid(before, now, limit, batch);
      var selected := records;
      var handed: seq<ClaimedRecord> := [];
      for i := 0 to |batch|
        invariant Tables() == ClaimRows(before, batch[..i], now)
        invariant handed == HandedOut(before, batch[..i])
      {
        assert batch[..i + 1][..i] == batch[..i];
        ClaimRowsFrame(before, batch[..i], now, batch[i]);
        var row := selected[batch[i]];
        ClaimSelected(batch[i], row, now);
        if ParseRow(row).Some? {
          handed := handed + [ClaimedRecord(batch[i], ParseRow(row).value, row.attempts + 1, row.admittedAt)];
        }
      }
      assert batch[..|batch|] == batch;
      assert Tables() == SpoolTables.Claim(old(Tables()), batch, now);
      return Some(handed);
    }

    method PruneRecoveryHistory()
      modifies this`recovery
      ensures Tables() == SpoolTables.Prune(old(Tables()))
    {
      recovery := KeptHistory(records, recovery);
    }

    method Acknowledge(id: DeliveryId, committedAt: int)
      modifies this
      ensures Tables() == SpoolTables.Acknowledge(old(Tables()), id, committedAt)
    {
      if InState(Tables(), id, Claimed) {
        records := records - {id};
        counters := counters.(committed := counters.committed + 1);
        if id in recovery {
          recovery := recovery[id := recovery[id].(state := Committed, updatedAt := committedAt)];
        }
        if counters.committed % 256 == 0 {
          PruneRecoveryHistory();
        }
      }
    }

    method Retry(id: DeliveryId, now: int, reason: Reason)
      modifies this
      ensures Tables() == SpoolTables.Retry(old(Tables()), id, now, reason)
    {
      if !InState(Tables(), id, Claimed) {
        return;
      }
      var nextRetryAt := now + RetryDelay(records[id].attempts);
      records := records[id := records[id].(state := Pending, leaseUntil := None, nextRetryAt := nextRetryAt)];
      if id in recovery {
        var state := if recovery[id].attempts >= MAX_AUTOMATIC_ATTEMPTS then Held else Eligible;
        recovery := recovery[id := recovery[id].(state := state, reason := reason, updatedAt := now)];
      }
    }

    method WaitForDependency(id: DeliveryId, reason: Reason, key: DependencyKey, now: int)
      modifies this
      ensures Tables() == SpoolTables.WaitForDependency(old(Tables()), id, reason, key, now)
    {
      if InRecovery(Tables(), id, Eligible) {
        recovery := recovery[id := recovery[id].(
          state := WaitingDependency, reason := reason, dependencyKey := Some(key), updatedAt := now)];
      }
      if InState(Tables(), id, Claimed) {
        records := records[id := records[id].(state := Pending, leaseUntil := None)];
      }
    }

    /** The waiting rows are woken one by one; the count is the number of rows that waited on the key. */
    method ReleaseDependency(key: DependencyKey, now: int) returns (released: nat)
      modifies this
      ensures Tables() == SpoolTables.ReleaseDependency(old(Tables()), key, now)
      ensures released == |Waiting(old(Tables()), key)|
    {
      hide Wake, Woken;
      ghost var before := Tables();
      var waiting := Waiting(Tables(), key);
      var rest := waiting;
      WakeNone(before, now);
      assert waiting - rest == {};
      while rest != {}
        invariant rest <= waiting <= before.recovery.Keys
        invariant Tables() == Wake(before, waiting - rest, now)
        decreases rest
      {
        var id :| id in rest;
        WakeNext(before, waiting - rest, id, now);
        recovery := recovery[id := Woken(recovery[id], now)];
        if id in records && records[id].state.Pending? {
          records := records[id := records[id].(nextRetryAt := now + 100)];
        }
        assert waiting - (rest - {id}) == (waiting - rest) + {id};
        rest := rest - {id};
      }
      assert waiting - rest == waiting;
      return |waiting|;
    }

    method Quarantine(id: DeliveryId, code: QuarantineCode, now: int, reason: Reason)
      modifies this
      ensures Tables() == SpoolTables.Quarantine(old(Tables()), id, code, reason, now)
    {
      if id in records {
        QuarantineRow(id, code, reason, now);
        if counters.quarantined % 256 == 0 {
          PruneRecoveryHistory();
        }
      }
    }

    predicate HasEligiblePending()
      reads this
    {
      exists id :: id in records && records[id].state.Pending? && InRecovery(Tables(), id, Eligible)
    }
  }
}
