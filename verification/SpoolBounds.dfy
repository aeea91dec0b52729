/**
 * Bounds that runs of the spool keep (src/capture/spool.ts): its capacity, the budgets and leases after a claim, and
 * the delay between a retry and the next claim.
 */
module SpoolBounds {
  import opened Prelude
  import opened CaptureRecords
  import opened SpoolTables
  import opened ClaimFacts
  import opened Recovery
  import opened SpoolRuns

  // ---- admission ----

  /** In every reachable state a delivery is refused as a duplicate if and only if its recovery row is retained. */
  lemma DuplicatesAreSuppressed(hs: seq<History>, actions: seq<Action>, k: nat, limits: Limits, id: DeliveryId,
      record: CaptureRecord, bytes: nat, now: int)
    requires IsRun(hs, actions) && k < |hs|
    ensures var s := hs[k].spool;
      var outcome := Admit(s, limits, TotalBytes(s.records), id, record, bytes, now);
      && (id in s.recovery <==> outcome == (s, Duplicate))
      && outcome.1 != KeyConflict
  {
    InvariantHolds(hs, actions, k);
    assert InvariantAt(hs[k], id);
  }

  // ---- capacity ----

  /** The rows of the first table are rows of the second, with payloads of the same size. */
  ghost predicate NoMoreRows(a: map<DeliveryId, SpoolRow>, b: map<DeliveryId, SpoolRow>) {
    forall id :: id in a ==> id in b && a[id].payloadBytes == b[id].payloadBytes
  }

  lemma {:induction false} NoMoreBytes(a: map<DeliveryId, SpoolRow>, b: map<DeliveryId, SpoolRow>)
    requires NoMoreRows(a, b)
    ensures |a| <= |b| && TotalBytes(a) <= TotalBytes(b)
    decreases |b|
  {
    assert a.Keys <= b.Keys;
    SubsetSize(a.Keys, b.Keys);
    if b == map[] {
      assert a == map[];
    } else {
      var id :| id in b;
      TotalBytesRemove(b, id);
      NoMoreBytes(a - {id}, b - {id});
      if id in a {
        TotalBytesRemove(a, id);
      } else {
        assert a - {id} == a;
      }
    }
  }

  /** Neither an admission nor a requeue: no row is added and no payload grows. */
  lemma StepAddsNothing(h: History, a: Action)
    requires Invariant(h) && Enabled(h, a) && !a.step.DoAdmit? && !a.step.DoRequeue?
    ensures NoMoreRows(Apply(h, a).spool.records, h.spool.records)
  {
    var t := Apply(h, a).spool;
    forall id | id in t.records
      ensures id in h.spool.records && t.records[id].payloadBytes == h.spool.records[id].payloadBytes
    {
      RowStays(h, a, id);
    }
  }

  lemma RowStays(h: History, a: Action, id: DeliveryId)
    requires Invariant(h) && Enabled(h, a) && !a.step.DoAdmit? && !a.step.DoRequeue? && id in Apply(h, a).spool.records
    ensures id in h.spool.records && Apply(h, a).spool.records[id].payloadBytes == h.spool.records[id].payloadBytes
  {
    assert InvariantAt(h, id);
    if a.step.DoClaim? {
      ClaimAcross(h, a, id);
    } else if a.step.DoQuarantine? && a.step.id in h.spool.records {
      assert InvariantAt(h, a.step.id);
      MoveFacts(h.spool, a.step.id, a.step.code, a.step.reason, a.now);
    }
  }

  lemma BytesOfInsertion(records: map<DeliveryId, SpoolRow>, id: DeliveryId, row: SpoolRow)
    requires id !in records
    ensures TotalBytes(records[id := row]) == TotalBytes(records) + row.payloadBytes
    ensures |records[id := row]| == |records| + 1
  {
    TotalBytesRemove(records[id := row], id);
    assert records[id := row] - {id} == records;
  }

  lemma AdmitFits(h: History, a: Action, limits: Limits)
    requires Enabled(h, a) && a.step.DoAdmit? && a.step.limits == limits
    requires |h.spool.records| <= limits.maxRecords && TotalBytes(h.spool.records) <= limits.maxBytes
    ensures |Apply(h, a).spool.records| <= limits.maxRecords && TotalBytes(Apply(h, a).spool.records) <= limits.maxBytes
  {
    hide TotalBytes;
    if a.step.id !in h.spool.records {
      var row := SpoolRow(SPOOL_VERSION, Parsed(a.step.record, a.step.bytes), a.step.bytes, Pending, a.now, 0, a.now,
                          None);
      BytesOfInsertion(h.spool.records, a.step.id, row);
    }
  }

  /** Without recovery the spool never exceeds its capacity, in records or in bytes. */
  lemma {:induction false} CapacityHolds(hs: seq<History>, actions: seq<Action>, limits: Limits, k: nat)
    requires IsRun(hs, actions) && k < |hs|
    requires forall a :: a in actions ==> !a.step.DoRequeue? && (a.step.DoAdmit? ==> a.step.limits == limits)
    ensures |hs[k].spool.records| <= limits.maxRecords && TotalBytes(hs[k].spool.records) <= limits.maxBytes
  {
    hide Apply;
    if k == 0 {
      assert hs[0] == START;
    } else {
      CapacityHolds(hs, actions, limits, k - 1);
      InvariantHolds(hs, actions, k - 1);
      var a := actions[k - 1];
      assert a in actions && Enabled(hs[k - 1], a) && hs[k] == Apply(hs[k - 1], a);
      if a.step.DoAdmit? {
        AdmitFits(hs[k - 1], a, limits);
      } else {
        StepAddsNothing(hs[k - 1], a);
        NoMoreBytes(hs[k].spool.records, hs[k - 1].spool.records);
      }
    }
  }

  // ---- after a claim ----

  /** After a claim nothing pending is eligible without a budget, and no lease has run out. */
  lemma ClaimSettles(h: History, a: Action, id: DeliveryId)
    requires Invariant(h) && Enabled(h, a) && a.step.DoClaim?
    ensures var t := Apply(h, a).spool;
      && (InState(t, id, Pending) && InRecovery(t, id, Eligible) ==> t.recovery[id].attempts < MAX_AUTOMATIC_ATTEMPTS)
      && (InState(t, id, Claimed) && t.records[id].leaseUntil.Some? ==> t.records[id].leaseUntil.value > a.now)
  {
    assert InvariantAt(h, id);
    ClaimAcross(h, a, id);
  }

  // ---- after a retry ----

  /** The delivery gets a new retry time other than by a retry. */
  ghost predicate Reschedules(s: Spool, step: Step, id: DeliveryId) {
    match step
    case DoRelease(key) => WaitsOn(s, id, key)
    case DoRequeue(i) => i == id
    case _ => false
  }

  ghost predicate NotBefore(s: Spool, id: DeliveryId, due: int) {
    id in s.records ==> s.records[id].state == Pending && s.records[id].nextRetryAt == due
  }

  lemma BackOffClaim(h: History, a: Action, id: DeliveryId, due: int)
    requires Invariant(h) && Enabled(h, a) && id in h.spool.recovery && NotBefore(h.spool, id, due) && a.step.DoClaim?
    ensures id in Handed(h.spool, a.step.batch) ==> a.now >= due
    ensures id !in Handed(h.spool, a.step.batch) ==> NotBefore(Apply(h, a).spool, id, due)
  {
    hide ClaimRows, CountClaims, IsBatch;
    assert InvariantAt(h, id);
    ClaimAcross(h, a, id);
  }

  lemma BackOffStep(h: History, a: Action, id: DeliveryId, due: int)
    requires Invariant(h) && Enabled(h, a) && id in h.spool.recovery && NotBefore(h.spool, id, due)
             && !Reschedules(h.spool, a.step, id)
    ensures a.step.DoClaim? && id in Handed(h.spool, a.step.batch) ==> a.now >= due
    ensures !(a.step.DoClaim? && id in Handed(h.spool, a.step.batch)) ==> NotBefore(Apply(h, a).spool, id, due)
  {
    hide Handed, ClaimRows, BeforeClaim, IsBatch;
    if a.step.DoClaim? {
      BackOffClaim(h, a, id, due);
    } else if a.step.DoQuarantine? && a.step.id in h.spool.records {
      assert InvariantAt(h, a.step.id);
      MoveFacts(h.spool, a.step.id, a.step.code, a.step.reason, a.now);
    } else {
      assert InvariantAt(h, id);
    }
  }

  lemma {:induction false} BackOffRun(hs: seq<History>, actions: seq<Action>, id: DeliveryId, i: nat, k: nat, due: int)
    requires IsRun(hs, actions) && i <= k < |hs| && Retained(hs, id, i, k) && NotBefore(hs[i].spool, id, due)
    requires forall m :: i <= m < k ==> !Reschedules(hs[m].spool, actions[m].step, id) && !HandedAt(hs, actions, id, m)
    ensures NotBefore(hs[k].spool, id, due)
  {
    hide Apply, NotBefore;
    if i < k {
      BackOffRun(hs, actions, id, i, k - 1, due);
      InvariantHolds(hs, actions, k - 1);
      assert id in hs[k - 1].spool.recovery && !HandedAt(hs, actions, id, k - 1);
      assert hs[k] == Apply(hs[k - 1], actions[k - 1]);
      BackOffStep(hs[k - 1], actions[k - 1], id, due);
    }
  }

  /**
   * A retried delivery is not claimed again before its delay is over, unless a wake-up or recovery reschedules it. The
   * delay doubles with every attempt, from a tenth of a second up to half a minute.
   */
  lemma RetriesBackOff(hs: seq<History>, actions: seq<Action>, id: DeliveryId, i: nat, k: nat)
    requires IsRun(hs, actions) && i < k < |actions| && Retained(hs, id, i, k)
    requires actions[i].step.DoRetry? && actions[i].step.id == id && InState(hs[i].spool, id, Claimed)
    requires HandedAt(hs, actions, id, k)
    requires forall m :: i < m < k ==> !HandedAt(hs, actions, id, m)
    requires forall m :: i < m < k ==> !Reschedules(hs[m].spool, actions[m].step, id)
    ensures actions[k].now - actions[i].now >= RetryDelay(hs[i].spool.records[id].attempts)
  {
    var due := actions[i].now + RetryDelay(hs[i].spool.records[id].attempts);
    assert hs[i + 1] == Apply(hs[i], actions[i]);
    assert NotBefore(hs[i + 1].spool, id, due);
    assert Retained(hs, id, i + 1, k);
    BackOffRun(hs, actions, id, i + 1, k, due);
    InvariantHolds(hs, actions, k);
    assert id in hs[k].spool.recovery;
    BackOffStep(hs[k], actions[k], id, due);
  }

  lemma {:induction false} DelayDoubles(attempts: nat)
    requires attempts > 0
    ensures RetryDelay(0) == RetryDelay(1) == 100
    ensures RetryDelay(attempts + 1) == if 2 * RetryDelay(attempts) < 30_000 then 2 * RetryDelay(attempts) else 30_000
    ensures 100 <= RetryDelay(attempts) <= 30_000
  {
    if attempts > 1 {
      DelayDoubles(attempts - 1);
    }
  }
}
