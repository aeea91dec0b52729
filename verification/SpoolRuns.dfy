/**
 * Runs of the spool under any interleaving of hooks, drainers (also stale ones) and recovery tools.
 * Every transaction is one step. A step that is rolled back, and a crash between two steps, leave no trace here.
 */
module SpoolRuns {
  import opened Prelude
  import opened CaptureRecords
  import opened SpoolTables
  import opened ClaimFacts
  import opened Recovery

  /**
   * The spool, and what its history determines: how many quarantined deliveries recovery put back, which deliveries
   * have been persisted to the experience store, and how often each retained delivery has been claimed.
   */
  datatype History = History(spool: Spool, requeued: nat, persisted: set<DeliveryId>, claims: map<DeliveryId, nat>)

  const START := History(EMPTY, 0, {}, map[])

  datatype Step =
    | DoAdmit(id: DeliveryId, record: CaptureRecord, bytes: nat, limits: Limits)
    | DoClaim(batch: seq<DeliveryId>, limit: nat)
    | DoPersist(id: DeliveryId)
    | DoAcknowledge(id: DeliveryId)
    | DoRetry(id: DeliveryId, reason: Reason)
    | DoWait(id: DeliveryId, reason: Reason, key: DependencyKey)
    | DoRelease(key: DependencyKey)
    | DoQuarantine(id: DeliveryId, code: QuarantineCode, reason: Reason)
    | DoRequeue(id: DeliveryId)

  datatype Action = Action(step: Step, now: int)

  /** A drainer acknowledges only what some drainer has persisted; recovery requeues only what its plan may select. */
  ghost predicate Enabled(h: History, a: Action) {
    match a.step
    case DoClaim(batch, limit) => limit <= 100 && IsBatch(BeforeClaim(h.spool, a.now), a.now, limit, batch)
    case DoAcknowledge(id) => id in h.persisted
    case DoRequeue(id) => Recoverable(h.spool, id)
    case _ => true
  }

  /** The deliveries of a batch that are handed to the drainer; the others do not parse and are quarantined. */
  ghost function Handed(s: Spool, batch: seq<DeliveryId>): set<DeliveryId> {
    set id | id in batch && id in s.records && ParseRow(s.records[id]).Some?
  }

  function Count(claims: map<DeliveryId, nat>, id: DeliveryId): nat {
    if id in claims then claims[id] else 0
  }

  ghost function CountClaims(claims: map<DeliveryId, nat>, handed: set<DeliveryId>): map<DeliveryId, nat> {
    map id | id in claims.Keys + handed :: Count(claims, id) + if id in handed then 1 else 0
  }

  ghost function Apply(h: History, a: Action): History
    requires Enabled(h, a)
  {
    match a.step
    case DoAdmit(id, record, bytes, limits) =>
      var (s, outcome) := Admit(h.spool, limits, TotalBytes(h.spool.records), id, record, bytes, a.now);
      h.(spool := s, claims := if outcome.Admitted? then h.claims[id := 0] else h.claims)
    case DoClaim(batch, limit) =>
      h.(spool := Claim(h.spool, batch, a.now), claims := CountClaims(h.claims, Handed(h.spool, batch)))
    case DoPersist(id) => h.(persisted := h.persisted + {id})
    case DoAcknowledge(id) => h.(spool := Acknowledge(h.spool, id, a.now))
    case DoRetry(id, reason) => h.(spool := Retry(h.spool, id, a.now, reason))
    case DoWait(id, reason, key) => h.(spool := WaitForDependency(h.spool, id, reason, key, a.now))
    case DoRelease(key) => h.(spool := ReleaseDependency(h.spool, key, a.now))
    case DoQuarantine(id, code, reason) => h.(spool := Quarantine(h.spool, id, code, reason, a.now))
    case DoRequeue(id) =>
      h.(spool := Requeue(h.spool, id, a.now),
         requeued := h.requeued + if h.spool.recovery[id].state.Quarantined? then 1 else 0)
  }

  // ---- the invariant ----

  /** The two state machines of one delivery are in step, and so are its budgets. */
  ghost predicate InvariantAt(h: History, id: DeliveryId) {
    var s := h.spool;
    && (id in s.records ==> id in s.recovery && !Terminal(s.recovery[id].state))
    && (id in s.recovery && id !in s.records ==> Terminal(s.recovery[id].state))
    && (InState(s, id, Claimed) ==> InRecovery(s, id, Eligible))
    && (InRecovery(s, id, Committed) ==> id in h.persisted)
    && (id in s.recovery ==>
          && s.recovery[id].generation >= 1 && s.recovery[id].attempts <= MAX_AUTOMATIC_ATTEMPTS
          && Count(h.claims, id) <= MAX_AUTOMATIC_ATTEMPTS * (s.recovery[id].generation - 1) + s.recovery[id].attempts)
    && (id in s.records && id in s.recovery ==> s.records[id].attempts >= s.recovery[id].attempts)
  }

  /** Every delivery that came in is pending, claimed, committed or quarantined. */
  ghost predicate Conserved(h: History) {
    var s := h.spool;
    s.counters.admitted + h.requeued == |s.records| + s.counters.committed + s.counters.quarantined
  }

  ghost predicate Invariant(h: History) {
    Conserved(h) && forall id :: InvariantAt(h, id)
  }

  // ---- every step keeps it ----

  /** Releasing expired leases and holding exhausted deliveries, the set-wide updates at the head of a claim. */
  lemma BeforeClaimKeeps(h: History, now: int)
    requires Invariant(h)
    ensures Invariant(h.(spool := BeforeClaim(h.spool, now)))
  {
    var t := BeforeClaim(h.spool, now);
    assert t.records.Keys == h.spool.records.Keys;
    forall id ensures InvariantAt(h.(spool := t), id) {
      assert InvariantAt(h, id);
    }
  }

  /** One delivery across a claim: either untouched after the set-wide updates, or in the batch. */
  lemma ClaimAcross(h: History, a: Action, id: DeliveryId)
    requires a.step.DoClaim? && Enabled(h, a)
    ensures var s := BeforeClaim(h.spool, a.now); var r := Apply(h, a).spool;
      if id in a.step.batch then Claimable(s, id, a.now) && ClaimedFrom(s, r, id, a.now) else SameRows(s, r, id)
  {
    var s := BeforeClaim(h.spool, a.now);
    BatchIsValid(s, a.now, a.step.limit, a.step.batch);
    if id in a.step.batch {
      ClaimRowsFacts(s, a.step.batch, a.now, id);
    } else {
      ClaimRowsFrame(s, a.step.batch, a.now, id);
    }
  }

  lemma ClaimKeeps(h: History, a: Action)
    requires Invariant(h) && a.step.DoClaim? && Enabled(h, a)
    ensures Invariant(Apply(h, a))
  {
    BeforeClaimKeeps(h, a.now);
    var s := BeforeClaim(h.spool, a.now);
    BatchIsValid(s, a.now, a.step.limit, a.step.batch);
    ClaimRowsTotals(s, a.step.batch, a.now);
    forall id ensures InvariantAt(Apply(h, a), id) {
      ClaimAcross(h, a, id);
      assert InvariantAt(h.(spool := s), id);
      assert id in Handed(h.spool, a.step.batch) <==> id in a.step.batch && ParseRow(s.records[id]).Some?;
    }
  }

  lemma PruneKeeps(h: History)
    requires Invariant(h)
    ensures Invariant(h.(spool := Prune(h.spool)))
  {
    forall id ensures InvariantAt(h.(spool := Prune(h.spool)), id) {
      assert InvariantAt(h, id);
    }
  }

  lemma AdmitKeeps(h: History, a: Action)
    requires Invariant(h) && a.step.DoAdmit?
    ensures Invariant(Apply(h, a))
  {
    forall id ensures InvariantAt(Apply(h, a), id) {
      assert InvariantAt(h, id) && InvariantAt(h, a.step.id);
    }
  }

  lemma AcknowledgeKeeps(h: History, a: Action)
    requires Invariant(h) && a.step.DoAcknowledge? && Enabled(h, a)
    ensures Invariant(Apply(h, a))
  {
    var s, id := h.spool, a.step.id;
    if InState(s, id, Claimed) {
      assert InvariantAt(h, id);
      var t := s.(
        records := s.records - {id},
        counters := s.counters.(committed := s.counters.committed + 1),
        recovery := s.recovery[id := s.recovery[id].(state := Committed, updatedAt := a.now)]);
      assert t.records.Keys == s.records.Keys - {id};
      forall other ensures InvariantAt(h.(spool := t), other) {
        assert InvariantAt(h, other);
      }
      PruneKeeps(h.(spool := t));
    }
  }

  /** A move to the quarantine ends the delivery and touches no other. */
  lemma MoveFacts(s: Spool, id: DeliveryId, code: QuarantineCode, reason: Reason, now: int)
    requires id in s.records && id in s.recovery
    ensures var t := MoveToQuarantine(s, id, code, reason, now);
      && t.records == s.records - {id}
      && t.recovery == s.recovery[id := s.recovery[id].(state := Quarantined, reason := reason, updatedAt := now)]
      && t.counters == s.counters.(quarantined := s.counters.quarantined + 1)
      && |t.records| == |s.records| - 1
  {
    assert (s.records - {id}).Keys == s.records.Keys - {id};
  }

  lemma RemovalKeeps(h: History, t: Spool, id: DeliveryId)
    requires Invariant(h) && id in h.spool.records && id in h.spool.recovery
    requires t.records == h.spool.records - {id} && |t.records| == |h.spool.records| - 1
    requires t.counters == h.spool.counters.(quarantined := h.spool.counters.quarantined + 1)
    requires exists row: RecoveryRow ::
      && t.recovery == h.spool.recovery[id := row] && row.state.Quarantined?
      && row.generation == h.spool.recovery[id].generation && row.attempts == h.spool.recovery[id].attempts
    ensures Invariant(h.(spool := t))
  {
    forall other ensures InvariantAt(h.(spool := t), other) {
      assert InvariantAt(h, other);
    }
  }

  lemma MovedKeeps(h: History, id: DeliveryId, code: QuarantineCode, reason: Reason, now: int)
    requires Invariant(h) && id in h.spool.records
    ensures Invariant(h.(spool := MoveToQuarantine(h.spool, id, code, reason, now)))
  {
    assert InvariantAt(h, id);
    MoveFacts(h.spool, id, code, reason, now);
    RemovalKeeps(h, MoveToQuarantine(h.spool, id, code, reason, now), id);
  }

  lemma QuarantineKeeps(h: History, a: Action)
    requires Invariant(h) && a.step.DoQuarantine?
    ensures Invariant(Apply(h, a))
  {
    if a.step.id in h.spool.records {
      MovedKeeps(h, a.step.id, a.step.code, a.step.reason, a.now);
      PruneKeeps(h.(spool := MoveToQuarantine(h.spool, a.step.id, a.step.code, a.step.reason, a.now)));
    }
  }

  lemma RequeueKeeps(h: History, a: Action)
    requires Invariant(h) && a.step.DoRequeue? && Enabled(h, a)
    ensures Invariant(Apply(h, a))
  {
    var id := a.step.id;
    forall other ensures InvariantAt(Apply(h, a), other) {
      assert InvariantAt(h, other) && InvariantAt(h, id);
    }
  }

  /** Retry, waiting and waking move rows between states without adding or removing any. */
  lemma MoveKeeps(h: History, a: Action)
    requires Invariant(h) && (a.step.DoRetry? || a.step.DoWait? || a.step.DoRelease?)
    ensures Invariant(Apply(h, a))
  {
    var k := Apply(h, a);
    assert k.spool.records.Keys == h.spool.records.Keys;
    forall id ensures InvariantAt(k, id) {
      assert InvariantAt(h, id);
    }
  }

  lemma StepKeeps(h: History, a: Action)
    requires Invariant(h) && Enabled(h, a)
    ensures Invariant(Apply(h, a))
  {
    match a.step
    case DoAdmit(_, _, _, _) => AdmitKeeps(h, a);
    case DoClaim(_, _) => ClaimKeeps(h, a);
    case DoPersist(_) => forall id ensures InvariantAt(Apply(h, a), id) { assert InvariantAt(h, id); }
    case DoAcknowledge(_) => AcknowledgeKeeps(h, a);
    case DoRetry(_, _) => MoveKeeps(h, a);
    case DoWait(_, _, _) => MoveKeeps(h, a);
    case DoRelease(_) => MoveKeeps(h, a);
    case DoQuarantine(_, _, _) => QuarantineKeeps(h, a);
    case DoRequeue(_) => RequeueKeeps(h, a);
  }

  // ---- runs ----

  /** The states of a run from the empty spool; state k+1 is what action k leaves of state k. */
  ghost predicate IsRun(hs: seq<History>, actions: seq<Action>) {
    && |hs| == |actions| + 1
    && hs[0] == START
    && forall k :: 0 <= k < |actions| ==> Enabled(hs[k], actions[k]) && hs[k + 1] == Apply(hs[k], actions[k])
  }

  lemma {:induction false} InvariantHolds(hs: seq<History>, actions: seq<Action>, k: nat)
    requires IsRun(hs, actions) && k < |hs|
    ensures Invariant(hs[k])
  {
    if k > 0 {
      InvariantHolds(hs, actions, k - 1);
      StepKeeps(hs[k - 1], actions[k - 1]);
    }
  }

  ghost function StateIds(s: Spool, state: RecordState): set<DeliveryId> {
    set id | id in s.records && s.records[id].state == state
  }

  /** Nothing is lost and nothing is counted twice, in any state of any run. */
  lemma Accounting(hs: seq<History>, actions: seq<Action>, k: nat)
    requires IsRun(hs, actions) && k < |hs|
    ensures var s := hs[k].spool;
      s.counters.admitted + hs[k].requeued
        == |StateIds(s, Pending)| + |StateIds(s, Claimed)| + s.counters.committed + s.counters.quarantined
    ensures var s := hs[k].spool;
      forall id ::
        && (id in s.records <==>
            InRecovery(s, id, Eligible) || InRecovery(s, id, WaitingDependency) || InRecovery(s, id, Held))
        && (InState(s, id, Claimed) ==> InRecovery(s, id, Eligible))
        && (id in s.recovery && id !in s.records ==> InRecovery(s, id, Committed) || InRecovery(s, id, Quarantined))
        && (InRecovery(s, id, Committed) ==> id in hs[k].persisted)
  {
    InvariantHolds(hs, actions, k);
    var s := hs[k].spool;
    assert s.records.Keys == StateIds(s, Pending) + StateIds(s, Claimed);
    forall id
      ensures id in s.records <==>
              InRecovery(s, id, Eligible) || InRecovery(s, id, WaitingDependency) || InRecovery(s, id, Held)
      ensures InState(s, id, Claimed) ==> InRecovery(s, id, Eligible)
      ensures id in s.recovery && id !in s.records ==> InRecovery(s, id, Committed) || InRecovery(s, id, Quarantined)
      ensures InRecovery(s, id, Committed) ==> id in hs[k].persisted
    {
      assert InvariantAt(hs[k], id);
    }
  }

  // ---- generations, and what is terminal ----

  /** The recovery row of the delivery is there from state i to state k, so pruning has not forgotten it. */
  ghost predicate Retained(hs: seq<History>, id: DeliveryId, i: nat, k: nat)
    requires k < |hs|
  {
    forall j :: i <= j <= k ==> id in hs[j].spool.recovery
  }

  /** What a transaction may do to a recovery row that it keeps. */
  ghost predicate RowEvolves(s: Spool, r: Spool, id: DeliveryId) {
    id in s.recovery && id in r.recovery ==>
      && r.recovery[id].generation >= s.recovery[id].generation
      && (s.recovery[id].state.Committed? ==> r.recovery[id] == s.recovery[id])
  }

  lemma QuarantineEvolves(s: Spool, q: DeliveryId, code: QuarantineCode, reason: Reason, now: int, id: DeliveryId)
    requires q in s.records ==> q in s.recovery && !Terminal(s.recovery[q].state)
    ensures RowEvolves(s, Quarantine(s, q, code, reason, now), id)
  {
    if q in s.records {
      MoveFacts(s, q, code, reason, now);
    }
  }

  lemma StepEvolves(h: History, a: Action, id: DeliveryId)
    requires Invariant(h) && Enabled(h, a)
    ensures RowEvolves(h.spool, Apply(h, a).spool, id)
  {
    assert InvariantAt(h, id);
    match a.step
    case DoClaim(_, _) => ClaimAcross(h, a, id);
    case DoQuarantine(q, code, reason) =>
      assert InvariantAt(h, q);
      QuarantineEvolves(h.spool, q, code, reason, a.now, id);
    case DoAcknowledge(q) => assert InvariantAt(h, q);
    case DoRequeue(_) =>
    case DoAdmit(_, _, _, _) =>
    case DoPersist(_) =>
    case DoRetry(_, _) =>
    case DoWait(_, _, _) =>
    case DoRelease(_) =>
  }

  lemma {:induction false} Evolves(hs: seq<History>, actions: seq<Action>, id: DeliveryId, i: nat, k: nat)
    requires IsRun(hs, actions) && i <= k < |hs| && Retained(hs, id, i, k)
    ensures hs[k].spool.recovery[id].generation >= hs[i].spool.recovery[id].generation
    ensures InRecovery(hs[i].spool, id, Committed) ==> hs[k].spool.recovery[id] == hs[i].spool.recovery[id]
    decreases k
  {
    hide Apply;
    if i < k {
      Evolves(hs, actions, id, i, k - 1);
      InvariantHolds(hs, actions, k - 1);
      assert id in hs[k - 1].spool.recovery && id in hs[k].spool.recovery;
      assert hs[k] == Apply(hs[k - 1], actions[k - 1]);
      StepEvolves(hs[k - 1], actions[k - 1], id);
    }
  }

  /** Once committed, a retained delivery stays committed, and its effect stays in the experience store. */
  lemma CommittedIsTerminal(hs: seq<History>, actions: seq<Action>, id: DeliveryId, i: nat, k: nat)
    requires IsRun(hs, actions) && i <= k < |hs| && Retained(hs, id, i, k)
    requires InRecovery(hs[i].spool, id, Committed)
    ensures InRecovery(hs[k].spool, id, Committed) && id !in hs[k].spool.records && id in hs[k].persisted
  {
    Evolves(hs, actions, id, i, k);
    Accounting(hs, actions, k);
    assert InRecovery(hs[k].spool, id, Committed);
  }

  /** A selection that has been requeued once is never current again, whatever the applied-plan ledger has forgotten. */
  lemma SecondRequeueBlocked(hs: seq<History>, actions: seq<Action>, selection: Selection, i: nat, k: nat,
    experience: Experience, repositoryId: string)
    requires IsRun(hs, actions) && i < k < |hs| && Retained(hs, selection.id, i, k)
    requires actions[i].step == DoRequeue(selection.id)
    requires SelectionFor(CandidateOf(hs[i].spool, selection.id)) == selection
    ensures !Current(hs[k].spool, experience, repositoryId, selection)
  {
    Evolves(hs, actions, selection.id, i + 1, k);
  }

  // ---- how often, and how close together, one delivery is claimed ----

  ghost predicate HandedAt(hs: seq<History>, actions: seq<Action>, id: DeliveryId, k: nat)
    requires |hs| == |actions| + 1 && k < |actions|
  {
    actions[k].step.DoClaim? && id in Handed(hs[k].spool, actions[k].step.batch)
  }

  /** The claims in steps from .. to that hand the delivery to a drainer. */
  ghost function TimesHanded(hs: seq<History>, actions: seq<Action>, id: DeliveryId, from: nat, to: nat): nat
    requires |hs| == |actions| + 1 && from <= to <= |actions|
  {
    if from == to then 0 else
      TimesHanded(hs, actions, id, from, to - 1) + if HandedAt(hs, actions, id, to - 1) then 1 else 0
  }

  lemma StepCounts(h: History, a: Action, id: DeliveryId)
    requires Enabled(h, a) && id in h.spool.recovery
    ensures Count(Apply(h, a).claims, id)
      == Count(h.claims, id) + if a.step.DoClaim? && id in Handed(h.spool, a.step.batch) then 1 else 0
  {
  }

  lemma {:induction false} TimesHandedIsCounted(hs: seq<History>, actions: seq<Action>, id: DeliveryId, from: nat,
                                                to: nat)
    requires IsRun(hs, actions) && from <= to <= |actions| && Retained(hs, id, from, to)
    ensures TimesHanded(hs, actions, id, from, to) == Count(hs[to].claims, id) - Count(hs[from].claims, id)
  {
    hide Apply;
    if from < to {
      TimesHandedIsCounted(hs, actions, id, from, to - 1);
      assert id in hs[to - 1].spool.recovery;
      assert hs[to] == Apply(hs[to - 1], actions[to - 1]);
      StepCounts(hs[to - 1], actions[to - 1], id);
    }
  }

  /**
   * A delivery admitted in state `from` (its row is new there) is handed out at most four times in each generation,
   * however often its budget was reset by a wake-up or by recovery.
   */
  lemma ClaimsPerGeneration(hs: seq<History>, actions: seq<Action>, id: DeliveryId, from: nat, to: nat)
    requires IsRun(hs, actions) && 0 < from <= to <= |actions| && Retained(hs, id, from, to)
    requires id !in hs[from - 1].spool.recovery
    ensures TimesHanded(hs, actions, id, from, to) <= MAX_AUTOMATIC_ATTEMPTS * hs[to].spool.recovery[id].generation
    ensures id in hs[to].spool.records ==> hs[to].spool.records[id].attempts >= hs[to].spool.recovery[id].attempts
  {
    TimesHandedIsCounted(hs, actions, id, from, to);
    InvariantHolds(hs, actions, to);
    assert InvariantAt(hs[to], id);
  }

  /** The step gives the delivery back, or ends it, before its lease is over. */
  ghost predicate Frees(s: Spool, step: Step, id: DeliveryId) {
    match step
    case DoRetry(i, _) => i == id && InState(s, id, Claimed)
    case DoWait(i, _, _) => i == id && InState(s, id, Claimed)
    case DoAcknowledge(i) => i == id && InState(s, id, Claimed)
    case DoQuarantine(i, _, _) => i == id && id in s.records
    case _ => false
  }

  /** Claimed at time t and not given back: still under a lease of that length. */
  ghost predicate Leased(s: Spool, id: DeliveryId, t: int) {
    InState(s, id, Claimed) && ParseRow(s.records[id]).Some?
    && s.records[id].leaseUntil.Some? && s.records[id].leaseUntil.value >= t + LEASE_MS
  }

  /** Only a claim that reads a clock past the lease takes the delivery out of it. */
  lemma LeaseStep(h: History, a: Action, id: DeliveryId, t: int)
    requires Invariant(h) && Enabled(h, a) && Leased(h.spool, id, t) && !Frees(h.spool, a.step, id)
    ensures Leased(Apply(h, a).spool, id, t) || (a.step.DoClaim? && a.now - t >= LEASE_MS)
    ensures a.step.DoClaim? && id in Handed(h.spool, a.step.batch) ==> a.now - t >= LEASE_MS
  {
    assert InvariantAt(h, id);
    if a.step.DoClaim? {
      ClaimAcross(h, a, id);
    } else if a.step.DoQuarantine? && a.step.id in h.spool.records {
      assert InvariantAt(h, a.step.id);
      MoveFacts(h.spool, a.step.id, a.step.code, a.step.reason, a.now);
    }
  }

  /** Some claim after step i, at step k at the latest, read a clock at least a lease after that of step i. */
  ghost predicate LeaseRanOut(actions: seq<Action>, i: nat, k: nat)
    requires i <= k < |actions|
  {
    exists m :: i < m <= k && actions[m].step.DoClaim? && actions[m].now - actions[i].now >= LEASE_MS
  }

  lemma {:induction false} LeaseRun(hs: seq<History>, actions: seq<Action>, id: DeliveryId, i: nat, k: nat)
    requires IsRun(hs, actions) && i <= k < |actions| && HandedAt(hs, actions, id, i)
    requires forall m :: i < m <= k ==> !Frees(hs[m].spool, actions[m].step, id)
    ensures LeaseRanOut(actions, i, k) || Leased(hs[k + 1].spool, id, actions[i].now)
  {
    if k == i {
      ClaimAcross(hs[i], actions[i], id);
    } else {
      LeaseRun(hs, actions, id, i, k - 1);
      if !LeaseRanOut(actions, i, k - 1) {
        InvariantHolds(hs, actions, k);
        LeaseStep(hs[k], actions[k], id, actions[i].now);
      } else {
        var m :| i < m <= k - 1 && actions[m].step.DoClaim? && actions[m].now - actions[i].now >= LEASE_MS;
      }
    }
  }

  /**
   * Claim exclusion: between two claims of one delivery, with no retry, wait, acknowledgement or quarantine of it in
   * between, some claim (the second at the latest) reads a clock at least the length of a lease after the first.
   */
  lemma ClaimsApart(hs: seq<History>, actions: seq<Action>, id: DeliveryId, i: nat, k: nat)
    requires IsRun(hs, actions) && i < k < |actions|
    requires HandedAt(hs, actions, id, i) && HandedAt(hs, actions, id, k)
    requires forall m :: i < m < k ==> !Frees(hs[m].spool, actions[m].step, id)
    ensures LeaseRanOut(actions, i, k)
  {
    LeaseRun(hs, actions, id, i, k - 1);
    if LeaseRanOut(actions, i, k - 1) {
      var m :| i < m <= k - 1 && actions[m].step.DoClaim? && actions[m].now - actions[i].now >= LEASE_MS;
    } else {
      InvariantHolds(hs, actions, k);
      LeaseStep(hs[k], actions[k], id, actions[i].now);
    }
  }

  /** So two such claims are at least a lease apart when the clock did not run backwards in between. */
  lemma ClaimsApartInTime(hs: seq<History>, actions: seq<Action>, id: DeliveryId, i: nat, k: nat)
    requires IsRun(hs, actions) && i < k < |actions|
    requires HandedAt(hs, actions, id, i) && HandedAt(hs, actions, id, k)
    requires forall m :: i < m < k ==> !Frees(hs[m].spool, actions[m].step, id)
    requires forall m :: i < m < k ==> actions[m].now <= actions[k].now
    ensures actions[k].now - actions[i].now >= LEASE_MS
  {
    ClaimsApart(hs, actions, id, i, k);
  }
}
