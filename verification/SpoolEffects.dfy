/**
 * What the transactions of the spool achieve for their delivery (src/capture/spool.ts): who is handed out and when, who
 * is held, who waits and who is woken. Budgets and leases are written out here as the numbers that they are.
 */
module SpoolEffects {
  import opened Prelude
  import opened CaptureRecords
  import opened SpoolTables
  import opened ClaimFacts
  import opened Recovery
  import opened SpoolRuns

  /** The delivery is pending and eligible, parses, was handed out n < 4 times in its generation and is due then. */
  ghost predicate IsDue(s: Spool, id: DeliveryId, due: int, n: nat) {
    && id in s.records && s.records[id].state.Pending? && s.records[id].nextRetryAt == due
    && ParseRow(s.records[id]).Some?
    && id in s.recovery && s.recovery[id].state.Eligible? && s.recovery[id].attempts == n < 4
  }

  // ---- admission ----

  /** A new delivery is taken in if and only if it fits; it is due at once. Otherwise only the failure is counted. */
  lemma AdmissionIsDecided(h: History, limits: Limits, id: DeliveryId, record: CaptureRecord, bytes: nat, now: int)
    requires Invariant(h) && id !in h.spool.recovery
    ensures var s := h.spool;
      var (t, outcome) := Admit(s, limits, TotalBytes(s.records), id, record, bytes, now);
      if |s.records| < limits.maxRecords && TotalBytes(s.records) + bytes <= limits.maxBytes then
        && outcome == Admitted && IsDue(t, id, now, 0) && ParseRow(t.records[id]) == Some(record)
        && t.recovery[id].generation == 1 && t.records[id].admittedAt == now
        && t.counters.admitted == s.counters.admitted + 1
        && forall other :: other != id ==> SameRows(s, t, other)
      else
        && outcome == CapacityExhausted && t.records == s.records && t.recovery == s.recovery
        && t.counters == s.counters.(failedAdmission := s.counters.failedAdmission + 1)
  {
    assert InvariantAt(h, id);
  }

  // ---- claims ----

  /** A due delivery is handed out, unless the batch is full of deliveries that came in before it. */
  lemma DueIsHandedOut(h: History, a: Action, id: DeliveryId, due: int, n: nat)
    requires Invariant(h) && Enabled(h, a) && a.step.DoClaim? && IsDue(h.spool, id, due, n) && due <= a.now
    ensures var s, t, batch := h.spool, Apply(h, a).spool, a.step.batch;
      if id in batch then
        && id in Handed(s, batch) && InState(t, id, Claimed) && t.records[id].leaseUntil == Some(a.now + 30_000)
        && id in t.recovery && t.recovery[id].attempts == n + 1
        && t.records[id].attempts == s.records[id].attempts + 1
      else
        |batch| == a.step.limit && forall first :: first in batch ==>
          && first in s.records
          && (|| s.records[first].admittedAt < s.records[id].admittedAt
              || (s.records[first].admittedAt == s.records[id].admittedAt && first < id))
  {
    var s := BeforeClaim(h.spool, a.now);
    assert InvariantAt(h, id);
    assert SameRows(h.spool, s, id);
    ClaimAcross(h, a, id);
    if id !in a.step.batch {
      forall first | first in a.step.batch ensures Before(s, first, id) && first in h.spool.records {
        var i :| 0 <= i < |a.step.batch| && a.step.batch[i] == first;
      }
    }
  }

  /** Only pending or lapsed deliveries that are eligible, have budget left and are due are handed out. */
  lemma HandedOutWasDue(h: History, a: Action, id: DeliveryId)
    requires Invariant(h) && Enabled(h, a) && a.step.DoClaim? && id in Handed(h.spool, a.step.batch)
    ensures var s := h.spool;
      && InRecovery(s, id, Eligible) && s.recovery[id].attempts < 4 && s.records[id].nextRetryAt <= a.now
      && (s.records[id].state.Pending? || (s.records[id].leaseUntil.Some? && s.records[id].leaseUntil.value <= a.now))
  {
    assert InvariantAt(h, id);
    ClaimAcross(h, a, id);
  }

  /** A claimed delivery whose lease has run out is given back by the next claim: due as before, or held. */
  lemma LapsedComesBack(h: History, now: int, id: DeliveryId)
    requires Invariant(h) && InState(h.spool, id, Claimed) && ParseRow(h.spool.records[id]).Some?
    requires h.spool.records[id].leaseUntil.Some? && h.spool.records[id].leaseUntil.value <= now
    ensures var s, t := h.spool, BeforeClaim(h.spool, now);
      id in s.recovery &&
      if s.recovery[id].attempts < 4 then IsDue(t, id, s.records[id].nextRetryAt, s.recovery[id].attempts)
      else InState(t, id, Pending) && InRecovery(t, id, Held) && t.recovery[id].reason == StorageUnavailable
  {
    assert InvariantAt(h, id);
  }

  /** So the next claim that reads the clock past its lease hands a lapsed delivery out again. */
  lemma LapsedIsHandedOut(h: History, a: Action, id: DeliveryId)
    requires Invariant(h) && Enabled(h, a) && a.step.DoClaim? && |a.step.batch| < a.step.limit
    requires InState(h.spool, id, Claimed) && ParseRow(h.spool.records[id]).Some?
    requires id in h.spool.recovery && h.spool.recovery[id].attempts < 4
    requires h.spool.records[id].leaseUntil.Some? && h.spool.records[id].leaseUntil.value <= a.now
    requires h.spool.records[id].nextRetryAt <= a.now
    ensures id in Handed(h.spool, a.step.batch)
  {
    var s := BeforeClaim(h.spool, a.now);
    LapsedComesBack(h, a.now, id);
    ClaimAcross(h, a, id);
    assert Claimable(s, id, a.now);
  }

  /** A claim leaves a lease that has not run out alone. */
  lemma LeasedIsLeftAlone(h: History, a: Action, id: DeliveryId)
    requires Invariant(h) && Enabled(h, a) && a.step.DoClaim? && InState(h.spool, id, Claimed)
    requires h.spool.records[id].leaseUntil.None? || h.spool.records[id].leaseUntil.value > a.now
    ensures SameRows(h.spool, Apply(h, a).spool, id)
  {
    assert InvariantAt(h, id);
    ClaimAcross(h, a, id);
  }

  // ---- from one claim to the next ----

  /** A delivery stays due until it is handed out, unless a stale drainer lets it wait or quarantines it. */
  ghost predicate Disturbs(step: Step, id: DeliveryId) {
    (step.DoWait? || step.DoQuarantine?) && step.id == id
  }

  lemma DueStays(h: History, a: Action, id: DeliveryId, due: int, n: nat)
    requires Invariant(h) && Enabled(h, a) && IsDue(h.spool, id, due, n) && !Disturbs(a.step, id)
    requires !(a.step.DoClaim? && id in Handed(h.spool, a.step.batch))
    ensures IsDue(Apply(h, a).spool, id, due, n)
  {
    assert InvariantAt(h, id);
    match a.step
    case DoClaim(_, _) => ClaimAcross(h, a, id);
    case DoQuarantine(q, code, reason) =>
      assert InvariantAt(h, q);
      if q in h.spool.records { MoveFacts(h.spool, q, code, reason, a.now); }
    case DoAdmit(_, _, _, _) =>
    case DoPersist(_) =>
    case DoAcknowledge(_) =>
    case DoRetry(_, _) =>
    case DoWait(_, _, _) =>
    case DoRelease(_) =>
    case DoRequeue(_) =>
  }

  lemma {:induction false} DueStaysInRuns(hs: seq<History>, actions: seq<Action>, id: DeliveryId, i: nat, k: nat,
      due: int, n: nat)
    requires IsRun(hs, actions) && i <= k < |hs| && IsDue(hs[i].spool, id, due, n)
    requires forall m :: i <= m < k ==> !Disturbs(actions[m].step, id) && !HandedAt(hs, actions, id, m)
    ensures IsDue(hs[k].spool, id, due, n)
  {
    hide Apply, IsDue, Handed;
    if i < k {
      DueStaysInRuns(hs, actions, id, i, k - 1, due, n);
      InvariantHolds(hs, actions, k - 1);
      assert !Disturbs(actions[k - 1].step, id) && !HandedAt(hs, actions, id, k - 1);
      assert hs[k] == Apply(hs[k - 1], actions[k - 1]);
      DueStays(hs[k - 1], actions[k - 1], id, due, n);
    }
  }

  /** In every run, the first claim with room at or after its due time hands a due delivery out. */
  lemma DueIsHandedOutInRuns(hs: seq<History>, actions: seq<Action>, id: DeliveryId, i: nat, k: nat, due: int, n: nat)
    requires IsRun(hs, actions) && i <= k < |actions| && IsDue(hs[i].spool, id, due, n)
    requires forall m :: i <= m < k ==> !Disturbs(actions[m].step, id) && !HandedAt(hs, actions, id, m)
    requires actions[k].step.DoClaim? && |actions[k].step.batch| < actions[k].step.limit && actions[k].now >= due
    ensures HandedAt(hs, actions, id, k)
  {
    hide Apply, IsDue, Handed;
    DueStaysInRuns(hs, actions, id, i, k, due, n);
    InvariantHolds(hs, actions, k);
    DueIsHandedOut(hs[k], actions[k], id, due, n);
  }

  // ---- retries ----

  /**
   * A claimed delivery that is retried comes back after its delay while it has budget left, and is held once it was
   * handed out four times.
   */
  lemma RetriedComesBack(h: History, id: DeliveryId, now: int, reason: Reason)
    requires Invariant(h) && InState(h.spool, id, Claimed) && ParseRow(h.spool.records[id]).Some?
    ensures var s, t := h.spool, Retry(h.spool, id, now, reason);
      && id in s.recovery && t.records[id].leaseUntil == None && t.recovery[id].reason == reason
      && t.recovery[id].generation == s.recovery[id].generation && t.counters == s.counters
      && (forall other :: other != id ==> SameRows(s, t, other))
      && if s.recovery[id].attempts < 4
         then IsDue(t, id, now + RetryDelay(s.records[id].attempts), s.recovery[id].attempts)
         else InState(t, id, Pending) && InRecovery(t, id, Held)
  {
    assert InvariantAt(h, id);
  }

  /** A retry of a delivery that is not claimed changes nothing. */
  lemma StaleRetryDoesNothing(s: Spool, id: DeliveryId, now: int, reason: Reason)
    requires !InState(s, id, Claimed)
    ensures Retry(s, id, now, reason) == s
  {
  }

  /** In every run, a retried delivery with budget left is handed out by the first claim with room after its delay. */
  lemma RetriedIsHandedOut(hs: seq<History>, actions: seq<Action>, id: DeliveryId, i: nat, k: nat)
    requires IsRun(hs, actions) && i < k < |actions|
    requires actions[i].step.DoRetry? && actions[i].step.id == id && InState(hs[i].spool, id, Claimed)
    requires ParseRow(hs[i].spool.records[id]).Some?
    requires id in hs[i].spool.recovery && hs[i].spool.recovery[id].attempts < 4
    requires forall m :: i < m < k ==> !Disturbs(actions[m].step, id) && !HandedAt(hs, actions, id, m)
    requires actions[k].step.DoClaim? && |actions[k].step.batch| < actions[k].step.limit
    requires actions[k].now >= actions[i].now + RetryDelay(hs[i].spool.records[id].attempts)
    ensures HandedAt(hs, actions, id, k)
  {
    hide IsDue, Handed, Retry;
    InvariantHolds(hs, actions, i);
    RetriedComesBack(hs[i], id, actions[i].now, actions[i].step.reason);
    assert hs[i + 1] == Apply(hs[i], actions[i]);
    DueIsHandedOutInRuns(hs, actions, id, i + 1, k, actions[i].now + RetryDelay(hs[i].spool.records[id].attempts),
                         hs[i].spool.recovery[id].attempts);
  }

  // ---- the budget of a generation ----

  /** The delivery is in the same generation from state i to state k. */
  ghost predicate SameGeneration(hs: seq<History>, id: DeliveryId, i: nat, k: nat)
    requires i <= k < |hs|
  {
    forall j :: i <= j <= k ==>
      id in hs[i].spool.recovery && id in hs[j].spool.recovery
      && hs[j].spool.recovery[id].generation == hs[i].spool.recovery[id].generation
  }

  lemma AttemptsAcrossClaim(h: History, a: Action, id: DeliveryId)
    requires Invariant(h) && Enabled(h, a) && a.step.DoClaim? && id in h.spool.recovery
    ensures id in Apply(h, a).spool.recovery
    ensures Apply(h, a).spool.recovery[id].attempts ==
            h.spool.recovery[id].attempts + if id in Handed(h.spool, a.step.batch) then 1 else 0
  {
    hide ClaimRows, IsBatch, CountClaims;
    assert InvariantAt(h, id);
    ClaimAcross(h, a, id);
  }

  lemma AttemptsAcrossQuarantine(h: History, a: Action, id: DeliveryId)
    requires Invariant(h) && a.step.DoQuarantine? && id in h.spool.recovery && id in Apply(h, a).spool.recovery
    ensures Apply(h, a).spool.recovery[id].attempts == h.spool.recovery[id].attempts
  {
    assert InvariantAt(h, a.step.id);
    if a.step.id in h.spool.records {
      MoveFacts(h.spool, a.step.id, a.step.code, a.step.reason, a.now);
    }
  }

  lemma AttemptStep(h: History, a: Action, id: DeliveryId)
    requires Invariant(h) && Enabled(h, a) && id in h.spool.recovery && id in Apply(h, a).spool.recovery
    requires Apply(h, a).spool.recovery[id].generation == h.spool.recovery[id].generation
    ensures Apply(h, a).spool.recovery[id].attempts ==
            h.spool.recovery[id].attempts + if a.step.DoClaim? && id in Handed(h.spool, a.step.batch) then 1 else 0
  {
    hide Handed, BeforeClaim, SpoolTables.Claim, SpoolTables.Quarantine, IsBatch, ParseRow;
    if a.step.DoClaim? {
      AttemptsAcrossClaim(h, a, id);
    } else if a.step.DoQuarantine? {
      AttemptsAcrossQuarantine(h, a, id);
    } else {
      assert InvariantAt(h, id);
    }
  }

  /** Within a generation the attempts count exactly how often the delivery was handed out. */
  lemma {:induction false} AttemptsAreHandouts(hs: seq<History>, actions: seq<Action>, id: DeliveryId, i: nat, k: nat)
    requires IsRun(hs, actions) && i <= k < |hs| && SameGeneration(hs, id, i, k)
    ensures hs[k].spool.recovery[id].attempts ==
            hs[i].spool.recovery[id].attempts + TimesHanded(hs, actions, id, i, k)
  {
    hide Apply, Handed;
    assert id in hs[k].spool.recovery;
    if i < k {
      assert SameGeneration(hs, id, i, k - 1);
      AttemptsAreHandouts(hs, actions, id, i, k - 1);
      InvariantHolds(hs, actions, k - 1);
      assert id in hs[k - 1].spool.recovery;
      assert hs[k] == Apply(hs[k - 1], actions[k - 1]);
      AttemptStep(hs[k - 1], actions[k - 1], id);
    }
  }

  /**
   * A retry holds a delivery if and only if it was handed out four times since its generation began: its budget is
   * never cut short and never exceeded.
   */
  lemma HeldAfterFour(hs: seq<History>, actions: seq<Action>, id: DeliveryId, i: nat, k: nat)
    requires IsRun(hs, actions) && i <= k < |actions| && SameGeneration(hs, id, i, k)
    requires hs[i].spool.recovery[id].attempts == 0
    requires actions[k].step.DoRetry? && actions[k].step.id == id && InState(hs[k].spool, id, Claimed)
    ensures InRecovery(hs[k + 1].spool, id, Held) <==> TimesHanded(hs, actions, id, i, k) == 4
    ensures InRecovery(hs[k + 1].spool, id, Eligible) <==> TimesHanded(hs, actions, id, i, k) < 4
  {
    AttemptsAreHandouts(hs, actions, id, i, k);
    InvariantHolds(hs, actions, k);
    assert InvariantAt(hs[k], id);
    assert hs[k + 1] == Apply(hs[k], actions[k]);
  }

  // ---- waiting and waking ----

  /** A claimed delivery that lacks something waits for it under its key, and gives its claim back. */
  lemma WaiterWaits(h: History, id: DeliveryId, reason: Reason, key: DependencyKey, now: int)
    requires Invariant(h) && InState(h.spool, id, Claimed)
    ensures var s, t := h.spool, WaitForDependency(h.spool, id, reason, key, now);
      && InState(t, id, Pending) && t.records[id].leaseUntil == None && t.records[id].payload == s.records[id].payload
      && InRecovery(t, id, WaitingDependency) && t.recovery[id].reason == reason
      && t.recovery[id].dependencyKey == Some(key)
      && id in s.recovery && t.recovery[id].generation == s.recovery[id].generation
      && t.counters == s.counters && forall other :: other != id ==> SameRows(s, t, other)
  {
    assert InvariantAt(h, id);
  }

  /** A waiting or held delivery is in no batch. */
  lemma WaiterIsNotHandedOut(h: History, a: Action, id: DeliveryId)
    requires Invariant(h) && Enabled(h, a) && a.step.DoClaim?
    requires InRecovery(h.spool, id, WaitingDependency) || InRecovery(h.spool, id, Held)
    ensures id !in a.step.batch && SameRows(h.spool, Apply(h, a).spool, id)
  {
    assert InvariantAt(h, id);
    ClaimAcross(h, a, id);
  }

  /** A release wakes exactly who waits for the key: due after a tenth of a second, in a new generation and afresh. */
  lemma ReleaseWakes(h: History, key: DependencyKey, now: int, id: DeliveryId)
    requires Invariant(h)
    ensures var s, t := h.spool, ReleaseDependency(h.spool, key, now);
      && t.counters == s.counters && !WaitsOn(t, id, key)
      && if InRecovery(s, id, WaitingDependency) && s.recovery[id].dependencyKey == Some(key) then
           && InState(t, id, Pending) && t.records[id].nextRetryAt == now + 100
           && t.records[id].payload == s.records[id].payload
           && InRecovery(t, id, Eligible) && t.recovery[id].generation == s.recovery[id].generation + 1
           && t.recovery[id].attempts == 0 && t.recovery[id].dependencyKey == None
           && (ParseRow(s.records[id]).Some? ==> IsDue(t, id, now + 100, 0))
         else SameRows(s, t, id)
  {
    assert InvariantAt(h, id);
  }

  // ---- the ends ----

  /** An acknowledgement commits a claimed delivery; others in the spool are untouched. */
  lemma AcknowledgeCommits(h: History, id: DeliveryId, now: int)
    requires Invariant(h) && InState(h.spool, id, Claimed)
    ensures var s, t := h.spool, Acknowledge(h.spool, id, now);
      && t.records == s.records - {id} && t.counters == s.counters.(committed := s.counters.committed + 1)
      && (id in t.recovery ==> t.recovery[id].state.Committed?)
      && (t.counters.committed % 256 != 0 ==> id in t.recovery)
      && (forall other :: other in s.records && other != id ==> SameRows(s, t, other))
      && forall other :: other in t.recovery && other != id ==>
           other in s.recovery && t.recovery[other] == s.recovery[other]
  {
    assert InvariantAt(h, id) && forall other :: InvariantAt(h, other);
  }

  lemma StaleAcknowledgeDoesNothing(s: Spool, id: DeliveryId, now: int)
    requires !InState(s, id, Claimed)
    ensures Acknowledge(s, id, now) == s
  {
  }

  /** A quarantine takes the delivery out of the spool; others in the spool are untouched. */
  lemma QuarantineEnds(h: History, id: DeliveryId, code: QuarantineCode, reason: Reason, now: int)
    requires Invariant(h) && id in h.spool.records
    ensures var s, t := h.spool, Quarantine(h.spool, id, code, reason, now);
      && t.records == s.records - {id} && t.counters == s.counters.(quarantined := s.counters.quarantined + 1)
      && (id in t.recovery ==> t.recovery[id].state.Quarantined? && t.recovery[id].reason == reason)
      && (t.counters.quarantined % 256 != 0 ==> id in t.recovery)
      && (forall other :: other in s.records && other != id ==> SameRows(s, t, other))
      && forall other :: other in t.recovery && other != id ==>
           other in s.recovery && t.recovery[other] == s.recovery[other]
  {
    hide MoveToQuarantine, Newest;
    assert InvariantAt(h, id) && forall other :: InvariantAt(h, other);
    MoveFacts(h.spool, id, code, reason, now);
  }

  // ---- recovery ----

  /** What can be recovered: held deliveries that are pending, and quarantined ones with a copy of corrupt text. */
  lemma RecoverableExactly(h: History, id: DeliveryId)
    requires Invariant(h)
    ensures var s := h.spool;
      Recoverable(s, id) <==>
      || (id in s.records && s.records[id].state.Pending? && s.records[id].version == 1 && InRecovery(s, id, Held))
      || (InRecovery(s, id, Quarantined) && id in s.quarantine && s.quarantine[id].code.Corrupt?)
  {
    assert InvariantAt(h, id);
  }

  /** Why a candidate cannot be recovered, for any tables. */
  lemma IneligibleExactly(s: Spool, id: DeliveryId)
    requires IsCandidate(s, id)
    ensures var reason := IneligibilityOf(CandidateOf(s, id));
      && (reason == Some(MissingRecoveryMetadata) <==> id !in s.recovery)
      && (reason == Some(NotRecoverable) <==>
          id in s.recovery && !s.recovery[id].state.Held? && !s.recovery[id].state.Quarantined?)
      && (reason == Some(InvalidHeldRecord) <==>
          InRecovery(s, id, Held) && !(InState(s, id, Pending) && s.records[id].version == 1))
      && (reason == Some(InvalidQuarantineRecord) <==>
          && InRecovery(s, id, Quarantined)
          && (id in s.records || id !in s.quarantine || s.quarantine[id].code != Corrupt))
  {
  }

  /** The payload names a repository of its own. */
  ghost predicate Declares(payload: Payload, repositoryId: string) {
    match payload
    case Unparsable(_, _, fields) => fields.Some? && fields.value.repositoryId == Some(repositoryId)
    case Parsed(SessionStart(session, _), _) => session.repositoryId == Some(repositoryId)
    case Parsed(SessionEnd(_, _, _, _), _) => false
    case Parsed(Technical(_, embedded), _) => embedded.Some? && embedded.value.repositoryId == Some(repositoryId)
  }

  /** The payload is about the session of this id at this source. */
  ghost predicate Concerns(payload: Payload, id: string, source: Source) {
    match payload
    case Unparsable(_, _, fields) =>
      fields.Some? && fields.value.sessionId == Some(id) && fields.value.source == Some(Named(source))
    case Parsed(SessionStart(session, _), _) => (session.id, session.source) == (id, source)
    case Parsed(SessionEnd(from, sessionId, _, _), _) => (sessionId, from) == (id, source)
    case Parsed(Technical(event, _), _) => (event.sessionId, event.source) == (id, source)
  }

  /** The experience database has that session in the repository. */
  ghost predicate Assigns(experience: Experience, payload: Payload, repositoryId: string) {
    && experience.Some?
    && exists id :: id in experience.value && Concerns(payload, id, experience.value[id].source)
                    && experience.value[id].repositoryId == Some(repositoryId)
  }

  /** A payload belongs to the repository that it declares or that its session is recorded in, unless they disagree. */
  lemma ScopeExactly(payload: Payload, experience: Experience, repositoryId: string)
    ensures RecordScope(payload, experience) == Some(repositoryId) <==>
            && (Declares(payload, repositoryId) || Assigns(experience, payload, repositoryId))
            && forall other :: Declares(payload, other) || Assigns(experience, payload, other) ==> other == repositoryId
  {
    var fields := FieldsOf(payload);
    if fields.Some? && fields.value.repositoryId.Some? {
      assert Declares(payload, fields.value.repositoryId.value);
    }
    if fields.Some? && fields.value.sessionId.Some? && experience.Some?
       && fields.value.sessionId.value in experience.value {
      var id := fields.value.sessionId.value;
      var session := experience.value[id];
      assert Concerns(payload, id, session.source) <==> fields.value.source == Some(Named(session.source));
      if Concerns(payload, id, session.source) && session.repositoryId.Some? {
        assert Assigns(experience, payload, session.repositoryId.value);
      }
    }
  }

  /** A selection is current exactly if its delivery is recoverable, in its repository, and all it says still holds. */
  lemma CurrentExactly(s: Spool, experience: Experience, repositoryId: string, selection: Selection)
    ensures var id := selection.id;
      Current(s, experience, repositoryId, selection) <==>
      && Recoverable(s, id) && id in s.recovery
      && RecordScope(selection.input, experience) == Some(repositoryId)
      && selection.input == (if id in s.records then s.records[id].payload else s.quarantine[id].payload)
      && (selection.state, selection.reason) == (s.recovery[id].state, s.recovery[id].reason)
      && (selection.generation, selection.attempts) == (s.recovery[id].generation, s.recovery[id].attempts)
  {
  }

  /** A requeued delivery starts a new generation afresh: due at once, with no attempts in either table. */
  lemma RequeuedIsDue(s: Spool, id: DeliveryId, now: int)
    requires Recoverable(s, id)
    ensures var t := Requeue(s, id, now);
      && id in s.recovery && InState(t, id, Pending) && t.records[id].nextRetryAt == now
      && t.records[id].attempts == 0 && t.records[id].leaseUntil == None
      && t.records[id].payload == CandidateOf(s, id).payload
      && t.records[id].admittedAt == (if id in s.records then s.records[id].admittedAt else now)
      && InRecovery(t, id, Eligible) && t.recovery[id].attempts == 0 && t.recovery[id].dependencyKey == None
      && t.recovery[id].generation == s.recovery[id].generation + 1
      && (CandidateOf(s, id).payload.Parsed? ==> IsDue(t, id, now, 0))
      && forall other :: other != id ==> SameRows(s, t, other)
  {
  }

  /** In every run, a requeued delivery that parses is handed out by the first claim with room. */
  lemma RequeuedIsHandedOut(hs: seq<History>, actions: seq<Action>, id: DeliveryId, i: nat, k: nat)
    requires IsRun(hs, actions) && i < k < |actions| && actions[i].step == DoRequeue(id)
    requires CandidateOf(hs[i].spool, id).payload.Parsed?
    requires forall m :: i < m < k ==> !Disturbs(actions[m].step, id) && !HandedAt(hs, actions, id, m)
    requires actions[k].step.DoClaim? && |actions[k].step.batch| < actions[k].step.limit
    requires actions[k].now >= actions[i].now
    ensures HandedAt(hs, actions, id, k)
  {
    hide IsDue, Handed, Requeue;
    RequeuedIsDue(hs[i].spool, id, actions[i].now);
    assert hs[i + 1] == Apply(hs[i], actions[i]);
    DueIsHandedOutInRuns(hs, actions, id, i + 1, k, actions[i].now, 0);
  }
}
