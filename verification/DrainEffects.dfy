/**
 * What a drainer achieves (src/capture/spool-drain.ts:39-73): where each claimed delivery ends, and what is then in the
 * experience store, told from what the store had and from the errors that struck.
 */
module DrainEffects {
  import opened Prelude
  import opened CaptureRecords
  import opened SpoolTables
  import opened ClaimFacts
  import opened SpoolStore
  import opened SpoolRuns
  import opened SpoolEffects
  import opened DrainRuns

  /** What becomes of one delivery: errors of the store or of the spool may strike at any of its transactions. */
  datatype Fate = Delivered | Invalid | Unavailable | InvalidContext | ContextUnavailable
    | LostAfterPersist | LostAfterRelease

  /** The spool, the store, and which deliveries got past the first and past both transactions of a persist. */
  datatype Ground = Ground(spool: Spool, store: Store, stored: set<DeliveryId>, persisted: set<DeliveryId>)

  /** The record gets into the store. */
  predicate Stores(g: Ground, first: ClaimedRecord, fate: Fate) {
    && MissingDependency(g.store, first.record).None? && CaptureConflict(g.store, first.record).None?
    && !fate.Unavailable? && (fate.Invalid? ==> first.id in g.stored)
  }

  /** And the persist is completed. */
  predicate Completes(g: Ground, first: ClaimedRecord, fate: Fate) {
    && Stores(g, first, fate)
    && (HasContext(first.record) ==>
          !fate.ContextUnavailable? && (fate.InvalidContext? ==> first.id in g.persisted))
  }

  /** The spool once the key of the record is released. */
  function Unlocked(s: Spool, record: CaptureRecord, now: int): Spool {
    if ReleasedKey(record).None? then s else ReleaseDependency(s, ReleasedKey(record).value, now)
  }

  function Ended(g: Ground, first: ClaimedRecord, fate: Fate, now: int): Spool {
    var s, id := g.spool, first.id;
    var dependency, conflict := MissingDependency(g.store, first.record), CaptureConflict(g.store, first.record);
    if dependency.Some? then WaitForDependency(s, id, dependency.value.reason, dependency.value.key, now)
    else if conflict.Some? then Quarantine(s, id, Corrupt, conflict.value, now)
    else if !Stores(g, first, fate) then
      if fate.Invalid? then Quarantine(s, id, Corrupt, UnknownLegacy, now) else Retry(s, id, now, StorageUnavailable)
    else if !Completes(g, first, fate) then
      if fate.InvalidContext? then Quarantine(s, id, Corrupt, UnknownLegacy, now)
      else Retry(s, id, now, StorageUnavailable)
    else if fate.LostAfterPersist? then Retry(s, id, now, StorageUnavailable)
    else if fate.LostAfterRelease? then Retry(Unlocked(s, first.record, now), id, now, StorageUnavailable)
    else Acknowledge(Unlocked(s, first.record, now), id, now)
  }

  /** One iteration of the drainer over a claimed delivery. */
  function Turn(g: Ground, first: ClaimedRecord, fate: Fate, now: int): Ground {
    Ground(
      Ended(g, first, fate, now),
      if Stores(g, first, fate) then Recorded(g.store, first.record) else g.store,
      if Stores(g, first, fate) then g.stored + {first.id} else g.stored,
      if Completes(g, first, fate) then g.persisted + {first.id} else g.persisted)
  }

  /** A claimed batch, delivery by delivery. */
  function Turns(g: Ground, claimed: seq<ClaimedRecord>, fates: seq<Fate>, now: int): Ground
    requires |claimed| <= |fates|
  {
    if claimed == [] then g else
      var n := |claimed| - 1;
      Turn(Turns(g, claimed[..n], fates, now), claimed[n], fates[n], now)
  }

  // ---- who waits, who conflicts, and what the store then has ----

  /** The record cannot be stored before the session of this id, because its source is one that captures sessions. */
  ghost predicate NeedsSession(record: CaptureRecord, id: string) {
    match record
    case SessionStart(_, _) => false
    case SessionEnd(source, sessionId, _, _) => source != ClaudeCode && sessionId == id
    case Technical(event, embedded) => event.source != ClaudeCode && embedded.None? && event.sessionId == id
  }

  /** Nor a result before the request that it names. */
  ghost predicate NeedsRequest(record: CaptureRecord, id: string) {
    && record.Technical? && record.event.source != ClaudeCode && record.event.phase.PostResult?
    && record.event.relatedEventId == Some(id)
  }

  /** A record waits exactly for what it needs and the store lacks: for its session first, then for its request. */
  lemma WaitsExactly(store: Store, record: CaptureRecord, id: string)
    ensures var key := DependencyKey(SourceOf(record), id);
      var lacksSession := exists s :: NeedsSession(record, s) && s !in store.sessions;
      && (MissingDependency(store, record) == Some(Dependency(MissingSession, key)) <==>
          NeedsSession(record, id) && id !in store.sessions)
      && (MissingDependency(store, record) == Some(Dependency(MissingRequest, key)) <==>
          !lacksSession && NeedsRequest(record, id) && key !in store.requests)
      && (MissingDependency(store, record).Some? ==>
            MissingDependency(store, record).value.key.source == SourceOf(record)
            && MissingDependency(store, record).value.reason in {MissingSession, MissingRequest})
  {
    if record.SessionEnd? && record.sessionId !in store.sessions && record.source != ClaudeCode {
      assert NeedsSession(record, record.sessionId);
    }
    if record.Technical? && record.event.sessionId !in store.sessions {
      assert NeedsSession(record, record.event.sessionId) <==>
             record.event.source != ClaudeCode && record.embedded.None?;
    }
  }

  /** A start conflicts with another session of its id unless it resumes one, an end with one of another source. */
  lemma ConflictsExactly(store: Store, record: CaptureRecord)
    ensures CaptureConflict(store, record) == Some(ConflictingIdentity) <==>
            && record.SessionStart? && record.session.id in store.sessions
            && store.sessions[record.session.id] != record.session
            && !(record.lifecycle.Some? && record.lifecycle.value.startOrigin == Some(Resume))
    ensures CaptureConflict(store, record) == Some(LifecycleConflict) <==>
            && record.SessionEnd? && record.sessionId in store.sessions
            && store.sessions[record.sessionId].source != record.source
    ensures CaptureConflict(store, record) in {None, Some(ConflictingIdentity), Some(LifecycleConflict)}
  {
  }

  /** The session that a record brings along: of a start that is no resumption, or embedded in a technical event. */
  ghost predicate Brings(record: CaptureRecord, session: Session) {
    match record
    case SessionStart(started, None) => started == session
    case SessionStart(started, Some(lifecycle)) => started == session && lifecycle.startOrigin == Some(Startup)
    case SessionEnd(_, _, _, _) => false
    case Technical(_, embedded) => embedded == Some(session)
  }

  /** What the store has afterwards: a new session if there was none of its id, and the request of an action. */
  lemma StoredExactly(store: Store, record: CaptureRecord, id: string)
    ensures var after := Recorded(store, record);
      && (id in store.sessions ==> id in after.sessions && after.sessions[id] == store.sessions[id])
      && (id !in store.sessions ==>
            (id in after.sessions <==> exists session :: Brings(record, session) && session.id == id)
            && (id in after.sessions ==> Brings(record, after.sessions[id])))
      && forall key :: key in after.requests <==>
           || key in store.requests
           || (record.Technical? && record.event.phase.PreAction?
               && key == DependencyKey(record.event.source, record.event.sourceEventId))
  {
    var inserted := InsertedSession(record);
    if inserted.Some? {
      assert Brings(record, inserted.value);
    }
  }

  /** A start tells its session, and an action its request, to whoever waits; nothing else does. */
  lemma ToldExactly(record: CaptureRecord, key: DependencyKey)
    ensures ReleasedKey(record) == Some(key) <==>
            && key.source == SourceOf(record) && key.source != ClaudeCode
            && match record
               case SessionStart(session, _) => key.id == session.id
               case SessionEnd(_, _, _, _) => false
               case Technical(event, _) => event.phase.PreAction? && key.id == event.sourceEventId
  {
  }

  /** Delivering a record again is harmless: it neither waits nor conflicts, and the store stays as it is. */
  lemma AgainIsHarmless(store: Store, record: CaptureRecord)
    requires MissingDependency(store, record).None? && CaptureConflict(store, record).None?
    ensures var after := Recorded(store, record);
      && MissingDependency(after, record).None? && CaptureConflict(after, record).None?
      && Recorded(after, record) == after
  {
  }

  // ---- the past of the spool ----

  /** The deliveries on this ground have a history that keeps the invariant of the spool. */
  ghost predicate Sound(g: Ground, h: History) {
    h.spool == g.spool && h.persisted == g.persisted && Invariant(h)
  }

  /** The delivery is claimed, and what was claimed is what its row holds. */
  ghost predicate IsClaimed(g: Ground, first: ClaimedRecord) {
    InState(g.spool, first.id, Claimed) && ParseRow(g.spool.records[first.id]) == Some(first.record)
  }

  /** The history after the deliveries that complete a persist are noted. */
  ghost function Noting(h: History, persisted: set<DeliveryId>): History {
    h.(persisted := persisted)
  }

  lemma NotingKeeps(h: History, persisted: set<DeliveryId>)
    requires Invariant(h) && h.persisted <= persisted
    ensures Invariant(Noting(h, persisted))
  {
    forall id ensures InvariantAt(Noting(h, persisted), id) {
      assert InvariantAt(h, id);
    }
  }

  lemma UnlockedKeeps(h: History, record: CaptureRecord, now: int)
    requires Invariant(h)
    ensures Invariant(h.(spool := Unlocked(h.spool, record, now)))
  {
    if ReleasedKey(record).Some? {
      StepKeeps(h, Action(DoRelease(ReleasedKey(record).value), now));
    }
  }

  lemma TurnKeeps(g: Ground, first: ClaimedRecord, fate: Fate, now: int, h: History)
    requires Sound(g, h)
    ensures Sound(Turn(g, first, fate, now), h.(spool := Turn(g, first, fate, now).spool,
                                                persisted := Turn(g, first, fate, now).persisted))
  {
    hide Invariant, Acknowledge, Retry, WaitForDependency, Quarantine, Unlocked, MissingDependency, CaptureConflict;
    var id := first.id;
    var dependency, conflict := MissingDependency(g.store, first.record), CaptureConflict(g.store, first.record);
    var k := Noting(h, Turn(g, first, fate, now).persisted);
    NotingKeeps(h, Turn(g, first, fate, now).persisted);
    UnlockedKeeps(k, first.record, now);
    var u := k.(spool := Unlocked(k.spool, first.record, now));
    if dependency.Some? {
      StepKeeps(k, Action(DoWait(id, dependency.value.reason, dependency.value.key), now));
    } else if conflict.Some? {
      StepKeeps(k, Action(DoQuarantine(id, Corrupt, conflict.value), now));
    } else {
      StepKeeps(k, Action(DoQuarantine(id, Corrupt, UnknownLegacy), now));
      StepKeeps(k, Action(DoRetry(id, StorageUnavailable), now));
      StepKeeps(u, Action(DoRetry(id, StorageUnavailable), now));
      if Completes(g, first, fate) {
        StepKeeps(u, Action(DoAcknowledge(id), now));
      }
    }
  }

  // ---- where a delivery ends ----

  /** What waited for the key is due; nobody waits for it any more, and no other delivery of the spool is touched. */
  ghost predicate Wakes(s: Spool, t: Spool, key: Option<DependencyKey>, head: DeliveryId, now: int) {
    && (key.Some? ==> forall id :: !WaitsOn(t, id, key.value))
    && forall id :: id in s.records && id != head ==>
         if key.Some? && WaitsOn(s, id, key.value) then IsWoken(s, t, id, now) else SameRows(s, t, id)
  }

  /** The delivery is pending in the next generation, due after a tenth of a second, with a fresh budget. */
  ghost predicate IsWoken(s: Spool, t: Spool, id: DeliveryId, now: int) {
    && id in s.records && id in s.recovery && id in t.records && id in t.recovery
    && t.records[id].state.Pending? && t.records[id].nextRetryAt == now + 100
    && t.records[id].payload == s.records[id].payload
    && t.recovery[id].state.Eligible? && t.recovery[id].attempts == 0
    && t.recovery[id].generation == s.recovery[id].generation + 1
  }

  lemma UnlockedWakes(h: History, record: CaptureRecord, head: DeliveryId, now: int)
    requires Invariant(h) && InState(h.spool, head, Claimed)
    ensures var t := Unlocked(h.spool, record, now);
      && Wakes(h.spool, t, ReleasedKey(record), head, now) && SameRows(h.spool, t, head)
      && t.counters == h.spool.counters
  {
    hide Invariant, ReleaseDependency;
    NotWaiting(h, head);
    if ReleasedKey(record).Some? {
      var key := ReleasedKey(record).value;
      forall id
        ensures !WaitsOn(Unlocked(h.spool, record, now), id, key)
        ensures id in h.spool.records ==>
          if WaitsOn(h.spool, id, key) then IsWoken(h.spool, Unlocked(h.spool, record, now), id, now)
          else SameRows(h.spool, Unlocked(h.spool, record, now), id)
      {
        ReleaseWakes(h, key, now, id);
      }
      ReleaseWakes(h, key, now, head);
    }
  }

  lemma NotWaiting(h: History, id: DeliveryId)
    requires Invariant(h) && InState(h.spool, id, Claimed)
    ensures InRecovery(h.spool, id, Eligible) && forall key :: !WaitsOn(h.spool, id, key)
  {
    assert InvariantAt(h, id);
  }

  /** The record is in the store: its session, if it brings one, and its request, if it is one. */
  ghost predicate IsInStore(store: Store, record: CaptureRecord) {
    && (InsertedSession(record).Some? ==> InsertedSession(record).value.id in store.sessions)
    && (HasContext(record) ==> DependencyKey(record.event.source, record.event.sourceEventId) in store.requests)
  }

  lemma StoringAdds(store: Store, record: CaptureRecord)
    ensures Grows(store, Recorded(store, record)) && IsInStore(Recorded(store, record), record)
  {
  }

  /**
   * A delivery that lacks nothing, contradicts nothing and meets no error is committed: its record is in the store, its
   * row is gone, and who waited for its key is woken.
   */
  lemma DeliveredIsCommitted(g: Ground, first: ClaimedRecord, now: int, h: History)
    requires Sound(g, h) && IsClaimed(g, first)
    requires MissingDependency(g.store, first.record).None? && CaptureConflict(g.store, first.record).None?
    ensures var after := Turn(g, first, Delivered, now);
      var s, t := g.spool, after.spool;
      && after.store == Recorded(g.store, first.record) && IsInStore(after.store, first.record)
      && after.stored == g.stored + {first.id} && after.persisted == g.persisted + {first.id}
      && first.id !in t.records && (first.id in t.recovery ==> t.recovery[first.id].state.Committed?)
      && t.counters == s.counters.(committed := s.counters.committed + 1)
      && Wakes(s, t, ReleasedKey(first.record), first.id, now)
  {
    hide Invariant, Acknowledge, Unlocked, MissingDependency, CaptureConflict, Recorded;
    UnlockedKeeps(h, first.record, now);
    UnlockedWakes(h, first.record, first.id, now);
    var u := h.(spool := Unlocked(g.spool, first.record, now));
    AcknowledgeCommits(u, first.id, now);
    AcknowledgedWakes(u, first.id, now, g.spool, ReleasedKey(first.record));
    StoringAdds(g.store, first.record);
  }

  lemma AcknowledgedWakes(u: History, head: DeliveryId, now: int, s: Spool, key: Option<DependencyKey>)
    requires Invariant(u) && InState(u.spool, head, Claimed) && Wakes(s, u.spool, key, head, now)
    ensures Wakes(s, Acknowledge(u.spool, head, now), key, head, now)
  {
    AcknowledgeCommits(u, head, now);
    var t := Acknowledge(u.spool, head, now);
    forall id | key.Some? ensures !WaitsOn(t, id, key.value) {
      assert !WaitsOn(u.spool, id, key.value);
    }
  }

  /** A delivery that lacks something waits for it under its key, and the store is untouched. */
  lemma UnmetWaits(g: Ground, first: ClaimedRecord, fate: Fate, now: int, h: History)
    requires Sound(g, h) && IsClaimed(g, first) && MissingDependency(g.store, first.record).Some?
    ensures var after, dependency := Turn(g, first, fate, now), MissingDependency(g.store, first.record).value;
      var s, t, id := g.spool, after.spool, first.id;
      && after == g.(spool := t) && t.counters == s.counters
      && InState(t, id, Pending) && t.records[id].payload == s.records[id].payload
      && InRecovery(t, id, WaitingDependency) && t.recovery[id].dependencyKey == Some(dependency.key)
      && t.recovery[id].reason == dependency.reason
      && id in s.recovery && t.recovery[id].generation == s.recovery[id].generation
      && forall other :: other != id ==> SameRows(s, t, other)
  {
    hide Invariant, WaitForDependency, MissingDependency;
    var dependency := MissingDependency(g.store, first.record).value;
    WaiterWaits(h, first.id, dependency.reason, dependency.key, now);
  }

  /** A rejected delivery: out of the spool, and quarantined for the reason while its recovery row is kept. */
  ghost predicate IsQuarantined(s: Spool, t: Spool, id: DeliveryId, reason: Reason) {
    && t.records == s.records - {id} && t.counters == s.counters.(quarantined := s.counters.quarantined + 1)
    && (id in t.recovery ==> t.recovery[id].state.Quarantined? && t.recovery[id].reason == reason)
    && forall other :: other in s.records && other != id ==> SameRows(s, t, other)
  }

  /** A delivery that contradicts the store is quarantined for that; so is one that either transaction finds invalid. */
  lemma WrongIsQuarantined(g: Ground, first: ClaimedRecord, fate: Fate, now: int, h: History)
    requires Sound(g, h) && IsClaimed(g, first) && MissingDependency(g.store, first.record).None?
    ensures var after, conflict := Turn(g, first, fate, now), CaptureConflict(g.store, first.record);
      && (conflict.Some? ==>
            after == g.(spool := after.spool) && IsQuarantined(g.spool, after.spool, first.id, conflict.value))
      && (conflict.None? && fate.Invalid? && first.id !in g.stored ==>
            after == g.(spool := after.spool) && IsQuarantined(g.spool, after.spool, first.id, UnknownLegacy))
      && (conflict.None? && fate.InvalidContext? && HasContext(first.record) && first.id !in g.persisted ==>
            && IsQuarantined(g.spool, after.spool, first.id, UnknownLegacy)
            && after.store == Recorded(g.store, first.record) && after.persisted == g.persisted)
  {
    hide Invariant, Quarantine, MissingDependency, CaptureConflict, Recorded;
    var conflict := CaptureConflict(g.store, first.record);
    QuarantineEnds(h, first.id, Corrupt, if conflict.Some? then conflict.value else UnknownLegacy, now);
  }

  /** The error strikes before the delivery is acknowledged. */
  predicate Strikes(fate: Fate, record: CaptureRecord) {
    || fate.Unavailable? || fate.LostAfterPersist? || fate.LostAfterRelease?
    || (fate.ContextUnavailable? && HasContext(record))
  }

  /**
   * A delivery that an error of the store or the spool strikes stays in the spool: it is due again after its delay, or
   * held if this was the last of its four attempts. It is in the store unless that was unavailable.
   */
  lemma StruckComesBack(g: Ground, first: ClaimedRecord, fate: Fate, now: int, h: History)
    requires Sound(g, h) && IsClaimed(g, first) && Strikes(fate, first.record)
    requires MissingDependency(g.store, first.record).None? && CaptureConflict(g.store, first.record).None?
    ensures var after := Turn(g, first, fate, now);
      var s, t, id := g.spool, after.spool, first.id;
      && id in s.recovery && t.counters == s.counters
      && (if s.recovery[id].attempts < 4
          then IsDue(t, id, now + RetryDelay(s.records[id].attempts), s.recovery[id].attempts)
          else InState(t, id, Pending) && InRecovery(t, id, Held))
      && after.store == (if fate.Unavailable? then g.store else Recorded(g.store, first.record))
      && (fate.LostAfterPersist? || fate.LostAfterRelease? ==> id in after.persisted)
      && (!fate.LostAfterRelease? ==> forall other :: other != id ==> SameRows(s, t, other))
      && (fate.LostAfterRelease? ==> Wakes(s, t, ReleasedKey(first.record), id, now))
  {
    hide Invariant, Retry, Unlocked, MissingDependency, CaptureConflict, Recorded, IsDue;
    UnlockedKeeps(h, first.record, now);
    UnlockedWakes(h, first.record, first.id, now);
    var u := h.(spool := Unlocked(g.spool, first.record, now));
    SameClaim(g.spool, u.spool, first);
    RetriedComesBack(h, first.id, now, StorageUnavailable);
    RetriedComesBack(u, first.id, now, StorageUnavailable);
    RetriedWakes(u, first.id, now, g.spool, ReleasedKey(first.record));
  }

  lemma SameClaim(s: Spool, t: Spool, first: ClaimedRecord)
    requires InState(s, first.id, Claimed) && ParseRow(s.records[first.id]) == Some(first.record)
    requires SameRows(s, t, first.id)
    ensures InState(t, first.id, Claimed) && ParseRow(t.records[first.id]) == Some(first.record)
    ensures t.records[first.id] == s.records[first.id]
    ensures first.id in s.recovery ==> first.id in t.recovery && t.recovery[first.id] == s.recovery[first.id]
  {
  }

  lemma RetriedWakes(u: History, head: DeliveryId, now: int, s: Spool, key: Option<DependencyKey>)
    requires Invariant(u) && InState(u.spool, head, Claimed) && ParseRow(u.spool.records[head]).Some?
    requires Wakes(s, u.spool, key, head, now)
    ensures Wakes(s, Retry(u.spool, head, now, StorageUnavailable), key, head, now)
  {
    RetriedComesBack(u, head, now, StorageUnavailable);
    var t := Retry(u.spool, head, now, StorageUnavailable);
    forall id | key.Some? ensures !WaitsOn(t, id, key.value) {
      assert !WaitsOn(u.spool, id, key.value);
      assert id != head ==> SameRows(u.spool, t, id);
    }
  }

  // ---- a batch ----

  /** What a turn does to the rows of another delivery: nothing, or it wakes it. */
  ghost predicate IsFramed(s: Spool, t: Spool, id: DeliveryId, now: int) {
    if id in s.records then SameRows(s, t, id) || (InRecovery(s, id, WaitingDependency) && IsWoken(s, t, id, now))
    else id !in t.records && (id in t.recovery ==> id in s.recovery && t.recovery[id] == s.recovery[id])
  }

  lemma WakeFrames(h: History, record: CaptureRecord, now: int, id: DeliveryId)
    requires Invariant(h)
    ensures IsFramed(h.spool, Unlocked(h.spool, record, now), id, now)
  {
    hide ReleaseDependency;
    if ReleasedKey(record).Some? {
      ReleaseWakes(h, ReleasedKey(record).value, now, id);
      assert InvariantAt(h, id);
    }
  }

  lemma EndFrames(u: History, head: DeliveryId, record: CaptureRecord, reason: Reason, now: int, id: DeliveryId)
    requires Invariant(u) && InState(u.spool, head, Claimed) && ParseRow(u.spool.records[head]) == Some(record)
    requires id != head
    ensures var s := u.spool;
      && IsFramed(s, Quarantine(s, head, Corrupt, reason, now), id, now)
      && IsFramed(s, Retry(s, head, now, StorageUnavailable), id, now)
      && IsFramed(s, Acknowledge(s, head, now), id, now)
  {
    hide Invariant, Quarantine, Retry, Acknowledge;
    QuarantineEnds(u, head, Corrupt, reason, now);
    RetriedComesBack(u, head, now, StorageUnavailable);
    AcknowledgeCommits(u, head, now);
    assert SameRows(u.spool, Retry(u.spool, head, now, StorageUnavailable), id);
  }

  lemma FramesThrough(s: Spool, u: Spool, t: Spool, id: DeliveryId, now: int)
    requires IsFramed(s, u, id, now) && IsFramed(u, t, id, now)
    ensures IsFramed(s, t, id, now)
  {
  }

  lemma TurnFrames(g: Ground, first: ClaimedRecord, fate: Fate, now: int, h: History, id: DeliveryId)
    requires Sound(g, h) && IsClaimed(g, first) && id != first.id
    ensures IsFramed(g.spool, Turn(g, first, fate, now).spool, id, now)
  {
    hide Invariant, Quarantine, Retry, Acknowledge, WaitForDependency, Unlocked, MissingDependency, CaptureConflict,
         IsFramed;
    var dependency, conflict := MissingDependency(g.store, first.record), CaptureConflict(g.store, first.record);
    if dependency.Some? {
      WaiterWaits(h, first.id, dependency.value.reason, dependency.value.key, now);
      SameIsFramed(h, Turn(g, first, fate, now).spool, id, now);
    } else {
      UnlockedKeeps(h, first.record, now);
      UnlockedWakes(h, first.record, first.id, now);
      var u := h.(spool := Unlocked(g.spool, first.record, now));
      SameClaim(g.spool, u.spool, first);
      WakeFrames(h, first.record, now, id);
      EndFrames(h, first.id, first.record, if conflict.Some? then conflict.value else UnknownLegacy, now, id);
      EndFrames(u, first.id, first.record, UnknownLegacy, now, id);
      FramesThrough(g.spool, u.spool, Retry(u.spool, first.id, now, StorageUnavailable), id, now);
      FramesThrough(g.spool, u.spool, Acknowledge(u.spool, first.id, now), id, now);
    }
  }

  lemma SameIsFramed(h: History, t: Spool, id: DeliveryId, now: int)
    requires SameRows(h.spool, t, id)
    ensures IsFramed(h.spool, t, id, now)
  {
  }

  /** The history of the ground after more deliveries of it were worked on. */
  ghost function Later(h: History, g: Ground): History {
    h.(spool := g.spool, persisted := g.persisted)
  }

  ghost predicate AllClaimed(g: Ground, claimed: seq<ClaimedRecord>) {
    && (forall i :: 0 <= i < |claimed| ==> IsClaimed(g, claimed[i]))
    && (forall i, j :: 0 <= i < j < |claimed| ==> claimed[i].id != claimed[j].id)
  }

  /**
   * Where a delivery of a batch that met no error is after the batch, told from the ground before its turn: it waits or
   * was woken in between; or it is out of the spool, quarantined if it contradicts the store and committed otherwise.
   */
  ghost predicate IsSettled(before: Ground, start: Spool, after: Ground, first: ClaimedRecord) {
    var t, id := after.spool, first.id;
    if MissingDependency(before.store, first.record).Some? then
      && id in start.recovery && InState(t, id, Pending) && id in t.recovery
      && t.recovery[id].generation >= start.recovery[id].generation
      && (|| t.recovery[id].state.WaitingDependency?
          || (t.recovery[id].state.Eligible? && t.recovery[id].attempts == 0
              && t.recovery[id].generation > start.recovery[id].generation))
    else if CaptureConflict(before.store, first.record).Some? then
      id !in t.records && (id in t.recovery ==> t.recovery[id].state.Quarantined?)
    else
      && id !in t.records && (id in t.recovery ==> t.recovery[id].state.Committed?)
      && id in after.persisted && IsInStore(after.store, first.record)
  }

  /** The delivery has its rows of the start. */
  ghost predicate IsUntouched(start: Spool, g: Ground, first: ClaimedRecord) {
    IsClaimed(g, first) && SameRows(start, g.spool, first.id)
  }

  lemma TurnSettles(g: Ground, start: Spool, first: ClaimedRecord, now: int, h: History)
    requires Sound(g, h) && IsUntouched(start, g, first)
    ensures IsSettled(g, start, Turn(g, first, Delivered, now), first)
  {
    hide Invariant, Turn, MissingDependency, CaptureConflict, IsInStore;
    NotWaiting(h, first.id);
    if MissingDependency(g.store, first.record).Some? {
      UnmetWaits(g, first, Delivered, now, h);
    } else if CaptureConflict(g.store, first.record).Some? {
      WrongIsQuarantined(g, first, Delivered, now, h);
    } else {
      DeliveredIsCommitted(g, first, now, h);
    }
  }

  lemma SettledStays(before: Ground, start: Spool, g: Ground, first: ClaimedRecord, other: ClaimedRecord, now: int,
      h: History)
    requires Sound(g, h) && IsClaimed(g, other) && other.id != first.id && IsSettled(before, start, g, first)
    ensures IsSettled(before, start, Turn(g, other, Delivered, now), first)
  {
    hide Invariant, Ended, MissingDependency, CaptureConflict, Recorded;
    TurnFrames(g, other, Delivered, now, h, first.id);
    StoringAdds(g.store, other.record);
  }

  lemma UntouchedStays(start: Spool, g: Ground, first: ClaimedRecord, other: ClaimedRecord, now: int, h: History)
    requires Sound(g, h) && IsClaimed(g, other) && other.id != first.id && IsUntouched(start, g, first)
    ensures IsUntouched(start, Turn(g, other, Delivered, now), first)
  {
    hide Invariant, Turn;
    TurnFrames(g, other, Delivered, now, h, first.id);
    NotWaiting(h, first.id);
  }

  ghost predicate AllDelivered(fates: seq<Fate>, n: nat) {
    n <= |fates| && forall i :: 0 <= i < n ==> fates[i].Delivered?
  }

  /** When no error strikes, every delivery of a batch is settled at its end. */
  lemma {:induction false} BatchSettles(g: Ground, claimed: seq<ClaimedRecord>, fates: seq<Fate>, now: int, h: History,
      n: nat)
    requires Sound(g, h) && AllClaimed(g, claimed) && n <= |claimed| && AllDelivered(fates, |claimed|)
    ensures var after := Turns(g, claimed[..n], fates, now);
      && Sound(after, Later(h, after))
      && (forall j :: 0 <= j < n ==> IsSettled(Turns(g, claimed[..j], fates, now), g.spool, after, claimed[j]))
      && (forall j :: n <= j < |claimed| ==> IsUntouched(g.spool, after, claimed[j]))
  {
    hide Sound, Turn, IsSettled, IsUntouched;
    if n == 0 {
      AtTheStart(g, claimed, h);
    } else {
      BatchSettles(g, claimed, fates, now, h, n - 1);
      var earlier := Turns(g, claimed[..n - 1], fates, now);
      var k, last := Later(h, earlier), claimed[n - 1];
      assert claimed[..n][..n - 1] == claimed[..n - 1] && claimed[..n][n - 1] == last;
      assert Turns(g, claimed[..n], fates, now) == Turn(earlier, last, Delivered, now);
      assert IsUntouched(g.spool, earlier, last);
      UntouchedIsClaimed(g.spool, earlier, last);
      TurnKeeps(earlier, last, Delivered, now, k);
      TurnSettles(earlier, g.spool, last, now, k);
      forall j | 0 <= j < n - 1
        ensures IsSettled(Turns(g, claimed[..j], fates, now), g.spool, Turn(earlier, last, Delivered, now), claimed[j])
      {
        SettledStays(Turns(g, claimed[..j], fates, now), g.spool, earlier, claimed[j], last, now, k);
      }
      forall j | n <= j < |claimed| ensures IsUntouched(g.spool, Turn(earlier, last, Delivered, now), claimed[j]) {
        UntouchedStays(g.spool, earlier, claimed[j], last, now, k);
      }
    }
  }

  lemma UntouchedIsClaimed(start: Spool, g: Ground, first: ClaimedRecord)
    requires IsUntouched(start, g, first)
    ensures IsClaimed(g, first)
  {
  }

  lemma AtTheStart(g: Ground, claimed: seq<ClaimedRecord>, h: History)
    requires Sound(g, h) && AllClaimed(g, claimed)
    ensures Sound(g, Later(h, g)) && forall j :: 0 <= j < |claimed| ==> IsUntouched(g.spool, g, claimed[j])
  {
  }
}
