/**
 * One drainer at a time, with a crash possible between any two transactions (src/capture/spool-drain.ts).
 * Hooks keep admitting records and recovery keeps requeueing deliveries while the drainer works.
 */
module DrainRuns {
  import opened Prelude
  import opened CaptureRecords
  import opened SpoolTables
  import opened ClaimFacts
  import opened Recovery
  import opened SpoolRuns

  datatype Dependency = Dependency(reason: Reason, key: DependencyKey)

  /** What the drainer looks up in the experience store: sessions by id, and recorded operation requests. */
  datatype Store = Store(sessions: map<string, Session>, requests: set<DependencyKey>)

  /** How far the drainer has come with the first delivery of its queue. */
  datatype Stage = Fresh | Stored | Persisted | Released

  datatype Drainer = Idle | Draining(queue: seq<DeliveryId>, stage: Stage)

  /** `stored` are the deliveries whose record is in the store; of those, a request may still lack its context. */
  datatype World = World(history: History, store: Store, stored: set<DeliveryId>, drainer: Drainer)

  function MissingDependency(store: Store, record: CaptureRecord): Option<Dependency> {
    match record
    case SessionStart(_, _) => None
    case SessionEnd(source, sessionId, _, _) =>
      if sessionId !in store.sessions && Supported(source)
      then Some(Dependency(MissingSession, DependencyKey(source, sessionId)))
      else None
    case Technical(event, embedded) =>
      if !Supported(event.source) then None
      else if embedded.None? && event.sessionId !in store.sessions
      then Some(Dependency(MissingSession, DependencyKey(event.source, event.sessionId)))
      else if !event.phase.PostResult? || event.relatedEventId.None? then None
      else if DependencyKey(event.source, event.relatedEventId.value) in store.requests then None
      else Some(Dependency(MissingRequest, DependencyKey(event.source, event.relatedEventId.value)))
  }

  function CaptureConflict(store: Store, record: CaptureRecord): Option<Reason> {
    match record
    case SessionStart(session, lifecycle) =>
      if lifecycle.Some? && lifecycle.value.startOrigin == Some(Resume) then None
      else if session.id in store.sessions && store.sessions[session.id] != session then Some(ConflictingIdentity)
      else None
    case SessionEnd(source, sessionId, _, _) =>
      if sessionId in store.sessions && store.sessions[sessionId].source != source then Some(LifecycleConflict)
      else None
    case Technical(_, _) => None
  }

  /** The lasting effect of a persist: a session that was not there, and the request of a pre-action event. */
  function Recorded(store: Store, record: CaptureRecord): Store {
    var inserted := InsertedSession(record);
    Store(
      if inserted.Some? && inserted.value.id !in store.sessions
      then store.sessions[inserted.value.id := inserted.value] else store.sessions,
      if HasContext(record)
      then store.requests + {DependencyKey(record.event.source, record.event.sourceEventId)} else store.requests)
  }

  datatype Step =
    | Admitting(id: DeliveryId, record: CaptureRecord, bytes: nat, limits: Limits)
    | Requeueing(id: DeliveryId)
    | Starting
    | Claiming(batch: seq<DeliveryId>, limit: nat)
    | Waiting
    | Conflicting
    | Persisting
    | Preserving
    | Rejected
    | Failing
    | Releasing
    | Acknowledging
    | Crashing

  datatype Move = Move(step: Step, now: int)

  /** The drainer works on a row that is still there and parses. */
  ghost predicate Working(w: World) {
    w.drainer.Draining? && w.drainer.queue != [] &&
    var head := w.drainer.queue[0];
    head in w.history.spool.records && ParseRow(w.history.spool.records[head]).Some?
  }

  ghost function Head(w: World): DeliveryId
    requires Working(w)
  {
    w.drainer.queue[0]
  }

  ghost function RecordOf(s: Spool, id: DeliveryId): CaptureRecord
    requires id in s.records && ParseRow(s.records[id]).Some?
  {
    ParseRow(s.records[id]).value
  }

  ghost function HeadRecord(w: World): CaptureRecord
    requires Working(w)
  {
    RecordOf(w.history.spool, Head(w))
  }

  /**
   * When a step can happen. Both transactions of a persist are atomic and idempotent, so only a delivery that did not
   * get past one of them before can be rejected there as invalid; every other error sends the delivery back to be
   * retried.
   */
  ghost predicate Ready(w: World, step: Step) {
    match step
    case Admitting(_, _, _, _) => true
    case Requeueing(_) => true
    case Starting => w.drainer.Idle?
    case Claiming(_, _) => w.drainer.Draining? && w.drainer.queue == []
    case Waiting => Working(w) && w.drainer.stage.Fresh? && MissingDependency(w.store, HeadRecord(w)).Some?
    case Conflicting =>
      && Working(w) && w.drainer.stage.Fresh? && MissingDependency(w.store, HeadRecord(w)).None?
      && CaptureConflict(w.store, HeadRecord(w)).Some?
    case Persisting =>
      && Working(w) && w.drainer.stage.Fresh? && MissingDependency(w.store, HeadRecord(w)).None?
      && CaptureConflict(w.store, HeadRecord(w)).None?
    case Preserving => Working(w) && w.drainer.stage.Stored?
    case Rejected =>
      && Working(w)
      && (|| (w.drainer.stage.Fresh? && Head(w) !in w.stored)
          || (w.drainer.stage.Stored? && Head(w) !in w.history.persisted))
    case Failing => Working(w)
    case Releasing => Working(w) && w.drainer.stage.Persisted?
    case Acknowledging => Working(w) && w.drainer.stage.Released?
    case Crashing => w.drainer.Draining?
  }

  /** The transaction on the spool, if the step has one. */
  ghost function ActionOf(w: World, m: Move): Option<Action>
    requires Ready(w, m.step)
  {
    match m.step
    case Admitting(id, record, bytes, limits) => Some(Action(DoAdmit(id, record, bytes, limits), m.now))
    case Requeueing(id) => Some(Action(DoRequeue(id), m.now))
    case Starting => None
    case Claiming(batch, limit) => Some(Action(DoClaim(batch, limit), m.now))
    case Waiting =>
      var d := MissingDependency(w.store, HeadRecord(w)).value;
      Some(Action(DoWait(Head(w), d.reason, d.key), m.now))
    case Conflicting => Some(Action(DoQuarantine(Head(w), Corrupt, CaptureConflict(w.store, HeadRecord(w)).value),
                                    m.now))
    case Persisting => if HasContext(HeadRecord(w)) then None else Some(Action(DoPersist(Head(w)), m.now))
    case Preserving => Some(Action(DoPersist(Head(w)), m.now))
    case Rejected => Some(Action(DoQuarantine(Head(w), Corrupt, UnknownLegacy), m.now))
    case Failing => Some(Action(DoRetry(Head(w), StorageUnavailable), m.now))
    case Releasing =>
      var key := ReleasedKey(HeadRecord(w));
      if key.Some? then Some(Action(DoRelease(key.value), m.now)) else None
    case Acknowledging => Some(Action(DoAcknowledge(Head(w)), m.now))
    case Crashing => None
  }

  ghost predicate CanMove(w: World, m: Move) {
    Ready(w, m.step) && (ActionOf(w, m).Some? ==> Enabled(w.history, ActionOf(w, m).value))
  }

  ghost function HandedIds(s: Spool, batch: seq<DeliveryId>): seq<DeliveryId> {
    if batch == [] then [] else
      var last := batch[|batch| - 1];
      HandedIds(s, batch[..|batch| - 1])
        + if last in s.records && ParseRow(s.records[last]).Some? then [last] else []
  }

  ghost function After(w: World, m: Move): World
    requires CanMove(w, m)
  {
    var action := ActionOf(w, m);
    var w1 := if action.Some? then w.(history := Apply(w.history, action.value)) else w;
    match m.step
    case Admitting(_, _, _, _) => w1
    case Requeueing(_) => w1
    case Starting => w1.(drainer := Draining([], Fresh))
    case Claiming(batch, _) => w1.(drainer := Draining(HandedIds(w.history.spool, batch), Fresh))
    case Persisting =>
      w1.(store := Recorded(w.store, HeadRecord(w)), stored := w.stored + {Head(w)},
          drainer := w.drainer.(stage := if HasContext(HeadRecord(w)) then Stored else Persisted))
    case Preserving => w1.(drainer := w.drainer.(stage := Persisted))
    case Releasing => w1.(drainer := w.drainer.(stage := Released))
    case Crashing => w1.(drainer := Idle)
    case _ => w1.(drainer := Draining(w.drainer.queue[1..], Fresh))
  }

  const INITIAL := World(START, Store(map[], {}), {}, Idle)

  // ---- the scope of the wake-up property ----

  function SessionIdOf(record: CaptureRecord): string {
    match record
    case SessionStart(session, _) => session.id
    case SessionEnd(_, sessionId, _, _) => sessionId
    case Technical(event, _) => event.sessionId
  }

  /** No technical record carries its session, and the id of a session determines its source. */
  ghost predicate InScope(record: CaptureRecord, owner: string -> Source) {
    (record.Technical? ==> record.embedded.None?) && SourceOf(record) == owner(SessionIdOf(record))
  }

  ghost function OwnerScope(owner: string -> Source): CaptureRecord -> bool {
    record => InScope(record, owner)
  }

  /** Every stored payload that parses satisfies the condition. */
  ghost predicate AllRecords(s: Spool, ok: CaptureRecord -> bool) {
    && (forall id :: id in s.records && s.records[id].payload.Parsed? ==> ok(s.records[id].payload.record))
    && (forall id :: id in s.quarantine && s.quarantine[id].payload.Parsed? ==> ok(s.quarantine[id].payload.record))
  }

  // ---- the invariant ----

  ghost predicate QueueClaimed(w: World) {
    w.drainer.Draining? ==>
      && (forall i :: 0 <= i < |w.drainer.queue| ==>
            && InState(w.history.spool, w.drainer.queue[i], Claimed)
            && ParseRow(w.history.spool.records[w.drainer.queue[i]]).Some?)
      && (forall i, j :: 0 <= i < j < |w.drainer.queue| ==> w.drainer.queue[i] != w.drainer.queue[j])
      && (!w.drainer.stage.Fresh? ==> w.drainer.queue != [] && w.drainer.queue[0] in w.stored)
      && (w.drainer.stage.Stored? ==> Working(w) && HasContext(HeadRecord(w)))
      && (w.drainer.stage.Persisted? || w.drainer.stage.Released? ==> w.drainer.queue[0] in w.history.persisted)
  }

  /** A waiting delivery whose dependency has meanwhile arrived in the store. */
  ghost predicate Met(w: World, id: DeliveryId) {
    var s := w.history.spool;
    && InRecovery(s, id, WaitingDependency) && s.recovery[id].dependencyKey.Some?
    && id in s.records && ParseRow(s.records[id]).Some?
    && MissingDependency(w.store, RecordOf(s, id)) != Some(Dependency(s.recovery[id].reason,
                                                                      s.recovery[id].dependencyKey.value))
  }

  /**
   * A delivery whose record is in the store but that is not acknowledged, and that will release the key unless its
   * context is refused.
   */
  ghost predicate LiveProvider(w: World, p: DeliveryId, key: DependencyKey) {
    var s := w.history.spool;
    && p in s.records && ParseRow(s.records[p]).Some? && p in w.stored
    && ReleasedKey(RecordOf(s, p)) == Some(key)
    && CaptureConflict(w.store, RecordOf(s, p)).None?
    && (RecordOf(s, p).SessionStart? ==> RecordOf(s, p).session.id in w.store.sessions)
    && !(Working(w) && Head(w) == p && w.drainer.stage.Released?)
  }

  ghost predicate NoLostWakeupAt(w: World, id: DeliveryId) {
    Met(w, id) ==> exists p :: LiveProvider(w, p, w.history.spool.recovery[id].dependencyKey.value)
  }

  /** A waiting delivery waits for something that one of its dependencies was when it started to wait. */
  ghost predicate WaitsSoundly(w: World, id: DeliveryId) {
    var s := w.history.spool;
    InRecovery(s, id, WaitingDependency) ==>
      && s.recovery[id].dependencyKey.Some? && id in s.records && ParseRow(s.records[id]).Some?
  }

  /** What every run keeps, whatever its records are. */
  ghost predicate DrainInvariant(w: World) {
    && Invariant(w.history)
    && QueueClaimed(w)
    && forall id :: WaitsSoundly(w, id)
  }

  /**
   * Persisting the head strands a waiter: the head inserts the session that the waiter waits for, releases another key
   * or none, and no stored delivery of the spool will release the waiter's key. All of it can be read before the
   * persist.
   */
  ghost predicate LosesAt(w: World, id: DeliveryId)
    requires Working(w)
  {
    var s := w.history.spool;
    var inserted := InsertedSession(HeadRecord(w));
    && inserted.Some? && inserted.value.id !in w.store.sessions
    && WaitsSoundly(w, id) && InRecovery(s, id, WaitingDependency) && !Met(w, id)
    && s.recovery[id].reason == MissingSession && s.recovery[id].dependencyKey.value.id == inserted.value.id
    && s.recovery[id].dependencyKey != ReleasedKey(HeadRecord(w))
    && !exists p :: LiveProvider(w.(store := Recorded(w.store, HeadRecord(w))), p, s.recovery[id].dependencyKey.value)
  }

  /** The head strands a waiter if it is rejected: what that waits for is stored, and only the head would wake it. */
  ghost predicate StrandsAt(w: World, id: DeliveryId)
    requires Working(w)
  {
    Met(w, id) && !exists p :: p != Head(w) && LiveProvider(w, p, w.history.spool.recovery[id].dependencyKey.value)
  }

  ghost predicate Loses(w: World, m: Move, id: DeliveryId)
    requires CanMove(w, m)
  {
    (m.step.Persisting? && LosesAt(w, id)) || (m.step.Rejected? && StrandsAt(w, id))
  }

  ghost predicate NeverLoses(w: World, m: Move)
    requires CanMove(w, m)
  {
    forall id :: !Loses(w, m, id)
  }

  // ---- one delivery across one transaction ----

  ghost predicate Ends(s: Spool, step: SpoolRuns.Step, id: DeliveryId) {
    match step
    case DoAcknowledge(i) => i == id && InState(s, id, Claimed)
    case DoQuarantine(i, _, _) => i == id
    case _ => false
  }

  /** A row that parses keeps its payload until it is acknowledged or quarantined. */
  lemma RowKept(h: History, a: Action, id: DeliveryId)
    requires Invariant(h) && Enabled(h, a) && !Ends(h.spool, a.step, id)
    requires id in h.spool.records && ParseRow(h.spool.records[id]).Some?
    ensures id in Apply(h, a).spool.records && ParseRow(Apply(h, a).spool.records[id]) == ParseRow(h.spool.records[id])
  {
    assert InvariantAt(h, id);
    match a.step
    case DoClaim(_, _) => ClaimAcross(h, a, id);
    case DoQuarantine(q, code, reason) =>
      assert InvariantAt(h, q);
      if q in h.spool.records { MoveFacts(h.spool, q, code, reason, a.now); }
    case DoAdmit(_, _, _, _) =>
    case DoPersist(_) =>
    case DoAcknowledge(_) =>
    case DoRetry(_, _) =>
    case DoWait(_, _, _) =>
    case DoRelease(_) =>
    case DoRequeue(_) =>
  }

  /** The delivery waited before, and the transaction neither ends nor wakes it. */
  ghost predicate StillWaits(s: Spool, step: SpoolRuns.Step, id: DeliveryId, row: RecoveryRow) {
    && InRecovery(s, id, WaitingDependency) && s.recovery[id] == row && !Ends(s, step, id)
    && !(step.DoRelease? && row.dependencyKey == Some(step.key))
  }

  ghost predicate StartsToWait(s: Spool, step: SpoolRuns.Step, id: DeliveryId, row: RecoveryRow) {
    step.DoWait? && step.id == id && row.reason == step.reason && row.dependencyKey == Some(step.key) && id in s.records
  }

  lemma WaitingFromQuarantine(h: History, a: Action, id: DeliveryId)
    requires Invariant(h) && a.step.DoQuarantine? && InRecovery(Apply(h, a).spool, id, WaitingDependency)
    ensures StillWaits(h.spool, a.step, id, Apply(h, a).spool.recovery[id])
  {
    var q := a.step.id;
    assert InvariantAt(h, id) && InvariantAt(h, q);
    if q in h.spool.records { MoveFacts(h.spool, q, a.step.code, a.step.reason, a.now); }
  }

  /** A delivery waits because it waited before, or because this is the transaction that makes it wait. */
  lemma WaitingFrom(h: History, a: Action, id: DeliveryId)
    requires Invariant(h) && Enabled(h, a) && InRecovery(Apply(h, a).spool, id, WaitingDependency)
    ensures var row := Apply(h, a).spool.recovery[id];
      StillWaits(h.spool, a.step, id, row) || StartsToWait(h.spool, a.step, id, row)
  {
    assert InvariantAt(h, id);
    match a.step
    case DoClaim(_, _) => ClaimAcross(h, a, id);
    case DoQuarantine(_, _, _) => WaitingFromQuarantine(h, a, id);
    case DoAcknowledge(q) => assert InvariantAt(h, q);
    case DoAdmit(_, _, _, _) =>
    case DoPersist(_) =>
    case DoRetry(_, _) =>
    case DoWait(_, _, _) =>
    case DoRelease(_) =>
    case DoRequeue(_) =>
  }

  // ---- every step keeps the invariant ----

  lemma HistoryKept(w: World, m: Move)
    requires Invariant(w.history) && CanMove(w, m)
    ensures Invariant(After(w, m).history)
  {
    var action := ActionOf(w, m);
    if action.Some? {
      StepKeeps(w.history, action.value);
    }
  }

  /** The delivery that a step of the drainer ends, if any: quarantined or acknowledged. */
  ghost predicate EndsHead(w: World, m: Move, id: DeliveryId) {
    Working(w) && Head(w) == id && (m.step.Conflicting? || m.step.Rejected? || m.step.Acknowledging?)
  }

  lemma RowKeptByMove(w: World, m: Move, id: DeliveryId)
    requires Invariant(w.history) && CanMove(w, m) && !EndsHead(w, m, id)
    requires id in w.history.spool.records && ParseRow(w.history.spool.records[id]).Some?
    ensures var s := After(w, m).history.spool;
      id in s.records && ParseRow(s.records[id]) == ParseRow(w.history.spool.records[id])
  {
    var action := ActionOf(w, m);
    if action.Some? {
      RowKept(w.history, action.value, id);
    }
  }

  /** The store only grows, and a session never changes once it is there. */
  ghost predicate Grows(a: Store, b: Store) {
    && (forall id :: id in a.sessions ==> id in b.sessions && b.sessions[id] == a.sessions[id])
    && a.requests <= b.requests
  }

  lemma PersistedGrows(h: History, a: Action)
    requires Enabled(h, a)
    ensures h.persisted <= Apply(h, a).persisted
  {
    hide Admit, Claim, Acknowledge, Retry, WaitForDependency, ReleaseDependency, Quarantine, Requeue;
  }

  lemma StoreGrows(w: World, m: Move)
    requires CanMove(w, m)
    ensures Grows(w.store, After(w, m).store) && w.history.persisted <= After(w, m).history.persisted
    ensures w.stored <= After(w, m).stored
  {
    hide Apply, Enabled, MissingDependency, CaptureConflict, ParseRow;
    if ActionOf(w, m).Some? {
      PersistedGrows(w.history, ActionOf(w, m).value);
    }
  }

  lemma ProviderKept(w: World, m: Move, p: DeliveryId, key: DependencyKey)
    requires Invariant(w.history) && CanMove(w, m) && LiveProvider(w, p, key)
    requires !((m.step.Releasing? || m.step.Rejected?) && Head(w) == p)
    ensures LiveProvider(After(w, m), p, key)
  {
    var v := After(w, m);
    assert !EndsHead(w, m, p);
    RowKeptByMove(w, m, p);
    StoreGrows(w, m);
  }

  /** A waiter after a step is a waiter from before, or the head that the step made wait for what the store lacks. */
  lemma WaiterFrom(w: World, m: Move, id: DeliveryId)
    requires DrainInvariant(w) && CanMove(w, m) && InRecovery(After(w, m).history.spool, id, WaitingDependency)
    ensures WaitsSoundly(After(w, m), id)
    ensures !OldWaiter(w, m, id) ==> !Met(After(w, m), id)
  {
    var v := After(w, m);
    HistoryKept(w, m);
    assert InvariantAt(v.history, id);
    assert WaitsSoundly(w, id);
    var action := ActionOf(w, m);
    if action.Some? {
      WaitingFrom(w.history, action.value, id);
    }
    if m.step.Waiting? && id == Head(w) {
      assert InvariantAt(w.history, id) && InState(w.history.spool, id, Claimed);
      RowKeptByMove(w, m, id);
      assert v.store == w.store;
    } else {
      RowKeptByMove(w, m, id);
    }
  }

  /** The delivery waits on both sides of the step, for the same key. */
  ghost predicate OldWaiter(w: World, m: Move, id: DeliveryId)
    requires CanMove(w, m)
  {
    && InRecovery(w.history.spool, id, WaitingDependency) && id in After(w, m).history.spool.recovery
    && After(w, m).history.spool.recovery[id] == w.history.spool.recovery[id] && !EndsHead(w, m, id)
  }

  /**
   * The heart of the property: only a persist makes a dependency arrive, and only a rejection takes a provider away
   * without a release.
   */
  lemma WakeupOfWaiter(w: World, m: Move, id: DeliveryId)
    requires DrainInvariant(w) && NoLostWakeupAt(w, id) && CanMove(w, m) && OldWaiter(w, m, id)
    ensures NoLostWakeupAt(After(w, m), id) <==> !Loses(w, m, id)
  {
    var v := After(w, m);
    assert WaitsSoundly(w, id);
    var key := w.history.spool.recovery[id].dependencyKey.value;
    RowKeptByMove(w, m, id);
    if Met(w, id) {
      WakeupOfMet(w, m, id);
    } else if m.step.Persisting? {
      PersistOfAwaited(w, m, id);
    }
  }

  /** A rejection takes the head out of the spool, and touches no other delivery of the spool. */
  lemma RejectionTakesHead(w: World, m: Move, id: DeliveryId)
    requires Invariant(w.history) && CanMove(w, m) && m.step.Rejected?
    ensures var s, v := w.history.spool, After(w, m);
      && v.store == w.store && v.stored == w.stored && v.drainer == Draining(w.drainer.queue[1..], Fresh)
      && v.history.spool.records == s.records - {Head(w)}
      && (id in s.records && id != Head(w) && id in s.recovery ==>
            id in v.history.spool.recovery && v.history.spool.recovery[id] == s.recovery[id])
      && (id in v.history.spool.recovery ==> id in s.recovery)
      && (id in v.history.spool.recovery && id == Head(w) ==> v.history.spool.recovery[id].state.Quarantined?)
      && (id in v.history.spool.recovery && id != Head(w) ==>
            v.history.spool.recovery[id] == s.recovery[id])
  {
    hide Newest, MissingDependency, CaptureConflict, MoveToQuarantine;
    assert InvariantAt(w.history, Head(w));
    MoveFacts(w.history.spool, Head(w), Corrupt, UnknownLegacy, m.now);
  }

  /** A waiter whose dependency has arrived keeps a provider, unless the only one is rejected. */
  lemma WakeupOfMet(w: World, m: Move, id: DeliveryId)
    requires DrainInvariant(w) && NoLostWakeupAt(w, id) && CanMove(w, m) && OldWaiter(w, m, id) && Met(w, id)
    ensures NoLostWakeupAt(After(w, m), id) <==> !Loses(w, m, id)
  {
    var v := After(w, m);
    var key := w.history.spool.recovery[id].dependencyKey.value;
    var p :| LiveProvider(w, p, key);
    assert !(m.step.Releasing? && Head(w) == p);
    if m.step.Rejected? {
      assert InvariantAt(w.history, id);
      RejectedMet(w, m, id);
    } else {
      ProviderKept(w, m, p, key);
    }
  }

  lemma RejectedMet(w: World, m: Move, id: DeliveryId)
    requires DrainInvariant(w) && CanMove(w, m) && m.step.Rejected? && OldWaiter(w, m, id) && Met(w, id)
    ensures NoLostWakeupAt(After(w, m), id) <==> !StrandsAt(w, id)
  {
    var v := After(w, m);
    var key := w.history.spool.recovery[id].dependencyKey.value;
    RowKeptByMove(w, m, id);
    assert Met(v, id);
    forall p | p != Head(w) ensures LiveProvider(v, p, key) <==> LiveProvider(w, p, key) {
      ProviderUnlessRejected(w, m, p, key);
    }
    assert !LiveProvider(v, Head(w), key) by { RejectionTakesHead(w, m, id); }
  }

  lemma ProviderUnlessRejected(w: World, m: Move, p: DeliveryId, key: DependencyKey)
    requires Invariant(w.history) && CanMove(w, m) && m.step.Rejected? && p != Head(w)
    ensures LiveProvider(After(w, m), p, key) <==> LiveProvider(w, p, key)
  {
    hide After;
    RejectionTakesHead(w, m, p);
  }

  /** A persist gives an unmet waiter its provider exactly if it does not strand it. */
  lemma PersistOfAwaited(w: World, m: Move, id: DeliveryId)
    requires DrainInvariant(w) && CanMove(w, m) && m.step.Persisting? && OldWaiter(w, m, id) && !Met(w, id)
    ensures NoLostWakeupAt(After(w, m), id) <==> !LosesAt(w, id)
  {
    var v := After(w, m);
    assert WaitsSoundly(w, id);
    var key := w.history.spool.recovery[id].dependencyKey.value;
    RowKeptByMove(w, m, id);
    RowKeptByMove(w, m, Head(w));
    if ReleasedKey(HeadRecord(w)) == Some(key) {
      if Met(v, id) {
        assert LiveProvider(v, Head(w), key);
      }
    } else {
      forall p ensures LiveProvider(v, p, key) <==> LiveProvider(w.(store := v.store), p, key) {
        assert v.history.spool == w.history.spool;
      }
    }
  }

  lemma WakeupKept(w: World, m: Move, id: DeliveryId)
    requires DrainInvariant(w) && NoLostWakeupAt(w, id) && CanMove(w, m)
    ensures WaitsSoundly(After(w, m), id)
    ensures NoLostWakeupAt(After(w, m), id) <==> !Loses(w, m, id)
  {
    hide LosesAt, StrandsAt, LiveProvider;
    if InRecovery(After(w, m).history.spool, id, WaitingDependency) {
      WaiterFrom(w, m, id);
      if OldWaiter(w, m, id) {
        WakeupOfWaiter(w, m, id);
      }
    }
    if m.step.Persisting? || m.step.Rejected? {
      LosersWait(w, m, id);
    }
  }

  lemma LosersWait(w: World, m: Move, id: DeliveryId)
    requires DrainInvariant(w) && CanMove(w, m) && (m.step.Persisting? || m.step.Rejected?)
    ensures Loses(w, m, id) ==> OldWaiter(w, m, id)
    ensures InRecovery(After(w, m).history.spool, id, WaitingDependency) ==> OldWaiter(w, m, id)
  {
    assert InvariantAt(w.history, id) && InvariantAt(w.history, Head(w));
    assert InState(w.history.spool, Head(w), Claimed);
    if m.step.Rejected? {
      hide After, LiveProvider, MissingDependency;
      RejectionTakesHead(w, m, id);
    } else {
      PersistKeepsSpool(w, m);
    }
  }

  lemma PersistKeepsSpool(w: World, m: Move)
    requires CanMove(w, m) && m.step.Persisting?
    ensures After(w, m).history.spool == w.history.spool
  {
  }

  // ---- the queue, and the scope ----

  /** A claimed delivery stays claimed until a transaction addresses it, or until the next claim. */
  lemma ClaimedKept(h: History, a: Action, id: DeliveryId)
    requires Invariant(h) && Enabled(h, a) && !a.step.DoClaim? && InState(h.spool, id, Claimed)
    requires a.step.DoRetry? || a.step.DoWait? || a.step.DoAcknowledge? || a.step.DoQuarantine? ==> a.step.id != id
    ensures InState(Apply(h, a).spool, id, Claimed)
  {
    assert InvariantAt(h, id);
    if a.step.DoQuarantine? && a.step.id in h.spool.records {
      assert InvariantAt(h, a.step.id);
      MoveFacts(h.spool, a.step.id, a.step.code, a.step.reason, a.now);
    }
  }

  lemma {:induction false} HandedIdsFacts(s: Spool, batch: seq<DeliveryId>)
    requires forall i, j :: 0 <= i < j < |batch| ==> batch[i] != batch[j]
    ensures forall id :: id in HandedIds(s, batch) <==> id in batch && id in s.records && ParseRow(s.records[id]).Some?
    ensures forall i, j :: 0 <= i < j < |HandedIds(s, batch)| ==> HandedIds(s, batch)[i] != HandedIds(s, batch)[j]
  {
    if batch != [] {
      var front := batch[..|batch| - 1];
      var last := batch[|batch| - 1];
      HandedIdsFacts(s, front);
      assert batch == front + [last];
      assert last !in front;
    }
  }

  lemma QueueOfClaim(w: World, m: Move)
    requires Invariant(w.history) && QueueClaimed(w) && CanMove(w, m) && m.step.Claiming?
    ensures QueueClaimed(After(w, m))
  {
    var v := After(w, m);
    var h, a := w.history, ActionOf(w, m).value;
    BatchIsValid(BeforeClaim(h.spool, a.now), a.now, a.step.limit, a.step.batch);
    HandedIdsFacts(h.spool, a.step.batch);
    forall i | 0 <= i < |v.drainer.queue|
      ensures InState(v.history.spool, v.drainer.queue[i], Claimed)
      ensures ParseRow(v.history.spool.records[v.drainer.queue[i]]).Some?
    {
      var id := v.drainer.queue[i];
      assert id in HandedIds(h.spool, a.step.batch);
      ClaimAcross(h, a, id);
    }
  }

  /** How the queue moves when nothing is claimed: it stays, or its head leaves it. */
  lemma QueueMoves(w: World, m: Move)
    requires QueueClaimed(w) && CanMove(w, m) && !m.step.Claiming?
    requires w.drainer.Draining? && After(w, m).drainer.Draining?
    ensures var d := After(w, m).drainer;
      || d == w.drainer
      || (Working(w) && d == Draining(w.drainer.queue[1..], Fresh))
      || (Working(w) && Head(w) in After(w, m).stored && HasContext(HeadRecord(w)) && d == w.drainer.(stage := Stored))
      || (Working(w) && Head(w) in After(w, m).stored && Head(w) in After(w, m).history.persisted
          && d == w.drainer.(stage := Persisted))
      || (m.step.Releasing? && w.drainer.stage.Persisted? && d == w.drainer.(stage := Released))
  {
    hide Admit, Claim, Acknowledge, Retry, WaitForDependency, ReleaseDependency, Quarantine, Requeue;
  }

  lemma QueueKept(w: World, m: Move)
    requires Invariant(w.history) && QueueClaimed(w) && CanMove(w, m)
    ensures QueueClaimed(After(w, m))
  {
    if m.step.Claiming? {
      QueueOfClaim(w, m);
    } else if After(w, m).drainer.Draining? {
      if w.drainer.Draining? {
        QueueOfWork(w, m);
      } else {
        StartsEmpty(w, m);
      }
    }
  }

  lemma StartsEmpty(w: World, m: Move)
    requires CanMove(w, m) && w.drainer.Idle? && After(w, m).drainer.Draining?
    ensures After(w, m).drainer == Draining([], Fresh)
  {
    hide Admit, Claim, Acknowledge, Retry, WaitForDependency, ReleaseDependency, Quarantine, Requeue;
  }

  lemma QueueOfWork(w: World, m: Move)
    requires Invariant(w.history) && QueueClaimed(w) && CanMove(w, m) && !m.step.Claiming?
    requires w.drainer.Draining? && After(w, m).drainer.Draining?
    ensures QueueClaimed(After(w, m))
  {
    hide After, CanMove;
    var v := After(w, m);
    QueueMoves(w, m);
    StoreGrows(w, m);
    forall i | 0 <= i < |v.drainer.queue|
      ensures InState(v.history.spool, v.drainer.queue[i], Claimed)
      ensures ParseRow(v.history.spool.records[v.drainer.queue[i]]).Some?
    {
      QueueElementKept(w, m, i);
    }
    if v.drainer.stage.Stored? {
      assert Working(w) && !EndsHead(w, m, Head(w)) by { StoredGoesOn(w, m); }
      RowKeptByMove(w, m, Head(w));
    }
  }

  lemma StoredGoesOn(w: World, m: Move)
    requires QueueClaimed(w) && CanMove(w, m) && w.drainer.Draining? && !m.step.Claiming?
    requires After(w, m).drainer.Draining? && After(w, m).drainer.stage.Stored?
    ensures Working(w) && !EndsHead(w, m, Head(w)) && After(w, m).drainer.queue == w.drainer.queue
  {
    hide Admit, Claim, Acknowledge, Retry, WaitForDependency, ReleaseDependency, Quarantine, Requeue;
  }

  lemma QueueElementKept(w: World, m: Move, i: nat)
    requires Invariant(w.history) && QueueClaimed(w) && CanMove(w, m) && !m.step.Claiming?
    requires w.drainer.Draining? && After(w, m).drainer.Draining? && i < |After(w, m).drainer.queue|
    ensures InState(After(w, m).history.spool, After(w, m).drainer.queue[i], Claimed)
    ensures ParseRow(After(w, m).history.spool.records[After(w, m).drainer.queue[i]]).Some?
  {
    var id := After(w, m).drainer.queue[i];
    assert id in w.drainer.queue;
    var action := ActionOf(w, m);
    assert InState(w.history.spool, id, Claimed);
    RowKeptByMove(w, m, id);
    if action.Some? {
      ClaimedKept(w.history, action.value, id);
    }
  }

  lemma MoveInScope(s: Spool, id: DeliveryId, code: QuarantineCode, reason: Reason, now: int, ok: CaptureRecord -> bool)
    requires AllRecords(s, ok) && id in s.records
    ensures AllRecords(MoveToQuarantine(s, id, code, reason, now), ok)
  {
  }

  lemma {:induction false} ClaimInScope(s: Spool, batch: seq<DeliveryId>, now: int, ok: CaptureRecord -> bool)
    requires AllRecords(s, ok)
    ensures AllRecords(ClaimRows(s, batch, now), ok)
  {
    if batch != [] {
      var t := ClaimRows(s, batch[..|batch| - 1], now);
      var id := batch[|batch| - 1];
      ClaimInScope(s, batch[..|batch| - 1], now, ok);
      if id in t.records && ParseRow(t.records[id]).None? {
        MoveInScope(t, id, Corrupt, MalformedRecord, now, ok);
        MoveInScope(t, id, Unsupported, UnsupportedSchema, now, ok);
      }
    }
  }

  lemma ActionInScope(h: History, a: Action, ok: CaptureRecord -> bool)
    requires Enabled(h, a) && AllRecords(h.spool, ok)
    requires a.step.DoAdmit? ==> ok(a.step.record)
    ensures AllRecords(Apply(h, a).spool, ok)
  {
    match a.step
    case DoClaim(batch, _) => ClaimInScope(BeforeClaim(h.spool, a.now), batch, a.now, ok);
    case DoQuarantine(q, code, reason) =>
      if q in h.spool.records { MoveInScope(h.spool, q, code, reason, a.now, ok); }
    case DoAdmit(_, _, _, _) =>
    case DoPersist(_) =>
    case DoAcknowledge(_) =>
    case DoRetry(_, _) =>
    case DoWait(_, _, _) =>
    case DoRelease(_) =>
    case DoRequeue(_) =>
  }

  /** Every step keeps the invariant, whatever records are admitted. */
  lemma MoveKept(w: World, m: Move)
    requires DrainInvariant(w) && CanMove(w, m)
    ensures DrainInvariant(After(w, m))
  {
    HistoryKept(w, m);
    QueueKept(w, m);
    forall id ensures WaitsSoundly(After(w, m), id) {
      if InRecovery(After(w, m).history.spool, id, WaitingDependency) {
        WaiterFrom(w, m, id);
      }
    }
  }

  ghost predicate NoLostWakeups(w: World) {
    forall id :: NoLostWakeupAt(w, id)
  }

  /**
   * From a state without a lost wake-up, a step leads to such a state if and only if it is neither a persist nor a
   * rejection that strands a waiter.
   */
  lemma WakeupsKeptExactly(w: World, m: Move)
    requires DrainInvariant(w) && NoLostWakeups(w) && CanMove(w, m)
    ensures NoLostWakeups(After(w, m)) <==> NeverLoses(w, m)
  {
    hide After, Loses, NoLostWakeupAt;
    forall id ensures NoLostWakeupAt(After(w, m), id) <==> !Loses(w, m, id) {
      WakeupKept(w, m, id);
    }
  }

  // ---- runs ----

  ghost predicate IsDrainRun(ws: seq<World>, moves: seq<Move>) {
    && |ws| == |moves| + 1
    && ws[0] == INITIAL
    && forall k :: 0 <= k < |moves| ==> CanMove(ws[k], moves[k]) && ws[k + 1] == After(ws[k], moves[k])
  }

  lemma {:induction false} DrainInvariantHolds(ws: seq<World>, moves: seq<Move>, k: nat)
    requires IsDrainRun(ws, moves) && k < |ws|
    ensures DrainInvariant(ws[k])
  {
    hide After;
    if k > 0 {
      DrainInvariantHolds(ws, moves, k - 1);
      assert CanMove(ws[k - 1], moves[k - 1]) && ws[k] == After(ws[k - 1], moves[k - 1]);
      MoveKept(ws[k - 1], moves[k - 1]);
    }
  }

  lemma {:induction false} SafeSoFar(ws: seq<World>, moves: seq<Move>, k: nat)
    requires IsDrainRun(ws, moves) && k < |ws|
    requires forall i :: 0 <= i < k ==> NeverLoses(ws[i], moves[i])
    ensures NoLostWakeups(ws[k])
  {
    hide After, NeverLoses, NoLostWakeups;
    if k == 0 {
      NothingLostAtFirst();
    } else {
      SafeSoFar(ws, moves, k - 1);
      DrainInvariantHolds(ws, moves, k - 1);
      assert CanMove(ws[k - 1], moves[k - 1]) && ws[k] == After(ws[k - 1], moves[k - 1]);
      assert NeverLoses(ws[k - 1], moves[k - 1]);
      WakeupsKeptExactly(ws[k - 1], moves[k - 1]);
    }
  }

  lemma NothingLostAtFirst()
    ensures NoLostWakeups(INITIAL)
  {
  }

  /**
   * Exactly when no wake-up is lost: whatever crashed and when, in every state of a run every delivery that waits for
   * something the store already has is backed by a provider, if and only if no persist and no rejection of the run
   * strands a waiter. A provider is in the spool, stored, unacknowledged and not past its release of the waiter's key.
   */
  lemma WakeupsAreKeptExactly(ws: seq<World>, moves: seq<Move>)
    requires IsDrainRun(ws, moves)
    ensures (forall k :: 0 <= k < |ws| ==> NoLostWakeups(ws[k])) <==>
              forall k :: 0 <= k < |moves| ==> NeverLoses(ws[k], moves[k])
  {
    hide After, NeverLoses, NoLostWakeups;
    if forall k :: 0 <= k < |moves| ==> NeverLoses(ws[k], moves[k]) {
      forall k | 0 <= k < |ws| ensures NoLostWakeups(ws[k]) {
        SafeSoFar(ws, moves, k);
      }
    }
    if forall k :: 0 <= k < |ws| ==> NoLostWakeups(ws[k]) {
      forall k | 0 <= k < |moves| ensures NeverLoses(ws[k], moves[k]) {
        DrainInvariantHolds(ws, moves, k);
        assert NoLostWakeups(ws[k]) && NoLostWakeups(ws[k + 1]);
        WakeupsKeptExactly(ws[k], moves[k]);
      }
    }
  }

  // ---- records whose persist never strands anyone ----

  lemma {:induction false} ScopeHolds(ws: seq<World>, moves: seq<Move>, owner: string -> Source, k: nat)
    requires IsDrainRun(ws, moves) && k < |ws|
    requires forall m :: m in moves && m.step.Admitting? ==> InScope(m.step.record, owner)
    ensures AllRecords(ws[k].history.spool, OwnerScope(owner))
  {
    hide After, AllRecords;
    if k == 0 {
      EmptyIsInScope(OwnerScope(owner));
    } else {
      ScopeHolds(ws, moves, owner, k - 1);
      assert CanMove(ws[k - 1], moves[k - 1]) && ws[k] == After(ws[k - 1], moves[k - 1]);
      assert moves[k - 1] in moves;
      MoveInRecordScope(ws[k - 1], moves[k - 1], OwnerScope(owner));
    }
  }

  lemma EmptyIsInScope(ok: CaptureRecord -> bool)
    ensures AllRecords(INITIAL.history.spool, ok)
  {
  }

  lemma MoveInRecordScope(w: World, m: Move, ok: CaptureRecord -> bool)
    requires CanMove(w, m) && AllRecords(w.history.spool, ok)
    requires m.step.Admitting? ==> ok(m.step.record)
    ensures AllRecords(After(w, m).history.spool, ok)
  {
    hide AllRecords;
    var action := ActionOf(w, m);
    if action.Some? {
      ActionInScope(w.history, action.value, ok);
    }
  }

  /** The second transaction of a persist rejects the head as invalid, after the first has stored it. */
  ghost predicate RefusesContext(w: World, m: Move) {
    m.step.Rejected? && w.drainer.Draining? && w.drainer.stage.Stored?
  }

  /**
   * When technical records carry no session and the id of a session determines its source, a persist strands nobody.
   * Neither does a rejection, unless it is a context that is refused.
   */
  lemma ScopedNeverLoses(w: World, m: Move, owner: string -> Source)
    requires DrainInvariant(w) && NoLostWakeups(w) && CanMove(w, m) && !RefusesContext(w, m)
    requires AllRecords(w.history.spool, OwnerScope(owner))
    ensures NeverLoses(w, m)
  {
    forall id ensures !Loses(w, m, id) {
      if m.step.Persisting? {
        assert InvariantAt(w.history, id) && InvariantAt(w.history, Head(w));
        assert OwnerScope(owner)(HeadRecord(w));
      } else if m.step.Rejected? && Met(w, id) {
        assert NoLostWakeupAt(w, id);
      }
    }
  }

  /** So under that scope no run loses a wake-up in which no context is refused. */
  lemma NoLostWakeup(ws: seq<World>, moves: seq<Move>, owner: string -> Source, k: nat, id: DeliveryId)
    requires IsDrainRun(ws, moves) && k < |ws|
    requires forall m :: m in moves && m.step.Admitting? ==> InScope(m.step.record, owner)
    requires forall i :: 0 <= i < k ==> !RefusesContext(ws[i], moves[i])
    requires Met(ws[k], id)
    ensures exists p :: LiveProvider(ws[k], p, ws[k].history.spool.recovery[id].dependencyKey.value)
  {
    hide After, NeverLoses, NoLostWakeups, Met, LiveProvider;
    ScopedRunsAreSafe(ws, moves, owner, k);
    SafeAt(ws[k], id);
  }

  lemma SafeAt(w: World, id: DeliveryId)
    requires NoLostWakeups(w)
    ensures NoLostWakeupAt(w, id)
  {
  }

  lemma {:induction false} ScopedRunsAreSafe(ws: seq<World>, moves: seq<Move>, owner: string -> Source, k: nat)
    requires IsDrainRun(ws, moves) && k < |ws|
    requires forall m :: m in moves && m.step.Admitting? ==> InScope(m.step.record, owner)
    requires forall i :: 0 <= i < k ==> !RefusesContext(ws[i], moves[i])
    ensures NoLostWakeups(ws[k])
  {
    hide After, NeverLoses, NoLostWakeups;
    if k == 0 {
      NothingLostAtFirst();
    } else {
      ScopedRunsAreSafe(ws, moves, owner, k - 1);
      DrainInvariantHolds(ws, moves, k - 1);
      ScopeHolds(ws, moves, owner, k - 1);
      assert CanMove(ws[k - 1], moves[k - 1]) && ws[k] == After(ws[k - 1], moves[k - 1]);
      ScopedNeverLoses(ws[k - 1], moves[k - 1], owner);
      WakeupsKeptExactly(ws[k - 1], moves[k - 1]);
    }
  }

  /**
   * A live provider is lost only by releasing its key, and that wakes every delivery that waits for it; or by being
   * rejected before it was persisted.
   */
  lemma ProviderStaysUntilItReleases(w: World, m: Move, p: DeliveryId, key: DependencyKey)
    requires DrainInvariant(w) && CanMove(w, m) && LiveProvider(w, p, key)
    ensures || LiveProvider(After(w, m), p, key)
            || (forall id :: !WaitsOn(After(w, m).history.spool, id, key))
            || (RefusesContext(w, m) && Head(w) == p && p !in w.history.persisted)
  {
    if m.step.Releasing? && Head(w) == p {
      assert ActionOf(w, m) == Some(Action(DoRelease(key), m.now));
    } else if !(m.step.Rejected? && Head(w) == p) {
      ProviderKept(w, m, p, key);
    }
  }
}
