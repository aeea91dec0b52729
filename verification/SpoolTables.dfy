/** The durable capture spool: its tables and, for every transaction, the state it leaves (src/capture/spool.ts). */
module SpoolTables {
  import opened Prelude
  import opened CaptureRecords

  /**
   * A delivery id is a digest of fixed-width lower-case hex digits; such strings are ordered as the numbers they write.
   */
  type DeliveryId = nat

  const SPOOL_VERSION := 1
  const MAX_AUTOMATIC_ATTEMPTS: nat := 4
  const LEASE_MS := 30_000
  const RECOVERY_HISTORY: nat := 10_000
  const QUARANTINE_HISTORY: nat := 1_000

  datatype RecordState = Pending | Claimed

  /** The name of a source, of the known ones or not. */
  datatype SourceName = Named(source: Source) | OtherName(name: string)

  /** What a lenient reading finds in a payload: a session with its source, and a declared repository. */
  datatype Fields = Fields(sessionId: Option<string>, source: Option<SourceName>, repositoryId: Option<string>)

  /**
   * A stored payload is the text of a record, or text that no longer parses as one; either has a length in bytes. Such
   * text may still be an object with fields.
   */
  datatype Payload = Parsed(record: CaptureRecord, bytes: nat)
      | Unparsable(text: string, bytes: nat, fields: Option<Fields>)

  datatype SpoolRow = SpoolRow(
    version: int,
    payload: Payload,
    payloadBytes: nat,
    state: RecordState,
    admittedAt: int,
    attempts: nat,
    nextRetryAt: int,
    leaseUntil: Option<int>)

  datatype RecoveryState = Eligible | WaitingDependency | Held | Committed | Quarantined

  datatype Reason =
    | MalformedRecord | UnsupportedSchema | MissingSession | MissingRequest
    | LifecycleConflict | ConflictingIdentity | StorageUnavailable | UnknownLegacy

  datatype RecoveryRow = RecoveryRow(
    rowid: nat,
    state: RecoveryState,
    reason: Reason,
    generation: nat,
    attempts: nat,
    dependencyKey: Option<DependencyKey>,
    updatedAt: int)

  datatype QuarantineCode = Corrupt | Unsupported

  datatype QuarantineRow = QuarantineRow(rowid: nat, payload: Payload, code: QuarantineCode, quarantinedAt: int)

  datatype Counters = Counters(admitted: nat, committed: nat, quarantined: nat, failedAdmission: nat)

  /**
   * Row ids grow with every insertion; the newest row of either history is never deleted, so the last one is enough.
   */
  datatype Spool = Spool(
    records: map<DeliveryId, SpoolRow>,
    recovery: map<DeliveryId, RecoveryRow>,
    quarantine: map<DeliveryId, QuarantineRow>,
    counters: Counters,
    lastRecoveryRow: nat,
    lastQuarantineRow: nat)

  datatype Limits = Limits(maxRecords: nat, maxBytes: nat)

  datatype Admission = Admitted | Duplicate | CapacityExhausted | KeyConflict

  const EMPTY := Spool(map[], map[], map[], Counters(0, 0, 0, 0), 0, 0)

  // ---- reading ----

  predicate Terminal(state: RecoveryState) {
    state.Committed? || state.Quarantined?
  }

  predicate InState(s: Spool, id: DeliveryId, state: RecordState) {
    id in s.records && s.records[id].state == state
  }

  predicate InRecovery(s: Spool, id: DeliveryId, state: RecoveryState) {
    id in s.recovery && s.recovery[id].state == state
  }

  function ParseRow(row: SpoolRow): Option<CaptureRecord> {
    if row.version == SPOOL_VERSION && row.payload.Parsed? then Some(row.payload.record) else None
  }

  ghost function TotalBytes(records: map<DeliveryId, SpoolRow>): nat {
    if records == map[] then 0 else
      var id :| id in records;
      records[id].payloadBytes + TotalBytes(records - {id})
  }

  /** The sum does not depend on which row is taken first. */
  lemma TotalBytesRemove(records: map<DeliveryId, SpoolRow>, id: DeliveryId)
    requires id in records
    ensures TotalBytes(records) == records[id].payloadBytes + TotalBytes(records - {id})
    decreases |records|
  {
    var first :| first in records && TotalBytes(records) == records[first].payloadBytes + TotalBytes(records - {first});
    if first != id {
      TotalBytesRemove(records - {first}, id);
      TotalBytesRemove(records - {id}, first);
      assert records - {first} - {id} == records - {id} - {first};
    }
  }

  function NewerThan(rowids: map<DeliveryId, nat>, id: DeliveryId): set<DeliveryId>
    requires id in rowids
  {
    set other | other in rowids && rowids[other] > rowids[id]
  }

  /** The ids of the newest `keep` rows. */
  function Newest(rowids: map<DeliveryId, nat>, keep: nat): set<DeliveryId> {
    set id | id in rowids && |NewerThan(rowids, id)| < keep
  }

  // ---- transactions ----

  function Admit(s: Spool, limits: Limits, usedBytes: nat, id: DeliveryId, record: CaptureRecord, bytes: nat, now: int)
    : (Spool, Admission)
  {
    if id in s.records then (s, Duplicate)
    else if id in s.recovery && Terminal(s.recovery[id].state) then (s, Duplicate)
    else if |s.records| >= limits.maxRecords || usedBytes + bytes > limits.maxBytes then
      (s.(counters := s.counters.(failedAdmission := s.counters.failedAdmission + 1)), CapacityExhausted)
    else if id in s.recovery then (s, KeyConflict)
    else (Inserted(s, id, record, bytes, now), Admitted)
  }

  function Inserted(s: Spool, id: DeliveryId, record: CaptureRecord, bytes: nat, now: int): Spool {
    s.(
      records := s.records[id := SpoolRow(SPOOL_VERSION, Parsed(record, bytes), bytes, Pending, now, 0, now, None)],
      recovery := s.recovery[id := RecoveryRow(s.lastRecoveryRow + 1, Eligible, UnknownLegacy, 1, 0, None, now)],
      counters := s.counters.(admitted := s.counters.admitted + 1),
      lastRecoveryRow := s.lastRecoveryRow + 1)
  }

  predicate Expired(row: SpoolRow, now: int) {
    row.state.Claimed? && row.leaseUntil.Some? && row.leaseUntil.value <= now
  }

  function ExpireLeases(records: map<DeliveryId, SpoolRow>, now: int): map<DeliveryId, SpoolRow> {
    map id | id in records ::
      if Expired(records[id], now) then records[id].(state := Pending, leaseUntil := None) else records[id]
  }

  predicate Exhausted(records: map<DeliveryId, SpoolRow>, recovery: map<DeliveryId, RecoveryRow>, id: DeliveryId) {
    && id in recovery && recovery[id].state.Eligible? && recovery[id].attempts >= MAX_AUTOMATIC_ATTEMPTS
    && id in records && records[id].state.Pending?
  }

  function HoldExhausted(records: map<DeliveryId, SpoolRow>, recovery: map<DeliveryId, RecoveryRow>, now: int)
    : map<DeliveryId, RecoveryRow>
  {
    map id | id in recovery ::
      if Exhausted(records, recovery, id)
      then recovery[id].(state := Held, reason := StorageUnavailable, updatedAt := now)
      else recovery[id]
  }

  /** The spool after the two set-wide updates at the head of a claim. */
  function BeforeClaim(s: Spool, now: int): Spool {
    var records := ExpireLeases(s.records, now);
    s.(records := records, recovery := HoldExhausted(records, s.recovery, now))
  }

  predicate Claimable(s: Spool, id: DeliveryId, now: int) {
    && InState(s, id, Pending) && s.records[id].nextRetryAt <= now
    && InRecovery(s, id, Eligible) && s.recovery[id].attempts < MAX_AUTOMATIC_ATTEMPTS
  }

  /** ORDER BY admitted_at, delivery_id */
  predicate Before(s: Spool, a: DeliveryId, b: DeliveryId)
    requires a in s.records && b in s.records
  {
    s.records[a].admittedAt < s.records[b].admittedAt
    || (s.records[a].admittedAt == s.records[b].admittedAt && a < b)
  }

  /** The first `limit` claimable rows, in order. */
  ghost predicate IsBatch(s: Spool, now: int, limit: nat, batch: seq<DeliveryId>) {
    && |batch| <= limit
    && (forall i :: 0 <= i < |batch| ==> Claimable(s, batch[i], now))
    && (forall i, j :: 0 <= i < j < |batch| ==> Before(s, batch[i], batch[j]))
    && (forall id :: id in s.records && Claimable(s, id, now) && id !in batch ==>
          |batch| == limit && forall i :: 0 <= i < |batch| ==> Before(s, batch[i], id))
  }

  function CopyNumbers(quarantine: map<DeliveryId, QuarantineRow>): map<DeliveryId, nat> {
    map id | id in quarantine :: quarantine[id].rowid
  }

  function NewestCopies(quarantine: map<DeliveryId, QuarantineRow>): map<DeliveryId, QuarantineRow> {
    var kept := Newest(CopyNumbers(quarantine), QUARANTINE_HISTORY);
    map id | id in quarantine && id in kept :: quarantine[id]
  }

  /** The copy into the quarantine table keeps an earlier copy of the same delivery, and then only the newest rows. */
  function CopyToQuarantine(s: Spool, id: DeliveryId, payload: Payload, code: QuarantineCode, now: int): Spool {
    if id in s.quarantine then s.(quarantine := NewestCopies(s.quarantine)) else
      var row := QuarantineRow(s.lastQuarantineRow + 1, payload, code, now);
      s.(quarantine := NewestCopies(s.quarantine[id := row]), lastQuarantineRow := s.lastQuarantineRow + 1)
  }

  function MoveToQuarantine(s: Spool, id: DeliveryId, code: QuarantineCode, reason: Reason, now: int): Spool
    requires id in s.records
  {
    var copied := CopyToQuarantine(s, id, s.records[id].payload, code, now);
    copied.(
      records := s.records - {id},
      counters := s.counters.(quarantined := s.counters.quarantined + 1),
      recovery := if id in s.recovery
        then s.recovery[id := s.recovery[id].(state := Quarantined, reason := reason, updatedAt := now)]
        else s.recovery)
  }

  function ClaimRow(s: Spool, id: DeliveryId, now: int): Spool {
    if id !in s.records then s else
      var row := s.records[id];
      if ParseRow(row).None? then
        if row.version == SPOOL_VERSION
        then MoveToQuarantine(s, id, Corrupt, MalformedRecord, now)
        else MoveToQuarantine(s, id, Unsupported, UnsupportedSchema, now)
      else
        s.(
          records := s.records[id := row.(state := Claimed, attempts := row.attempts + 1,
                                          leaseUntil := Some(now + LEASE_MS))],
          recovery := if id !in s.recovery then s.recovery else
            s.recovery[id := s.recovery[id].(attempts := s.recovery[id].attempts + 1, updatedAt := now)])
  }

  /** The rows of the batch, one after the other. */
  function ClaimRows(s: Spool, batch: seq<DeliveryId>, now: int): Spool {
    if batch == [] then s else ClaimRow(ClaimRows(s, batch[..|batch| - 1], now), batch[|batch| - 1], now)
  }

  function Claim(s: Spool, batch: seq<DeliveryId>, now: int): Spool {
    ClaimRows(BeforeClaim(s, now), batch, now)
  }

  function RecoveryNumbers(recovery: map<DeliveryId, RecoveryRow>): map<DeliveryId, nat> {
    map id | id in recovery :: recovery[id].rowid
  }

  /** The recovery rows of deliveries in the spool, and the newest of the others. */
  function KeptHistory(records: map<DeliveryId, SpoolRow>, recovery: map<DeliveryId, RecoveryRow>): map<DeliveryId,
      RecoveryRow> {
    var kept := Newest(RecoveryNumbers(recovery), RECOVERY_HISTORY);
    map id | id in recovery && (id in records || id in kept) :: recovery[id]
  }

  function Prune(s: Spool): Spool {
    s.(recovery := KeptHistory(s.records, s.recovery))
  }

  function Acknowledge(s: Spool, id: DeliveryId, now: int): Spool {
    if !InState(s, id, Claimed) then s else
      var t := s.(
        records := s.records - {id},
        counters := s.counters.(committed := s.counters.committed + 1),
        recovery :=
          if id in s.recovery then s.recovery[id := s.recovery[id].(state := Committed, updatedAt := now)]
          else s.recovery);
      if t.counters.committed % 256 == 0 then Prune(t) else t
  }

  function Pow2(n: nat): nat {
    if n == 0 then 1 else 2 * Pow2(n - 1)
  }

  function RetryDelay(attempts: nat): int {
    var delay := 100 * Pow2(if attempts == 0 then 0 else attempts - 1);
    if delay < 30_000 then delay else 30_000
  }

  function Retry(s: Spool, id: DeliveryId, now: int, reason: Reason): Spool {
    if !InState(s, id, Claimed) then s else
      var row := s.records[id];
      s.(
        records := s.records[id := row.(state := Pending, leaseUntil := None,
                                        nextRetryAt := now + RetryDelay(row.attempts))],
        recovery := if id !in s.recovery then s.recovery else
          var held := s.recovery[id].attempts >= MAX_AUTOMATIC_ATTEMPTS;
          s.recovery[id := s.recovery[id].(
            state := if held then Held else Eligible, reason := reason, updatedAt := now)])
  }

  function WaitForDependency(s: Spool, id: DeliveryId, reason: Reason, key: DependencyKey, now: int): Spool {
    s.(
      recovery := if !InRecovery(s, id, Eligible) then s.recovery else
        s.recovery[id := s.recovery[id].(state := WaitingDependency, reason := reason, dependencyKey := Some(key),
                                         updatedAt := now)],
      records := if !InState(s, id, Claimed) then s.records else
        s.records[id := s.records[id].(state := Pending, leaseUntil := None)])
  }

  predicate WaitsOn(s: Spool, id: DeliveryId, key: DependencyKey) {
    InRecovery(s, id, WaitingDependency) && s.recovery[id].dependencyKey == Some(key)
  }

  function Waiting(s: Spool, key: DependencyKey): set<DeliveryId> {
    set id | id in s.recovery && WaitsOn(s, id, key)
  }

  function Woken(row: RecoveryRow, now: int): RecoveryRow {
    row.(state := Eligible, generation := row.generation + 1, attempts := 0, dependencyKey := None, updatedAt := now)
  }

  /** The deliveries become eligible again, in a new generation and with a new attempt budget. */
  function Wake(s: Spool, ids: set<DeliveryId>, now: int): Spool {
    s.(
      recovery := map id | id in s.recovery :: if id in ids then Woken(s.recovery[id], now) else s.recovery[id],
      records := map id | id in s.records ::
        if id in ids && s.records[id].state.Pending? then s.records[id].(nextRetryAt := now + 100) else s.records[id])
  }

  function ReleaseDependency(s: Spool, key: DependencyKey, now: int): Spool {
    Wake(s, Waiting(s, key), now)
  }

  function Quarantine(s: Spool, id: DeliveryId, code: QuarantineCode, reason: Reason, now: int): Spool {
    if id !in s.records then s else
      var t := MoveToQuarantine(s, id, code, reason, now);
      if t.counters.quarantined % 256 == 0 then Prune(t) else t
  }
}
