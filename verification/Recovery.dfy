/** Recovery plans: selecting held and quarantined deliveries, and requeueing them (src/capture/recovery.ts). */
module Recovery {
  import opened Prelude
  import opened CaptureRecords
  import opened SpoolTables

  const MAX_APPLIED_HISTORY: nat := 10_000
  const MAX_SELECTIONS: nat := 100

  /**
   * One row of the candidate query: the delivery joined with its spool row, its quarantined copy and its recovery row.
   */
  datatype Candidate = Candidate(
    id: DeliveryId,
    version: Option<int>,
    payload: Payload,
    recordState: Option<RecordState>,
    recovery: Option<RecoveryRow>,
    originalCode: Option<QuarantineCode>)

  datatype Ineligibility = MissingRecoveryMetadata | InvalidHeldRecord | InvalidQuarantineRecord | NotRecoverable

  /** The input hash is modelled by the input. */
  datatype Selection = Selection(
    id: DeliveryId,
    input: Payload,
    state: RecoveryState,
    reason: Reason,
    generation: nat,
    attempts: nat)

  /** The sessions table of the experience database, when that database exists. */
  type Experience = Option<map<string, Session>>

  datatype Plan = Plan(hash: nat, repositoryId: string, selections: seq<Selection>)

  /** Plans applied so far, oldest first: which delivery was requeued under which plan hash. */
  type Ledger = seq<(nat, DeliveryId)>

  datatype Database = Database(spool: Spool, ledger: Ledger)

  predicate IsCandidate(s: Spool, id: DeliveryId) {
    id in s.records || id in s.quarantine
  }

  function CandidateOf(s: Spool, id: DeliveryId): Candidate
    requires IsCandidate(s, id)
  {
    Candidate(
      id,
      if id in s.records then Some(s.records[id].version) else None,
      if id in s.records then s.records[id].payload else s.quarantine[id].payload,
      if id in s.records then Some(s.records[id].state) else None,
      if id in s.recovery then Some(s.recovery[id]) else None,
      if id in s.quarantine then Some(s.quarantine[id].code) else None)
  }

  function IneligibilityOf(c: Candidate): Option<Ineligibility> {
    if c.recovery.None? then Some(MissingRecoveryMetadata)
    else if c.recovery.value.state.Held? then
      if c.recordState == Some(Pending) && c.version == Some(1) then None else Some(InvalidHeldRecord)
    else if c.recovery.value.state.Quarantined? then
      if c.recordState.None? && c.originalCode == Some(Corrupt) then None else Some(InvalidQuarantineRecord)
    else Some(NotRecoverable)
  }

  function SelectionFor(c: Candidate): Selection
    requires c.recovery.Some?
  {
    Selection(c.id, c.payload, c.recovery.value.state, c.recovery.value.reason, c.recovery.value.generation,
              c.recovery.value.attempts)
  }

  /** What is read of a payload to find its repository: of a record, its session and what that declares. */
  function FieldsOf(payload: Payload): Option<Fields> {
    match payload
    case Unparsable(_, _, fields) => fields
    case Parsed(record, _) =>
      var session := match record
        case SessionStart(session, _) => Some(session)
        case SessionEnd(_, _, _, _) => None
        case Technical(_, embedded) => embedded;
      var sessionId := match record
        case SessionStart(session, _) => session.id
        case SessionEnd(_, id, _, _) => id
        case Technical(event, _) => event.sessionId;
      Some(Fields(Some(sessionId), Some(Named(SourceOf(record))),
                  if session.Some? then session.value.repositoryId else None))
  }

  /** The repository a payload belongs to: the declared one, unless the recorded session says otherwise. */
  function RecordScope(payload: Payload, experience: Experience): Option<string> {
    var fields := FieldsOf(payload);
    if fields.None? then None else
      var Fields(sessionId, source, declared) := fields.value;
      if sessionId.None? || source.None? || experience.None? then declared else
        var known := sessionId.value in experience.value
            && source.value == Named(experience.value[sessionId.value].source);
        var recorded := if known then experience.value[sessionId.value].repositoryId else None;
        if declared.Some? && recorded.Some? && declared != recorded then None
        else if declared.Some? then declared else recorded
  }

  predicate Recoverable(s: Spool, id: DeliveryId) {
    IsCandidate(s, id) && IneligibilityOf(CandidateOf(s, id)).None?
  }

  /** The selection still describes its delivery. */
  predicate Current(s: Spool, experience: Experience, repositoryId: string, selection: Selection) {
    && Recoverable(s, selection.id)
    && RecordScope(CandidateOf(s, selection.id).payload, experience) == Some(repositoryId)
    && SelectionFor(CandidateOf(s, selection.id)) == selection
  }

  /** A quarantined delivery is inserted again; a held one gets a fresh budget. Both start a new generation. */
  function Requeue(s: Spool, id: DeliveryId, now: int): Spool
    requires Recoverable(s, id)
  {
    var payload := CandidateOf(s, id).payload;
    s.(
      records :=
        if s.recovery[id].state.Quarantined?
        then s.records[id := SpoolRow(SPOOL_VERSION, payload, payload.bytes, Pending, now, 0, now, None)]
        else s.records[id := s.records[id].(state := Pending, attempts := 0, nextRetryAt := now, leaseUntil := None)],
      recovery := s.recovery[id := s.recovery[id].(
        state := Eligible, generation := s.recovery[id].generation + 1, attempts := 0,
        dependencyKey := None, updatedAt := now)])
  }
}
