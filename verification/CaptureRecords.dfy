/** The records that hooks hand to passive capture (src/capture/passive-service.ts, src/capture/contracts.ts). */
module CaptureRecords {
  import opened Prelude

  datatype Source = Codex | Cursor | ClaudeCode

  datatype Session = Session(
    id: string,
    source: Source,
    startedAt: int,
    repositoryId: Option<string>,
    workspaceId: Option<string>,
    userId: Option<string>)

  datatype StartOrigin = Startup | Resume

  datatype LifecycleSignal = LifecycleSignal(sourceEventId: string, startOrigin: Option<StartOrigin>, receiptAt: int)

  datatype EventPhase = PreIntent | PreAction | PostResult

  datatype Event = Event(
    source: Source,
    sourceEventId: string,
    sessionId: string,
    phase: EventPhase,
    occurredAt: int,
    relatedEventId: Option<string>)

  datatype CaptureRecord =
    | SessionStart(session: Session, lifecycle: Option<LifecycleSignal>)
    | SessionEnd(source: Source, sessionId: string, endedAt: int, lifecycle: Option<LifecycleSignal>)
    | Technical(event: Event, embedded: Option<Session>)

  /** What a waiting record is keyed by. The keyed hash of the pair is modelled by the pair itself. */
  datatype DependencyKey = DependencyKey(source: Source, id: string)

  /** The sources whose records may wait for, and release, a dependency. */
  predicate Supported(source: Source) {
    source.Codex? || source.Cursor?
  }

  function SourceOf(record: CaptureRecord): Source {
    match record
    case SessionStart(session, _) => session.source
    case SessionEnd(source, _, _, _) => source
    case Technical(event, _) => event.source
  }

  /** A request is persisted in two transactions, first the event with the session that it carries, then its context. */
  predicate HasContext(record: CaptureRecord) {
    record.Technical? && record.event.phase.PreAction?
  }

  /** The session that a successful persist writes when it is not there yet. A resumed start writes none. */
  function InsertedSession(record: CaptureRecord): Option<Session> {
    match record
    case SessionStart(session, lifecycle) =>
      if lifecycle.None? || lifecycle.value.startOrigin == Some(Startup) then Some(session) else None
    case SessionEnd(_, _, _, _) => None
    case Technical(_, embedded) => embedded
  }

  /** The key that is released once the record has been persisted. */
  function ReleasedKey(record: CaptureRecord): Option<DependencyKey> {
    match record
    case SessionStart(session, _) =>
      if Supported(session.source) then Some(DependencyKey(session.source, session.id)) else None
    case SessionEnd(_, _, _, _) => None
    case Technical(event, _) =>
      if event.phase.PreAction? && Supported(event.source)
      then Some(DependencyKey(event.source, event.sourceEventId))
      else None
  }
}
