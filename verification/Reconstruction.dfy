/**
 * The reconstruction of a session from its observations (src/evidence/reconstructor.ts). Timestamps are milliseconds
 * and strings are ordered by their code units; an operation is named by what its id is a digest of.
 */
module Reconstruction {
  import opened Prelude
  import opened Ordering
  import opened Intervals

  const MAX_OBSERVATIONS := 10000

  datatype Kind = KindRequest | KindResult | KindVerification | KindWait

  datatype Outcome = Succeeded | Failed | Unclear

  datatype Provenance = HookEnvelope | AsyncCompletion | CliJsonItem

  datatype Reason = SourceFieldAbsent | ResultNotDelivered | AwaitingAsyncCompletion | CorrelationMissing
      | UnsupportedResultShape
    | PrivacyRedacted | LegacyRecord

  datatype Interpretation = NoMatch | Interrupted | EnvironmentLimited | FailedTest | ExpectedRed | UnclassifiedNonzero
      | NoInterpretation

  datatype Observation = Observation(
    id: string, sourceEventId: string, executionKey: Option<string>, kind: Kind, occurredAt: int,
    relatedEventId: Option<string>, tool: Option<string>, outcome: Option<Outcome>, exitStatus: Option<int>,
    provenance: Option<Provenance>, unknownReason: Option<Reason>, interpretation: Option<Interpretation>,
    endedAt: Option<int>)

  datatype Reconciliation = Reconciliation(attempted: bool, expectedThrough: Option<nat>, committedThrough: Option<nat>)

  datatype Input = Input(source: string, sessionId: string, startedAt: int, sourceEndedAt: Option<int>,
                         reconciliation: Option<Reconciliation>, observations: seq<Observation>)

  datatype ResultFact = ResultFact(exitStatus: Option<int>, provenance: Option<Provenance>,
                                   unknownReason: Option<Reason>, interpretation: Option<Interpretation>)

  datatype OperationOutcome = ProcessSucceeded | CommandFailed | TaskVerificationFailed | NotKnown

  datatype OperationId = OperationId(source: string, sessionId: string, requestSourceEventId: string)

  datatype Operation = Operation(
    id: OperationId, requestEvidenceId: string, requestSourceEventId: string, resultEvidenceId: Option<string>,
    result: ResultFact, verificationEvidenceIds: seq<string>, tool: Option<string>, startedAt: int,
    endedAt: Option<int>, durationMs: Option<nat>, processOutcome: Outcome, taskOutcome: Outcome,
    outcome: OperationOutcome)

  datatype Lifecycle = Open | SourceEnded | ReconciledComplete | Incomplete

  datatype Metrics = Metrics(elapsedMs: Option<int>, activeOperationMs: Option<nat>, observedWaitingMs: Option<nat>)

  datatype Coverage = Coverage(retainedObservations: nat, duplicateObservations: nat, matchedResults: nat,
                               unmatchedResults: int, missingResults: int, missingRequestSourceEventIds: seq<string>)

  datatype Report = Report(source: string, sessionId: string, lifecycle: Lifecycle, operations: seq<Operation>,
                           unmatchedEvidenceIds: seq<string>, metrics: Metrics, coverage: Coverage)

  // ---- which observations are kept ----

  predicate ValidObservation(o: Observation) {
    && o.relatedEventId != Some(o.sourceEventId)
    && (o.kind == KindResult || o.kind == KindVerification ==> o.relatedEventId.Some?)
    && (o.kind == KindRequest ==> o.relatedEventId.None?)
    && (o.exitStatus.Some? || o.provenance.Some? || o.unknownReason.Some? || o.interpretation.Some? ==>
        o.kind == KindResult)
    && (o.exitStatus.Some? && o.outcome.Some? && o.outcome.value != Unclear ==>
          o.outcome.value == if o.exitStatus.value == 0 then Succeeded else Failed)
    && (o.endedAt.Some? ==> o.kind == KindWait && o.occurredAt <= o.endedAt.value)
  }

  predicate Precedes(a: Observation, b: Observation) {
    || a.occurredAt < b.occurredAt
    || (a.occurredAt == b.occurredAt &&
        (StringBefore(a.sourceEventId, b.sourceEventId)
         || (a.sourceEventId == b.sourceEventId && StringBefore(a.id, b.id))))
  }

  function ByTime(): (Observation, Observation) -> bool {
    (a, b) => Precedes(a, b)
  }

  predicate SameEvent(a: Observation, b: Observation) {
    a.kind == b.kind && a.sourceEventId == b.sourceEventId
  }

  /** The same observation, apart from its own identity. */
  predicate SameEvidence(a: Observation, b: Observation) {
    a.(id := b.id) == b
  }

  ghost predicate AllValid(s: seq<Observation>) {
    forall o :: o in s ==> ValidObservation(o)
  }

  ghost predicate IdentitiesAgree(s: seq<Observation>) {
    forall a, b :: a in s && b in s && a.id == b.id ==> a == b
  }

  ghost predicate EventsAgree(s: seq<Observation>) {
    forall a, b :: a in s && b in s && SameEvent(a, b) ==> SameEvidence(a, b)
  }

  ghost predicate Consistent(s: seq<Observation>) {
    AllValid(s) && IdentitiesAgree(s) && EventsAgree(s)
  }

  /** An observation is kept if none of its source event comes before it. */
  ghost predicate IsFirst(s: seq<Observation>, o: Observation) {
    o in s && forall b :: b in s && SameEvent(o, b) ==> !Precedes(b, o)
  }

  /** `kept` lists the first observation of each source event, in order. */
  ghost predicate IsListing(s: seq<Observation>, kept: seq<Observation>) {
    Ascending(kept, ByTime()) && forall o :: o in kept <==> IsFirst(s, o)
  }

  // ---- from the kept observations to the report ----

  function OfKind(s: seq<Observation>, kind: Kind): (r: seq<Observation>)
    ensures forall o :: o in r <==> o in s && o.kind == kind
  {
    if s == [] then [] else
      var rest := OfKind(s[..|s| - 1], kind);
      if s[|s| - 1].kind == kind then rest + [s[|s| - 1]] else rest
  }

  function SortedKind(kept: seq<Observation>, kind: Kind): (r: seq<Observation>)
    ensures forall o :: o in r <==> o in kept && o.kind == kind
  {
    assert forall o :: o in Sort(OfKind(kept, kind), ByTime()) <==> o in multiset(Sort(OfKind(kept, kind), ByTime()));
    Sort(OfKind(kept, kind), ByTime())
  }

  function RelatedTo(s: seq<Observation>, eventId: string): (r: seq<Observation>)
    ensures forall o :: o in r <==> o in s && o.relatedEventId == Some(eventId)
  {
    if s == [] then [] else
      var rest := RelatedTo(s[..|s| - 1], eventId);
      if s[|s| - 1].relatedEventId == Some(eventId) then rest + [s[|s| - 1]] else rest
  }

  function Qualified(results: seq<Observation>, request: Observation): (r: seq<Observation>)
    ensures forall o :: o in r <==> o in results && o.executionKey == request.executionKey
  {
    if results == [] then [] else
      var last := results[|results| - 1];
      var rest := Qualified(results[..|results| - 1], request);
      if (request.executionKey.None? && last.executionKey.None?) || (request.executionKey.Some?
            && last.executionKey == request.executionKey)
      then rest + [last] else rest
  }

  function ResultOf(results: seq<Observation>, request: Observation): Option<Observation> {
    var qualified := Qualified(results, request);
    if |qualified| == 1 then Some(qualified[0]) else None
  }

  function FactOf(result: Option<Observation>, delivered: bool): ResultFact {
    match result
    case None => ResultFact(None, None, Some(if delivered then CorrelationMissing else ResultNotDelivered), None)
    case Some(r) => ResultFact(
      r.exitStatus,
      Some(if r.provenance.Some? then r.provenance.value else HookEnvelope),
      if r.unknownReason.Some? then r.unknownReason else if r.exitStatus.None? then Some(SourceFieldAbsent) else None,
      if r.interpretation.Some? then r.interpretation
      else if r.exitStatus.Some? && r.exitStatus.value != 0 then Some(UnclassifiedNonzero) else None)
  }

  function ProcessOutcome(result: Option<Observation>, fact: ResultFact): Outcome {
    if result.None? || result.value.outcome.None? || result.value.outcome.value == Unclear || fact.interpretation ==
          Some(NoMatch) then Unclear
    else if result.value.exitStatus.Some? then if result.value.exitStatus.value == 0 then Succeeded else Failed
    else result.value.outcome.value
  }

  function TaskOutcome(verifications: seq<Observation>): Outcome {
    if exists v :: v in verifications && v.outcome == Some(Failed) then Failed
    else if |verifications| > 0 && forall v :: v in verifications ==> v.outcome == Some(Succeeded) then Succeeded
    else Unclear
  }

  function OverallOutcome(process: Outcome, task: Outcome): OperationOutcome {
    if process == Failed then CommandFailed
    else if task == Failed then TaskVerificationFailed
    else if process == Succeeded then ProcessSucceeded
    else NotKnown
  }

  function IdsOf(s: seq<Observation>): (r: seq<string>)
    ensures |r| == |s| && forall i :: 0 <= i < |s| ==> r[i] == s[i].id
  {
    seq(|s|, i requires 0 <= i < |s| => s[i].id)
  }

  /** The operation of one request, or nothing where the source rejects the whole input. */
  function OperationFrom(request: Observation, results: seq<Observation>, verifications: seq<Observation>,
      source: string, sessionId: string): Option<Operation> {
    var result := ResultOf(results, request);
    var fact := FactOf(result, |results| > 0);
    var process := ProcessOutcome(result, fact);
    var task := TaskOutcome(verifications);
    var verified := exists v :: v in verifications && v.outcome == Some(Succeeded);
    if result.Some? && result.value.interpretation == Some(ExpectedRed) && !verified then None
    else if result.Some? && result.value.occurredAt < request.occurredAt then None
    else Some(Operation(
      OperationId(source, sessionId, request.sourceEventId), request.id, request.sourceEventId,
      if result.Some? then Some(result.value.id) else None,
      fact, IdsOf(verifications), request.tool, request.occurredAt,
      if result.Some? then Some(result.value.occurredAt) else None,
      if result.Some? then Some(result.value.occurredAt - request.occurredAt) else None,
      process, task, OverallOutcome(process, task)))
  }

  function OperationOf(kept: seq<Observation>, request: Observation, source: string,
                       sessionId: string): Option<Operation> {
    OperationFrom(request, RelatedTo(SortedKind(kept, KindResult), request.sourceEventId),
                  RelatedTo(SortedKind(kept, KindVerification), request.sourceEventId), source, sessionId)
  }

  function OperationsOf(kept: seq<Observation>, requests: seq<Observation>, source: string,
      sessionId: string): Option<seq<Operation>> {
    if requests == [] then Some([]) else
      var earlier := OperationsOf(kept, requests[..|requests| - 1], source, sessionId);
      var last := OperationOf(kept, requests[|requests| - 1], source, sessionId);
      if earlier.Some? && last.Some? then Some(earlier.value + [last.value]) else None
  }

  predicate Uses(operation: Operation, id: string) {
    operation.resultEvidenceId == Some(id) || id in operation.verificationEvidenceIds
  }

  predicate IsUsed(operations: seq<Operation>, id: string) {
    exists i :: 0 <= i < |operations| && Uses(operations[i], id)
  }

  function UnmatchedIds(kept: seq<Observation>, operations: seq<Operation>): seq<string> {
    if kept == [] then [] else
      var last := kept[|kept| - 1];
      var rest := UnmatchedIds(kept[..|kept| - 1], operations);
      if (last.kind == KindResult || last.kind == KindVerification) && !IsUsed(operations, last.id)
      then rest + [last.id] else rest
  }

  function CountMatched(operations: seq<Operation>): nat {
    if operations == [] then 0 else
      CountMatched(operations[..|operations| - 1])
      + if operations[|operations| - 1].resultEvidenceId.Some? then 1 else 0
  }

  function MissingIds(operations: seq<Operation>): seq<string> {
    if operations == [] then [] else
      var last := operations[|operations| - 1];
      MissingIds(operations[..|operations| - 1])
      + if last.resultEvidenceId.None? then [last.requestSourceEventId] else []
  }

  function LifecycleOf(input: Input): Lifecycle {
    if input.sourceEndedAt.Some? then
      if input.reconciliation.Some? && input.reconciliation.value.attempted
         && input.reconciliation.value.expectedThrough.Some?
         && input.reconciliation.value.committedThrough == input.reconciliation.value.expectedThrough
      then ReconciledComplete else SourceEnded
    else if input.reconciliation.Some? && input.reconciliation.value.attempted then Incomplete else Open
  }

  function ActiveIntervals(operations: seq<Operation>): seq<Interval> {
    if operations == [] then [] else
      var last := operations[|operations| - 1];
      ActiveIntervals(operations[..|operations| - 1])
      + if last.endedAt.Some? then [Interval(last.startedAt, last.endedAt.value)] else []
  }

  function WaitIntervals(kept: seq<Observation>): seq<Interval> {
    if kept == [] then [] else
      var last := kept[|kept| - 1];
      WaitIntervals(kept[..|kept| - 1]) + if last.kind == KindWait
            && last.endedAt.Some? then [Interval(last.occurredAt, last.endedAt.value)] else []
  }

  ghost function MetricsOf(input: Input, operations: seq<Operation>, kept: seq<Observation>): Metrics {
    var active := ActiveIntervals(operations);
    var waits := WaitIntervals(kept);
    Metrics(
      if input.sourceEndedAt.Some? then Some(input.sourceEndedAt.value - input.startedAt) else None,
      if exists o :: o in operations && o.durationMs.Some? then Some(|Covered(active)|) else None,
      if waits == [] then None else Some(|Covered(waits)|))
  }

  ghost function ReportOf(input: Input, kept: seq<Observation>, duplicates: nat, operations: seq<Operation>): Report {
    Report(
      input.source, input.sessionId, LifecycleOf(input), operations,
      Sort(UnmatchedIds(kept, operations), ByString()),
      MetricsOf(input, operations, kept),
      Coverage(|kept|, duplicates, CountMatched(operations), |SortedKind(kept, KindResult)| - CountMatched(operations),
               |operations| - CountMatched(operations), Sort(MissingIds(operations), ByString())))
  }

  predicate ValidInput(input: Input) {
    && (input.sourceEndedAt.Some? ==> input.startedAt <= input.sourceEndedAt.value)
    && |input.observations| <= MAX_OBSERVATIONS
    && (input.reconciliation.Some? && input.reconciliation.value.committedThrough.Some?
          && input.reconciliation.value.expectedThrough.Some? ==>
          input.reconciliation.value.committedThrough.value <= input.reconciliation.value.expectedThrough.value)
  }

  predicate InBounds(input: Input, o: Observation) {
    && input.startedAt <= o.occurredAt
    && (input.sourceEndedAt.Some? ==>
        (if o.endedAt.Some? then o.endedAt.value else o.occurredAt) <= input.sourceEndedAt.value)
  }

  predicate AllInBounds(input: Input, kept: seq<Observation>) {
    forall i :: 0 <= i < |kept| ==> InBounds(input, kept[i])
  }

  ghost function Listing(s: seq<Observation>): seq<Observation> {
    if kept :| IsListing(s, kept) then kept else []
  }

  /**
   * The report of an input, or nothing where it is rejected: a function of the set of its observations and of their
   * number.
   */
  ghost function Reconstructed(input: Input): Option<Report> {
    var kept := Listing(input.observations);
    var operations := OperationsOf(kept, SortedKind(kept, KindRequest), input.source, input.sessionId);
    if ValidInput(input) && Consistent(input.observations) && AllInBounds(input, kept) && operations.Some?
        && |kept| <= |input.observations|
    then Some(ReportOf(input, kept, |input.observations| - |kept|, operations.value))
    else None
  }
}
