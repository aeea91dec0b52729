/**
 * The append-only log of how advice is used (src/advice/usage.ts) and the ordered fold that reads a bundle's progress
 * from it. Keys are taken to be well formed and witnesses to be trusted; a bundle id is what its digest is taken of.
 */
module AdviceUsage {
  import opened Prelude

  datatype Scope = Scope(repositoryId: string, lessonId: string, lessonRevision: string, sessionId: string,
                         contextRevision: string)

  datatype BundleId = BundleId(scope: Scope, operationSignature: string)

  datatype Kind = Retrieved | Delivered | Selected | Applied | OutcomeObserved | Rejected | Expired

  datatype Origin = CliRetrieval | CliOutput | AgentClaim | HostChallenge | AgentSelection | OperationEvidence
      | VerificationEvidence
    | DeterministicCheck

  datatype Fact = Fact(bundle: BundleId, kind: Kind, origin: Origin, witnessRef: string, recordedAt: int)
  {
    predicate SameAs(other: Fact) {
      bundle == other.bundle && kind == other.kind && origin == other.origin && witnessRef == other.witnessRef
    }
  }

  datatype Outcome = Outcome(witnessRef: string, bundle: BundleId, sessionId: string, operationSignature: string,
                             appliedEventId: string, fixtureDigest: string, protocolDigest: string,
                             sourceDigest: string, succeeded: bool)

  datatype Log = Log(bundles: map<BundleId, int>, facts: seq<Fact>, outcomes: map<string, Outcome>)

  predicate AllowedOrigin(kind: Kind, origin: Origin) {
    match kind
    case Retrieved => false
    case Delivered => origin == AgentClaim || origin == HostChallenge
    case Selected => origin == AgentSelection
    case Applied => origin == OperationEvidence
    case OutcomeObserved => origin == VerificationEvidence || origin == DeterministicCheck
    case Rejected => origin == AgentSelection
    case Expired => origin == CliRetrieval
  }

  // ---- the fold ----

  datatype Progress = Progress(stage: nat, selectedAt: Option<int>, appliedRefs: seq<string>)

  function Advanced(p: Progress, row: Fact): Progress {
    if p.stage == 0 && row.kind == Retrieved && row.origin == CliRetrieval then p.(stage := 1)
    else if p.stage == 1 && row.kind == Delivered && AllowedOrigin(Delivered, row.origin) then p.(stage := 2)
    else if p.stage == 2 && row.kind == Selected
          && AllowedOrigin(Selected, row.origin) then p.(stage := 3, selectedAt := Some(row.recordedAt))
    else if p.stage >= 3 && row.kind == Applied
          && AllowedOrigin(Applied, row.origin) then p.(stage := 4, appliedRefs := p.appliedRefs + [row.witnessRef])
    else p
  }

  function ProgressOf(rows: seq<Fact>): Progress {
    if rows == [] then Progress(0, None, []) else Advanced(ProgressOf(rows[..|rows| - 1]), rows[|rows| - 1])
  }

  method QualifiedProgress(rows: seq<Fact>) returns (progress: Progress)
    ensures progress == ProgressOf(rows)
  {
    var stage: nat := 0;
    var selectedAt: Option<int> := None;
    var appliedRefs: seq<string> := [];
    for i := 0 to |rows|
      invariant ProgressOf(rows[..i]) == Progress(stage, selectedAt, appliedRefs)
    {
      assert rows[..i + 1][..i] == rows[..i];
      var row := rows[i];
      if stage == 0 && row.kind == Retrieved && row.origin == CliRetrieval {
        stage := 1;
      } else if stage == 1 && row.kind == Delivered && AllowedOrigin(Delivered, row.origin) {
        stage := 2;
      } else if stage == 2 && row.kind == Selected && AllowedOrigin(Selected, row.origin) {
        stage := 3;
        selectedAt := Some(row.recordedAt);
      } else if stage >= 3 && row.kind == Applied && AllowedOrigin(Applied, row.origin) {
        stage := 4;
        appliedRefs := appliedRefs + [row.witnessRef];
      }
    }
    assert rows[..|rows|] == rows;
    progress := Progress(stage, selectedAt, appliedRefs);
  }

  // ---- writes ----

  function FactsOf(facts: seq<Fact>, bundle: BundleId): seq<Fact> {
    if facts == [] then [] else
      var earlier := FactsOf(facts[..|facts| - 1], bundle);
      if facts[|facts| - 1].bundle == bundle then earlier + [facts[|facts| - 1]] else earlier
  }

  /** Inserts a fact unless it is there; a bundle is retrieved once. */
  function WithFact(facts: seq<Fact>, fact: Fact): seq<Fact> {
    if exists i :: 0 <= i < |facts| && facts[i].bundle == fact.bundle
        && (facts[i].SameAs(fact) || facts[i].kind == Retrieved == fact.kind)
    then facts else facts + [fact]
  }

  function AfterRetrieval(log: Log, bundle: BundleId, retrievalRef: string, now: int): Log {
    log.(bundles := if bundle in log.bundles then log.bundles else log.bundles[bundle := now],
         facts := WithFact(log.facts, Fact(bundle, Retrieved, CliRetrieval, retrievalRef, now)))
  }

  predicate IsHex(c: char) {
    '0' <= c <= '9' || 'a' <= c <= 'f'
  }

  predicate IsVersionedRef(ref: string, prefix: string) {
    prefix <= ref && |ref| == |prefix| + 64 && forall i :: |prefix| <= i < |ref| ==> IsHex(ref[i])
  }

  const EXPOSURE_PREFIX := "codex-exposure:v1:"
  const OUTCOME_PREFIX := "deterministic-outcome:v1:"

  function RequiredStage(kind: Kind): nat {
    match kind
    case Selected => 2
    case Applied => 3
    case OutcomeObserved => 4
    case _ => 1
  }

  predicate FitsOutcome(outcome: Outcome, bundle: BundleId, appliedRefs: seq<string>) {
    && outcome.operationSignature == bundle.operationSignature && outcome.sessionId == bundle.scope.sessionId
       && outcome.bundle == bundle
    && |outcome.fixtureDigest| == 64 && |outcome.protocolDigest| == 64 && |outcome.sourceDigest| == 64
    && outcome.appliedEventId in appliedRefs && outcome.succeeded
  }

  /** What every recorded fact must meet, with the outcome that comes with a deterministic check. */
  predicate MayRecord(log: Log, bundle: BundleId, scope: Scope, kind: Kind, origin: Origin, ref: string,
      outcome: Option<Outcome>) {
    && (origin == HostChallenge ==> kind == Delivered && IsVersionedRef(ref, EXPOSURE_PREFIX))
    && (origin == DeterministicCheck ==>
        kind == OutcomeObserved && outcome.Some? && IsVersionedRef(ref, OUTCOME_PREFIX))
    && AllowedOrigin(kind, origin)
    && bundle in log.bundles && bundle.scope == scope
    && ProgressOf(FactsOf(log.facts, bundle)).stage >= RequiredStage(kind)
    && (outcome.Some? ==> FitsOutcome(outcome.value, bundle, ProgressOf(FactsOf(log.facts, bundle)).appliedRefs))
  }

  function WithOutcome(outcomes: map<string, Outcome>, outcome: Option<Outcome>): map<string, Outcome> {
    if outcome.Some? && outcome.value.witnessRef !in outcomes then outcomes[outcome.value.witnessRef := outcome.value]
    else outcomes
  }

  function AfterFact(log: Log, bundle: BundleId, scope: Scope, kind: Kind, origin: Origin, ref: string, now: int,
      outcome: Option<Outcome>): Log {
    if !MayRecord(log, bundle, scope, kind, origin, ref, outcome) then log else
      log.(facts := WithFact(log.facts, Fact(bundle, kind, origin, ref, now)),
           outcomes := WithOutcome(log.outcomes, outcome))
  }

  class AdvisoryUsageStore {
    var bundles: map<BundleId, int>
    var facts: seq<Fact>
    var outcomes: map<string, Outcome>

    constructor ()
      ensures Stored() == Log(map[], [], map[])
    {
      bundles, facts, outcomes := map[], [], map[];
    }

    function Stored(): Log
      reads this
    {
      Log(bundles, facts, outcomes)
    }

    method InsertFact(fact: Fact)
      modifies `facts
      ensures facts == WithFact(old(facts), fact)
    {
      if !exists i :: 0 <= i < |facts| && facts[i].bundle == fact.bundle
            && (facts[i].SameAs(fact) || facts[i].kind == Retrieved == fact.kind) {
        facts := facts + [fact];
      }
    }

    method RecordRetrieval(scope: Scope, operationSignature: string, retrievalRef: string, now: int)
        returns (id: BundleId)
      modifies this
      ensures id == BundleId(scope, operationSignature)
      ensures Stored() == AfterRetrieval(old(Stored()), id, retrievalRef, now)
    {
      id := BundleId(scope, operationSignature);
      if id !in bundles {
        bundles := bundles[id := now];
      }
      InsertFact(Fact(id, Retrieved, CliRetrieval, retrievalRef, now));
    }

    method SelectFacts(bundle: BundleId) returns (rows: seq<Fact>)
      ensures rows == FactsOf(facts, bundle)
    {
      rows := [];
      for i := 0 to |facts|
        invariant rows == FactsOf(facts[..i], bundle)
      {
        assert facts[..i + 1][..i] == facts[..i];
        if facts[i].bundle == bundle {
          rows := rows + [facts[i]];
        }
      }
      assert facts[..|facts|] == facts;
    }

    method RecordFact(bundle: BundleId, scope: Scope, kind: Kind, origin: Origin, ref: string, now: int,
        outcome: Option<Outcome>) returns (ok: bool)
      modifies this
      ensures ok == MayRecord(old(Stored()), bundle, scope, kind, origin, ref, outcome)
      ensures Stored() == AfterFact(old(Stored()), bundle, scope, kind, origin, ref, now, outcome)
    {
      if origin == HostChallenge && (kind != Delivered || !IsVersionedRef(ref, EXPOSURE_PREFIX)) {
        return false;
      }
      if origin == DeterministicCheck
         && (kind != OutcomeObserved || outcome.None? || !IsVersionedRef(ref, OUTCOME_PREFIX)) {
        return false;
      }
      if !AllowedOrigin(kind, origin) || bundle !in bundles || bundle.scope != scope {
        return false;
      }
      var rows := SelectFacts(bundle);
      var progress := QualifiedProgress(rows);
      if progress.stage < RequiredStage(kind) {
        return false;
      }
      if outcome.Some? {
        if !FitsOutcome(outcome.value, bundle, progress.appliedRefs) {
          return false;
        }
        if outcome.value.witnessRef !in outcomes {
          outcomes := outcomes[outcome.value.witnessRef := outcome.value];
        }
      }
      InsertFact(Fact(bundle, kind, origin, ref, now));
      ok := true;
    }

    /** The public entry: challenges and checks need the trusted entries below. */
    method Record(bundle: BundleId, scope: Scope, kind: Kind, origin: Origin, ref: string, now: int) returns (ok: bool)
      modifies this
      ensures origin == HostChallenge || origin == DeterministicCheck ==> !ok && Stored() == old(Stored())
      ensures origin != HostChallenge && origin != DeterministicCheck ==>
                Stored() == AfterFact(old(Stored()), bundle, scope, kind, origin, ref, now, None)
                && ok == MayRecord(old(Stored()), bundle, scope, kind, origin, ref, None)
    {
      if origin == HostChallenge || origin == DeterministicCheck {
        return false;
      }
      ok := RecordFact(bundle, scope, kind, origin, ref, now, None);
    }

    method RecordHostDelivery(bundle: BundleId, scope: Scope, ref: string, now: int) returns (ok: bool)
      modifies this
      ensures ok == MayRecord(old(Stored()), bundle, scope, Delivered, HostChallenge, ref, None)
      ensures Stored() == AfterFact(old(Stored()), bundle, scope, Delivered, HostChallenge, ref, now, None)
    {
      ok := RecordFact(bundle, scope, Delivered, HostChallenge, ref, now, None);
    }

    method RecordDeterministicOutcome(scope: Scope, outcome: Outcome, now: int) returns (ok: bool)
      modifies this
      ensures ok == MayRecord(old(Stored()), outcome.bundle, scope, OutcomeObserved, DeterministicCheck,
                              outcome.witnessRef,
            Some(outcome))
      ensures Stored() == AfterFact(old(Stored()), outcome.bundle, scope, OutcomeObserved, DeterministicCheck,
            outcome.witnessRef, now, Some(outcome))
    {
      ok := RecordFact(outcome.bundle, scope, OutcomeObserved, DeterministicCheck, outcome.witnessRef, now,
                       Some(outcome));
    }
  }
}
