/**
 * What the report of a session says about it (src/evidence/reconstructor.ts), told from the kept observations: how each
 * operation ended, which sessions are rejected, and how its time was spent.
 */
module ReconstructionOutcomes {
  import opened Prelude
  import opened Ordering
  import opened Intervals
  import opened Reconstruction
  import opened Reconstructor
  import opened ReconstructionFacts

  // ---- the evidence of one request ----

  /** A result that says how the command ended, unless it is only a search without a match. */
  predicate Reports(result: Observation, outcome: Outcome) {
    result.outcome == Some(outcome) && result.interpretation != Some(NoMatch)
  }

  ghost predicate HasResult(kept: seq<Observation>, request: Observation, outcome: Outcome) {
    exists r :: IsMatched(kept, r, request) && Reports(r, outcome)
  }

  predicate Verifies(v: Observation, request: Observation) {
    v.kind == KindVerification && v.relatedEventId == Some(request.sourceEventId)
  }

  ghost predicate HasVerification(kept: seq<Observation>, request: Observation, outcome: Outcome) {
    exists v :: v in kept && Verifies(v, request) && v.outcome == Some(outcome)
  }

  /** The result of an operation is the one that is matched to its request. */
  lemma ResultIsMatch(s: seq<Observation>, kept: seq<Observation>, request: Observation, r: Observation)
    requires IsListing(s, kept) && request in kept && request.kind == KindRequest
    ensures ResultOf(RelatedTo(SortedKind(kept, KindResult), request.sourceEventId), request) == Some(r) <==>
            IsMatched(kept, r, request)
  {
    var results := RelatedTo(SortedKind(kept, KindResult), request.sourceEventId);
    var qualified := Qualified(results, request);
    SortedKindHasNoDuplicates(s, kept, KindResult);
    RelatedHasNoDuplicates(SortedKind(kept, KindResult), request.sourceEventId);
    QualifiedHasNoDuplicates(results, request);
    if |qualified| == 1 && qualified[0] == r {
      assert qualified == [r] && r in qualified;
      forall other | other in kept && CompetesWith(other, r) ensures other == r {
        assert other in qualified;
      }
    }
    if IsMatched(kept, r, request) {
      assert r in qualified;
      OnlyElement(qualified, r);
    }
  }

  /** No result is matched to a request of which the operation names none. */
  lemma NoResultIsNoMatch(s: seq<Observation>, kept: seq<Observation>, request: Observation)
    requires IsListing(s, kept) && request in kept && request.kind == KindRequest
    requires ResultOf(RelatedTo(SortedKind(kept, KindResult), request.sourceEventId), request).None?
    ensures forall r :: !IsMatched(kept, r, request)
  {
    hide IsMatched, IsListing;
    forall r ensures !IsMatched(kept, r, request) {
      ResultIsMatch(s, kept, request, r);
    }
  }

  lemma MatchIsUnique(s: seq<Observation>, kept: seq<Observation>, request: Observation, r: Observation)
    requires IsListing(s, kept) && request in kept && request.kind == KindRequest && IsMatched(kept, r, request)
    ensures forall other :: IsMatched(kept, other, request) ==> other == r
  {
    hide IsMatched, IsListing;
    ResultIsMatch(s, kept, request, r);
    forall other | IsMatched(kept, other, request) ensures other == r {
      ResultIsMatch(s, kept, request, other);
    }
  }

  /** The status of a valid result agrees with its outcome, so either tells how the process ended. */
  lemma ProcessTold(result: Observation, outcome: Outcome)
    requires ValidObservation(result) && outcome != Unclear
    ensures ProcessOutcome(Some(result), FactOf(Some(result), true)) == outcome <==> Reports(result, outcome)
  {
  }

  lemma TaskTold(kept: seq<Observation>, request: Observation)
    ensures var verifications := RelatedTo(SortedKind(kept, KindVerification), request.sourceEventId);
      && (TaskOutcome(verifications) == Failed <==> HasVerification(kept, request, Failed))
      && (TaskOutcome(verifications) == Succeeded <==>
          (exists v :: v in kept && Verifies(v, request))
          && forall v :: v in kept && Verifies(v, request) ==> v.outcome == Some(Succeeded))
  {
    var verifications := RelatedTo(SortedKind(kept, KindVerification), request.sourceEventId);
    assert forall v :: v in verifications <==> v in kept && Verifies(v, request);
    assert |verifications| > 0 ==> verifications[0] in verifications;
  }

  // ---- how an operation ended ----

  /**
   * An operation failed as a command exactly if its only qualified result reports a failure; as a task if that does not
   * and some verification failed; it succeeded if its result reports success and no verification failed. Otherwise its
   * outcome is not known.
   */
  lemma OutcomeIsExplained(s: seq<Observation>, kept: seq<Observation>, request: Observation, source: string,
      sessionId: string)
    requires IsListing(s, kept) && Consistent(s) && request in kept && request.kind == KindRequest
    requires OperationOf(kept, request, source, sessionId).Some?
    ensures var operation := OperationOf(kept, request, source, sessionId).value;
      var failed, succeeded := HasResult(kept, request, Failed), HasResult(kept, request, Succeeded);
      var refuted := HasVerification(kept, request, Failed);
      && (operation.outcome == CommandFailed <==> failed)
      && (operation.outcome == TaskVerificationFailed <==> !failed && refuted)
      && (operation.outcome == ProcessSucceeded <==> succeeded && !refuted)
      && (operation.outcome == NotKnown <==> !failed && !succeeded && !refuted)
      && (operation.processOutcome == Failed <==> failed) && (operation.processOutcome == Succeeded <==> succeeded)
      && (operation.taskOutcome == Failed <==> refuted)
      && (operation.taskOutcome == Succeeded <==>
          (exists v :: v in kept && Verifies(v, request))
          && forall v :: v in kept && Verifies(v, request) ==> v.outcome == Some(Succeeded))
  {
    hide IsListing, IsMatched, Consistent, TaskOutcome, ResultOf, HasVerification, SortedKind;
    TaskTold(kept, request);
    var result := ResultOf(RelatedTo(SortedKind(kept, KindResult), request.sourceEventId), request);
    if result.Some? {
      ResultIsMatch(s, kept, request, result.value);
      MatchIsUnique(s, kept, request, result.value);
      MatchedRequest(kept, result.value, request);
      KeptAreValid(s, kept);
      ProcessTold(result.value, Failed);
      ProcessTold(result.value, Succeeded);
    } else {
      NoResultIsNoMatch(s, kept, request);
    }
  }

  lemma KeptAreValid(s: seq<Observation>, kept: seq<Observation>)
    requires IsListing(s, kept) && Consistent(s)
    ensures forall o :: o in kept ==> ValidObservation(o)
  {
    assert forall o :: o in kept ==> IsFirst(s, o);
  }

  /** What an operation tells of its request, of its result and of its verifications. */
  lemma FieldsAreExplained(s: seq<Observation>, kept: seq<Observation>, request: Observation, source: string,
      sessionId: string)
    requires IsListing(s, kept) && Consistent(s) && request in kept && request.kind == KindRequest
    requires OperationOf(kept, request, source, sessionId).Some?
    ensures var operation := OperationOf(kept, request, source, sessionId).value;
      && operation.id == OperationId(source, sessionId, request.sourceEventId)
      && operation.requestEvidenceId == request.id && operation.requestSourceEventId == request.sourceEventId
      && operation.tool == request.tool && operation.startedAt == request.occurredAt
      && (forall r :: IsMatched(kept, r, request) ==>
            && operation.resultEvidenceId == Some(r.id) && operation.endedAt == Some(r.occurredAt)
            && operation.durationMs == Some(r.occurredAt - request.occurredAt)
            && operation.result.exitStatus == r.exitStatus
            && operation.result.provenance == Some(Or(r.provenance, HookEnvelope))
            && (r.unknownReason.Some? ==> operation.result.unknownReason == r.unknownReason)
            && (r.unknownReason.None? ==>
                  operation.result.unknownReason == if r.exitStatus.None? then Some(SourceFieldAbsent) else None)
            && (r.interpretation.Some? ==> operation.result.interpretation == r.interpretation)
            && (r.interpretation.None? ==>
                  (operation.result.interpretation == Some(UnclassifiedNonzero) <==>
                   r.exitStatus.Some? && r.exitStatus != Some(0))
                  && (operation.result.interpretation == None <==> r.exitStatus.None? || r.exitStatus == Some(0))))
      && ((forall r :: !IsMatched(kept, r, request)) ==>
            && operation.resultEvidenceId == None && operation.endedAt == None && operation.durationMs == None
            && operation.result.exitStatus == None && operation.result.interpretation == None
            && operation.result.provenance == None
            && (operation.result.unknownReason == Some(CorrelationMissing) <==> HasUnqualified(kept, request))
            && (operation.result.unknownReason == Some(ResultNotDelivered) <==> !HasUnqualified(kept, request)))
      && (forall id :: id in operation.verificationEvidenceIds <==>
                       exists v :: v in kept && Verifies(v, request) && v.id == id)
  {
    hide IsListing, IsMatched, Consistent, TaskOutcome, ProcessOutcome, ResultOf, SortedKind;
    var results := RelatedTo(SortedKind(kept, KindResult), request.sourceEventId);
    var result := ResultOf(results, request);
    if result.Some? {
      ResultIsMatch(s, kept, request, result.value);
      MatchIsUnique(s, kept, request, result.value);
    } else {
      NoResultIsNoMatch(s, kept, request);
      assert |results| > 0 ==> results[0] in results;
    }
    var verifications := RelatedTo(SortedKind(kept, KindVerification), request.sourceEventId);
    var operation := OperationOf(kept, request, source, sessionId).value;
    forall id
      ensures id in operation.verificationEvidenceIds <==> exists v :: v in kept && Verifies(v, request) && v.id == id
    {
      if v :| v in kept && Verifies(v, request) && v.id == id {
        assert v in verifications;
        var i :| 0 <= i < |verifications| && verifications[i] == v;
        assert IdsOf(verifications)[i] == id;
      }
      if i :| 0 <= i < |verifications| && IdsOf(verifications)[i] == id {
        assert verifications[i] in verifications;
      }
    }
  }

  function Or<T>(value: Option<T>, otherwise: T): T {
    if value.Some? then value.value else otherwise
  }

  /** Some result names the request, whatever its execution key. */
  ghost predicate HasUnqualified(kept: seq<Observation>, request: Observation) {
    exists r :: r in kept && r.kind == KindResult && r.relatedEventId == Some(request.sourceEventId)
  }

  // ---- which sessions are rejected ----

  /** A result that comes before its request, or an expected failure that no verification confirms. */
  ghost predicate IsUnfounded(kept: seq<Observation>, request: Observation) {
    exists r :: IsMatched(kept, r, request)
      && (r.occurredAt < request.occurredAt
          || (r.interpretation == Some(ExpectedRed) && !HasVerification(kept, request, Succeeded)))
  }

  lemma OperationUnlessUnfounded(s: seq<Observation>, kept: seq<Observation>, request: Observation, source: string,
      sessionId: string)
    requires IsListing(s, kept) && request in kept && request.kind == KindRequest
    ensures OperationOf(kept, request, source, sessionId).None? <==> IsUnfounded(kept, request)
  {
    hide IsListing, IsMatched, TaskOutcome, ProcessOutcome, ResultOf, SortedKind;
    var result := ResultOf(RelatedTo(SortedKind(kept, KindResult), request.sourceEventId), request);
    var verifications := RelatedTo(SortedKind(kept, KindVerification), request.sourceEventId);
    assert forall v :: v in verifications <==> v in kept && Verifies(v, request);
    if result.Some? {
      ResultIsMatch(s, kept, request, result.value);
      MatchIsUnique(s, kept, request, result.value);
    } else {
      NoResultIsNoMatch(s, kept, request);
    }
  }

  lemma {:induction false} SomeUnfounded(s: seq<Observation>, kept: seq<Observation>, requests: seq<Observation>,
      source: string, sessionId: string)
    requires IsListing(s, kept) && forall q :: q in requests ==> q in kept && q.kind == KindRequest
    ensures OperationsOf(kept, requests, source, sessionId).None? <==>
            exists q :: q in requests && IsUnfounded(kept, q)
  {
    hide IsListing, OperationOf, IsUnfounded;
    if requests != [] {
      var earlier, last := requests[..|requests| - 1], requests[|requests| - 1];
      assert requests == earlier + [last];
      SomeUnfounded(s, kept, earlier, source, sessionId);
      OperationUnlessUnfounded(s, kept, last, source, sessionId);
    }
  }

  /** An observation that no source can have made: by its kind, it has fields that it must not have, or lacks one. */
  ghost predicate IsMalformed(o: Observation) {
    var hasResult := o.exitStatus.Some? || o.provenance.Some? || o.unknownReason.Some? || o.interpretation.Some?;
    || o.relatedEventId == Some(o.sourceEventId)
    || match o.kind
       case KindRequest => o.relatedEventId.Some? || hasResult || o.endedAt.Some?
       case KindResult =>
         || o.relatedEventId.None? || o.endedAt.Some?
         || (o.exitStatus.Some? && o.exitStatus != Some(0) && o.outcome == Some(Succeeded))
         || (o.exitStatus == Some(0) && o.outcome == Some(Failed))
       case KindVerification => o.relatedEventId.None? || hasResult || o.endedAt.Some?
       case KindWait => hasResult || (o.endedAt.Some? && o.endedAt.value < o.occurredAt)
  }

  lemma MalformedExactly(o: Observation)
    ensures ValidObservation(o) <==> !IsMalformed(o)
  {
  }

  /** Two observations of one id that differ, or of one source event that differ in more than their ids. */
  ghost predicate Contradict(a: Observation, b: Observation) {
    || (a.id == b.id && a != b)
    || (a.kind == b.kind && a.sourceEventId == b.sourceEventId && a != b.(id := a.id))
  }

  ghost predicate IsIllFormed(input: Input) {
    || |input.observations| > 10_000
    || (input.sourceEndedAt.Some? && input.sourceEndedAt.value < input.startedAt)
    || match input.reconciliation
       case Some(Reconciliation(_, Some(expected), Some(committed))) => committed > expected
       case _ => false
  }

  /** The observation begins before the session, or ends after its source did. */
  ghost predicate IsOutside(input: Input, o: Observation) {
    || o.occurredAt < input.startedAt
    || (input.sourceEndedAt.Some? && Or(o.endedAt, o.occurredAt) > input.sourceEndedAt.value)
  }

  lemma ConsistentExactly(s: seq<Observation>)
    ensures !Consistent(s) <==>
            (exists o :: o in s && IsMalformed(o)) || (exists a, b :: a in s && b in s && Contradict(a, b))
  {
    hide ValidObservation, IsMalformed;
    forall o ensures ValidObservation(o) <==> !IsMalformed(o) {
      MalformedExactly(o);
    }
    assert forall a: Observation, b: Observation :: SameEvidence(a, b) <==> a == b.(id := a.id);
    assert forall a, b :: a in s && b in s && SameEvent(a, b) && !SameEvidence(a, b) ==> Contradict(a, b);
    assert forall a, b :: a in s && b in s && a.id == b.id && a != b ==> Contradict(a, b);
  }

  /**
   * A session is rejected exactly if its input is ill-formed, an observation is malformed or contradicts another, one
   * of those that are kept lies outside of the session, or the operation of a request is unfounded.
   */
  lemma RejectedExactly(input: Input)
    ensures Reconstructed(input).None? <==>
            || IsIllFormed(input)
            || (exists o :: o in input.observations && IsMalformed(o))
            || (exists a, b :: a in input.observations && b in input.observations && Contradict(a, b))
            || (exists o :: o in Listing(input.observations) && IsOutside(input, o))
            || (exists q :: q in Listing(input.observations) && q.kind == KindRequest
                            && IsUnfounded(Listing(input.observations), q))
  {
    hide IsListing, Listing, Consistent, OperationsOf, IsUnfounded, SortedKind, InBounds, IsMalformed, Contradict,
         IsOutside;
    ConsistentExactly(input.observations);
    if Consistent(input.observations) {
      UniqueListing(input.observations);
      var kept := Listing(input.observations);
      SomeUnfounded(input.observations, kept, SortedKind(kept, KindRequest), input.source, input.sessionId);
      BoundsTold(input, kept);
    }
  }

  lemma BoundsTold(input: Input, kept: seq<Observation>)
    ensures AllInBounds(input, kept) <==> forall o :: o in kept ==> !IsOutside(input, o)
  {
    if AllInBounds(input, kept) {
      forall o | o in kept ensures !IsOutside(input, o) {
        var i :| 0 <= i < |kept| && kept[i] == o;
      }
    } else {
      var i :| 0 <= i < |kept| && !InBounds(input, kept[i]);
      assert kept[i] in kept && IsOutside(input, kept[i]);
    }
  }

  // ---- the order of a report ----

  /** Of the observations of one source event, the one with the first id is kept. */
  lemma FirstIdIsKept(input: Input, report: Report, o: Observation, other: Observation)
    requires Reconstructed(input) == Some(report) && o in Listing(input.observations)
    requires other in input.observations && other.kind == o.kind && other.sourceEventId == o.sourceEventId
    ensures other.id == o.id || StringBefore(o.id, other.id)
  {
    hide OperationsOf, AllInBounds, ValidInput, ReportOf, StringBefore;
    UniqueListing(input.observations);
    assert IsFirst(input.observations, o) && SameEvidence(o, other) && SameEvent(o, other);
    assert !Precedes(other, o);
    StringTotal(o.id, other.id);
  }

  /** The i-th operation is that of the i-th request. */
  lemma OperationTells(input: Input, report: Report, i: nat)
    requires Reconstructed(input) == Some(report)
    ensures |report.operations| == |SortedKind(Listing(input.observations), KindRequest)|
    ensures i < |report.operations| ==>
              var request := SortedKind(Listing(input.observations), KindRequest)[i];
              && request in Listing(input.observations) && request.kind == KindRequest
              && report.operations[i].requestEvidenceId == request.id
              && report.operations[i].startedAt == request.occurredAt
              && report.operations[i].requestSourceEventId == request.sourceEventId
              && OperationOf(Listing(input.observations), request, input.source, input.sessionId) ==
                 Some(report.operations[i])
  {
    hide OperationsOf, IsListing, Consistent, AllInBounds, ValidInput, ReportOf, Listing, SortedKind, ResultOf, FactOf;
    var kept, requests := Parts(input, report);
    ListingIs(input.observations, kept);
    OperationAt(kept, requests, input.source, input.sessionId, i);
    if i < |requests| {
      assert requests[i] in requests;
    }
  }

  /** The operations are in the order of their times and then of their events. */
  lemma OperationsInOrder(input: Input, report: Report, i: nat, j: nat)
    requires Reconstructed(input) == Some(report) && i < j < |report.operations|
    ensures var a, b := report.operations[i], report.operations[j];
      || a.startedAt < b.startedAt
      || (a.startedAt == b.startedAt && StringBefore(a.requestSourceEventId, b.requestSourceEventId))
  {
    hide OperationsOf, IsListing, Consistent, AllInBounds, ValidInput, ReportOf, StringBefore, Listing, SortedKind,
         OperationOf, Reconstructed;
    var kept, requests := Parts(input, report);
    ListingIs(input.observations, kept);
    OperationTells(input, report, i);
    OperationTells(input, report, j);
    RequestsAscend(input.observations, kept, i, j);
  }

  /** Each request that is kept has its operation. */
  lemma EveryRequestHasOperation(input: Input, report: Report, q: Observation)
    requires Reconstructed(input) == Some(report) && q in Listing(input.observations) && q.kind == KindRequest
    ensures exists i :: 0 <= i < |report.operations| && report.operations[i].requestEvidenceId == q.id
  {
    hide Listing, SortedKind, OperationOf, Reconstructed;
    var requests := SortedKind(Listing(input.observations), KindRequest);
    var i :| 0 <= i < |requests| && requests[i] == q;
    OperationTells(input, report, i);
  }

  lemma RequestsAscend(s: seq<Observation>, kept: seq<Observation>, i: nat, j: nat)
    requires IsListing(s, kept) && Consistent(s) && i < j < |SortedKind(kept, KindRequest)|
    ensures var a, b := SortedKind(kept, KindRequest)[i], SortedKind(kept, KindRequest)[j];
      || a.occurredAt < b.occurredAt
      || (a.occurredAt == b.occurredAt && StringBefore(a.sourceEventId, b.sourceEventId))
  {
    hide StringBefore;
    var requests := SortedKind(kept, KindRequest);
    SortedKindAscends(s, kept, KindRequest);
    assert requests[i] in requests && requests[j] in requests;
    assert ByTime()(requests[i], requests[j]);
    if requests[i].sourceEventId == requests[j].sourceEventId {
      KeptAreDistinct(s, kept, requests[i], requests[j]);
      StringIrreflexive(requests[i].id);
    }
  }

  lemma SortedKindAscends(s: seq<Observation>, kept: seq<Observation>, kind: Kind)
    requires IsListing(s, kept) && Consistent(s)
    ensures Ascending(SortedKind(kept, kind), ByTime())
  {
    hide IsListing, Consistent;
    SortedKindHasNoDuplicates(s, kept, kind);
    var chosen := OfKind(kept, kind);
    ChosenAreDistinct(s, kept, kind);
    SortedObservations(chosen);
  }

  lemma {:induction false} OfKindAscends(s: seq<Observation>, kind: Kind)
    requires Ascending(s, ByTime())
    ensures Ascending(OfKind(s, kind), ByTime())
  {
    if s != [] {
      var front := s[..|s| - 1];
      OfKindAscends(front, kind);
      forall o | o in OfKind(front, kind) ensures ByTime()(o, s[|s| - 1]) {
        var i :| 0 <= i < |front| && front[i] == o;
        assert s[i] == o;
      }
    }
  }

  lemma ChosenAreDistinct(s: seq<Observation>, kept: seq<Observation>, kind: Kind)
    requires IsListing(s, kept) && Consistent(s)
    ensures DistinctIds(OfKind(kept, kind))
  {
    var chosen := OfKind(kept, kind);
    OfKindAscends(kept, kind);
    ObservationsAreOrdered();
    forall i, j | 0 <= i < j < |chosen| ensures chosen[i].id != chosen[j].id {
      assert ByTime()(chosen[i], chosen[j]) && chosen[i] in chosen && chosen[j] in chosen;
      KeptAreDistinct(s, kept, chosen[i], chosen[j]);
    }
  }

  /** The events of requests without a result are listed in order, and as many results are missing. */
  lemma MissingAreExplained(input: Input, report: Report)
    requires Reconstructed(input) == Some(report)
    ensures forall id :: id in report.coverage.missingRequestSourceEventIds <==>
              exists q :: q in Listing(input.observations) && q.kind == KindRequest && q.sourceEventId == id
                          && forall r :: !IsMatched(Listing(input.observations), r, q)
    ensures report.coverage.missingResults == |report.coverage.missingRequestSourceEventIds|
    ensures Ascending(report.coverage.missingRequestSourceEventIds, ByString())
  {
    hide Listing, SortedKind, IsMatched, OperationOf, OperationsOf, IsListing, Consistent, Ascending, Reconstructed;
    var kept, requests := Parts(input, report);
    MissingCounted(report.operations);
    SortKeepsAll(MissingIds(report.operations));
    forall id
      ensures id in report.coverage.missingRequestSourceEventIds <==>
              exists q :: q in Listing(input.observations) && q.kind == KindRequest && q.sourceEventId == id
                          && forall r :: !IsMatched(Listing(input.observations), r, q)
    {
      MissingIdsAre(input, report, id);
    }
    MissingAscend(input, report);
  }

  lemma MissingIdsAre(input: Input, report: Report, id: string)
    requires Reconstructed(input) == Some(report)
    ensures id in MissingIds(report.operations) <==>
            exists q :: q in Listing(input.observations) && q.kind == KindRequest && q.sourceEventId == id
                        && forall r :: !IsMatched(Listing(input.observations), r, q)
  {
    hide Listing, SortedKind, IsMatched, Reconstructed;
    var requests := SortedKind(Listing(input.observations), KindRequest);
    MissingIs(report.operations, id);
    OperationTells(input, report, 0);
    forall i | 0 <= i < |requests|
      ensures report.operations[i].requestSourceEventId == requests[i].sourceEventId
      ensures report.operations[i].resultEvidenceId.None? <==>
              forall r :: !IsMatched(Listing(input.observations), r, requests[i])
      ensures requests[i] in Listing(input.observations) && requests[i].kind == KindRequest
    {
      NamesNone(input, report, i);
    }
  }

  lemma NamesNone(input: Input, report: Report, i: nat)
    requires Reconstructed(input) == Some(report)
             && i < |SortedKind(Listing(input.observations), KindRequest)|
    ensures |report.operations| == |SortedKind(Listing(input.observations), KindRequest)|
    ensures var request := SortedKind(Listing(input.observations), KindRequest)[i];
      && request in Listing(input.observations) && request.kind == KindRequest
      && report.operations[i].requestSourceEventId == request.sourceEventId
      && (report.operations[i].resultEvidenceId.None? <==>
          forall r :: !IsMatched(Listing(input.observations), r, request))
  {
    hide Listing, SortedKind, IsMatched, Reconstructed, OperationOf, IsListing, Consistent;
    var kept, requests := Parts(input, report);
    ListingIs(input.observations, kept);
    OperationTells(input, report, i);
    NamesNoneExactly(input, kept, requests[i]);
  }

  lemma MissingAscend(input: Input, report: Report)
    requires Reconstructed(input) == Some(report)
    ensures Ascending(Sort(MissingIds(report.operations), ByString()), ByString())
  {
    hide Reconstructed;
    forall i, j | 0 <= i < j < |report.operations|
      ensures report.operations[i].requestSourceEventId != report.operations[j].requestSourceEventId
    {
      EventsDiffer(input, report, i, j);
    }
    MissingAreDistinct(report.operations);
    SortedStrings(MissingIds(report.operations));
  }

  lemma EventsDiffer(input: Input, report: Report, i: nat, j: nat)
    requires Reconstructed(input) == Some(report) && i < j < |report.operations|
    ensures report.operations[i].requestSourceEventId != report.operations[j].requestSourceEventId
  {
    hide Reconstructed, Consistent, IsListing, SortedKind, Listing, OperationOf;
    var kept, requests := Parts(input, report);
    ListingIs(input.observations, kept);
    OperationTells(input, report, i);
    OperationTells(input, report, j);
    KeptAreDistinct(input.observations, kept, requests[i], requests[j]);
    SortedKindHasNoDuplicates(input.observations, kept, KindRequest);
  }

  lemma {:induction false} MissingAreDistinct(operations: seq<Operation>)
    requires forall i, j :: 0 <= i < j < |operations| ==>
               operations[i].requestSourceEventId != operations[j].requestSourceEventId
    ensures NoDuplicates(MissingIds(operations))
  {
    if operations != [] {
      var earlier, last := operations[..|operations| - 1], operations[|operations| - 1];
      MissingAreDistinct(earlier);
      MissingIs(earlier, last.requestSourceEventId);
    }
  }

  lemma SortedStrings(s: seq<string>)
    requires NoDuplicates(s)
    ensures Ascending(Sort(s, ByString()), ByString())
  {
    StringsAreOrdered();
    forall i, j | 0 <= i < j < |s| ensures ByString()(s[i], s[j]) || ByString()(s[j], s[i]) {
      StringTotal(s[i], s[j]);
    }
    SortAscends(s, ByString());
  }

  lemma StringsAreOrdered()
    ensures StrictOrder(ByString())
  {
    forall a: string ensures !ByString()(a, a) {
      StringIrreflexive(a);
    }
    forall a: string, b: string, c: string | ByString()(a, b) && ByString()(b, c) ensures ByString()(a, c) {
      StringTransitive(a, b, c);
    }
  }

  /** The results and verifications that no operation uses are listed in order of their ids. */
  lemma UnmatchedInOrder(input: Input, report: Report)
    requires Reconstructed(input) == Some(report)
    ensures Ascending(report.unmatchedEvidenceIds, ByString())
    ensures forall id :: id in report.unmatchedEvidenceIds <==>
              exists o :: o in Listing(input.observations) && o.id == id
                  && (o.kind == KindResult || o.kind == KindVerification) && !IsUsed(report.operations, id)
  {
    hide OperationsOf, IsListing, Consistent, AllInBounds, ValidInput, Listing, SortedKind, IsUsed;
    var kept, requests := Parts(input, report);
    ListingIs(input.observations, kept);
    KeptIdsDiffer(input.observations, kept);
    UnmatchedAreDistinct(kept, report.operations);
    SortedStrings(UnmatchedIds(kept, report.operations));
    SortKeepsAll(UnmatchedIds(kept, report.operations));
    forall id
      ensures id in UnmatchedIds(kept, report.operations) <==>
              exists o :: o in kept && o.id == id && (o.kind == KindResult || o.kind == KindVerification)
                  && !IsUsed(report.operations, id)
    {
      UnmatchedIs(kept, report.operations, id);
    }
  }

  lemma KeptIdsDiffer(s: seq<Observation>, kept: seq<Observation>)
    requires IsListing(s, kept) && Consistent(s)
    ensures DistinctIds(kept)
  {
    ObservationsAreOrdered();
    forall i, j | 0 <= i < j < |kept| ensures kept[i].id != kept[j].id {
      assert ByTime()(kept[i], kept[j]);
      KeptAreDistinct(s, kept, kept[i], kept[j]);
    }
  }

  lemma {:induction false} UnmatchedAreDistinct(kept: seq<Observation>, operations: seq<Operation>)
    requires DistinctIds(kept)
    ensures NoDuplicates(UnmatchedIds(kept, operations))
  {
    hide IsUsed;
    if kept != [] {
      var earlier, last := kept[..|kept| - 1], kept[|kept| - 1];
      UnmatchedAreDistinct(earlier, operations);
      UnmatchedIs(earlier, operations, last.id);
      forall o | o in earlier ensures o.id != last.id {
        var i :| 0 <= i < |earlier| && earlier[i] == o;
        assert kept[i] == o;
      }
    }
  }

  lemma NamesNoneExactly(input: Input, kept: seq<Observation>, request: Observation)
    requires IsListing(input.observations, kept) && Consistent(input.observations) && request in kept
             && request.kind == KindRequest && OperationOf(kept, request, input.source, input.sessionId).Some?
    ensures var operation := OperationOf(kept, request, input.source, input.sessionId).value;
      && operation.requestSourceEventId == request.sourceEventId
      && (operation.resultEvidenceId.None? <==> forall r :: !IsMatched(kept, r, request))
  {
    hide IsListing, Consistent, IsMatched, OperationOf;
    FieldsAreExplained(input.observations, kept, request, input.source, input.sessionId);
  }

  lemma {:induction false} MissingIs(operations: seq<Operation>, id: string)
    ensures id in MissingIds(operations) <==>
            exists i :: 0 <= i < |operations| && operations[i].resultEvidenceId.None?
                        && operations[i].requestSourceEventId == id
  {
    if operations != [] {
      var earlier := operations[..|operations| - 1];
      MissingIs(earlier, id);
      assert forall i :: 0 <= i < |earlier| ==> operations[i] == earlier[i];
    }
  }

  lemma {:induction false} MissingCounted(operations: seq<Operation>)
    ensures |MissingIds(operations)| == |operations| - CountMatched(operations)
  {
    if operations != [] {
      MissingCounted(operations[..|operations| - 1]);
    }
  }

  lemma SortKeepsAll(s: seq<string>)
    ensures |Sort(s, ByString())| == |s| && forall id :: id in Sort(s, ByString()) <==> id in s
  {
    var sorted := Sort(s, ByString());
    assert |multiset(sorted)| == |multiset(s)|;
    forall id ensures id in sorted <==> id in s {
      assert id in sorted <==> id in multiset(sorted);
      assert id in s <==> id in multiset(s);
    }
  }

  // ---- the life and the time of a session ----

  /** A session is complete only if its source ended it and reconciliation committed all that was expected. */
  lemma LifecycleIsExplained(input: Input, report: Report)
    requires Reconstructed(input) == Some(report)
    ensures var ended := input.sourceEndedAt.Some?;
      var attempted := input.reconciliation.Some? && input.reconciliation.value.attempted;
      var caughtUp := attempted && input.reconciliation.value.expectedThrough.Some?
        && input.reconciliation.value.committedThrough == input.reconciliation.value.expectedThrough;
      && (report.lifecycle == Open <==> !ended && !attempted)
      && (report.lifecycle == Incomplete <==> !ended && attempted)
      && (report.lifecycle == ReconciledComplete <==> ended && caughtUp)
      && (report.lifecycle == SourceEnded <==> ended && !caughtUp)
  {
    hide IsListing, Consistent, OperationsOf, MetricsOf, UnmatchedIds, MissingIds, CountMatched;
  }

  lemma {:induction false} ActiveIs(operations: seq<Operation>, t: int)
    ensures t in Covered(ActiveIntervals(operations)) <==>
            exists o :: o in operations && o.endedAt.Some? && o.startedAt <= t < o.endedAt.value
  {
    if operations != [] {
      var earlier, last := operations[..|operations| - 1], operations[|operations| - 1];
      assert operations == earlier + [last];
      ActiveIs(earlier, t);
      if last.endedAt.Some? {
        OneMoreInterval(ActiveIntervals(earlier), Interval(last.startedAt, last.endedAt.value), t);
      } else {
        assert ActiveIntervals(operations) == ActiveIntervals(earlier);
      }
    }
  }

  lemma OneMoreInterval(intervals: seq<Interval>, last: Interval, t: int)
    ensures t in Covered(intervals + [last]) <==> t in Covered(intervals) || last.start <= t < last.end
  {
    var more := intervals + [last];
    CoveredGrows(more, |intervals|);
    assert more[..|intervals| + 1] == more && more[..|intervals|] == intervals;
  }

  lemma {:induction false} WaitingIs(kept: seq<Observation>, t: int)
    ensures t in Covered(WaitIntervals(kept)) <==>
            exists o :: o in kept && o.kind == KindWait && o.endedAt.Some? && o.occurredAt <= t < o.endedAt.value
    ensures WaitIntervals(kept) == [] <==> !exists o :: o in kept && o.kind == KindWait && o.endedAt.Some?
  {
    if kept != [] {
      var earlier, last := kept[..|kept| - 1], kept[|kept| - 1];
      assert kept == earlier + [last];
      WaitingIs(earlier, t);
      if last.kind == KindWait && last.endedAt.Some? {
        OneMoreInterval(WaitIntervals(earlier), Interval(last.occurredAt, last.endedAt.value), t);
      } else {
        assert WaitIntervals(kept) == WaitIntervals(earlier);
      }
    }
  }

  ghost predicate IsActiveAt(report: Report, t: int) {
    exists o :: o in report.operations && o.endedAt.Some? && o.startedAt <= t < o.endedAt.value
  }

  ghost predicate IsWaitingAt(kept: seq<Observation>, t: int) {
    exists o :: o in kept && o.kind == KindWait && o.endedAt.Some? && o.occurredAt <= t < o.endedAt.value
  }

  /** Active time is the number of milliseconds in which some operation ran, waiting time that of observed waits. */
  lemma TimeIsExplained(input: Input, report: Report, active: set<int>, waiting: set<int>)
    requires Reconstructed(input) == Some(report)
    requires forall t :: t in active <==> IsActiveAt(report, t)
    requires forall t :: t in waiting <==> IsWaitingAt(Listing(input.observations), t)
    ensures report.metrics.activeOperationMs ==
            if exists o :: o in report.operations && o.durationMs.Some? then Some(|active|) else None
    ensures report.metrics.observedWaitingMs ==
            if exists o :: o in Listing(input.observations) && o.kind == KindWait && o.endedAt.Some?
            then Some(|waiting|) else None
    ensures report.metrics.elapsedMs ==
            if input.sourceEndedAt.Some? then Some(input.sourceEndedAt.value - input.startedAt) else None
  {
    hide IsListing, Listing, Consistent, OperationsOf, UnmatchedIds, MissingIds, CountMatched, ActiveIntervals,
         WaitIntervals, Covered;
    var kept := Listing(input.observations);
    forall t ensures t in active <==> t in Covered(ActiveIntervals(report.operations)) {
      ActiveIs(report.operations, t);
    }
    forall t ensures t in waiting <==> t in Covered(WaitIntervals(kept)) {
      WaitingIs(kept, t);
    }
    WaitingIs(kept, 0);
    assert active == Covered(ActiveIntervals(report.operations)) && waiting == Covered(WaitIntervals(kept));
  }
}
