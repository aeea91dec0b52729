/**
 * Local knowledge candidates, their reviews and their supersession (src/knowledge/candidate-repository.ts,
 * src/domain/transitions.ts). Identifiers and texts are taken to be well formed; an identity is what its digest is
 * taken of.
 */
module Candidates {
  import opened Prelude

  datatype State = Candidate | Observed | Confirmed | Verified | Disputed | Superseded | Rejected | Expired

  predicate IsActive(state: State) {
    state in {Candidate, Observed, Confirmed, Verified}
  }

  predicate IsTerminal(state: State) {
    state in {Superseded, Rejected, Expired}
  }

  function NormalNext(state: State): Option<State> {
    match state
    case Candidate => Some(Observed)
    case Observed => Some(Confirmed)
    case Confirmed => Some(Verified)
    case _ => None
  }

  predicate CanTransition(from: State, to: State) {
    if IsTerminal(from) || from == to then false
    else if from == Disputed then to in {Observed, Confirmed, Verified}
    else NormalNext(from) == Some(to) || (IsActive(from) && to in {Disputed, Superseded, Rejected, Expired})
  }

  datatype LessonKind = Failure | SuccessfulWorkflow | ProjectFact | Convention | ToolCapability | EnvironmentQuirk
      | Heuristic | Preference

  /** A repository, or a path inside of it. */
  datatype Applicability = Applicability(path: Option<string>, conditions: set<string>)

  datatype Source = Operational | ManualReview

  datatype Origin = Origin(source: Source, originId: string)

  /** What an identity is the digest of; the keys of a proposition, or the word "unkeyed" and the origin. */
  datatype Id = Id(repositoryId: string, kind: LessonKind, applicability: Applicability, key: string,
                   detail: Option<string>)

  datatype Registration = Registration(repositoryId: string, kind: LessonKind, applicability: Applicability,
                                       propositionKey: Option<string>, procedureKey: Option<string>, origin: Origin,
                                       statement: string)

  function SourceName(source: Source): string {
    match source
    case Operational => "operational"
    case ManualReview => "manual-review"
  }

  function OriginText(origin: Origin): string {
    SourceName(origin.source) + ":" + origin.originId
  }

  function IdentityOf(r: Registration): Id {
    if r.propositionKey.Some?
    then Id(r.repositoryId, r.kind, r.applicability, r.propositionKey.value, r.procedureKey)
    else Id(r.repositoryId, r.kind, r.applicability, "unkeyed", Some(OriginText(r.origin)))
  }

  lemma OriginTextIsUnique(a: Origin, b: Origin)
    ensures OriginText(a) == OriginText(b) <==> a == b
  {
    var x, y := SourceName(a.source) + ":", SourceName(b.source) + ":";
    if OriginText(a) == OriginText(b) {
      assert OriginText(a)[0] == x[0] && OriginText(b)[0] == y[0];
      assert OriginText(a)[|x|..] == a.originId && OriginText(b)[|y|..] == b.originId;
    }
  }

  predicate UnkeyedUnder(keyed: Registration, unkeyed: Registration) {
    && keyed.propositionKey == Some("unkeyed") && unkeyed.propositionKey.None?
    && keyed.procedureKey == Some(OriginText(unkeyed.origin))
  }

  /**
   * Two registrations are one candidate exactly if they agree in repository, kind and applicability, and in both keys
   * or, without a proposition key, in the origin; or if one of them has the word "unkeyed" and the origin of the other
   * for its keys.
   */
  lemma OneCandidate(a: Registration, b: Registration)
    ensures IdentityOf(a) == IdentityOf(b) <==>
            && a.repositoryId == b.repositoryId && a.kind == b.kind && a.applicability == b.applicability
            && (|| (a.propositionKey.Some? && a.propositionKey == b.propositionKey && a.procedureKey == b.procedureKey)
                || (a.propositionKey.None? && b.propositionKey.None? && a.origin == b.origin)
                || UnkeyedUnder(a, b) || UnkeyedUnder(b, a))
  {
    OriginTextIsUnique(a.origin, b.origin);
  }

  datatype Row = Row(repositoryId: string, kind: LessonKind, state: State, statement: string,
                     applicability: Applicability, propositionKey: Option<string>, procedureKey: Option<string>,
                     supersedes: Option<Id>, supersededBy: Option<Id>, revision: nat, contradicted: bool,
                     verifiedAt: Option<int>)

  datatype WitnessKind = Observation | TaskVerification | DeterministicFact | UserConfirmedFact | InstructionContext
      | Contradiction

  datatype Witness = Witness(id: string, repositoryId: string, originId: string, kind: WitnessKind,
                             taskId: Option<string>, procedureKey: Option<string>, factKey: Option<string>,
                             propositionKey: Option<string>, applicability: Option<Applicability>,
                             contextRevision: Option<string>, operationSignature: Option<string>,
                             revalidates: Option<Id>)

  datatype Review = Review(candidate: Id, revision: nat, from: State, to: State, actorId: string, evidenceId: string,
                           originId: string, kind: WitnessKind, verificationEvidenceId: Option<string>,
                           contextRevision: Option<string>, operationSignature: Option<string>, reviewedAt: int)

  datatype ReviewRequest = ReviewRequest(repositoryId: string, candidate: Id, target: State, actorId: string,
        evidenceId: string, reviewedAt: int)

  datatype SupersessionRequest = SupersessionRequest(repositoryId: string, prior: Id, replacement: Registration,
                                                     actorId: string, evidenceId: string, reviewedAt: int)

  datatype Store = Store(rows: map<Id, Row>, origins: set<(Id, Origin)>, reviews: seq<Review>)

  // ---- registration ----

  function NewRow(r: Registration): Row {
    Row(r.repositoryId, r.kind, Candidate, r.statement, r.applicability, r.propositionKey, r.procedureKey, None, None,
        1, false, None)
  }

  /** Registering a known candidate only adds the origin. */
  function Registered(s: Store, r: Registration): Store {
    var id := IdentityOf(r);
    s.(rows := if id in s.rows then s.rows else s.rows[id := NewRow(r)], origins := s.origins + {(id, r.origin)})
  }

  // ---- review ----

  predicate HasReview(reviews: seq<Review>, candidate: Id, evidenceId: string) {
    exists i :: 0 <= i < |reviews| && reviews[i].candidate == candidate && reviews[i].evidenceId == evidenceId
  }

  /** An earlier review of the candidate supports it with the same origin. */
  predicate HasOrigin(reviews: seq<Review>, candidate: Id, originId: string) {
    exists i :: 0 <= i < |reviews| && reviews[i].candidate == candidate && reviews[i].originId == originId
          && reviews[i].to in {Observed, Confirmed}
  }

  predicate SameScope(row: Row, applicability: Option<Applicability>) {
    && applicability.Some?
    && applicability.value.path == row.applicability.path
    && applicability.value.conditions == {} && row.applicability.conditions == {}
  }

  const OPERATION_PREFIX := "operation:v1:"

  predicate SupportsVerification(row: Row, evidence: Witness) {
    && evidence.contextRevision.Some? && evidence.contextRevision.value != ""
    && (evidence.operationSignature.Some? ==> OPERATION_PREFIX <= evidence.operationSignature.value)
    && if row.kind == ProjectFact then
         && (evidence.kind == DeterministicFact || evidence.kind == UserConfirmedFact)
         && row.propositionKey.Some? && row.propositionKey.value != "" && evidence.factKey == row.propositionKey
         && (evidence.kind == DeterministicFact ==> SameScope(row, evidence.applicability))
       else if row.kind == Convention then
         && evidence.kind == InstructionContext
         && row.propositionKey.Some? && row.propositionKey.value != "" && evidence.propositionKey == row.propositionKey
         && SameScope(row, evidence.applicability)
       else
         && evidence.kind == TaskVerification && evidence.taskId.Some? && evidence.taskId.value != ""
         && (row.procedureKey.Some? ==> evidence.procedureKey == row.procedureKey)
  }

  predicate Supports(s: Store, id: Id, row: Row, target: State, evidence: Witness) {
    && (row.state == Disputed ==> evidence.revalidates == Some(id))
    && match target
       case Disputed => evidence.kind == Contradiction
       case Observed => evidence.kind in {Observation, InstructionContext, DeterministicFact, UserConfirmedFact}
       case Confirmed =>
         && evidence.kind in {Observation, InstructionContext, DeterministicFact, UserConfirmedFact}
         && !HasOrigin(s.reviews, id, evidence.originId)
       case Verified => SupportsVerification(row, evidence)
       case _ => false
  }

  datatype ReviewOutcome = Applied | AlreadyApplied | RefusedReview

  function OutcomeOf(s: Store, q: ReviewRequest, evidence: Witness): ReviewOutcome {
    if evidence.id != q.evidenceId || evidence.repositoryId != q.repositoryId then RefusedReview
    else if q.candidate !in s.rows || s.rows[q.candidate].repositoryId != q.repositoryId then RefusedReview
    else if HasReview(s.reviews, q.candidate, q.evidenceId) then
      if exists i :: 0 <= i < |s.reviews| && s.reviews[i].candidate == q.candidate
            && s.reviews[i].evidenceId == q.evidenceId && s.reviews[i].to == q.target
      then AlreadyApplied else RefusedReview
    else if CanTransition(s.rows[q.candidate].state, q.target)
          && Supports(s, q.candidate, s.rows[q.candidate], q.target, evidence) then Applied
    else RefusedReview
  }

  function ReviewOf(row: Row, q: ReviewRequest, evidence: Witness): Review {
    var verifies := q.target == Verified;
    Review(q.candidate, row.revision, row.state, q.target, q.actorId, q.evidenceId, evidence.originId, evidence.kind,
           if verifies then Some(evidence.id) else None, if verifies then evidence.contextRevision else None,
           if verifies then evidence.operationSignature else None, q.reviewedAt)
  }

  function Reviewed(s: Store, q: ReviewRequest, evidence: Witness): Store {
    if OutcomeOf(s, q, evidence) != Applied then s else
      var row := s.rows[q.candidate];
      s.(rows := s.rows[q.candidate := row.(state := q.target, contradicted := q.target == Disputed,
                                             verifiedAt := if q.target == Verified then Some(q.reviewedAt) else None)],
         reviews := s.reviews + [ReviewOf(row, q, evidence)])
  }

  // ---- supersession ----

  predicate CanSupersede(s: Store, q: SupersessionRequest, evidence: Witness) {
    && evidence.id == q.evidenceId && evidence.repositoryId == q.repositoryId
    && (evidence.kind == Observation || evidence.kind == TaskVerification)
    && q.prior in s.rows && s.rows[q.prior].repositoryId == q.repositoryId
    && CanTransition(s.rows[q.prior].state, Superseded)
    && q.replacement.repositoryId == q.repositoryId
    && q.replacement.kind == s.rows[q.prior].kind
    && q.replacement.propositionKey == s.rows[q.prior].propositionKey
    && IdentityOf(q.replacement) !in s.rows
    && !HasReview(s.reviews, q.prior, q.evidenceId)
  }

  function SupersessionReview(prior: Row, q: SupersessionRequest, evidence: Witness): Review {
    Review(q.prior, prior.revision, prior.state, Superseded, q.actorId, q.evidenceId, evidence.originId, evidence.kind,
          None, None, None, q.reviewedAt)
  }

  function SupersededRows(rows: map<Id, Row>, q: SupersessionRequest): map<Id, Row>
    requires q.prior in rows
  {
    var prior := rows[q.prior];
    var id := IdentityOf(q.replacement);
    rows[id := NewRow(q.replacement).(revision := prior.revision + 1, supersedes := Some(q.prior))]
        [q.prior := prior.(state := State.Superseded, supersededBy := Some(id), verifiedAt := None)]
  }

  function SupersededStore(s: Store, q: SupersessionRequest, evidence: Witness): Store {
    if !CanSupersede(s, q, evidence) then s else
      Store(SupersededRows(s.rows, q),
            s.origins + {(IdentityOf(q.replacement), q.replacement.origin)},
            s.reviews + [SupersessionReview(s.rows[q.prior], q, evidence)])
  }

  // ---- the repository ----

  class CandidateRepository {
    var rows: map<Id, Row>
    var origins: set<(Id, Origin)>
    var reviews: seq<Review>

    constructor ()
      ensures Stored() == Store(map[], {}, [])
    {
      rows, origins, reviews := map[], {}, [];
    }

    function Stored(): Store
      reads this
    {
      Store(rows, origins, reviews)
    }

    method InsertCandidate(r: Registration) returns (id: Id)
      modifies `rows, `origins
      ensures Stored() == Registered(old(Stored()), r) && id == IdentityOf(r)
    {
      id := IdentityOf(r);
      if id !in rows {
        rows := rows[id := NewRow(r)];
      }
      origins := origins + {(id, r.origin)};
    }

    /** The target of the first review of the candidate with this evidence. */
    method PriorTarget(candidate: Id, evidenceId: string) returns (target: Option<State>)
      ensures target.Some? <==> HasReview(reviews, candidate, evidenceId)
      ensures target.Some? ==>
                exists i :: 0 <= i < |reviews| && reviews[i].candidate == candidate
                            && reviews[i].evidenceId == evidenceId && reviews[i].to == target.value
    {
      for i := 0 to |reviews|
        invariant forall j :: 0 <= j < i ==> !(reviews[j].candidate == candidate && reviews[j].evidenceId == evidenceId)
      {
        if reviews[i].candidate == candidate && reviews[i].evidenceId == evidenceId {
          return Some(reviews[i].to);
        }
      }
      target := None;
    }

    method Review(q: ReviewRequest, evidence: Witness) returns (ok: bool)
      requires OneReviewPerEvidence(reviews)
      modifies `rows, `reviews
      ensures Stored() == Reviewed(old(Stored()), q, evidence)
      ensures ok <==> OutcomeOf(old(Stored()), q, evidence) != RefusedReview
    {
      if evidence.id != q.evidenceId || evidence.repositoryId != q.repositoryId {
        return false;
      }
      if q.candidate !in rows || rows[q.candidate].repositoryId != q.repositoryId {
        return false;
      }
      var prior := PriorTarget(q.candidate, q.evidenceId);
      if prior.Some? {
        return prior.value == q.target;
      }
      var row := rows[q.candidate];
      if !CanTransition(row.state, q.target) || !Supports(Stored(), q.candidate, row, q.target, evidence) {
        return false;
      }
      reviews := reviews + [ReviewOf(row, q, evidence)];
      rows := rows[q.candidate := row.(state := q.target, contradicted := q.target == Disputed,
                                       verifiedAt := if q.target == Verified then Some(q.reviewedAt) else None)];
      ok := true;
    }

    method Supersede(q: SupersessionRequest, evidence: Witness) returns (replacement: Option<Id>)
      modifies this
      ensures Stored() == SupersededStore(old(Stored()), q, evidence)
      ensures replacement == if CanSupersede(old(Stored()), q, evidence) then Some(IdentityOf(q.replacement)) else None
    {
      if !CanSupersede(Stored(), q, evidence) {
        return None;
      }
      var prior := rows[q.prior];
      var id := InsertCandidate(q.replacement);
      rows := rows[id := rows[id].(revision := prior.revision + 1, supersedes := Some(q.prior))];
      rows := rows[q.prior := rows[q.prior].(state := State.Superseded, supersededBy := Some(id), verifiedAt := None)];
      reviews := reviews + [SupersessionReview(prior, q, evidence)];
      replacement := Some(id);
    }
  }

  /** No evidence is used for two reviews of one candidate. */
  ghost predicate OneReviewPerEvidence(reviews: seq<Review>) {
    forall i, j :: 0 <= i < j < |reviews| && reviews[i].candidate == reviews[j].candidate ==>
          reviews[i].evidenceId != reviews[j].evidenceId
  }
}
