/**
 * When a review or a supersession of a candidate is accepted, and what it then does
 * (src/knowledge/candidate-repository.ts): the evidence that each target asks for, over every state and every run.
 */
module CandidateEffects {
  import opened Prelude
  import opened Candidates
  import opened CandidateRuns

  /** The evidence is the requested one, its repository holds the candidate, and the candidate has no review with it. */
  ghost predicate IsNewEvidence(s: Store, q: ReviewRequest, w: Witness) {
    && w.id == q.evidenceId && w.repositoryId == q.repositoryId
    && q.candidate in s.rows && s.rows[q.candidate].repositoryId == q.repositoryId
    && forall r :: r in s.reviews ==> r.candidate != q.candidate || r.evidenceId != q.evidenceId
  }

  /** The review is recorded and the candidate moves to its target; nothing else of the repository changes. */
  ghost predicate IsRecorded(s: Store, q: ReviewRequest, w: Witness)
    requires q.candidate in s.rows
  {
    var after := After(s, Judge(q, w));
    var row := s.rows[q.candidate];
    && |after.reviews| == |s.reviews| + 1 && after.reviews[..|s.reviews|] == s.reviews
    && var review := after.reviews[|s.reviews|];
       && (review.candidate, review.from, review.to) == (q.candidate, row.state, q.target)
       && (review.evidenceId, review.originId, review.kind) == (w.id, w.originId, w.kind)
       && (review.revision, review.actorId, review.reviewedAt) == (row.revision, q.actorId, q.reviewedAt)
       && (review.verificationEvidenceId, review.contextRevision, review.operationSignature) ==
          (if q.target == Verified then (Some(w.id), w.contextRevision, w.operationSignature) else (None, None, None))
       && after.origins == s.origins && after.rows.Keys == s.rows.Keys
       && (forall id :: id in s.rows && id != q.candidate ==> after.rows[id] == s.rows[id])
       && after.rows[q.candidate] == row.(state := q.target, contradicted := q.target == Disputed,
             verifiedAt := if q.target == Verified then Some(q.reviewedAt) else None)
  }

  ghost predicate IsRefused(s: Store, q: ReviewRequest, w: Witness) {
    After(s, Judge(q, w)) == s
  }

  lemma RecordedExactly(s: Store, q: ReviewRequest, w: Witness)
    requires IsNewEvidence(s, q, w)
    ensures if CanTransition(s.rows[q.candidate].state, q.target)
               && Supports(s, q.candidate, s.rows[q.candidate], q.target, w)
            then IsRecorded(s, q, w) && !IsRefused(s, q, w) else IsRefused(s, q, w)
  {
    hide Supports, CanTransition;
  }

  /** An active candidate is disputed by a contradiction and by nothing else. */
  lemma DisputedExactly(s: Store, q: ReviewRequest, w: Witness)
    requires IsNewEvidence(s, q, w) && q.target == Disputed
    ensures var state := s.rows[q.candidate].state;
      if w.kind == Contradiction && state in {Candidate, Observed, Confirmed, Verified}
      then IsRecorded(s, q, w) && !IsRefused(s, q, w) else IsRefused(s, q, w)
  {
    RecordedExactly(s, q, w);
  }

  /** The evidence may carry the candidate on: a disputed candidate asks for evidence that revalidates it by name. */
  ghost predicate CarriesOn(row: Row, id: Id, w: Witness, before: State) {
    row.state == before || (row.state == Disputed && w.revalidates == Some(id))
  }

  ghost predicate IsSource(kind: WitnessKind) {
    kind != TaskVerification && kind != Contradiction
  }

  /** A new or revalidated candidate is observed by any evidence from a source. */
  lemma ObservedExactly(s: Store, q: ReviewRequest, w: Witness)
    requires IsNewEvidence(s, q, w) && q.target == Observed
    ensures if CarriesOn(s.rows[q.candidate], q.candidate, w, Candidate) && IsSource(w.kind)
            then IsRecorded(s, q, w) && !IsRefused(s, q, w) else IsRefused(s, q, w)
  {
    RecordedExactly(s, q, w);
  }

  /** An observed or revalidated candidate is confirmed by evidence from an origin that did not support it before. */
  lemma ConfirmedExactly(s: Store, q: ReviewRequest, w: Witness)
    requires IsNewEvidence(s, q, w) && q.target == Confirmed
    ensures if && CarriesOn(s.rows[q.candidate], q.candidate, w, Observed) && IsSource(w.kind)
               && forall r :: r in s.reviews && r.candidate == q.candidate && r.originId == w.originId ==>
                    r.to != Observed && r.to != Confirmed
            then IsRecorded(s, q, w) && !IsRefused(s, q, w) else IsRefused(s, q, w)
  {
    RecordedExactly(s, q, w);
    if HasOrigin(s.reviews, q.candidate, w.originId) {
      var i :| 0 <= i < |s.reviews| && s.reviews[i].candidate == q.candidate && s.reviews[i].originId == w.originId
          && s.reviews[i].to in {Observed, Confirmed};
      assert s.reviews[i] in s.reviews;
    }
  }

  /** The fact or convention that the candidate states. */
  ghost predicate IsNamed(row: Row, key: Option<string>) {
    key.Some? && key.value != "" && row.propositionKey == key
  }

  /** The evidence applies to exactly the scope of the candidate, and neither is bound to conditions. */
  ghost predicate IsSameScope(row: Row, w: Witness) {
    w.applicability == Some(row.applicability) && row.applicability.conditions == {}
  }

  /**
   * What proves a candidate: a project fact, a fact of its name that a user confirmed or that was determined in its
   * scope; a convention, its instruction in its scope; anything else, a verified task, of its procedure if it has one.
   */
  ghost predicate Proves(row: Row, w: Witness) {
    match row.kind
    case ProjectFact =>
      IsNamed(row, w.factKey) && (w.kind == UserConfirmedFact || (w.kind == DeterministicFact && IsSameScope(row, w)))
    case Convention =>
      IsNamed(row, w.propositionKey) && w.kind == InstructionContext && IsSameScope(row, w)
    case _ =>
      && w.kind == TaskVerification && w.taskId.Some? && w.taskId.value != ""
      && (row.procedureKey.None? || row.procedureKey == w.procedureKey)
  }

  ghost predicate HasContext(w: Witness) {
    && w.contextRevision.Some? && w.contextRevision.value != ""
    && (w.operationSignature.Some? ==>
          |w.operationSignature.value| >= 13 && w.operationSignature.value[..13] == "operation:v1:")
  }

  /** A confirmed or revalidated candidate is verified by what proves it, in a witnessed context. */
  lemma VerifiedExactly(s: Store, q: ReviewRequest, w: Witness)
    requires IsNewEvidence(s, q, w) && q.target == Verified
    ensures if CarriesOn(s.rows[q.candidate], q.candidate, w, Confirmed) && HasContext(w)
               && Proves(s.rows[q.candidate], w)
            then IsRecorded(s, q, w) && !IsRefused(s, q, w) else IsRefused(s, q, w)
  {
    RecordedExactly(s, q, w);
    ProvedExactly(s.rows[q.candidate], w);
  }

  lemma ProvedExactly(row: Row, w: Witness)
    ensures SupportsVerification(row, w) <==> HasContext(w) && Proves(row, w)
  {
    assert |OPERATION_PREFIX| == 13;
    if SameScope(row, w.applicability) {
      assert w.applicability.value == row.applicability;
    }
  }

  /** No review makes a candidate new again, rejects or expires it; a supersession is no review. */
  lemma OtherTargetsAreRefused(s: Store, q: ReviewRequest, w: Witness)
    requires q.target in {Candidate, Superseded, Rejected, Expired}
    ensures IsRefused(s, q, w)
  {
  }

  /** Without the right evidence, without the candidate, or with evidence that it has already, nothing happens. */
  lemma OtherEvidenceIsRefused(s: Store, q: ReviewRequest, w: Witness)
    requires !IsNewEvidence(s, q, w)
    ensures IsRefused(s, q, w)
  {
    if q.candidate in s.rows {
      if r :| r in s.reviews && r.candidate == q.candidate && r.evidenceId == q.evidenceId {
        var i :| 0 <= i < |s.reviews| && s.reviews[i] == r;
        assert HasReview(s.reviews, q.candidate, q.evidenceId);
      }
    }
  }

  // ---- supersession and registration ----

  /** The registration speaks of what the candidate speaks of, under an identity that is not known yet. */
  ghost predicate IsSuccessor(s: Store, prior: Row, r: Registration) {
    && (r.repositoryId, r.kind, r.propositionKey) == (prior.repositoryId, prior.kind, prior.propositionKey)
    && IdentityOf(r) !in s.rows
  }

  /** An active candidate is superseded by evidence of a change, in favour of a successor. */
  lemma SupersededExactly(s: Store, q: SupersessionRequest, w: Witness)
    ensures var asReview := ReviewRequest(q.repositoryId, q.prior, Superseded, q.actorId, q.evidenceId, q.reviewedAt);
      var after := After(s, Replace(q, w));
      if && IsNewEvidence(s, asReview, w)
         && (w.kind == Observation || w.kind == TaskVerification)
         && s.rows[q.prior].state in {Candidate, Observed, Confirmed, Verified}
         && IsSuccessor(s, s.rows[q.prior], q.replacement)
      then
         var (prior, next) := (s.rows[q.prior], IdentityOf(q.replacement));
         && after.rows.Keys == s.rows.Keys + {next} && |after.reviews| == |s.reviews| + 1
         && (forall id :: id in s.rows && id != q.prior ==> after.rows[id] == s.rows[id])
         && after.rows[q.prior] == prior.(state := Superseded, supersededBy := Some(next), verifiedAt := None)
         && IsFresh(after.rows[next], q.replacement, prior.revision + 1, Some(q.prior))
         && (next, q.replacement.origin) in after.origins
      else after == s
  {
    var asReview := ReviewRequest(q.repositoryId, q.prior, Superseded, q.actorId, q.evidenceId, q.reviewedAt);
    if HasReview(s.reviews, q.prior, q.evidenceId) {
      var i :| 0 <= i < |s.reviews| && s.reviews[i].candidate == q.prior && s.reviews[i].evidenceId == q.evidenceId;
      assert s.reviews[i] in s.reviews;
    } else if w.id == q.evidenceId && w.repositoryId == q.repositoryId && q.prior in s.rows
          && s.rows[q.prior].repositoryId == q.repositoryId {
      assert IsNewEvidence(s, asReview, w);
    }
  }

  /** A row that says what its registration says, and nothing of reviews. */
  ghost predicate IsFresh(row: Row, r: Registration, revision: nat, supersedes: Option<Id>) {
    && (row.repositoryId, row.kind, row.applicability) == (r.repositoryId, r.kind, r.applicability)
    && (row.statement, row.propositionKey, row.procedureKey) == (r.statement, r.propositionKey, r.procedureKey)
    && row.state == Candidate && row.revision == revision && !row.contradicted
    && row.supersedes == supersedes && row.supersededBy.None? && row.verifiedAt.None?
  }

  /** A registration adds its origin, and a new candidate exactly if its identity is unknown. */
  lemma RegisteredExactly(s: Store, r: Registration)
    ensures var after := After(s, Register(r));
      var id := IdentityOf(r);
      && after.reviews == s.reviews && after.origins == s.origins + {(id, r.origin)}
      && (forall other :: other in s.rows ==> other in after.rows && after.rows[other] == s.rows[other])
      && after.rows.Keys == s.rows.Keys + {id}
      && (id !in s.rows ==> IsFresh(after.rows[id], r, 1, None))
  {
  }

  // ---- over runs ----

  /** What a candidate is about never changes. */
  ghost predicate IsAbout(a: Row, b: Row) {
    && (a.repositoryId, a.kind, a.applicability, a.statement) == (b.repositoryId, b.kind, b.applicability, b.statement)
    && (a.propositionKey, a.procedureKey) == (b.propositionKey, b.procedureKey)
    && (a.revision, a.supersedes) == (b.revision, b.supersedes)
  }

  /** Some call judged with evidence that the target of the review asks for. */
  ghost predicate IsJustified(calls: seq<Call>, review: Review, row: Row) {
    exists n :: 0 <= n < |calls| && Justifies(calls[n], review, row)
  }

  ghost predicate Justifies(call: Call, review: Review, row: Row) {
    match call
    case Register(_) => false
    case Judge(q, w) =>
      && (q.candidate, q.target, w.id) == (review.candidate, review.to, review.evidenceId)
      && (w.originId, w.kind) == (review.originId, review.kind)
      && w.repositoryId == row.repositoryId
      && (review.from == Disputed ==> w.revalidates == Some(q.candidate))
      && (review.to == Disputed ==> w.kind == Contradiction)
      && (review.to == Observed || review.to == Confirmed ==> IsSource(w.kind))
      && (review.to == Verified ==> Proves(row, w) && review.contextRevision == w.contextRevision && HasContext(w))
    case Replace(q, w) =>
      && (q.prior, Superseded, w.id) == (review.candidate, review.to, review.evidenceId)
      && (w.originId, w.kind) == (review.originId, review.kind)
      && (w.kind == Observation || w.kind == TaskVerification) && row.supersededBy == Some(IdentityOf(q.replacement))
  }

  lemma CallKeepsWhatRowsAreAbout(s: Store, call: Call)
    ensures forall id :: id in s.rows ==>
              && id in After(s, call).rows && IsAbout(s.rows[id], After(s, call).rows[id])
              && (s.rows[id].supersededBy.Some? ==>
                    After(s, call).rows[id].supersededBy == s.rows[id].supersededBy
                    || !IsTerminal(s.rows[id].state))
  {
    hide Supports, HasReview;
  }

  lemma JustificationStays(call: Call, review: Review, before: Row, after: Row)
    requires Justifies(call, review, before) && IsAbout(before, after)
    requires before.supersededBy.Some? ==> after.supersededBy == before.supersededBy
    ensures Justifies(call, review, after)
  {
  }

  /** One call adds at most one review, and justifies it. */
  lemma CallJustifies(s: Store, call: Call)
    ensures var after := After(s, call);
      && |s.reviews| <= |after.reviews| <= |s.reviews| + 1 && after.reviews[..|s.reviews|] == s.reviews
      && (|after.reviews| > |s.reviews| ==>
            var review := after.reviews[|s.reviews|];
            review.candidate in after.rows && Justifies(call, review, after.rows[review.candidate]))
  {
    match call
    case Register(_) =>
    case Judge(q, w) =>
      if OutcomeOf(s, q, w) == Applied {
        ProvedExactly(s.rows[q.candidate], w);
        ProvedExactly(After(s, call).rows[q.candidate], w);
      }
    case Replace(_, _) =>
  }

  /** Every review of every run was made by a call whose evidence its target asks for. */
  lemma {:induction false} ReviewsAreJustified(calls: seq<Call>, i: nat)
    requires i < |AfterCalls(calls).reviews|
    ensures var s := AfterCalls(calls);
      s.reviews[i].candidate in s.rows && IsJustified(calls, s.reviews[i], s.rows[s.reviews[i].candidate])
  {
    hide After, Justifies, IsAbout;
    var earlier := calls[..|calls| - 1];
    var before := AfterCalls(earlier);
    var call := calls[|calls| - 1];
    CallJustifies(before, call);
    if i < |before.reviews| {
      ReviewsAreJustified(earlier, i);
      var review := before.reviews[i];
      assert AfterCalls(calls).reviews[i] == review;
      var n :| 0 <= n < |earlier| && Justifies(earlier[n], review, before.rows[review.candidate]);
      CallKeepsWhatRowsAreAbout(before, call);
      RunsKeepInvariant(earlier);
      InvariantOf(before, review.candidate);
      JustificationStays(earlier[n], review, before.rows[review.candidate],
                         AfterCalls(calls).rows[review.candidate]);
      assert calls[n] == earlier[n];
    }
  }
}
