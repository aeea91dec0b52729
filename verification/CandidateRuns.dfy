/**
 * What every run of registrations, reviews and supersessions keeps (src/knowledge/candidate-repository.ts): the reviews
 * replay to the state, the columns of a row agree, and supersession makes linear chains.
 */
module CandidateRuns {
  import opened Prelude
  import opened Candidates

  datatype Call = Register(registration: Registration) | Judge(request: ReviewRequest, evidence: Witness)
                | Replace(supersession: SupersessionRequest, evidence: Witness)

  function After(s: Store, call: Call): Store {
    match call
    case Register(r) => Registered(s, r)
    case Judge(q, w) => Reviewed(s, q, w)
    case Replace(q, w) => SupersededStore(s, q, w)
  }

  function AfterCalls(calls: seq<Call>): Store {
    if calls == [] then Store(map[], {}, []) else After(AfterCalls(calls[..|calls| - 1]), calls[|calls| - 1])
  }

  // ---- one row and its reviews ----

  function ReviewsOf(reviews: seq<Review>, id: Id): (own: seq<Review>)
    ensures forall r :: r in own ==> r.candidate == id && r in reviews
  {
    if reviews == [] then [] else
      var earlier := ReviewsOf(reviews[..|reviews| - 1], id);
      if reviews[|reviews| - 1].candidate == id then earlier + [reviews[|reviews| - 1]] else earlier
  }

  /** Where a candidate stands after its reviews. */
  function Replayed(own: seq<Review>): State {
    if own == [] then Candidate else own[|own| - 1].to
  }

  /**
   * Each review starts where the one before it ended, by an allowed transition that a review or a supersession can
   * make.
   */
  ghost predicate IsHistory(own: seq<Review>) {
    forall i :: 0 <= i < |own| ==>
      && own[i].from == Replayed(own[..i])
      && CanTransition(own[i].from, own[i].to)
      && own[i].to in {Observed, Confirmed, Verified, Disputed, Superseded}
  }

  /** A confirmation comes from an origin that did not support the candidate before. */
  ghost predicate IndependentConfirmations(own: seq<Review>) {
    forall i, j :: 0 <= i < j < |own| && own[i].to in {Observed, Confirmed} && own[j].to == Confirmed ==>
          own[i].originId != own[j].originId
  }

  /** Only a verification carries its evidence, and it carries a context. */
  ghost predicate CarriesEvidence(review: Review) {
    && (review.to == Verified <==> review.verificationEvidenceId.Some?)
    && (review.to == Verified <==> review.contextRevision.Some?)
  }

  ghost predicate RowAgrees(row: Row, own: seq<Review>) {
    && IsHistory(own) && IndependentConfirmations(own)
    && row.state == Replayed(own)
    && (row.state == Disputed <==> row.contradicted)
    && (row.state == Verified <==> row.verifiedAt.Some?)
    && (row.state == Superseded <==> row.supersededBy.Some?)
    && (row.verifiedAt.Some? ==> own[|own| - 1].reviewedAt == row.verifiedAt.value)
    && (forall i :: 0 <= i < |own| ==> own[i].revision == row.revision && CarriesEvidence(own[i]))
  }

  /** Supersession links are inverse to each other, and the successor is one revision on. */
  ghost predicate LinksAgree(rows: map<Id, Row>, id: Id)
    requires id in rows
  {
    && (rows[id].supersededBy.Some? ==>
          var next := rows[id].supersededBy.value;
          next in rows && rows[next].supersedes == Some(id) && rows[next].revision == rows[id].revision + 1)
    && (rows[id].supersedes.Some? ==>
          var prior := rows[id].supersedes.value; prior in rows && rows[prior].supersededBy == Some(id))
  }

  ghost predicate Invariant(s: Store) {
    && (forall id :: id in s.rows ==> RowAgrees(s.rows[id], ReviewsOf(s.reviews, id)))
    && (forall id :: id in s.rows ==> LinksAgree(s.rows, id))
    && (forall i :: 0 <= i < |s.reviews| ==> s.reviews[i].candidate in s.rows)
    && OneReviewPerEvidence(s.reviews)
  }

  // ---- every call keeps the invariant ----

  lemma {:induction false} NoReviewsOfUnknown(reviews: seq<Review>, id: Id)
    requires forall i :: 0 <= i < |reviews| ==> reviews[i].candidate != id
    ensures ReviewsOf(reviews, id) == []
  {
    if reviews != [] {
      NoReviewsOfUnknown(reviews[..|reviews| - 1], id);
    }
  }

  lemma OneMoreReview(reviews: seq<Review>, review: Review, id: Id)
    ensures ReviewsOf(reviews + [review], id) == if review.candidate == id then ReviewsOf(reviews,
          id) + [review] else ReviewsOf(reviews, id)
  {
    assert (reviews + [review])[..|reviews|] == reviews;
  }

  lemma HistoryGrows(own: seq<Review>, review: Review)
    requires IsHistory(own) && review.from == Replayed(own) && CanTransition(review.from, review.to)
    requires review.to in {Observed, Confirmed, Verified, Disputed, Superseded}
    ensures IsHistory(own + [review])
  {
    var more := own + [review];
    forall i | 0 <= i < |more|
      ensures more[i].from == Replayed(more[..i]) && CanTransition(more[i].from, more[i].to)
            && more[i].to in {Observed, Confirmed, Verified, Disputed, Superseded}
    {
      assert more[..i] == if i < |own| then own[..i] else own;
    }
  }

  lemma {:induction false} OwnIsReview(reviews: seq<Review>, id: Id, k: nat)
    requires k < |ReviewsOf(reviews, id)|
    ensures exists i :: 0 <= i < |reviews| && reviews[i] == ReviewsOf(reviews, id)[k]
  {
    assert ReviewsOf(reviews, id)[k] in ReviewsOf(reviews, id);
  }

  lemma ConfirmationsStayIndependent(s: Store, id: Id, review: Review)
    requires IndependentConfirmations(ReviewsOf(s.reviews, id)) && review.candidate == id
    requires review.to == Confirmed ==> !HasOrigin(s.reviews, id, review.originId)
    ensures IndependentConfirmations(ReviewsOf(s.reviews, id) + [review])
  {
    var own := ReviewsOf(s.reviews, id);
    var more := own + [review];
    forall i, j | 0 <= i < j < |more| && more[i].to in {Observed, Confirmed} && more[j].to == Confirmed
      ensures more[i].originId != more[j].originId
    {
      if j == |own| {
        assert own[i] in own;
        var k :| 0 <= k < |s.reviews| && s.reviews[k] == own[i];
      }
    }
  }

  lemma EvidenceStaysUnique(reviews: seq<Review>, review: Review)
    requires OneReviewPerEvidence(reviews) && !HasReview(reviews, review.candidate, review.evidenceId)
    ensures OneReviewPerEvidence(reviews + [review])
  {
  }

  lemma RegisterKeeps(s: Store, r: Registration)
    requires Invariant(s)
    ensures Invariant(Registered(s, r))
  {
    var id := IdentityOf(r);
    if id !in s.rows {
      NoReviewsOfUnknown(s.reviews, id);
      var after := Registered(s, r);
      forall k | k in after.rows
        ensures RowAgrees(after.rows[k], ReviewsOf(after.reviews, k)) && LinksAgree(after.rows, k)
      {
        if k != id {
          assert LinksAgree(s.rows, k);
        }
      }
    }
  }

  /** A row agrees with its reviews after one more of them, if it moves as the review says. */
  lemma RowMoves(row: Row, own: seq<Review>, review: Review, moved: Row)
    requires RowAgrees(row, own) && IsHistory(own + [review]) && IndependentConfirmations(own + [review])
    requires review.revision == row.revision == moved.revision && CarriesEvidence(review)
    requires moved.state == review.to && (moved.contradicted <==> review.to == Disputed)
    requires moved.verifiedAt == if review.to == Verified then Some(review.reviewedAt) else None
    requires moved.supersededBy.Some? <==> review.to == Superseded
    ensures RowAgrees(moved, own + [review])
  {
    hide IsHistory, IndependentConfirmations;
  }

  lemma ReviewedRowAgrees(s: Store, q: ReviewRequest, evidence: Witness)
    requires Invariant(s) && OutcomeOf(s, q, evidence) == Applied
    ensures RowAgrees(Reviewed(s, q, evidence).rows[q.candidate],
                      ReviewsOf(Reviewed(s, q, evidence).reviews, q.candidate))
  {
    hide IsHistory, IndependentConfirmations, Supports, RowAgrees;
    var row := s.rows[q.candidate];
    var review := ReviewOf(row, q, evidence);
    var own := ReviewsOf(s.reviews, q.candidate);
    OneMoreReview(s.reviews, review, q.candidate);
    SupportedTargets(s, q.candidate, row, q.target, evidence);
    AgreesParts(row, own);
    HistoryGrows(own, review);
    ConfirmationsStayIndependent(s, q.candidate, review);
    RowMoves(row, own, review, Reviewed(s, q, evidence).rows[q.candidate]);
  }

  lemma AgreesParts(row: Row, own: seq<Review>)
    requires RowAgrees(row, own)
    ensures IsHistory(own) && IndependentConfirmations(own) && row.state == Replayed(own)
    ensures row.state == Superseded <==> row.supersededBy.Some?
  {
  }

  lemma SupportedTargets(s: Store, id: Id, row: Row, target: State, evidence: Witness)
    requires Supports(s, id, row, target, evidence)
    ensures target in {Observed, Confirmed, Verified, Disputed}
    ensures target == Confirmed ==> !HasOrigin(s.reviews, id, evidence.originId)
    ensures target == Verified ==> evidence.contextRevision.Some?
  {
  }

  lemma ReviewKeeps(s: Store, q: ReviewRequest, evidence: Witness)
    requires Invariant(s)
    ensures Invariant(Reviewed(s, q, evidence))
  {
    hide RowAgrees, Supports;
    if OutcomeOf(s, q, evidence) == Applied {
      var after := Reviewed(s, q, evidence);
      var row := s.rows[q.candidate];
      var review := ReviewOf(row, q, evidence);
      EvidenceStaysUnique(s.reviews, review);
      NotYetSuperseded(s, q.candidate);
      forall k | k in after.rows
        ensures RowAgrees(after.rows[k], ReviewsOf(after.reviews, k)) && LinksAgree(after.rows, k)
      {
        assert LinksAgree(s.rows, k);
        if k == q.candidate {
          ReviewedRowAgrees(s, q, evidence);
        } else {
          OneMoreReview(s.reviews, review, k);
        }
      }
    }
  }

  lemma NotYetSuperseded(s: Store, id: Id)
    requires Invariant(s) && id in s.rows
    ensures !IsTerminal(s.rows[id].state) ==> s.rows[id].supersededBy.None?
  {
    assert RowAgrees(s.rows[id], ReviewsOf(s.reviews, id));
  }

  lemma SupersededPrior(s: Store, q: SupersessionRequest, evidence: Witness)
    requires CanSupersede(s, q, evidence)
    ensures var after := SupersededStore(s, q, evidence);
      && q.prior in s.rows && q.prior in after.rows
      && after.rows[q.prior] == s.rows[q.prior].(state := State.Superseded,
            supersededBy := Some(IdentityOf(q.replacement)), verifiedAt := None)
      && after.reviews == s.reviews + [SupersessionReview(s.rows[q.prior], q, evidence)]
      && CanTransition(s.rows[q.prior].state, State.Superseded)
  {
  }

  lemma InvariantOf(s: Store, id: Id)
    requires Invariant(s) && id in s.rows
    ensures RowAgrees(s.rows[id], ReviewsOf(s.reviews, id))
  {
  }

  /** The last review of a candidate that is superseded. */
  lemma PriorMoves(s: Store, row: Row, q: SupersessionRequest, evidence: Witness, next: Id)
    requires RowAgrees(row, ReviewsOf(s.reviews, q.prior)) && CanTransition(row.state, State.Superseded)
    ensures RowAgrees(row.(state := State.Superseded, supersededBy := Some(next), verifiedAt := None),
                      ReviewsOf(s.reviews, q.prior) + [SupersessionReview(row, q, evidence)])
  {
    hide IsHistory, IndependentConfirmations, RowAgrees, ReviewsOf;
    var own := ReviewsOf(s.reviews, q.prior);
    var review := SupersessionReview(row, q, evidence);
    AgreesParts(row, own);
    HistoryGrows(own, review);
    ConfirmationsStayIndependent(s, q.prior, review);
    NotContradicted(row, own);
    RowMoves(row, own, review, row.(state := State.Superseded, supersededBy := Some(next), verifiedAt := None));
  }

  lemma SupersededRowAgrees(s: Store, q: SupersessionRequest, evidence: Witness)
    requires Invariant(s) && CanSupersede(s, q, evidence)
    ensures RowAgrees(SupersededStore(s, q, evidence).rows[q.prior],
                      ReviewsOf(SupersededStore(s, q, evidence).reviews, q.prior))
  {
    hide RowAgrees, SupersededStore, Invariant, CanTransition, CanSupersede, ReviewsOf;
    SupersededPrior(s, q, evidence);
    var row := s.rows[q.prior];
    InvariantOf(s, q.prior);
    OneMoreReview(s.reviews, SupersessionReview(row, q, evidence), q.prior);
    PriorMoves(s, row, q, evidence, IdentityOf(q.replacement));
  }

  lemma NotContradicted(row: Row, own: seq<Review>)
    requires RowAgrees(row, own) && row.state != Disputed
    ensures !row.contradicted
  {
    hide IsHistory, IndependentConfirmations;
  }

  lemma SupersedeKeeps(s: Store, q: SupersessionRequest, evidence: Witness)
    requires Invariant(s)
    ensures Invariant(SupersededStore(s, q, evidence))
  {
    hide RowAgrees, LinksAgree;
    if CanSupersede(s, q, evidence) {
      var after := SupersededStore(s, q, evidence);
      var id := IdentityOf(q.replacement);
      var review := SupersessionReview(s.rows[q.prior], q, evidence);
      EvidenceStaysUnique(s.reviews, review);
      NotYetSuperseded(s, q.prior);
      NoReviewsOfUnknown(s.reviews, id);
      NewRowAgrees(after.rows[id]);
      forall k | k in after.rows
        ensures RowAgrees(after.rows[k], ReviewsOf(after.reviews, k)) && LinksAgree(after.rows, k)
      {
        OneMoreReview(s.reviews, review, k);
        SupersededLinks(s, q, k);
        if k == q.prior {
          SupersededRowAgrees(s, q, evidence);
        }
      }
    }
  }

  lemma SupersededLinks(s: Store, q: SupersessionRequest, k: Id)
    requires Invariant(s) && q.prior in s.rows && IdentityOf(q.replacement) !in s.rows
    requires s.rows[q.prior].supersededBy.None? && k in SupersededRows(s.rows, q)
    ensures LinksAgree(SupersededRows(s.rows, q), k)
  {
    hide RowAgrees;
    if k in s.rows {
      assert LinksAgree(s.rows, k);
    }
  }

  lemma NewRowAgrees(row: Row)
    requires row.state == Candidate && !row.contradicted && row.verifiedAt.None? && row.supersededBy.None?
    ensures RowAgrees(row, [])
  {
  }

  /** The invariant holds after every run from an empty repository. */
  lemma {:induction false} RunsKeepInvariant(calls: seq<Call>)
    ensures Invariant(AfterCalls(calls))
  {
    hide Invariant, After;
    if calls == [] {
      EmptyIsFine();
    } else {
      RunsKeepInvariant(calls[..|calls| - 1]);
      CallKeeps(AfterCalls(calls[..|calls| - 1]), calls[|calls| - 1]);
    }
  }

  lemma EmptyIsFine()
    ensures Invariant(Store(map[], {}, []))
  {
  }

  lemma CallKeeps(s: Store, call: Call)
    requires Invariant(s)
    ensures Invariant(After(s, call))
  {
    match call
    case Register(r) => RegisterKeeps(s, r);
    case Judge(q, w) => ReviewKeeps(s, q, w);
    case Replace(q, w) => SupersedeKeeps(s, q, w);
  }

  // ---- consequences ----

  /**
   * Replaying its reviews gives a candidate's state, and its columns agree with it; nothing is ever rejected or
   * expired.
   */
  lemma ReviewsReplay(calls: seq<Call>, id: Id)
    requires id in AfterCalls(calls).rows
    ensures var s := AfterCalls(calls);
      var row := s.rows[id];
      && row.state == Replayed(ReviewsOf(s.reviews, id)) && IsHistory(ReviewsOf(s.reviews, id))
      && (row.state == Disputed <==> row.contradicted)
      && (row.state == Verified <==> row.verifiedAt.Some?)
      && (row.state == Superseded <==> row.supersededBy.Some?)
      && row.state != Rejected && row.state != Expired
  {
    RunsKeepInvariant(calls);
    var s := AfterCalls(calls);
    assert RowAgrees(s.rows[id], ReviewsOf(s.reviews, id));
  }

  /**
   * A verified candidate that was never disputed was observed, confirmed and verified once each, the first two
   * independently.
   */
  lemma VerifiedTheLongWay(calls: seq<Call>, id: Id)
    requires id in AfterCalls(calls).rows && AfterCalls(calls).rows[id].state == Verified
    requires forall r :: r in ReviewsOf(AfterCalls(calls).reviews, id) ==> r.to != Disputed
    ensures var own := ReviewsOf(AfterCalls(calls).reviews, id);
      |own| == 3 && own[0].to == Observed && own[1].to == Confirmed && own[2].to == Verified
          && own[0].originId != own[1].originId
  {
    hide AfterCalls, ReviewsOf, LinksAgree, OneReviewPerEvidence, Invariant;
    RunsKeepInvariant(calls);
    var s := AfterCalls(calls);
    var own := ReviewsOf(s.reviews, id);
    InvariantOf(s, id);
    forall i | 0 <= i < |own| ensures own[i].to != Disputed && own[i].from == Replayed(own[..i]) {
      assert own[i] in own;
    }
    StepsUp(own, |own|);
    assert own[..|own|] == own;
  }

  /** Without a dispute the reviews go up the ladder one step at a time, until they end in a supersession. */
  lemma {:induction false} StepsUp(own: seq<Review>, n: nat)
    requires IsHistory(own) && n <= |own| && forall i :: 0 <= i < |own| ==> own[i].to != Disputed
    ensures n > 0 ==> own[0].to == Observed || own[0].to == Superseded
    ensures Replayed(own[..n]) == Superseded
            || (n <= 3 && Replayed(own[..n]) == [Candidate, Observed, Confirmed, Verified][n])
    ensures n > 1 && Replayed(own[..n]) != Superseded ==> own[1].to == Confirmed
  {
    if n > 0 {
      StepsUp(own, n - 1);
      assert own[n - 1].from == Replayed(own[..n - 1]);
      assert own[..n][n - 1] == own[n - 1];
    }
  }

  /** Following `supersededBy` n times. */
  function Successor(rows: map<Id, Row>, id: Id, n: nat): Option<Id> {
    if n == 0 then if id in rows then Some(id) else None
    else
      var before := Successor(rows, id, n - 1);
      if before.Some? && before.value in rows then rows[before.value].supersededBy else None
  }

  /** Each step along a chain raises the revision by one, and the chain is the only one that leads there. */
  lemma {:induction false} ChainRises(s: Store, id: Id, n: nat)
    requires Invariant(s) && Successor(s.rows, id, n).Some?
    ensures id in s.rows && Successor(s.rows, id, n).value in s.rows
    ensures s.rows[Successor(s.rows, id, n).value].revision == s.rows[id].revision + n
    ensures n > 0 ==> Successor(s.rows, id, n - 1).Some?
    ensures n > 0 ==> s.rows[Successor(s.rows, id, n).value].supersedes == Successor(s.rows, id, n - 1)
  {
    hide RowAgrees;
    if n > 0 {
      ChainRises(s, id, n - 1);
      assert LinksAgree(s.rows, Successor(s.rows, id, n - 1).value);
    }
  }

  /** Supersession chains are acyclic and linear: no chain returns, and no two candidates have one successor. */
  lemma ChainsAreLinear(calls: seq<Call>, id: Id, n: nat, other: Id)
    requires n > 0 && Successor(AfterCalls(calls).rows, id, n).Some?
    ensures Successor(AfterCalls(calls).rows, id, n).value != id
    ensures other in AfterCalls(calls).rows
            && AfterCalls(calls).rows[other].supersededBy == Successor(AfterCalls(calls).rows, id, n) ==>
              Some(other) == Successor(AfterCalls(calls).rows, id, n - 1)
  {
    hide Successor, AfterCalls, RowAgrees;
    RunsKeepInvariant(calls);
    var s := AfterCalls(calls);
    ChainRises(s, id, n);
    if other in s.rows {
      assert LinksAgree(s.rows, other);
    }
  }

  /** Links are inverse in both directions. */
  lemma LinksAreInverse(calls: seq<Call>, prior: Id, next: Id)
    requires prior in AfterCalls(calls).rows && next in AfterCalls(calls).rows
    ensures AfterCalls(calls).rows[prior].supersededBy == Some(next) <==>
              AfterCalls(calls).rows[next].supersedes == Some(prior)
  {
    RunsKeepInvariant(calls);
    var rows := AfterCalls(calls).rows;
    assert LinksAgree(rows, prior) && LinksAgree(rows, next);
  }

  /** Repeating a review changes nothing; the same evidence for another target is refused. */
  lemma ReviewsAreIdempotent(calls: seq<Call>, q: ReviewRequest, evidence: Witness, target: State)
    requires OutcomeOf(AfterCalls(calls), q, evidence) == Applied
    ensures var s := Reviewed(AfterCalls(calls), q, evidence);
      Reviewed(s, q.(target := target), evidence) == s
            && OutcomeOf(s, q.(target := target), evidence) ==
               (if target == q.target then AlreadyApplied else RefusedReview)
  {
    hide Supports;
    var before := AfterCalls(calls);
    var s := Reviewed(before, q, evidence);
    var last := |before.reviews|;
    assert s.reviews[last].evidenceId == q.evidenceId && s.reviews[last].to == q.target;
    assert forall i :: 0 <= i < last ==> s.reviews[i] == before.reviews[i];
  }

  // ---- the verified entries ----

  /** The reviews that the listing of verified entries joins to a row. */
  ghost predicate IsListedBy(row: Row, id: Id, review: Review) {
    && row.state == Verified && !row.contradicted && row.verifiedAt.Some?
    && review.candidate == id && review.revision == row.revision && review.to == Verified
       && review.reviewedAt == row.verifiedAt.value
    && review.verificationEvidenceId.Some? && review.contextRevision.Some?
  }

  /** A candidate is listed as verified if and only if it is verified; its last review always lists it. */
  lemma VerifiedIsListed(calls: seq<Call>, id: Id)
    requires id in AfterCalls(calls).rows
    ensures var s := AfterCalls(calls);
      s.rows[id].state == Verified <==> exists i :: 0 <= i < |s.reviews| && IsListedBy(s.rows[id], id, s.reviews[i])
  {
    hide AfterCalls, RowAgrees, IsListedBy;
    RunsKeepInvariant(calls);
    var s := AfterCalls(calls);
    var own := ReviewsOf(s.reviews, id);
    assert RowAgrees(s.rows[id], own);
    if s.rows[id].state == Verified {
      LastReviewLists(s.rows[id], id, own);
      OwnIsReview(s.reviews, id, |own| - 1);
    }
    if i :| 0 <= i < |s.reviews| && IsListedBy(s.rows[id], id, s.reviews[i]) {
      ListedIsVerified(s.rows[id], id, s.reviews[i]);
    }
  }

  lemma LastReviewLists(row: Row, id: Id, own: seq<Review>)
    requires RowAgrees(row, own) && row.state == Verified && forall r :: r in own ==> r.candidate == id
    ensures own != [] && IsListedBy(row, id, own[|own| - 1])
  {
    hide IndependentConfirmations, IsHistory;
    assert own[|own| - 1] in own && CarriesEvidence(own[|own| - 1]);
  }

  lemma ListedIsVerified(row: Row, id: Id, review: Review)
    requires IsListedBy(row, id, review)
    ensures row.state == Verified
  {
  }

  /** The last review of the candidate. */
  ghost predicate IsLastOf(reviews: seq<Review>, id: Id, n: nat) {
    n < |reviews| && reviews[n].candidate == id && forall i :: n < i < |reviews| ==> reviews[i].candidate != id
  }

  /** The review verifies the candidate at that time. */
  predicate Verifies(review: Review, id: Id, at: int) {
    review.candidate == id && review.to == Verified && review.reviewedAt == at
  }

  lemma {:induction false} OwnAreReviews(reviews: seq<Review>, id: Id)
    ensures forall i :: 0 <= i < |reviews| && reviews[i].candidate == id ==> reviews[i] in ReviewsOf(reviews, id)
    ensures ReviewsOf(reviews, id) != [] ==>
              exists n: nat :: IsLastOf(reviews, id, n)
                  && reviews[n] == ReviewsOf(reviews, id)[|ReviewsOf(reviews, id)| - 1]
  {
    if reviews != [] {
      var n := |reviews| - 1;
      OwnAreReviews(reviews[..n], id);
      if reviews[n].candidate == id {
        assert IsLastOf(reviews, id, n);
      } else if ReviewsOf(reviews, id) != [] {
        var m: nat :| IsLastOf(reviews[..n], id, m)
            && reviews[..n][m] == ReviewsOf(reviews[..n], id)[|ReviewsOf(reviews[..n], id)| - 1];
        assert IsLastOf(reviews, id, m);
      }
    }
  }

  /** The listing joins exactly the reviews that verify the candidate at the time of its row. */
  lemma ListedByVerifications(row: Row, id: Id, own: seq<Review>, review: Review)
    requires RowAgrees(row, own) && row.state == Verified && (review.candidate == id ==> review in own)
    ensures row.verifiedAt.Some? && own != [] && own[|own| - 1].reviewedAt == row.verifiedAt.value
    ensures IsListedBy(row, id, review) <==> Verifies(review, id, row.verifiedAt.value)
  {
    hide IsHistory, IndependentConfirmations;
    if review in own {
      var i :| 0 <= i < |own| && own[i] == review;
      assert CarriesEvidence(own[i]);
    }
  }

  /**
   * A verified candidate is listed by its last review, and by no other if and only if no earlier review of it verified
   * it at the very same time.
   */
  lemma ListedOnce(calls: seq<Call>, id: Id)
    requires id in AfterCalls(calls).rows && AfterCalls(calls).rows[id].state == Verified
    ensures var s := AfterCalls(calls);
      exists last: nat :: IsLastOf(s.reviews, id, last) && IsListedBy(s.rows[id], id, s.reviews[last])
        && ((forall i :: 0 <= i < |s.reviews| && IsListedBy(s.rows[id], id, s.reviews[i]) ==> i == last) <==>
            (forall i :: 0 <= i < last ==> !Verifies(s.reviews[i], id, s.reviews[last].reviewedAt)))
  {
    hide AfterCalls, RowAgrees, IsListedBy, ReviewsOf;
    RunsKeepInvariant(calls);
    var s := AfterCalls(calls);
    var own := ReviewsOf(s.reviews, id);
    InvariantOf(s, id);
    OwnAreReviews(s.reviews, id);
    LastReviewLists(s.rows[id], id, own);
    var last: nat :| IsLastOf(s.reviews, id, last) && s.reviews[last] == own[|own| - 1];
    forall i | 0 <= i < |s.reviews|
      ensures IsListedBy(s.rows[id], id, s.reviews[i]) <==> Verifies(s.reviews[i], id, s.reviews[last].reviewedAt)
    {
      ListedByVerifications(s.rows[id], id, own, s.reviews[i]);
    }
  }

  // ---- a candidate that is listed twice ----

  const LESSON := Registration("repo", Heuristic, Applicability(None, {}), Some("p"), None,
                               Candidates.Origin(ManualReview, "o"), "lesson")
  const LESSON_ID := IdentityOf(LESSON)

  function Evidence(id: string, kind: WitnessKind): Witness {
    Witness(id, "repo", id, kind, Some("task"), None, None, None, None, Some("context"), None, Some(LESSON_ID))
  }

  function Judging(id: string, kind: WitnessKind, target: State): Call {
    Judge(ReviewRequest("repo", LESSON_ID, target, "actor", id, 0), Evidence(id, kind))
  }

  function ReviewBy(id: string, kind: WitnessKind, from: State, to: State): Review {
    var verifies := to == Verified;
    Review(LESSON_ID, 1, from, to, "actor", id, id, kind, if verifies then Some(id) else None,
           if verifies then Some("context") else None, None, 0)
  }

  /** Observed, confirmed, verified, disputed and verified again, all at one time. */
  const TARGETS := [Observed, Confirmed, Verified, Disputed, Verified]
  const KINDS := [Observation, Observation, TaskVerification, Contradiction, TaskVerification]
  const NAMES := ["a", "b", "c", "d", "e"]

  function StateAfter(n: nat): State
    requires n <= 5
  {
    if n == 0 then Candidate else TARGETS[n - 1]
  }

  function Twice(): seq<Call> {
    seq(6, n requires 0 <= n < 6 =>
      if n == 0 then Register(LESSON) else Judging(NAMES[n - 1], KINDS[n - 1], TARGETS[n - 1]))
  }

  function Reviews(): seq<Review> {
    seq(5, n requires 0 <= n < 5 => ReviewBy(NAMES[n], KINDS[n], StateAfter(n), TARGETS[n]))
  }

  function RowIn(state: State): Row {
    NewRow(LESSON).(state := state, contradicted := state == Disputed,
                    verifiedAt := if state == Verified then Some(0) else None)
  }

  function StoreAfter(n: nat): Store
    requires n <= 5
  {
    Store(map[LESSON_ID := RowIn(StateAfter(n))], {(LESSON_ID, LESSON.origin)}, Reviews()[..n])
  }

  lemma NewEvidence(n: nat)
    requires n < 5
    ensures !HasReview(Reviews()[..n], LESSON_ID, NAMES[n])
    ensures !HasOrigin(Reviews()[..n], LESSON_ID, NAMES[n])
  {
    forall i | 0 <= i < n ensures Reviews()[i].evidenceId != NAMES[n] && Reviews()[i].originId != NAMES[n] {
      assert NAMES[i][0] != NAMES[n][0];
    }
  }

  lemma Supported(s: Store, row: Row, n: nat)
    requires n < 5 && row == RowIn(StateAfter(n)) && !HasOrigin(s.reviews, LESSON_ID, NAMES[n])
    ensures Supports(s, LESSON_ID, row, TARGETS[n], Evidence(NAMES[n], KINDS[n]))
            && CanTransition(row.state, TARGETS[n])
  {
    assert n in {0, 1, 2, 3, 4};
  }

  lemma OneStep(n: nat)
    requires n < 5
    ensures After(StoreAfter(n), Twice()[n + 1]) == StoreAfter(n + 1)
  {
    hide Supports, CanTransition, HasReview, HasOrigin;
    NewEvidence(n);
    Supported(StoreAfter(n), RowIn(StateAfter(n)), n);
    assert Reviews()[..n + 1] == Reviews()[..n] + [Reviews()[n]];
  }

  lemma {:induction false} StepsTo(n: nat)
    requires n <= 5
    ensures AfterCalls(Twice()[..n + 1]) == StoreAfter(n)
  {
    hide After, StoreAfter;
    assert Twice()[..n + 1][..n] == Twice()[..n];
    if n > 0 {
      StepsTo(n - 1);
      OneStep(n - 1);
    } else {
      FirstStep();
    }
  }

  lemma FirstStep()
    ensures AfterCalls(Twice()[..1]) == StoreAfter(0)
  {
    assert Twice()[..1][..0] == [];
    assert AfterCalls(Twice()[..1]) == After(Store(map[], {}, []), Twice()[0]);
  }

  /** The condition matters: this run verifies a candidate twice at one time, and it is listed twice. */
  lemma ListedTwice()
    ensures var s := AfterCalls(Twice());
      LESSON_ID in s.rows && |s.reviews| == 5
      && IsListedBy(s.rows[LESSON_ID], LESSON_ID, s.reviews[2])
         && IsListedBy(s.rows[LESSON_ID], LESSON_ID, s.reviews[4])
  {
    hide AfterCalls;
    StepsTo(5);
    assert Twice()[..6] == Twice();
    assert Reviews()[..5] == Reviews();
  }
}
