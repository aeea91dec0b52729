/**
 * What a reconstruction promises (src/evidence/reconstructor.ts): it does not depend on the order of delivery, a
 * duplicate only counts as one, every observation and every result is accounted for, and no time is counted twice.
 */
module ReconstructionFacts {
  import opened Prelude
  import opened Ordering
  import opened Intervals
  import opened Reconstruction
  import opened Reconstructor

  // ---- order and duplicates ----

  lemma SameSetSameListing(s: seq<Observation>, t: seq<Observation>)
    requires forall o :: o in s <==> o in t
    ensures Listing(s) == Listing(t) && (Consistent(s) <==> Consistent(t))
  {
    assert forall o :: IsFirst(s, o) <==> IsFirst(t, o);
    if kept :| IsListing(s, kept) {
      assert IsListing(t, kept);
      ListingIs(s, kept);
      ListingIs(t, kept);
    } else {
      assert forall kept :: IsListing(t, kept) ==> IsListing(s, kept);
    }
  }

  function WithMoreDuplicates(report: Option<Report>, more: nat): Option<Report> {
    match report
    case None => None
    case Some(r) => Some(r.(coverage := r.coverage.(duplicateObservations := r.coverage.duplicateObservations + more)))
  }

  lemma ListingDecides(a: Input, b: Input)
    requires b == a.(observations := b.observations) && |a.observations| <= |b.observations| <= MAX_OBSERVATIONS
    requires Listing(a.observations) == Listing(b.observations)
    requires Consistent(a.observations) <==> Consistent(b.observations)
    ensures Reconstructed(b) == WithMoreDuplicates(Reconstructed(a), |b.observations| - |a.observations|)
  {
    hide Listing, Consistent, OperationsOf, MetricsOf, UnmatchedIds, MissingIds, CountMatched, Sort, ValidObservation;
    UniqueListing(a.observations);
    var kept := Listing(a.observations);
    assert ValidInput(a) <==> ValidInput(b);
    assert AllInBounds(a, kept) <==> AllInBounds(b, kept) by {
      assert forall o :: InBounds(a, o) <==> InBounds(b, o);
    }
    forall operations ensures MetricsOf(a, operations, kept) == MetricsOf(b, operations, kept) {
      SameMetrics(a, b, operations, kept);
    }
  }

  lemma SameMetrics(a: Input, b: Input, operations: seq<Operation>, kept: seq<Observation>)
    requires b == a.(observations := b.observations)
    ensures MetricsOf(a, operations, kept) == MetricsOf(b, operations, kept)
  {
  }

  lemma SameElements(s: seq<Observation>, t: seq<Observation>, copies: multiset<Observation>)
    requires multiset(t) == multiset(s) + copies && forall o :: o in copies ==> o in s
    ensures forall o :: o in s <==> o in t
    ensures |t| == |s| + |copies|
  {
    forall o ensures o in s <==> o in t {
      assert o in s <==> o in multiset(s);
      assert o in t <==> o in multiset(t);
    }
    assert |s| == |multiset(s)| && |t| == |multiset(t)|;
  }

  /** Delivering the observations in another order gives the same report, or the input is rejected both times. */
  lemma OrderDoesNotMatter(a: Input, b: Input)
    requires multiset(a.observations) == multiset(b.observations) && b == a.(observations := b.observations)
    ensures Reconstructed(a) == Reconstructed(b)
  {
    hide Listing, Consistent, ReportOf, OperationsOf, ValidInput;
    assert multiset(b.observations) == multiset(a.observations) + multiset{};
    SameElements(a.observations, b.observations, multiset{});
    SameSetSameListing(a.observations, b.observations);
    if |a.observations| <= MAX_OBSERVATIONS {
      ListingDecides(a, b);
    } else {
      TooManyIsRejected(a);
      TooManyIsRejected(b);
    }
  }

  lemma TooManyIsRejected(a: Input)
    requires |a.observations| > MAX_OBSERVATIONS
    ensures Reconstructed(a) == None
  {
  }

  /** One more copy of an observation changes nothing but the count of duplicates, unless it exceeds the limit. */
  lemma DuplicateOnlyCounts(a: Input, b: Input, copy: Observation)
    requires copy in a.observations && b == a.(observations := b.observations)
    requires multiset(b.observations) == multiset(a.observations) + multiset{copy}
    ensures Reconstructed(b) == if |b.observations| <= MAX_OBSERVATIONS then WithMoreDuplicates(Reconstructed(a), 1)
            else None
  {
    hide Listing, Consistent, ReportOf, OperationsOf, ValidInput, Reconstructed;
    SameElements(a.observations, b.observations, multiset{copy});
    SameSetSameListing(a.observations, b.observations);
    if |b.observations| <= MAX_OBSERVATIONS {
      ListingDecides(a, b);
    } else {
      TooManyIsRejected(b);
    }
  }

  /** A consistent list has a listing, which is no longer than the list. */
  lemma UniqueListing(s: seq<Observation>)
    ensures Consistent(s) ==> IsListing(s, Listing(s)) && |Listing(s)| <= |s|
  {
    if Consistent(s) {
      var unique := Distinct(s);
      SortedObservations(unique);
      var sorted := Sort(unique, ByTime());
      assert |sorted| == |multiset(sorted)| == |unique|;
      var kept := FirstsOf(sorted, |sorted|);
      assert sorted[..|sorted|] == sorted;
      forall o ensures o in kept <==> IsFirst(s, o) {
        assert forall i :: 0 <= i < |sorted| ==> sorted[i] in sorted;
      }
      ListingIs(s, kept);
    }
  }

  /** The distinct observations of a list. */
  lemma {:induction false} Distinct(s: seq<Observation>) returns (unique: seq<Observation>)
    requires IdentitiesAgree(s)
    ensures DistinctIds(unique) && |unique| <= |s| && forall o :: o in unique <==> o in s
  {
    if s == [] {
      unique := [];
    } else {
      var earlier := s[..|s| - 1];
      var last := s[|s| - 1];
      assert forall o :: o in s <==> o in earlier || o == last;
      unique := Distinct(earlier);
      if last !in unique {
        forall i | 0 <= i < |unique| ensures unique[i].id != last.id {
          assert unique[i] in s && last in s;
        }
        unique := unique + [last];
      }
    }
  }

  lemma {:induction false} FirstsOf(sorted: seq<Observation>, n: nat) returns (kept: seq<Observation>)
    requires Ascending(sorted, ByTime()) && n <= |sorted|
    ensures KeptOf(sorted, n, kept)
  {
    ObservationsAreOrdered();
    if n == 0 {
      kept := [];
    } else {
      kept := FirstsOf(sorted, n - 1);
      if i :| 0 <= i < n - 1 && SameEvent(sorted[n - 1], sorted[i]) {
        var first := FirstOfEvent(sorted, n - 1, i);
        SkipsLater(sorted, n - 1, kept, sorted[first]);
      } else {
        KeepsFirst(sorted, n - 1, kept);
        kept := kept + [sorted[n - 1]];
      }
    }
  }

  lemma {:induction false} FirstOfEvent(sorted: seq<Observation>, n: nat, i: nat) returns (first: nat)
    requires Ascending(sorted, ByTime()) && StrictOrder(ByTime()) && i < n <= |sorted|
    ensures first < n && SameEvent(sorted[i], sorted[first]) && sorted[first] in sorted[..n]
    ensures forall j :: 0 <= j < n && SameEvent(sorted[first], sorted[j]) ==> !Precedes(sorted[j], sorted[first])
  {
    if j :| 0 <= j < i && SameEvent(sorted[i], sorted[j]) {
      first := FirstOfEvent(sorted, n, j);
    } else {
      first := i;
      forall j | 0 <= j < n && SameEvent(sorted[i], sorted[j]) ensures !Precedes(sorted[j], sorted[i]) {
        if j > i {
          assert ByTime()(sorted[i], sorted[j]);
          assert !ByTime()(sorted[j], sorted[i]) by {
            assert !ByTime()(sorted[i], sorted[i]);
          }
        } else if j == i {
          assert !ByTime()(sorted[i], sorted[i]);
        }
      }
    }
  }

  // ---- accounting ----

  /** What an accepted reconstruction is made of. */
  lemma Parts(input: Input, report: Report) returns (kept: seq<Observation>, requests: seq<Observation>)
    requires Reconstructed(input) == Some(report)
    ensures IsListing(input.observations, kept) && Consistent(input.observations) && AllInBounds(input, kept)
    ensures requests == SortedKind(kept, KindRequest)
    ensures OperationsOf(kept, requests, input.source, input.sessionId) == Some(report.operations)
    ensures |kept| <= |input.observations|
            && report == ReportOf(input, kept, |input.observations| - |kept|, report.operations)
    ensures input.sourceEndedAt.Some? ==> input.startedAt <= input.sourceEndedAt.value
  {
    kept := Listing(input.observations);
    requests := SortedKind(kept, KindRequest);
    UniqueListing(input.observations);
  }

  lemma {:induction false} OperationAt(kept: seq<Observation>, requests: seq<Observation>, source: string,
      sessionId: string, i: nat)
    requires OperationsOf(kept, requests, source, sessionId).Some?
    ensures |OperationsOf(kept, requests, source, sessionId).value| == |requests|
    ensures i < |requests| ==>
              OperationOf(kept, requests[i], source, sessionId) ==
                  Some(OperationsOf(kept, requests, source, sessionId).value[i])
  {
    hide OperationOf;
    if requests != [] {
      OperationAt(kept, requests[..|requests| - 1], source, sessionId, i);
    }
  }

  /** Kept observations of one source event are one; so are kept observations of one identity. */
  lemma KeptAreDistinct(s: seq<Observation>, kept: seq<Observation>, a: Observation, b: Observation)
    requires IsListing(s, kept) && Consistent(s) && a in kept && b in kept
    ensures SameEvent(a, b) ==> a == b
    ensures a.id == b.id ==> a == b
  {
    assert IsFirst(s, a) && IsFirst(s, b);
    if SameEvent(a, b) && a.id != b.id {
      PrecedesTotal(a, b);
      assert SameEvent(b, a);
    }
  }

  lemma {:induction false} OfKindCounts(s: seq<Observation>, kind: Kind, o: Observation)
    ensures multiset(OfKind(s, kind))[o] == if o.kind == kind then multiset(s)[o] else 0
  {
    if s != [] {
      assert s == s[..|s| - 1] + [s[|s| - 1]];
      OfKindCounts(s[..|s| - 1], kind, o);
    }
  }

  lemma {:induction false} CountOnce(s: seq<Observation>, o: Observation)
    requires NoDuplicates(s)
    ensures multiset(s)[o] <= 1
  {
    if s != [] {
      var earlier := s[..|s| - 1];
      assert s == earlier + [s[|s| - 1]];
      CountOnce(earlier, o);
      assert o in earlier <==> o in multiset(earlier);
    }
  }

  lemma {:induction false} CountedOnce(s: seq<Observation>)
    requires forall x :: multiset(s)[x] <= 1
    ensures NoDuplicates(s)
  {
    if s != [] {
      var earlier := s[..|s| - 1];
      var last := s[|s| - 1];
      assert s == earlier + [last];
      forall x ensures multiset(earlier)[x] <= 1 {
        assert multiset(s)[x] == multiset(earlier)[x] + multiset{last}[x];
      }
      CountedOnce(earlier);
      assert last in earlier <==> last in multiset(earlier);
      assert multiset(s)[last] == multiset(earlier)[last] + 1;
    }
  }

  /** Each kind of observation is listed without repetition. */
  lemma SortedKindHasNoDuplicates(s: seq<Observation>, kept: seq<Observation>, kind: Kind)
    requires IsListing(s, kept)
    ensures NoDuplicates(SortedKind(kept, kind))
  {
    ObservationsAreOrdered();
    forall i, j | 0 <= i < j < |kept| ensures kept[i] != kept[j] {
      assert ByTime()(kept[i], kept[j]);
    }
    var sorted := SortedKind(kept, kind);
    forall x ensures multiset(sorted)[x] <= 1 {
      OfKindCounts(kept, kind, x);
      CountOnce(kept, x);
    }
    CountedOnce(sorted);
  }

  predicate CompetesWith(a: Observation, b: Observation) {
    a.kind == KindResult && a.relatedEventId == b.relatedEventId && a.executionKey == b.executionKey
  }

  /**
   * A result is matched if its request is kept and it is that request's only result under the request's execution key.
   */
  ghost predicate IsMatched(kept: seq<Observation>, result: Observation, request: Observation) {
    && result in kept && result.kind == KindResult && result.relatedEventId == Some(request.sourceEventId)
    && request in kept && request.kind == KindRequest
    && result.executionKey == request.executionKey
    && forall other :: other in kept && CompetesWith(other, result) ==> other == result
  }

  lemma {:induction false} RelatedHasNoDuplicates(s: seq<Observation>, eventId: string)
    requires NoDuplicates(s)
    ensures NoDuplicates(RelatedTo(s, eventId))
  {
    if s != [] {
      RelatedHasNoDuplicates(s[..|s| - 1], eventId);
    }
  }

  lemma {:induction false} QualifiedHasNoDuplicates(s: seq<Observation>, request: Observation)
    requires NoDuplicates(s)
    ensures NoDuplicates(Qualified(s, request))
  {
    if s != [] {
      QualifiedHasNoDuplicates(s[..|s| - 1], request);
    }
  }

  /** The operation of a request names exactly the result that is matched to it. */
  lemma OperationNamesItsMatch(s: seq<Observation>, kept: seq<Observation>, request: Observation,
      result: Observation, source: string, sessionId: string)
    requires IsListing(s, kept) && Consistent(s) && request in kept && request.kind == KindRequest && result in kept
    requires OperationOf(kept, request, source, sessionId).Some?
    ensures result.kind == KindResult ==>
              (OperationOf(kept, request, source, sessionId).value.resultEvidenceId == Some(result.id) <==>
               IsMatched(kept, result, request))
    ensures OperationOf(kept, request, source, sessionId).value.resultEvidenceId.Some? ==>
              exists r :: IsMatched(kept, r, request)
                  && r.id == OperationOf(kept, request, source, sessionId).value.resultEvidenceId.value
  {
    var results := RelatedTo(SortedKind(kept, KindResult), request.sourceEventId);
    var qualified := Qualified(results, request);
    SortedKindHasNoDuplicates(s, kept, KindResult);
    RelatedHasNoDuplicates(SortedKind(kept, KindResult), request.sourceEventId);
    QualifiedHasNoDuplicates(results, request);
    var operation := OperationOf(kept, request, source, sessionId).value;
    if operation.resultEvidenceId.Some? {
      var r := qualified[0];
      assert r in qualified && qualified == [r];
      assert IsMatched(kept, r, request) by {
        forall other | other in kept && CompetesWith(other, r) ensures other == r {
          assert other in qualified;
        }
      }
      KeptAreDistinct(s, kept, r, result);
    }
    if IsMatched(kept, result, request) {
      assert result in qualified;
      OnlyElement(qualified, result);
    }
  }

  lemma OnlyElement(s: seq<Observation>, x: Observation)
    requires NoDuplicates(s) && x in s && forall y :: y in s ==> y == x
    ensures s == [x]
  {
    forall i | 0 <= i < |s| ensures s[i] == x {
      assert s[i] in s;
    }
    assert s[|s| - 1] == s[0];
  }

  lemma {:induction false} UnmatchedIs(kept: seq<Observation>, operations: seq<Operation>, id: string)
    ensures id in UnmatchedIds(kept, operations) <==>
            exists o :: o in kept && o.id == id && (o.kind == KindResult || o.kind == KindVerification)
                && !IsUsed(operations, id)
  {
    hide IsUsed;
    if kept != [] {
      assert kept == kept[..|kept| - 1] + [kept[|kept| - 1]];
      UnmatchedIs(kept[..|kept| - 1], operations, id);
    }
  }

  /** What an operation uses is the result that is matched to its request, or a verification. */
  lemma UsedByOperation(input: Input, kept: seq<Observation>, request: Observation, result: Observation)
    requires IsListing(input.observations, kept) && Consistent(input.observations)
    requires request in kept && request.kind == KindRequest && result in kept && result.kind == KindResult
    requires OperationOf(kept, request, input.source, input.sessionId).Some?
    ensures Uses(OperationOf(kept, request, input.source, input.sessionId).value, result.id) <==>
              IsMatched(kept, result, request)
  {
    hide IsMatched, IsListing, Consistent;
    OperationNamesItsMatch(input.observations, kept, request, result, input.source, input.sessionId);
    var verifications := RelatedTo(SortedKind(kept, KindVerification), request.sourceEventId);
    if k :| 0 <= k < |verifications| && verifications[k].id == result.id {
      assert verifications[k] in verifications;
      KeptAreDistinct(input.observations, kept, verifications[k], result);
    }
  }

  /** A kept result is used by an operation exactly if it is matched to a request. */
  lemma ResultIsUsed(input: Input, report: Report, kept: seq<Observation>, requests: seq<Observation>,
                     result: Observation)
    requires IsListing(input.observations, kept) && Consistent(input.observations)
             && requests == SortedKind(kept, KindRequest)
    requires OperationsOf(kept, requests, input.source, input.sessionId) == Some(report.operations)
    requires result in kept && result.kind == KindResult
    ensures IsUsed(report.operations, result.id) <==> exists request :: IsMatched(kept, result, request)
  {
    hide IsMatched, IsListing, Consistent, OperationsOf, OperationOf, Uses, SortedKind;
    forall i | 0 <= i < |report.operations|
      ensures i < |requests| && (Uses(report.operations[i], result.id) <==> IsMatched(kept, result, requests[i]))
    {
      OperationAt(kept, requests, input.source, input.sessionId, i);
      assert requests[i] in requests;
      UsedByOperation(input, kept, requests[i], result);
    }
    OperationAt(kept, requests, input.source, input.sessionId, 0);
    if request :| IsMatched(kept, result, request) {
      MatchedRequest(kept, result, request);
      assert request in requests;
      var i :| 0 <= i < |requests| && requests[i] == request;
      assert Uses(report.operations[i], result.id);
    }
  }

  lemma MatchedRequest(kept: seq<Observation>, result: Observation, request: Observation)
    requires IsMatched(kept, result, request)
    ensures result in kept && result.kind == KindResult && request in kept && request.kind == KindRequest
    ensures result.relatedEventId == Some(request.sourceEventId)
  {
  }

  /** No result serves two operations. */
  lemma ResultsServeOnce(input: Input, report: Report, i: nat, j: nat)
    requires Reconstructed(input) == Some(report) && i < j < |report.operations|
             && report.operations[i].resultEvidenceId.Some?
    ensures report.operations[i].resultEvidenceId != report.operations[j].resultEvidenceId
  {
    hide IsListing, Consistent, OperationsOf, ReportOf, Reconstructed, OperationOf, IsMatched;
    var kept, requests := Parts(input, report);
    OperationAt(kept, requests, input.source, input.sessionId, i);
    OperationAt(kept, requests, input.source, input.sessionId, j);
    if report.operations[i].resultEvidenceId == report.operations[j].resultEvidenceId {
      OperationNamesItsMatch(input.observations, kept, requests[i], requests[i], input.source, input.sessionId);
      OperationNamesItsMatch(input.observations, kept, requests[j], requests[j], input.source, input.sessionId);
      var a :| IsMatched(kept, a, requests[i]) && a.id == report.operations[i].resultEvidenceId.value;
      var b :| IsMatched(kept, b, requests[j]) && b.id == a.id;
      MatchedRequest(kept, a, requests[i]);
      MatchedRequest(kept, b, requests[j]);
      KeptAreDistinct(input.observations, kept, a, b);
      KeptAreDistinct(input.observations, kept, requests[i], requests[j]);
      SortedKindHasNoDuplicates(input.observations, kept, KindRequest);
    }
  }

  ghost function MatchedIds(operations: seq<Operation>): set<string> {
    set i | 0 <= i < |operations| && operations[i].resultEvidenceId.Some? :: operations[i].resultEvidenceId.value
  }

  lemma MatchedIdsGrow(operations: seq<Operation>, next: Operation)
    ensures MatchedIds(operations + [next]) ==
              MatchedIds(operations) + if next.resultEvidenceId.Some? then {next.resultEvidenceId.value} else {}
  {
    var more := operations + [next];
    forall id ensures id in MatchedIds(more) <==> id in MatchedIds(operations) || next.resultEvidenceId == Some(id) {
      if i :| 0 <= i < |operations| && operations[i].resultEvidenceId == Some(id) {
        assert more[i].resultEvidenceId == Some(id);
      }
      if next.resultEvidenceId == Some(id) {
        assert more[|operations|].resultEvidenceId == Some(id);
      }
    }
  }

  ghost predicate NoSharedResults(operations: seq<Operation>) {
    forall i, j :: 0 <= i < j < |operations| && operations[i].resultEvidenceId.Some? ==>
                     operations[i].resultEvidenceId != operations[j].resultEvidenceId
  }

  lemma LastSharesNone(operations: seq<Operation>, last: Operation)
    requires NoSharedResults(operations + [last])
    ensures NoSharedResults(operations)
    ensures last.resultEvidenceId.Some? ==> last.resultEvidenceId.value !in MatchedIds(operations)
  {
    var more := operations + [last];
    assert more[|operations|] == last;
    assert forall i :: 0 <= i < |operations| ==> more[i] == operations[i];
  }

  lemma {:induction false} CountsMatchedIds(operations: seq<Operation>)
    requires NoSharedResults(operations)
    ensures |MatchedIds(operations)| == CountMatched(operations)
  {
    if operations == [] {
      assert MatchedIds(operations) == {};
    } else {
      hide MatchedIds, NoSharedResults;
      var earlier := operations[..|operations| - 1];
      var last := operations[|operations| - 1];
      assert operations == earlier + [last];
      LastSharesNone(earlier, last);
      CountsMatchedIds(earlier);
      MatchedIdsGrow(earlier, last);
    }
  }

  ghost function IdSet(s: seq<Observation>): set<string> {
    set i | 0 <= i < |s| :: s[i].id
  }

  lemma {:induction false} CountsIds(s: seq<Observation>)
    requires DistinctIds(s)
    ensures |IdSet(s)| == |s|
  {
    if s == [] {
      assert IdSet(s) == {};
    } else {
      var earlier := s[..|s| - 1];
      CountsIds(earlier);
      assert IdSet(s) == IdSet(earlier) + {s[|s| - 1].id};
    }
  }

  /**
   * Every observation is kept or counted as a duplicate. A kept result is unmatched exactly if no request is matched to
   * it, and the counts of matched and unmatched results are the numbers of such results.
   */
  lemma EvidenceIsAccountedFor(input: Input, report: Report)
    requires Reconstructed(input) == Some(report)
    ensures report.coverage.retainedObservations + report.coverage.duplicateObservations == |input.observations|
    ensures var kept := Listing(input.observations);
      forall result :: result in kept && result.kind == KindResult ==>
        (result.id in report.unmatchedEvidenceIds <==> !exists request :: IsMatched(kept, result, request))
    ensures var kept := Listing(input.observations);
      report.coverage.unmatchedResults ==
        |set result | result in kept && result.kind == KindResult
            && result.id in report.unmatchedEvidenceIds :: result.id|
    ensures report.coverage.matchedResults == |MatchedIds(report.operations)|
  {
    hide IsMatched, IsListing, Consistent, OperationsOf, Reconstructed, OperationOf, IsUsed;
    var kept, requests := Parts(input, report);
    ListingIs(input.observations, kept);
    forall result | result in kept && result.kind == KindResult
      ensures result.id in report.unmatchedEvidenceIds <==> !exists request :: IsMatched(kept, result, request)
      ensures result.id in report.unmatchedEvidenceIds <==> !IsUsed(report.operations, result.id)
    {
      ResultIsUsed(input, report, kept, requests, result);
      UnmatchedIs(kept, report.operations, result.id);
      SortKeeps(UnmatchedIds(kept, report.operations), result.id);
    }
    forall i, j | 0 <= i < j < |report.operations| && report.operations[i].resultEvidenceId.Some?
      ensures report.operations[i].resultEvidenceId != report.operations[j].resultEvidenceId
    {
      ResultsServeOnce(input, report, i, j);
    }
    CountsMatchedIds(report.operations);
    var results := SortedKind(kept, KindResult);
    SortedKindHasNoDuplicates(input.observations, kept, KindResult);
    forall i, j | 0 <= i < j < |results| ensures results[i].id != results[j].id {
      assert results[i] in results && results[j] in results;
      KeptAreDistinct(input.observations, kept, results[i], results[j]);
    }
    CountsIds(results);
    MatchedIdsAreResults(input, report, kept, requests);
    var unmatched :=
      set result | result in kept && result.kind == KindResult && result.id in report.unmatchedEvidenceIds :: result.id;
    forall id ensures id in unmatched <==> id in IdSet(results) - MatchedIds(report.operations) {
      UnmatchedOrMatched(input, report, kept, requests, id);
    }
    assert unmatched == IdSet(results) - MatchedIds(report.operations);
    assert |IdSet(results) - MatchedIds(report.operations)| == |IdSet(results)| - |MatchedIds(report.operations)|;
  }

  lemma SortKeeps(s: seq<string>, id: string)
    ensures id in Sort(s, ByString()) <==> id in s
  {
    assert id in Sort(s, ByString()) <==> id in multiset(Sort(s, ByString()));
    assert id in s <==> id in multiset(s);
  }

  lemma MatchedIdsAreResults(input: Input, report: Report, kept: seq<Observation>, requests: seq<Observation>)
    requires IsListing(input.observations, kept) && Consistent(input.observations)
             && requests == SortedKind(kept, KindRequest)
    requires OperationsOf(kept, requests, input.source, input.sessionId) == Some(report.operations)
    ensures MatchedIds(report.operations) <= IdSet(SortedKind(kept, KindResult))
  {
    hide IsMatched, IsListing, Consistent, OperationsOf, OperationOf;
    var results := SortedKind(kept, KindResult);
    forall id | id in MatchedIds(report.operations) ensures id in IdSet(results) {
      var i :| 0 <= i < |report.operations| && report.operations[i].resultEvidenceId == Some(id);
      OperationAt(kept, requests, input.source, input.sessionId, i);
      OperationNamesItsMatch(input.observations, kept, requests[i], requests[i], input.source, input.sessionId);
      var r :| IsMatched(kept, r, requests[i]) && r.id == id;
      MatchedRequest(kept, r, requests[i]);
      assert r in results;
    }
  }

  lemma UnmatchedOrMatched(input: Input, report: Report, kept: seq<Observation>, requests: seq<Observation>, id: string)
    requires IsListing(input.observations, kept) && Consistent(input.observations)
             && requests == SortedKind(kept, KindRequest)
    requires OperationsOf(kept, requests, input.source, input.sessionId) == Some(report.operations)
    requires forall r :: r in kept && r.kind == KindResult ==>
               (r.id in report.unmatchedEvidenceIds <==> !IsUsed(report.operations, r.id))
    ensures (exists r :: r in kept && r.kind == KindResult && r.id in report.unmatchedEvidenceIds && r.id == id) <==>
            id in IdSet(SortedKind(kept, KindResult)) && id !in MatchedIds(report.operations)
  {
    hide IsListing, Consistent, OperationsOf, OperationOf, IsMatched;
    var results := SortedKind(kept, KindResult);
    if r :| r in kept && r.kind == KindResult && r.id == id {
      assert r in results;
      var k :| 0 <= k < |results| && results[k] == r;
      if id in MatchedIds(report.operations) {
        var i :| 0 <= i < |report.operations| && report.operations[i].resultEvidenceId == Some(id);
        assert Uses(report.operations[i], id);
      } else {
        ResultIsUsed(input, report, kept, requests, r);
        if request :| IsMatched(kept, r, request) {
          NamedByMatch(input, report, kept, requests, r, request);
        }
      }
    } else if k :| 0 <= k < |results| && results[k].id == id {
      assert results[k] in results;
    }
  }

  lemma NamedByMatch(input: Input, report: Report, kept: seq<Observation>, requests: seq<Observation>,
      result: Observation, request: Observation)
    requires IsListing(input.observations, kept) && Consistent(input.observations)
             && requests == SortedKind(kept, KindRequest)
    requires OperationsOf(kept, requests, input.source, input.sessionId) == Some(report.operations)
             && IsMatched(kept, result, request)
    ensures result.id in MatchedIds(report.operations)
  {
    hide IsListing, Consistent, OperationsOf, OperationOf, IsMatched;
    MatchedRequest(kept, result, request);
    assert request in requests;
    var i :| 0 <= i < |requests| && requests[i] == request;
    OperationAt(kept, requests, input.source, input.sessionId, i);
    OperationNamesItsMatch(input.observations, kept, request, result, input.source, input.sessionId);
  }

  // ---- time ----

  ghost predicate LieWithin(intervals: seq<Interval>, start: int, end: int) {
    forall i :: 0 <= i < |intervals| ==> start <= intervals[i].start && intervals[i].end <= end
  }

  lemma {:induction false} ActiveWithin(operations: seq<Operation>, start: int, end: int)
    requires forall i :: 0 <= i < |operations| ==> start <= operations[i].startedAt
    requires forall i :: 0 <= i < |operations| && operations[i].endedAt.Some? ==> operations[i].endedAt.value <= end
    ensures LieWithin(ActiveIntervals(operations), start, end)
  {
    if operations != [] {
      ActiveWithin(operations[..|operations| - 1], start, end);
    }
  }

  lemma {:induction false} WaitsWithin(input: Input, kept: seq<Observation>)
    requires AllInBounds(input, kept) && input.sourceEndedAt.Some?
    ensures LieWithin(WaitIntervals(kept), input.startedAt, input.sourceEndedAt.value)
  {
    if kept != [] {
      WaitsWithin(input, kept[..|kept| - 1]);
      assert InBounds(input, kept[|kept| - 1]);
    }
  }

  lemma OperationWithin(input: Input, kept: seq<Observation>, request: Observation)
    requires AllValid(kept) && AllInBounds(input, kept) && input.sourceEndedAt.Some? && request in kept
    requires OperationOf(kept, request, input.source, input.sessionId).Some?
    ensures var operation := OperationOf(kept, request, input.source, input.sessionId).value;
      input.startedAt <= operation.startedAt
          && (operation.endedAt.Some? ==> operation.endedAt.value <= input.sourceEndedAt.value)
  {
    var results := RelatedTo(SortedKind(kept, KindResult), request.sourceEventId);
    var operation := OperationOf(kept, request, input.source, input.sessionId).value;
    var k :| 0 <= k < |kept| && kept[k] == request;
    assert InBounds(input, kept[k]);
    if operation.endedAt.Some? {
      var result := Qualified(results, request)[0];
      assert result in Qualified(results, request);
      var r :| 0 <= r < |kept| && kept[r] == result;
      assert InBounds(input, kept[r]) && ValidObservation(result);
    }
  }

  lemma LieAndFit(intervals: seq<Interval>, start: int, end: int)
    requires start <= end && LieWithin(intervals, start, end)
    ensures |Covered(intervals)| <= end - start
  {
    CoveredFits(intervals, start, end);
  }

  /** Of a session that its source ended, neither the active nor the waiting time exceeds the elapsed time. */
  lemma NoTimeIsCountedTwice(input: Input, report: Report)
    requires Reconstructed(input) == Some(report) && input.sourceEndedAt.Some?
    ensures report.metrics.elapsedMs == Some(input.sourceEndedAt.value - input.startedAt)
            && report.metrics.elapsedMs.value >= 0
    ensures report.metrics.activeOperationMs.Some? ==>
              report.metrics.activeOperationMs.value <= report.metrics.elapsedMs.value
    ensures report.metrics.observedWaitingMs.Some? ==>
              report.metrics.observedWaitingMs.value <= report.metrics.elapsedMs.value
  {
    hide IsListing, Consistent, OperationsOf, Reconstructed, OperationOf, AllInBounds, Covered, AllValid,
         ActiveIntervals, WaitIntervals, SortedKind, UnmatchedIds, CountMatched, MissingIds, LieWithin;
    var kept, requests := Parts(input, report);
    KeptIsValid(input.observations, kept);
    forall i | 0 <= i < |report.operations|
      ensures input.startedAt <= report.operations[i].startedAt
      ensures report.operations[i].endedAt.Some? ==> report.operations[i].endedAt.value <= input.sourceEndedAt.value
    {
      OperationAt(kept, requests, input.source, input.sessionId, i);
      assert requests[i] in requests;
      OperationWithin(input, kept, requests[i]);
    }
    ActiveWithin(report.operations, input.startedAt, input.sourceEndedAt.value);
    WaitsWithin(input, kept);
    LieAndFit(ActiveIntervals(report.operations), input.startedAt, input.sourceEndedAt.value);
    LieAndFit(WaitIntervals(kept), input.startedAt, input.sourceEndedAt.value);
  }
}
