/**
 * The loops of the reconstruction (src/evidence/reconstructor.ts): the deduplication by identity and then by source
 * event, the grouping of evidence by request, and the report they lead to.
 */
module Reconstructor {
  import opened Prelude
  import opened Ordering
  import opened Intervals
  import opened Reconstruction

  // ---- the order of observations ----

  lemma ObservationsAreOrdered()
    ensures StrictOrder(ByTime())
  {
    forall a: Observation ensures !ByTime()(a, a) {
      StringIrreflexive(a.sourceEventId);
      StringIrreflexive(a.id);
    }
    forall a: Observation, b: Observation, c: Observation | ByTime()(a, b) && ByTime()(b, c) ensures ByTime()(a, c) {
      PrecedesTransitive(a, b, c);
    }
  }

  lemma PrecedesTransitive(a: Observation, b: Observation, c: Observation)
    requires Precedes(a, b) && Precedes(b, c)
    ensures Precedes(a, c)
  {
    if StringBefore(a.sourceEventId, b.sourceEventId) && StringBefore(b.sourceEventId, c.sourceEventId) {
      StringTransitive(a.sourceEventId, b.sourceEventId, c.sourceEventId);
    }
    if StringBefore(a.id, b.id) && StringBefore(b.id, c.id) {
      StringTransitive(a.id, b.id, c.id);
    }
  }

  lemma PrecedesTotal(a: Observation, b: Observation)
    requires a.id != b.id
    ensures Precedes(a, b) || Precedes(b, a)
  {
    StringTotal(a.sourceEventId, b.sourceEventId);
    StringTotal(a.id, b.id);
  }

  ghost predicate DistinctIds(s: seq<Observation>) {
    forall i, j :: 0 <= i < j < |s| ==> s[i].id != s[j].id
  }

  lemma SortedObservations(s: seq<Observation>)
    requires DistinctIds(s)
    ensures Ascending(Sort(s, ByTime()), ByTime())
    ensures forall o :: o in Sort(s, ByTime()) <==> o in s
  {
    ObservationsAreOrdered();
    forall i, j | 0 <= i < j < |s| ensures ByTime()(s[i], s[j]) || ByTime()(s[j], s[i]) {
      PrecedesTotal(s[i], s[j]);
    }
    SortAscends(s, ByTime());
    forall o ensures o in Sort(s, ByTime()) <==> o in s {
      assert o in Sort(s, ByTime()) <==> o in multiset(Sort(s, ByTime()));
    }
  }

  /** The listing is determined by what it lists. */
  lemma ListingIs(s: seq<Observation>, kept: seq<Observation>)
    requires IsListing(s, kept)
    ensures Listing(s) == kept
  {
    ObservationsAreOrdered();
    AscendingIsUnique(Listing(s), kept, ByTime());
  }

  // ---- deduplication ----

  /** The first stage: one observation of each identity, in the order of their first appearance. */
  method UniqueById(observations: seq<Observation>) returns (unique: Option<seq<Observation>>, duplicates: nat)
    ensures unique.Some? <==> AllValid(observations) && IdentitiesAgree(observations)
    ensures unique.Some? ==> DistinctIds(unique.value) && (forall o :: o in unique.value <==> o in observations)
    ensures unique.Some? ==> |unique.value| + duplicates == |observations|
  {
    var byId: map<string, Observation> := map[];
    var order: seq<Observation> := [];
    duplicates := 0;
    for i := 0 to |observations|
      invariant forall j :: 0 <= j < i ==> ValidObservation(observations[j])
      invariant forall j :: 0 <= j < i ==> observations[j].id in byId && byId[observations[j].id] == observations[j]
      invariant forall id :: id in byId ==> byId[id] in order && byId[id].id == id
      invariant forall o :: o in order ==> o.id in byId && o in observations[..i]
      invariant DistinctIds(order)
      invariant |order| + duplicates == i
    {
      var o := observations[i];
      if !ValidObservation(o) {
        return None, duplicates;
      }
      if o.id !in byId {
        byId := byId[o.id := o];
        order := order + [o];
      } else if byId[o.id] == o {
        duplicates := duplicates + 1;
      } else {
        assert byId[o.id] in observations && o in observations;
        return None, duplicates;
      }
    }
    assert observations[..|observations|] == observations;
    unique := Some(order);
  }

  /** In an ascending list, the kept observations of a prefix are those that no earlier one of their event precedes. */
  ghost predicate KeptOf(sorted: seq<Observation>, n: nat, kept: seq<Observation>)
    requires n <= |sorted|
  {
    && (forall o :: o in kept <==>
          o in sorted[..n] && forall i :: 0 <= i < n && SameEvent(o, sorted[i]) ==> !Precedes(sorted[i], o))
    && Ascending(kept, ByTime())
    && |kept| <= n
  }

  datatype EventKey = EventKey(kind: Kind, sourceEventId: string)

  /** Each of the first n observations agrees with the kept one of its event; the map holds kept ones only. */
  ghost predicate Covers(sorted: seq<Observation>, n: nat, kept: seq<Observation>, byEvent: map<EventKey, Observation>)
    requires n <= |sorted|
  {
    && (forall j :: 0 <= j < n ==>
          var key := EventKey(sorted[j].kind, sorted[j].sourceEventId);
          key in byEvent && SameEvidence(byEvent[key], sorted[j]))
    && (forall key :: key in byEvent ==>
        byEvent[key] in kept && key == EventKey(byEvent[key].kind, byEvent[key].sourceEventId))
  }

  lemma CoveredAgree(sorted: seq<Observation>, kept: seq<Observation>, byEvent: map<EventKey, Observation>)
    requires Covers(sorted, |sorted|, kept, byEvent)
    ensures EventsAgree(sorted)
  {
  }

  lemma KeptIsSorted(sorted: seq<Observation>, n: nat, kept: seq<Observation>, o: Observation)
    requires n <= |sorted| && KeptOf(sorted, n, kept) && o in kept
    ensures o in sorted
  {
  }

  /** The second stage: one observation of each source event, in order. */
  method UniqueByEvent(sorted: seq<Observation>) returns (unique: Option<seq<Observation>>, duplicates: nat)
    requires Ascending(sorted, ByTime())
    ensures unique.Some? <==> EventsAgree(sorted)
    ensures unique.Some? ==> KeptOf(sorted, |sorted|, unique.value) && |unique.value| + duplicates == |sorted|
  {
    ObservationsAreOrdered();
    hide KeptOf, StrictOrder, Ascending, EventsAgree, SameEvidence;
    var byEvent: map<EventKey, Observation> := map[];
    var kept: seq<Observation> := [];
    duplicates := 0;
    NothingIsKept(sorted);
    for i := 0 to |sorted|
      invariant KeptOf(sorted, i, kept) && Covers(sorted, i, kept, byEvent)
      invariant |kept| + duplicates == i
    {
      var o := sorted[i];
      var key := EventKey(o.kind, o.sourceEventId);
      if key !in byEvent {
        KeepsFirst(sorted, i, kept);
        AgreesWithItself(o);
        byEvent := byEvent[key := o];
        kept := kept + [o];
      } else if SameEvidence(byEvent[key], o) {
        SkipsLater(sorted, i, kept, byEvent[key]);
        duplicates := duplicates + 1;
      } else {
        KeptIsSorted(sorted, i, kept, byEvent[key]);
        Disagree(sorted, byEvent[key], o);
        return None, duplicates;
      }
    }
    CoveredAgree(sorted, kept, byEvent);
    unique := Some(kept);
  }

  lemma NothingIsKept(sorted: seq<Observation>)
    ensures KeptOf(sorted, 0, [])
  {
  }

  lemma AgreesWithItself(o: Observation)
    ensures SameEvidence(o, o)
  {
  }

  lemma Disagree(s: seq<Observation>, a: Observation, b: Observation)
    requires a in s && b in s && SameEvent(a, b) && !SameEvidence(a, b)
    ensures !EventsAgree(s)
  {
  }

  lemma KeepsFirst(sorted: seq<Observation>, n: nat, kept: seq<Observation>)
    requires Ascending(sorted, ByTime()) && StrictOrder(ByTime()) && n < |sorted| && KeptOf(sorted, n, kept)
    requires forall i :: 0 <= i < n ==> !SameEvent(sorted[n], sorted[i])
    ensures KeptOf(sorted, n + 1, kept + [sorted[n]])
  {
    var after := kept + [sorted[n]];
    assert forall i :: 0 <= i < n ==> sorted[..n + 1][i] == sorted[i] && ByTime()(sorted[i], sorted[n]);
    assert sorted[..n + 1] == sorted[..n] + [sorted[n]];
    forall o
      ensures o in after <==>
              o in sorted[..n + 1] && forall i :: 0 <= i < n + 1 && SameEvent(o, sorted[i]) ==> !Precedes(sorted[i], o)
    {
      if o in sorted[..n] {
        assert !ByTime()(sorted[n], o);
      } else if o == sorted[n] {
        assert !ByTime()(o, o);
      }
    }
    forall k | 0 <= k < |kept| ensures ByTime()(kept[k], sorted[n]) {
      assert kept[k] in sorted[..n];
    }
  }

  lemma SkipsLater(sorted: seq<Observation>, n: nat, kept: seq<Observation>, first: Observation)
    requires Ascending(sorted, ByTime()) && StrictOrder(ByTime()) && n < |sorted| && KeptOf(sorted, n, kept)
    requires first in kept && SameEvent(first, sorted[n])
    ensures KeptOf(sorted, n + 1, kept)
  {
    assert first in sorted[..n];
    var at :| 0 <= at < n && sorted[at] == first;
    assert ByTime()(sorted[at], sorted[n]);
    assert sorted[..n + 1] == sorted[..n] + [sorted[n]];
    forall o
      ensures o in kept <==>
              o in sorted[..n + 1] && forall i :: 0 <= i < n + 1 && SameEvent(o, sorted[i]) ==> !Precedes(sorted[i], o)
    {
      if o in sorted[..n] {
        var j :| 0 <= j < n && sorted[j] == o;
        assert ByTime()(sorted[j], sorted[n]);
        assert !ByTime()(sorted[n], o);
      } else if o == sorted[n] {
        assert SameEvent(o, sorted[at]);
      }
    }
  }

  /** Both stages: accepted exactly if equal identities and equal events agree; what is kept is the listing. */
  method UniqueObservations(observations: seq<Observation>) returns (kept: Option<seq<Observation>>, duplicates: nat)
    ensures kept.Some? <==> Consistent(observations)
    ensures kept.Some? ==> IsListing(observations, kept.value) && |kept.value| + duplicates == |observations|
  {
    var unique, same := UniqueById(observations);
    if unique.None? {
      return None, 0;
    }
    SortedObservations(unique.value);
    var sorted := Sort(unique.value, ByTime());
    assert |sorted| == |multiset(sorted)| == |unique.value|;
    assert EventsAgree(sorted) <==> EventsAgree(observations);
    var late;
    kept, late := UniqueByEvent(sorted);
    duplicates := same + late;
    if kept.Some? {
      assert sorted[..|sorted|] == sorted;
      forall o ensures o in kept.value <==> IsFirst(observations, o) {
        assert forall i :: 0 <= i < |sorted| ==> sorted[i] in sorted;
      }
    }
  }

  // ---- operations ----

  method GroupByRelatedRequest(values: seq<Observation>) returns (grouped: map<string, seq<Observation>>)
    requires forall v :: v in values ==> v.relatedEventId.Some?
    ensures forall id :: (if id in grouped then grouped[id] else []) == RelatedTo(values, id)
  {
    grouped := map[];
    for i := 0 to |values|
      invariant forall id :: (if id in grouped then grouped[id] else []) == RelatedTo(values[..i], id)
    {
      assert values[..i + 1][..i] == values[..i];
      assert values[i] in values;
      var related := values[i].relatedEventId.value;
      var entries := if related in grouped then grouped[related] else [];
      grouped := grouped[related := entries + [values[i]]];
    }
    assert values[..|values|] == values;
  }

  /** Builds the operations request by request, remembering what evidence they use. */
  method BuildOperations(kept: seq<Observation>, source: string,
      sessionId: string) returns (operations: Option<seq<Operation>>, used: set<string>)
    requires AllValid(kept)
    ensures operations == OperationsOf(kept, SortedKind(kept, KindRequest), source, sessionId)
    ensures operations.Some? ==> forall id :: id in used <==> IsUsed(operations.value, id)
  {
    hide IsUsed, OperationFrom, SortedKind, RelatedTo;
    var requests := SortedKind(kept, KindRequest);
    var results := GroupByRelatedRequest(SortedKind(kept, KindResult));
    var verifications := GroupByRelatedRequest(SortedKind(kept, KindVerification));
    var built: seq<Operation> := [];
    used := {};
    NothingIsUsed();
    for i := 0 to |requests|
      invariant OperationsOf(kept, requests[..i], source, sessionId) == Some(built)
      invariant forall id :: id in used <==> IsUsed(built, id)
    {
      assert requests[..i + 1][..i] == requests[..i];
      var id := requests[i].sourceEventId;
      var next := OperationFrom(requests[i], if id in results then results[id] else [],
            if id in verifications then verifications[id] else [], source, sessionId);
      assert next == OperationOf(kept, requests[i], source, sessionId);
      if next.None? {
        OneMissing(kept, requests, source, sessionId, i);
        return None, used;
      }
      var mine := next.value.verificationEvidenceIds;
      used := used + (set v | v in mine)
              + (if next.value.resultEvidenceId.Some? then {next.value.resultEvidenceId.value} else {});
      UsedGrows(built, next.value);
      built := built + [next.value];
    }
    assert requests[..|requests|] == requests;
    operations := Some(built);
  }

  lemma NothingIsUsed()
    ensures forall id :: !IsUsed([], id)
  {
  }

  lemma UsedGrows(operations: seq<Operation>, next: Operation)
    ensures forall id :: IsUsed(operations + [next], id) <==> IsUsed(operations, id) || Uses(next, id)
  {
    var after := operations + [next];
    forall id ensures IsUsed(after, id) <==> IsUsed(operations, id) || Uses(next, id) {
      if i :| 0 <= i < |operations| && Uses(operations[i], id) {
        assert after[i] == operations[i];
      }
      if Uses(next, id) {
        assert after[|operations|] == next;
      }
    }
  }

  lemma {:induction false} OneMissing(kept: seq<Observation>, requests: seq<Observation>, source: string,
      sessionId: string, i: nat)
    requires i < |requests| && OperationOf(kept, requests[i], source, sessionId).None?
    ensures OperationsOf(kept, requests, source, sessionId).None?
  {
    if i < |requests| - 1 {
      OneMissing(kept, requests[..|requests| - 1], source, sessionId, i);
    }
  }

  method UnmatchedEvidence(kept: seq<Observation>, used: set<string>,
      ghost operations: seq<Operation>) returns (ids: seq<string>)
    requires forall id :: id in used <==> IsUsed(operations, id)
    ensures ids == Sort(UnmatchedIds(kept, operations), ByString())
  {
    ids := [];
    for i := 0 to |kept|
      invariant ids == UnmatchedIds(kept[..i], operations)
    {
      assert kept[..i + 1][..i] == kept[..i];
      if (kept[i].kind == KindResult || kept[i].kind == KindVerification) && kept[i].id !in used {
        ids := ids + [kept[i].id];
      }
    }
    assert kept[..|kept|] == kept;
    ids := Sort(ids, ByString());
  }

  lemma {:induction false} ActiveIntervalsRunForward(kept: seq<Observation>, requests: seq<Observation>,
      source: string, sessionId: string)
    requires OperationsOf(kept, requests, source, sessionId).Some?
    ensures RunForward(ActiveIntervals(OperationsOf(kept, requests, source, sessionId).value))
  {
    if requests != [] {
      var all := OperationsOf(kept, requests, source, sessionId).value;
      assert all[..|all| - 1] == OperationsOf(kept, requests[..|requests| - 1], source, sessionId).value;
      assert all[|all| - 1] == OperationOf(kept, requests[|requests| - 1], source, sessionId).value;
      ActiveIntervalsRunForward(kept, requests[..|requests| - 1], source, sessionId);
    }
  }

  lemma {:induction false} WaitIntervalsRunForward(kept: seq<Observation>)
    requires AllValid(kept)
    ensures RunForward(WaitIntervals(kept))
  {
    if kept != [] {
      assert forall o :: o in kept[..|kept| - 1] ==> o in kept;
      assert kept[|kept| - 1] in kept;
      WaitIntervalsRunForward(kept[..|kept| - 1]);
      assert ValidObservation(kept[|kept| - 1]);
    }
  }

  method MeasureSession(input: Input, operations: seq<Operation>, kept: seq<Observation>) returns (metrics: Metrics)
    requires AllValid(kept)
    requires OperationsOf(kept, SortedKind(kept, KindRequest), input.source, input.sessionId) == Some(operations)
    ensures metrics == MetricsOf(input, operations, kept)
  {
    hide Covered, ActiveIntervals, WaitIntervals, OperationsOf, RunForward;
    ActiveIntervalsRunForward(kept, SortedKind(kept, KindRequest), input.source, input.sessionId);
    WaitIntervalsRunForward(kept);
    var activeMs := UnionDuration(ActiveIntervals(operations));
    var waits := WaitIntervals(kept);
    var waitMs := UnionDuration(waits);
    metrics := Metrics(
      if input.sourceEndedAt.Some? then Some(input.sourceEndedAt.value - input.startedAt) else None,
      if exists o :: o in operations && o.durationMs.Some? then Some(activeMs) else None,
      if waits == [] then None else Some(waitMs));
  }

  /** The whole reconstruction computes the report that the set of observations determines. */
  method Reconstruct(input: Input) returns (report: Option<Report>)
    ensures report == Reconstructed(input)
  {
    hide IsListing, Consistent, OperationsOf, MetricsOf, IsUsed, SortedKind, UnmatchedIds, MissingIds, CountMatched,
         LifecycleOf, ValidInput, InBounds, AllValid, Listing, Sort;
    if !ValidInput(input) {
      return None;
    }
    var kept, duplicates := UniqueObservations(input.observations);
    if kept.None? {
      return None;
    }
    ListingIs(input.observations, kept.value);
    KeptIsValid(input.observations, kept.value);
    if !AllInBounds(input, kept.value) {
      return None;
    }
    var operations, used := BuildOperations(kept.value, input.source, input.sessionId);
    if operations.None? {
      return None;
    }
    var unmatched := UnmatchedEvidence(kept.value, used, operations.value);
    var metrics := MeasureSession(input, operations.value, kept.value);
    var matched := CountMatched(operations.value);
    report := Some(Report(
      input.source, input.sessionId, LifecycleOf(input), operations.value, unmatched, metrics,
      Coverage(|kept.value|, duplicates, matched, |SortedKind(kept.value, KindResult)| - matched,
               |operations.value| - matched, Sort(MissingIds(operations.value), ByString()))));
  }

  lemma KeptIsValid(s: seq<Observation>, kept: seq<Observation>)
    requires IsListing(s, kept) && Consistent(s)
    ensures AllValid(kept)
  {
    assert forall o :: o in kept ==> IsFirst(s, o);
  }
}
