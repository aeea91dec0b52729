/**
 * What every log that the usage store can reach promises (src/advice/usage.ts): reading the log in order says no more
 * and no less than which kinds of facts it holds, and every deterministic outcome follows the operation it checks.
 */
module AdviceRuns {
  import opened Prelude
  import opened AdviceUsage

  datatype Call =
    | Retrieve(bundle: BundleId, ref: string, now: int)
    | Note(bundle: BundleId, scope: Scope, kind: Kind, origin: Origin, ref: string, now: int)
    | Deliver(bundle: BundleId, scope: Scope, ref: string, now: int)
    | Check(scope: Scope, outcome: Outcome, now: int)

  function After(log: Log, call: Call): Log {
    match call
    case Retrieve(bundle, ref, now) => AfterRetrieval(log, bundle, ref, now)
    case Note(bundle, scope, kind, origin, ref, now) =>
      if origin == HostChallenge || origin == DeterministicCheck then log
      else AfterFact(log, bundle, scope, kind, origin, ref, now, None)
    case Deliver(bundle, scope, ref, now) => AfterFact(log, bundle, scope, Delivered, HostChallenge, ref, now, None)
    case Check(scope, outcome, now) =>
      AfterFact(log, outcome.bundle, scope, OutcomeObserved, DeterministicCheck, outcome.witnessRef, now, Some(outcome))
  }

  function AfterCalls(calls: seq<Call>): Log {
    if calls == [] then Log(map[], [], map[]) else After(AfterCalls(calls[..|calls| - 1]), calls[|calls| - 1])
  }

  predicate Has(rows: seq<Fact>, kind: Kind) {
    exists i :: 0 <= i < |rows| && rows[i].kind == kind
  }

  /** What must be in a log before a fact of this kind. */
  predicate Before(rows: seq<Fact>, kind: Kind) {
    match kind
    case Retrieved => rows == []
    case Selected => Has(rows, Delivered)
    case Applied => Has(rows, Selected)
    case OutcomeObserved => Has(rows, Applied)
    case _ => rows != []
  }

  predicate GoodFact(fact: Fact) {
    if fact.kind == Retrieved then fact.origin == CliRetrieval else AllowedOrigin(fact.kind, fact.origin)
  }

  /** A bundle is retrieved first and once; every other fact has its prerequisite before it. */
  ghost predicate Climbs(rows: seq<Fact>) {
    forall i :: 0 <= i < |rows| ==> GoodFact(rows[i]) && Before(rows[..i], rows[i].kind)
  }

  /** The stage that the kinds of facts alone say. */
  function StageByMembership(rows: seq<Fact>): nat {
    if Has(rows, Applied) then 4 else if Has(rows, Selected) then 3 else if Has(rows, Delivered) then 2
    else if rows != [] then 1 else 0
  }

  function AppliedRefs(rows: seq<Fact>): seq<string> {
    if rows == [] then [] else
      AppliedRefs(rows[..|rows| - 1]) + if rows[|rows| - 1].kind == Applied then [rows[|rows| - 1].witnessRef] else []
  }

  function FirstSelectedAt(rows: seq<Fact>): Option<int> {
    if rows == [] then None
    else if FirstSelectedAt(rows[..|rows| - 1]).Some? then FirstSelectedAt(rows[..|rows| - 1])
    else if rows[|rows| - 1].kind == Selected then Some(rows[|rows| - 1].recordedAt) else None
  }

  lemma HasGrows(rows: seq<Fact>, last: Fact, kind: Kind)
    ensures Has(rows + [last], kind) <==> Has(rows, kind) || last.kind == kind
  {
    var more := rows + [last];
    if i :| 0 <= i < |rows| && rows[i].kind == kind {
      assert more[i].kind == kind;
    }
    assert more[|rows|] == last;
  }

  lemma {:induction false} SelectedIsFound(rows: seq<Fact>)
    ensures FirstSelectedAt(rows).Some? <==> Has(rows, Selected)
  {
    if rows != [] {
      SelectedIsFound(rows[..|rows| - 1]);
      assert rows == rows[..|rows| - 1] + [rows[|rows| - 1]];
      HasGrows(rows[..|rows| - 1], rows[|rows| - 1], Selected);
    }
  }

  lemma ClimbsBefore(rows: seq<Fact>)
    requires Climbs(rows) && rows != []
    ensures Climbs(rows[..|rows| - 1]) && GoodFact(rows[|rows| - 1])
            && Before(rows[..|rows| - 1], rows[|rows| - 1].kind)
  {
    var earlier := rows[..|rows| - 1];
    forall i | 0 <= i < |earlier| ensures GoodFact(earlier[i]) && Before(earlier[..i], earlier[i].kind) {
      assert earlier[..i] == rows[..i];
    }
  }

  function StageOf(some: bool, delivered: bool, selected: bool, applied: bool): nat {
    if applied then 4 else if selected then 3 else if delivered then 2 else if some then 1 else 0
  }

  lemma OneMoreRow(rows: seq<Fact>)
    requires rows != []
    ensures var earlier, last := rows[..|rows| - 1], rows[|rows| - 1];
      && ProgressOf(rows) == Advanced(ProgressOf(earlier), last)
      && FirstSelectedAt(rows) ==
         (if FirstSelectedAt(earlier).Some? then FirstSelectedAt(earlier)
          else if last.kind.Selected? then Some(last.recordedAt) else None)
      && AppliedRefs(rows) == AppliedRefs(earlier) + if last.kind.Applied? then [last.witnessRef] else []
  {
  }

  /** One step of the fold, told by which kinds of facts came before. */
  lemma FoldStep(p: Progress, last: Fact, some: bool, delivered: bool, selected: bool, applied: bool)
    requires (applied ==> selected) && (selected ==> delivered) && (delivered ==> some) && GoodFact(last)
    requires last.kind.Retrieved? <==> !some
    requires last.kind.Selected? ==> delivered
    requires last.kind.Applied? ==> selected
    requires p.stage == StageOf(some, delivered, selected, applied) && (p.selectedAt.Some? <==> selected)
    ensures Advanced(p, last) ==
            Progress(StageOf(true, delivered || last.kind.Delivered?, selected || last.kind.Selected?,
                             applied || last.kind.Applied?),
                     if p.selectedAt.Some? then p.selectedAt
                     else if last.kind.Selected? then Some(last.recordedAt) else None,
                     p.appliedRefs + if last.kind.Applied? then [last.witnessRef] else [])
  {
  }

  /** On a climbing log the ordered fold is plain membership, and the references are all the applied ones in order. */
  lemma {:induction false} FoldIsMembership(rows: seq<Fact>)
    requires Climbs(rows)
    ensures ProgressOf(rows) == Progress(StageByMembership(rows), FirstSelectedAt(rows), AppliedRefs(rows))
    ensures Has(rows, Applied) ==> Has(rows, Selected)
    ensures Has(rows, Selected) ==> Has(rows, Delivered)
    ensures Has(rows, Delivered) ==> rows != []
  {
    if rows != [] {
      hide Has, Climbs, Advanced, GoodFact, ProgressOf, FirstSelectedAt, AppliedRefs;
      var earlier := rows[..|rows| - 1];
      var last := rows[|rows| - 1];
      OneMoreRow(rows);
      ClimbsBefore(rows);
      FoldIsMembership(earlier);
      assert rows == earlier + [last];
      HasGrows(earlier, last, Delivered);
      HasGrows(earlier, last, Selected);
      HasGrows(earlier, last, Applied);
      SelectedIsFound(earlier);
      FoldStep(ProgressOf(earlier), last, earlier != [], Has(earlier, Delivered), Has(earlier, Selected),
               Has(earlier, Applied));
    }
  }

  lemma {:induction false} AppliedRefsAre(rows: seq<Fact>, ref: string)
    ensures ref in AppliedRefs(rows) <==>
              exists i :: 0 <= i < |rows| && rows[i].kind == Applied && rows[i].witnessRef == ref
  {
    if rows != [] {
      AppliedRefsAre(rows[..|rows| - 1], ref);
      assert forall i :: 0 <= i < |rows| - 1 ==> rows[i] == rows[..|rows| - 1][i];
    }
  }

  // ---- the invariant ----

  /** The outcome's own fact is in the log of its bundle, after an applied fact that it names. */
  ghost predicate OutcomeFollows(rows: seq<Fact>, outcome: Outcome) {
    exists i, j :: 0 <= i < j < |rows| && rows[i].kind == Applied && rows[i].witnessRef == outcome.appliedEventId
          && IsFactOf(rows[j], outcome)
  }

  predicate IsFactOf(fact: Fact, outcome: Outcome) {
    fact.kind == OutcomeObserved && fact.origin == DeterministicCheck && fact.witnessRef == outcome.witnessRef
  }

  predicate IsCheck(fact: Fact, ref: string) {
    fact.origin == DeterministicCheck && fact.witnessRef == ref
  }

  /** The outcome succeeded and follows an applied fact of its bundle. */
  ghost predicate IsBacked(log: Log, ref: string)
    requires ref in log.outcomes
  {
    var outcome := log.outcomes[ref];
    outcome.witnessRef == ref && outcome.succeeded && OutcomeFollows(FactsOf(log.facts, outcome.bundle), outcome)
  }

  ghost predicate Invariant(log: Log) {
    && (forall bundle :: Climbs(FactsOf(log.facts, bundle)))
    && (forall bundle :: bundle in log.bundles <==> FactsOf(log.facts, bundle) != [])
    && (forall ref :: ref in log.outcomes ==> IsBacked(log, ref))
    && (forall i :: 0 <= i < |log.facts| && log.facts[i].origin == DeterministicCheck ==>
        log.facts[i].witnessRef in log.outcomes)
  }

  lemma OneMoreFact(facts: seq<Fact>, fact: Fact, bundle: BundleId)
    ensures FactsOf(facts + [fact], bundle) ==
            if fact.bundle == bundle then FactsOf(facts, bundle) + [fact] else FactsOf(facts, bundle)
  {
    assert (facts + [fact])[..|facts|] == facts;
  }

  lemma ClimbsOn(rows: seq<Fact>, fact: Fact)
    requires Climbs(rows) && GoodFact(fact) && Before(rows, fact.kind)
    ensures Climbs(rows + [fact])
  {
    var more := rows + [fact];
    forall i | 0 <= i < |more| ensures GoodFact(more[i]) && Before(more[..i], more[i].kind) {
      assert more[..i] == if i < |rows| then rows[..i] else rows;
    }
  }

  lemma OutcomeStays(rows: seq<Fact>, fact: Fact, outcome: Outcome)
    requires OutcomeFollows(rows, outcome)
    ensures OutcomeFollows(rows + [fact], outcome)
  {
    var i, j :| 0 <= i < j < |rows| && rows[i].kind == Applied && rows[i].witnessRef == outcome.appliedEventId
          && IsFactOf(rows[j], outcome);
    var more := rows + [fact];
    assert more[i] == rows[i] && more[j] == rows[j];
  }

  lemma {:induction false} FactsOfAre(facts: seq<Fact>, bundle: BundleId)
    ensures forall f :: f in FactsOf(facts, bundle) <==> f in facts && f.bundle == bundle
  {
    if facts != [] {
      FactsOfAre(facts[..|facts| - 1], bundle);
      assert facts == facts[..|facts| - 1] + [facts[|facts| - 1]];
    }
  }

  /** An accepted fact has its prerequisite in the log. */
  lemma StageIsPrerequisite(log: Log, bundle: BundleId, kind: Kind)
    requires Invariant(log) && kind != Retrieved && ProgressOf(FactsOf(log.facts, bundle)).stage >= RequiredStage(kind)
    ensures Before(FactsOf(log.facts, bundle), kind)
  {
    FoldIsMembership(FactsOf(log.facts, bundle));
  }

  lemma NewFactKeepsClimbing(log: Log, fact: Fact, bundle: BundleId)
    requires Invariant(log) && GoodFact(fact) && Before(FactsOf(log.facts, fact.bundle), fact.kind)
    ensures Climbs(FactsOf(log.facts + [fact], bundle))
  {
    OneMoreFact(log.facts, fact, bundle);
    if fact.bundle == bundle {
      ClimbsOn(FactsOf(log.facts, bundle), fact);
    }
  }

  lemma RetrieveKeeps(log: Log, bundle: BundleId, ref: string, now: int)
    requires Invariant(log)
    ensures Invariant(AfterRetrieval(log, bundle, ref, now))
  {
    hide Climbs, OutcomeFollows;
    var fact := Fact(bundle, Retrieved, CliRetrieval, ref, now);
    FactsOfAre(log.facts, bundle);
    var rows := FactsOf(log.facts, bundle);
    if rows == [] {
      assert WithFact(log.facts, fact) == log.facts + [fact] by {
        forall i | 0 <= i < |log.facts| ensures log.facts[i].bundle != bundle {
          assert log.facts[i] in log.facts && log.facts[i] !in rows;
        }
      }
      AppendKeeps(log, AfterRetrieval(log, bundle, ref, now), fact);
    } else {
      FirstIsRetrieved(rows);
      assert rows[0] in rows;
      var i :| 0 <= i < |log.facts| && log.facts[i] == rows[0];
      assert WithFact(log.facts, fact) == log.facts;
    }
  }

  lemma FirstIsRetrieved(rows: seq<Fact>)
    requires Climbs(rows) && rows != []
    ensures rows[0].kind == Retrieved
  {
    assert Before(rows[..0], rows[0].kind);
    assert rows[..0] == [];
  }

  /** Appending a fact whose prerequisite is there, with no new outcome. */
  lemma AppendKeeps(log: Log, after: Log, fact: Fact)
    requires Invariant(log) && GoodFact(fact) && Before(FactsOf(log.facts, fact.bundle), fact.kind)
    requires after.facts == log.facts + [fact] && after.outcomes == log.outcomes
    requires after.bundles.Keys == log.bundles.Keys + {fact.bundle}
    requires fact.origin == DeterministicCheck ==> fact.witnessRef in log.outcomes
    ensures Invariant(after)
  {
    hide Climbs, OutcomeFollows;
    forall bundle
      ensures Climbs(FactsOf(after.facts, bundle)) && (bundle in after.bundles <==> FactsOf(after.facts, bundle) != [])
    {
      NewFactKeepsClimbing(log, fact, bundle);
      OneMoreFact(log.facts, fact, bundle);
    }
    forall ref | ref in after.outcomes ensures IsBacked(after, ref) {
      assert IsBacked(log, ref);
      var outcome := log.outcomes[ref];
      OneMoreFact(log.facts, fact, outcome.bundle);
      if fact.bundle == outcome.bundle {
        OutcomeStays(FactsOf(log.facts, outcome.bundle), fact, outcome);
      }
    }
  }

  lemma NewCheckIsNewFact(log: Log, outcome: Outcome, now: int)
    requires Invariant(log) && outcome.witnessRef !in log.outcomes
    ensures var fact := Fact(outcome.bundle, OutcomeObserved, DeterministicCheck, outcome.witnessRef, now);
      WithFact(log.facts, fact) == log.facts + [fact]
  {
    hide Climbs, OutcomeFollows;
  }

  lemma NewOutcomeFollows(rows: seq<Fact>, outcome: Outcome, fact: Fact)
    requires Climbs(rows) && outcome.appliedEventId in ProgressOf(rows).appliedRefs && IsFactOf(fact, outcome)
    ensures OutcomeFollows(rows + [fact], outcome) && Before(rows, OutcomeObserved)
  {
    FoldIsMembership(rows);
    AppliedRefsAre(rows, outcome.appliedEventId);
    var i :| 0 <= i < |rows| && rows[i].kind == Applied && rows[i].witnessRef == outcome.appliedEventId;
    assert (rows + [fact])[i] == rows[i] && (rows + [fact])[|rows|] == fact;
  }

  lemma NewOutcomeKeeps(log: Log, outcome: Outcome, now: int)
    requires Invariant(log) && outcome.witnessRef !in log.outcomes && outcome.succeeded && outcome.bundle in log.bundles
    requires outcome.appliedEventId in ProgressOf(FactsOf(log.facts, outcome.bundle)).appliedRefs
    ensures var fact := Fact(outcome.bundle, OutcomeObserved, DeterministicCheck, outcome.witnessRef, now);
      Invariant(log.(facts := log.facts + [fact], outcomes := log.outcomes[outcome.witnessRef := outcome]))
  {
    hide Climbs, OutcomeFollows, ProgressOf, Before;
    var fact := Fact(outcome.bundle, OutcomeObserved, DeterministicCheck, outcome.witnessRef, now);
    var after := log.(facts := log.facts + [fact], outcomes := log.outcomes[outcome.witnessRef := outcome]);
    NewOutcomeFollows(FactsOf(log.facts, outcome.bundle), outcome, fact);
    OneMoreFact(log.facts, fact, outcome.bundle);
    forall bundle
      ensures Climbs(FactsOf(after.facts, bundle)) && (bundle in after.bundles <==> FactsOf(after.facts, bundle) != [])
    {
      NewFactKeepsClimbing(log, fact, bundle);
      OneMoreFact(log.facts, fact, bundle);
    }
    forall ref | ref in after.outcomes ensures IsBacked(after, ref) {
      if ref != outcome.witnessRef {
        assert IsBacked(log, ref);
        OneMoreFact(log.facts, fact, log.outcomes[ref].bundle);
        if fact.bundle == log.outcomes[ref].bundle {
          OutcomeStays(FactsOf(log.facts, log.outcomes[ref].bundle), fact, log.outcomes[ref]);
        }
      }
    }
  }

  lemma FactKeeps(log: Log, bundle: BundleId, scope: Scope, kind: Kind, origin: Origin, ref: string, now: int,
      outcome: Option<Outcome>)
    requires Invariant(log)
    requires outcome.Some? ==>
               outcome.value.witnessRef == ref && kind == OutcomeObserved && origin == DeterministicCheck
    ensures Invariant(AfterFact(log, bundle, scope, kind, origin, ref, now, outcome))
  {
    hide Climbs, OutcomeFollows, IsVersionedRef, Invariant;
    if MayRecord(log, bundle, scope, kind, origin, ref, outcome) {
      StageIsPrerequisite(log, bundle, kind);
      var fact := Fact(bundle, kind, origin, ref, now);
      if outcome.Some? && ref !in log.outcomes {
        NewCheckIsNewFact(log, outcome.value, now);
        NewOutcomeKeeps(log, outcome.value, now);
      } else if WithFact(log.facts, fact) != log.facts {
        AppendKeeps(log, AfterFact(log, bundle, scope, kind, origin, ref, now, outcome), fact);
      }
    }
  }

  lemma CallKeeps(log: Log, call: Call)
    requires Invariant(log)
    ensures Invariant(After(log, call))
  {
    hide Invariant;
    match call
    case Retrieve(bundle, ref, now) => RetrieveKeeps(log, bundle, ref, now);
    case Note(bundle, scope, kind, origin, ref, now) => FactKeeps(log, bundle, scope, kind, origin, ref, now, None);
    case Deliver(bundle, scope, ref, now) => FactKeeps(log, bundle, scope, Delivered, HostChallenge, ref, now, None);
    case Check(scope, outcome, now) =>
      FactKeeps(log, outcome.bundle, scope, OutcomeObserved, DeterministicCheck, outcome.witnessRef, now,
                Some(outcome));
  }

  lemma {:induction false} RunsKeepInvariant(calls: seq<Call>)
    ensures Invariant(AfterCalls(calls))
  {
    hide After;
    if calls != [] {
      RunsKeepInvariant(calls[..|calls| - 1]);
      CallKeeps(AfterCalls(calls[..|calls| - 1]), calls[|calls| - 1]);
    }
  }

  // ---- consequences ----

  /** On every reachable log the ordered fold agrees with membership, and it lists every applied reference in order. */
  lemma StageIsMembership(calls: seq<Call>, bundle: BundleId)
    ensures var rows := FactsOf(AfterCalls(calls).facts, bundle);
      && ProgressOf(rows) == Progress(StageByMembership(rows), FirstSelectedAt(rows), AppliedRefs(rows))
      && (bundle in AfterCalls(calls).bundles <==> rows != [])
      && (rows != [] ==> rows[0].kind == Retrieved && forall i :: 0 < i < |rows| ==> rows[i].kind != Retrieved)
  {
    hide AfterCalls;
    RunsKeepInvariant(calls);
    var rows := FactsOf(AfterCalls(calls).facts, bundle);
    assert Climbs(rows);
    FoldIsMembership(rows);
    if rows != [] {
      FirstIsRetrieved(rows);
      assert forall i :: 0 < i < |rows| ==> Before(rows[..i], rows[i].kind) && rows[..i] != [];
    }
  }

  /** Every deterministic check in a log has its outcome; every outcome names an applied fact before its own fact. */
  lemma OutcomesNameAppliedFacts(calls: seq<Call>, ref: string)
    ensures var log := AfterCalls(calls);
      && (ref in log.outcomes ==> IsBacked(log, ref))
      && (forall i :: 0 <= i < |log.facts| && IsCheck(log.facts[i], ref) ==> ref in log.outcomes)
  {
    hide IsBacked;
    RunsKeepInvariant(calls);
  }

  lemma {:induction false} FoldNeverFalls(rows: seq<Fact>, n: nat)
    requires n <= |rows|
    ensures ProgressOf(rows[..n]).stage <= ProgressOf(rows).stage <= 4
            && ProgressOf(rows[..n]).appliedRefs <= ProgressOf(rows).appliedRefs
  {
    if n < |rows| {
      var earlier := rows[..|rows| - 1];
      assert earlier[..n] == rows[..n];
      FoldNeverFalls(earlier, n);
      var refs := ProgressOf(rows).appliedRefs;
      assert refs[..|ProgressOf(earlier).appliedRefs|] == ProgressOf(earlier).appliedRefs;
    } else {
      assert rows[..n] == rows;
      if rows != [] {
        FoldNeverFalls(rows[..n - 1], n - 1);
      }
    }
  }

  lemma {:induction false} FactsGrow(facts: seq<Fact>, more: seq<Fact>, bundle: BundleId)
    requires facts <= more
    ensures FactsOf(facts, bundle) <= FactsOf(more, bundle)
  {
    if |facts| < |more| {
      FactsGrow(facts, more[..|more| - 1], bundle);
    } else {
      assert facts == more;
    }
  }

  lemma CallAppends(log: Log, call: Call)
    ensures log.facts <= After(log, call).facts
  {
  }

  lemma {:induction false} CallsAppend(calls: seq<Call>, n: nat)
    requires n <= |calls|
    ensures AfterCalls(calls[..n]).facts <= AfterCalls(calls).facts
  {
    hide After;
    if n == |calls| {
      assert calls[..n] == calls;
    } else {
      assert calls[..|calls| - 1][..n] == calls[..n];
      CallsAppend(calls[..|calls| - 1], n);
      CallAppends(AfterCalls(calls[..|calls| - 1]), calls[|calls| - 1]);
    }
  }

  /** Along every run the stage of a bundle never falls, and no applied reference is lost or reordered. */
  lemma StageNeverFalls(calls: seq<Call>, n: nat, bundle: BundleId)
    requires n <= |calls|
    ensures var before := ProgressOf(FactsOf(AfterCalls(calls[..n]).facts, bundle));
      var after := ProgressOf(FactsOf(AfterCalls(calls).facts, bundle));
      before.stage <= after.stage && before.appliedRefs <= after.appliedRefs
  {
    CallsAppend(calls, n);
    var earlier := AfterCalls(calls[..n]).facts;
    FactsGrow(earlier, AfterCalls(calls).facts, bundle);
    var rows := FactsOf(AfterCalls(calls).facts, bundle);
    var before := FactsOf(earlier, bundle);
    assert rows[..|before|] == before;
    FoldNeverFalls(rows, |before|);
  }

  // ---- when a fact is recorded ----

  /** The log holds a fact of this kind about the bundle. */
  ghost predicate Holds(log: Log, bundle: BundleId, kind: Kind) {
    exists fact :: fact in log.facts && fact.bundle == bundle && fact.kind == kind
  }

  /** Who may say so, and after what. */
  ghost predicate IsTold(log: Log, bundle: BundleId, kind: Kind, origin: Origin) {
    match kind
    case Retrieved => false
    case Delivered => origin == AgentClaim
    case Selected => origin == AgentSelection && Holds(log, bundle, Delivered)
    case Applied => origin == OperationEvidence && Holds(log, bundle, Selected)
    case OutcomeObserved => origin == VerificationEvidence && Holds(log, bundle, Applied)
    case Rejected => origin == AgentSelection
    case Expired => origin == CliRetrieval
  }

  /** The fact is appended, unless the log says the same already. */
  ghost predicate IsAppended(facts: seq<Fact>, fact: Fact, after: seq<Fact>) {
    after == if exists known :: known in facts && known.SameAs(fact) then facts else facts + [fact]
  }

  ghost predicate IsReference(ref: string, prefix: string) {
    && |ref| == |prefix| + 64 && ref[..|prefix|] == prefix
    && forall c :: c in ref[|prefix|..] ==> c in "0123456789abcdef"
  }

  lemma ReferencesAre(ref: string, prefix: string)
    ensures IsVersionedRef(ref, prefix) <==> IsReference(ref, prefix)
  {
    if |ref| == |prefix| + 64 {
      var digits := ref[|prefix|..];
      assert forall i :: |prefix| <= i < |ref| ==> ref[i] == digits[i - |prefix|] && ref[i] in digits;
      assert forall c :: c in "0123456789abcdef" <==> IsHex(c);
    }
  }

  /** On a reachable log the required stages are facts that the log holds. */
  lemma StageIsHeld(log: Log, bundle: BundleId)
    requires Invariant(log)
    ensures var stage := ProgressOf(FactsOf(log.facts, bundle)).stage;
      && (stage >= 1 <==> bundle in log.bundles)
      && (stage >= 2 <==> Holds(log, bundle, Delivered))
      && (stage >= 3 <==> Holds(log, bundle, Selected))
      && (stage >= 4 <==> Holds(log, bundle, Applied))
  {
    hide Climbs, ProgressOf;
    var rows := FactsOf(log.facts, bundle);
    FoldIsMembership(rows);
    FactsOfAre(log.facts, bundle);
    HeldExactly(log, bundle, Delivered);
    HeldExactly(log, bundle, Selected);
    HeldExactly(log, bundle, Applied);
  }

  lemma HeldExactly(log: Log, bundle: BundleId, kind: Kind)
    ensures Holds(log, bundle, kind) <==> Has(FactsOf(log.facts, bundle), kind)
  {
    var rows := FactsOf(log.facts, bundle);
    FactsOfAre(log.facts, bundle);
    if fact :| fact in log.facts && fact.bundle == bundle && fact.kind == kind {
      assert fact in rows;
    }
    if i :| 0 <= i < |rows| && rows[i].kind == kind {
      assert rows[i] in rows;
    }
  }

  lemma AppendedExactly(log: Log, fact: Fact)
    requires fact.kind != Retrieved
    ensures IsAppended(log.facts, fact, WithFact(log.facts, fact))
  {
  }

  /** What an agent or the command line may add to a reachable log, exactly. */
  lemma NotedExactly(calls: seq<Call>, bundle: BundleId, scope: Scope, kind: Kind, origin: Origin, ref: string,
      now: int)
    ensures var log := AfterCalls(calls);
      var after := After(log, Note(bundle, scope, kind, origin, ref, now));
      if bundle in log.bundles && bundle.scope == scope && IsTold(log, bundle, kind, origin)
      then
        && IsAppended(log.facts, Fact(bundle, kind, origin, ref, now), after.facts)
        && after.bundles == log.bundles && after.outcomes == log.outcomes
      else after == log
  {
    hide AfterCalls, WithFact, Holds, ProgressOf, FactsOf, Invariant;
    RunsKeepInvariant(calls);
    var log := AfterCalls(calls);
    StageIsHeld(log, bundle);
    if kind != Retrieved {
      AppendedExactly(log, Fact(bundle, kind, origin, ref, now));
    }
  }

  /** A delivery that the host observed is recorded for every retrieved bundle, under a versioned reference. */
  lemma DeliveredExactly(calls: seq<Call>, bundle: BundleId, scope: Scope, ref: string, now: int)
    ensures var log := AfterCalls(calls);
      var after := After(log, Deliver(bundle, scope, ref, now));
      if bundle in log.bundles && bundle.scope == scope && IsReference(ref, "codex-exposure:v1:")
      then
        && IsAppended(log.facts, Fact(bundle, Delivered, HostChallenge, ref, now), after.facts)
        && after.bundles == log.bundles && after.outcomes == log.outcomes
      else after == log
  {
    hide AfterCalls, WithFact, Holds, ProgressOf, FactsOf, IsVersionedRef, IsReference, Invariant;
    RunsKeepInvariant(calls);
    var log := AfterCalls(calls);
    StageIsHeld(log, bundle);
    ReferencesAre(ref, EXPOSURE_PREFIX);
    AppendedExactly(log, Fact(bundle, Delivered, HostChallenge, ref, now));
  }

  /** The outcome is a success of this very bundle, and it names an applied fact that the log holds of it. */
  ghost predicate IsProven(log: Log, outcome: Outcome) {
    && IsReference(outcome.witnessRef, "deterministic-outcome:v1:")
    && outcome.succeeded && outcome.sessionId == outcome.bundle.scope.sessionId
    && outcome.operationSignature == outcome.bundle.operationSignature
    && |outcome.fixtureDigest| == |outcome.protocolDigest| == |outcome.sourceDigest| == 64
    && exists fact :: fact in log.facts && fact.bundle == outcome.bundle && fact.kind == Applied
                      && fact.witnessRef == outcome.appliedEventId
  }

  lemma AppliedIsHeld(log: Log, bundle: BundleId, ref: string)
    requires Invariant(log)
    ensures ref in ProgressOf(FactsOf(log.facts, bundle)).appliedRefs <==>
            exists fact :: fact in log.facts && fact.bundle == bundle && fact.kind == Applied && fact.witnessRef == ref
  {
    hide Climbs, ProgressOf, Has;
    var rows := FactsOf(log.facts, bundle);
    FoldIsMembership(rows);
    AppliedRefsAre(rows, ref);
    FactsOfAre(log.facts, bundle);
    if fact :| fact in log.facts && fact.bundle == bundle && fact.kind == Applied && fact.witnessRef == ref {
      var i :| 0 <= i < |rows| && rows[i] == fact;
    }
    if i :| 0 <= i < |rows| && rows[i].kind == Applied && rows[i].witnessRef == ref {
      assert rows[i] in rows;
    }
  }

  /** A check is recorded exactly if its outcome is proven; its outcome is kept unless the reference has one. */
  lemma CheckedExactly(calls: seq<Call>, scope: Scope, outcome: Outcome, now: int)
    ensures var log := AfterCalls(calls);
      var (bundle, ref) := (outcome.bundle, outcome.witnessRef);
      var after := After(log, Check(scope, outcome, now));
      if bundle in log.bundles && bundle.scope == scope && IsProven(log, outcome)
      then
        && IsAppended(log.facts, Fact(bundle, OutcomeObserved, DeterministicCheck, ref, now), after.facts)
        && after.bundles == log.bundles && after.outcomes.Keys == log.outcomes.Keys + {ref}
        && forall r :: r in after.outcomes ==>
             after.outcomes[r] == if r in log.outcomes then log.outcomes[r] else outcome
      else after == log
  {
    hide AfterCalls, WithFact, ProgressOf, FactsOf, IsVersionedRef, IsReference, Invariant;
    RunsKeepInvariant(calls);
    var log := AfterCalls(calls);
    StageIsHeld(log, outcome.bundle);
    AppliedIsHeld(log, outcome.bundle, outcome.appliedEventId);
    ReferencesAre(outcome.witnessRef, OUTCOME_PREFIX);
    AppendedExactly(log, Fact(outcome.bundle, OutcomeObserved, DeterministicCheck, outcome.witnessRef, now));
  }

  /** Retrieving a bundle makes it known, with one retrieval however often it is retrieved. */
  lemma RetrievedExactly(calls: seq<Call>, bundle: BundleId, ref: string, now: int)
    ensures var log := AfterCalls(calls);
      var after := After(log, Retrieve(bundle, ref, now));
      && after.outcomes == log.outcomes
      && if bundle in log.bundles then after == log
         else
           && after.bundles == log.bundles[bundle := now]
           && after.facts == log.facts + [Fact(bundle, Retrieved, CliRetrieval, ref, now)]
  {
    hide AfterCalls, Climbs, IsBacked;
    RunsKeepInvariant(calls);
    var log := AfterCalls(calls);
    var rows := FactsOf(log.facts, bundle);
    FactsOfAre(log.facts, bundle);
    if rows != [] {
      FirstIsRetrieved(rows);
      assert rows[0] in rows;
    } else {
      forall i | 0 <= i < |log.facts| ensures log.facts[i].bundle != bundle {
        assert log.facts[i] in log.facts && log.facts[i] !in rows;
      }
    }
  }

  // ---- whose outcome a check has ----

  /** The outcome of every check belongs to the bundle of the check. */
  ghost predicate OwnOutcomes(log: Log) {
    forall i :: 0 <= i < |log.facts| ==> HasOwnOutcome(log, log.facts[i])
  }

  predicate HasOwnOutcome(log: Log, fact: Fact) {
    fact.origin == DeterministicCheck ==>
      fact.witnessRef in log.outcomes && log.outcomes[fact.witnessRef].bundle == fact.bundle
  }

  /** A check that is recorded under the reference of an outcome of another bundle: its own outcome is ignored. */
  ghost predicate Borrows(log: Log, call: Call) {
    && call.Check? && call.outcome.witnessRef in log.outcomes
    && log.outcomes[call.outcome.witnessRef].bundle != call.outcome.bundle
    && MayRecord(log, call.outcome.bundle, call.scope, OutcomeObserved, DeterministicCheck, call.outcome.witnessRef,
                 Some(call.outcome))
  }

  /** Outcomes and facts are only added. */
  ghost predicate Extends(after: Log, log: Log) {
    && log.facts <= after.facts
    && forall ref :: ref in log.outcomes ==> ref in after.outcomes && after.outcomes[ref] == log.outcomes[ref]
  }

  lemma CallExtends(log: Log, call: Call)
    ensures Extends(After(log, call), log)
  {
    hide MayRecord;
  }

  lemma OwnOfLonger(log: Log, after: Log)
    requires Extends(after, log)
    requires forall i :: 0 <= i < |log.facts| && log.facts[i].origin == DeterministicCheck ==>
               log.facts[i].witnessRef in log.outcomes
    ensures OwnOutcomes(after) <==>
            OwnOutcomes(log) && forall i :: |log.facts| <= i < |after.facts| ==> HasOwnOutcome(after, after.facts[i])
  {
    assert forall i :: 0 <= i < |log.facts| ==> after.facts[i] == log.facts[i];
    if OwnOutcomes(after) {
      forall i | 0 <= i < |log.facts| ensures HasOwnOutcome(log, log.facts[i]) {
        assert HasOwnOutcome(after, after.facts[i]);
      }
    }
  }

  /** A check that is not there yet has an outcome of its own afterwards, unless it borrows one. */
  lemma NewCheckIsOwn(log: Log, call: Call)
    requires After(log, call).facts != log.facts
    ensures var after := After(log, call);
      |after.facts| == |log.facts| + 1 && (HasOwnOutcome(after, after.facts[|log.facts|]) <==> !Borrows(log, call))
  {
    hide IsVersionedRef, FitsOutcome, ProgressOf, FactsOf;
  }

  /** A check that borrowed an outcome before has none of its own. */
  lemma RepeatedCheckIsNotOwn(log: Log, call: Call)
    requires Borrows(log, call) && After(log, call).facts == log.facts
    ensures !OwnOutcomes(log)
  {
    hide IsVersionedRef, FitsOutcome, ProgressOf, FactsOf;
    var ref := call.outcome.witnessRef;
    var i :| 0 <= i < |log.facts| && log.facts[i].bundle == call.outcome.bundle
             && log.facts[i].witnessRef == ref && log.facts[i].origin == DeterministicCheck;
    assert !HasOwnOutcome(log, log.facts[i]);
  }

  /** A call keeps every check with an outcome of its own if and only if it does not borrow one. */
  lemma CallKeepsOwn(log: Log, call: Call)
    requires Invariant(log)
    ensures OwnOutcomes(After(log, call)) <==> OwnOutcomes(log) && !Borrows(log, call)
  {
    hide Climbs, IsBacked, OwnOutcomes, After, Borrows, HasOwnOutcome;
    CallExtends(log, call);
    OwnOfLonger(log, After(log, call));
    if After(log, call).facts != log.facts {
      NewCheckIsOwn(log, call);
    } else if Borrows(log, call) {
      RepeatedCheckIsNotOwn(log, call);
    }
  }

  ghost predicate NoneBorrows(calls: seq<Call>) {
    forall i :: 0 <= i < |calls| ==> !Borrows(AfterCalls(calls[..i]), calls[i])
  }

  lemma NoneBorrowsBefore(calls: seq<Call>)
    requires calls != []
    ensures var n := |calls| - 1;
      NoneBorrows(calls) <==> NoneBorrows(calls[..n]) && !Borrows(AfterCalls(calls[..n]), calls[n])
  {
    hide Borrows, AfterCalls;
    var n := |calls| - 1;
    assert forall i :: 0 <= i < n ==> calls[..n][..i] == calls[..i] && calls[..n][i] == calls[i];
    if NoneBorrows(calls[..n]) {
      forall i | 0 <= i < n ensures !Borrows(AfterCalls(calls[..i]), calls[i]) {
        assert calls[..n][..i] == calls[..i] && !Borrows(AfterCalls(calls[..n][..i]), calls[..n][i]);
      }
    }
  }

  /** So along every run the outcome of every check is that of its bundle if and only if no check borrowed one. */
  lemma {:induction false} OutcomesAreOwn(calls: seq<Call>)
    ensures OwnOutcomes(AfterCalls(calls)) <==> NoneBorrows(calls)
  {
    hide After, Borrows, Invariant, OwnOutcomes, NoneBorrows;
    if calls != [] {
      var earlier := calls[..|calls| - 1];
      OutcomesAreOwn(earlier);
      RunsKeepInvariant(earlier);
      CallKeepsOwn(AfterCalls(earlier), calls[|calls| - 1]);
      NoneBorrowsBefore(calls);
    } else {
      NothingIsOwn();
    }
  }

  lemma NothingIsOwn()
    ensures OwnOutcomes(AfterCalls([])) && NoneBorrows([])
  {
  }

  /** The reference of a witness is a digest of all it says, so witnesses with one reference speak of one bundle. */
  ghost predicate RefsAreDigests(calls: seq<Call>) {
    forall i, j :: 0 <= i < |calls| && 0 <= j < |calls| && calls[i].Check? && calls[j].Check? ==>
      (calls[i].outcome.witnessRef == calls[j].outcome.witnessRef ==> calls[i].outcome == calls[j].outcome)
  }

  lemma {:induction false} OutcomeCameFrom(calls: seq<Call>, ref: string)
    requires ref in AfterCalls(calls).outcomes
    ensures exists i :: 0 <= i < |calls| && calls[i].Check? && calls[i].outcome.witnessRef == ref
                        && calls[i].outcome == AfterCalls(calls).outcomes[ref]
  {
    hide MayRecord;
    var n := |calls| - 1;
    if calls != [] && ref in AfterCalls(calls[..n]).outcomes {
      OutcomeCameFrom(calls[..n], ref);
      var i :| 0 <= i < n && calls[..n][i].Check? && calls[..n][i].outcome.witnessRef == ref
               && calls[..n][i].outcome == AfterCalls(calls[..n]).outcomes[ref];
      assert calls[i] == calls[..n][i];
    } else {
      assert calls[n].Check?;
    }
  }

  lemma KnownOutcomeIsOwn(calls: seq<Call>, i: nat)
    requires RefsAreDigests(calls) && i < |calls| && calls[i].Check?
    requires calls[i].outcome.witnessRef in AfterCalls(calls[..i]).outcomes
    ensures AfterCalls(calls[..i]).outcomes[calls[i].outcome.witnessRef] == calls[i].outcome
  {
    hide AfterCalls;
    OutcomeCameFrom(calls[..i], calls[i].outcome.witnessRef);
    var j :| 0 <= j < i && calls[..i][j].Check? && calls[..i][j].outcome.witnessRef == calls[i].outcome.witnessRef
             && calls[..i][j].outcome == AfterCalls(calls[..i]).outcomes[calls[i].outcome.witnessRef];
    assert calls[j] == calls[..i][j];
  }

  /** With such references no check borrows an outcome. */
  lemma WitnessedChecksAreOwn(calls: seq<Call>)
    requires RefsAreDigests(calls)
    ensures OwnOutcomes(AfterCalls(calls))
  {
    hide MayRecord, AfterCalls, OwnOutcomes, RefsAreDigests;
    forall i | 0 <= i < |calls| ensures !Borrows(AfterCalls(calls[..i]), calls[i]) {
      if calls[i].Check? && calls[i].outcome.witnessRef in AfterCalls(calls[..i]).outcomes {
        KnownOutcomeIsOwn(calls, i);
      }
    }
    OutcomesAreOwn(calls);
  }
}
