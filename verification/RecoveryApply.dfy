/**
 * Applying a recovery plan: one transaction for each selection, after all were checked
 * (src/capture/recovery.ts:99-153).
 */
module RecoveryApply {
  import opened Prelude
  import opened CaptureRecords
  import opened SpoolTables
  import opened ClaimFacts
  import opened Recovery
  import opened SpoolEffects
  import SpoolRuns

  /** What has happened when the selections were processed, up to the first that turned out stale. */
  datatype Outcome = Outcome(db: Database, applied: nat, alreadyApplied: nat, stale: bool)

  datatype Failure = InvalidPlan | StalePlan

  predicate WasNoted(ledger: Ledger, hash: nat, id: DeliveryId) {
    (hash, id) in ledger
  }

  predicate WasApplied(db: Database, plan: Plan, selection: Selection) {
    WasNoted(db.ledger, plan.hash, selection.id)
  }

  /** The ledger keeps the newest rows only. */
  function Noted(ledger: Ledger, hash: nat, id: DeliveryId): Ledger {
    var all := ledger + [(hash, id)];
    if |all| <= MAX_APPLIED_HISTORY then all else all[|all| - MAX_APPLIED_HISTORY..]
  }

  function Applied(db: Database, plan: Plan, selection: Selection, now: int): Database
    requires Recoverable(db.spool, selection.id)
  {
    Database(Requeue(db.spool, selection.id, now), Noted(db.ledger, plan.hash, selection.id))
  }

  predicate DistinctIds(selections: seq<Selection>) {
    forall i, j :: 0 <= i < j < |selections| ==> selections[i].id != selections[j].id
  }

  predicate ValidPlan(plan: Plan) {
    && |plan.selections| <= MAX_SELECTIONS
    && DistinctIds(plan.selections)
    && forall selection :: selection in plan.selections ==>
         (selection.state.Held? || selection.state.Quarantined?) && selection.generation >= 1
  }

  /** The selection was applied before, or still describes its delivery. */
  predicate Fine(db: Database, experience: Experience, plan: Plan, selection: Selection) {
    WasApplied(db, plan, selection) || Current(db.spool, experience, plan.repositoryId, selection)
  }

  predicate AllFine(db: Database, experience: Experience, plan: Plan) {
    forall selection :: selection in plan.selections ==> Fine(db, experience, plan, selection)
  }

  /** Processes the selections in order, the i-th at time times[i]. */
  function Process(db: Database, experience: Experience, plan: Plan, selections: seq<Selection>,
                   times: seq<int>): Outcome
    requires |times| == |selections|
    decreases |selections|
  {
    if selections == [] then Outcome(db, 0, 0, false)
    else if WasApplied(db, plan, selections[0]) then
      var rest := Process(db, experience, plan, selections[1..], times[1..]);
      rest.(alreadyApplied := rest.alreadyApplied + 1)
    else if !Current(db.spool, experience, plan.repositoryId, selections[0]) then Outcome(db, 0, 0, true)
    else
      var rest := Process(Applied(db, plan, selections[0], times[0]), experience, plan, selections[1..], times[1..]);
      rest.(applied := rest.applied + 1)
  }

  // ---- what the ledger still knows ----

  /** The entry outlives n further ones. */
  predicate Survives(ledger: Ledger, hash: nat, id: DeliveryId, n: nat) {
    exists i :: 0 <= i < |ledger| && ledger[i] == (hash, id) && |ledger| - i + n <= MAX_APPLIED_HISTORY
  }

  /**
   * How many entries the first j selections add, if none is stale: one for each that the ledger does not know by then.
   */
  function Added(ledger: Ledger, hash: nat, selections: seq<Selection>, j: nat): (n: nat)
    requires j <= |selections|
    ensures n <= j
  {
    if j == 0 then 0 else
      var n := Added(ledger, hash, selections, j - 1);
      if Survives(ledger, hash, selections[j - 1].id, n) then n else n + 1
  }

  /** The ledger still knows the selection when its turn comes. */
  predicate KnownAt(ledger: Ledger, hash: nat, selections: seq<Selection>, j: nat)
    requires j < |selections|
  {
    Survives(ledger, hash, selections[j].id, Added(ledger, hash, selections, j))
  }

  /** By its turn the ledger has forgotten the selection, and it is not current either. */
  predicate ForgottenAt(db: Database, experience: Experience, plan: Plan, selections: seq<Selection>, j: nat)
    requires j < |selections|
  {
    !Current(db.spool, experience, plan.repositoryId, selections[j]) && !KnownAt(db.ledger, plan.hash, selections, j)
  }

  /** The selection gets an entry of its own. */
  ghost predicate Entered(ledger: Ledger, hash: nat, selections: seq<Selection>, id: DeliveryId) {
    exists j :: 0 <= j < |selections| && selections[j].id == id && !KnownAt(ledger, hash, selections, j)
  }

  lemma KnownSurvives(ledger: Ledger, hash: nat, id: DeliveryId)
    requires |ledger| <= MAX_APPLIED_HISTORY
    ensures (hash, id) in ledger <==> Survives(ledger, hash, id, 0)
  {
    if (hash, id) in ledger {
      var i :| 0 <= i < |ledger| && ledger[i] == (hash, id);
      assert |ledger| - i + 0 <= MAX_APPLIED_HISTORY;
    }
  }

  lemma NotedSurvives(ledger: Ledger, hash: nat, id: DeliveryId, other: DeliveryId, n: nat)
    requires |ledger| <= MAX_APPLIED_HISTORY && n < MAX_APPLIED_HISTORY
    ensures |Noted(ledger, hash, id)| <= MAX_APPLIED_HISTORY
    ensures Survives(Noted(ledger, hash, id), hash, other, n) <==> other == id || Survives(ledger, hash, other, n + 1)
  {
    var all := ledger + [(hash, id)];
    var noted := Noted(ledger, hash, id);
    var dropped := |all| - |noted|;
    assert forall i :: 0 <= i < |noted| ==> noted[i] == all[dropped + i];
    if other == id {
      assert noted[|noted| - 1] == (hash, id) && |noted| - (|noted| - 1) + n <= MAX_APPLIED_HISTORY;
    }
    if i :| 0 <= i < |ledger| && ledger[i] == (hash, other) && |ledger| - i + (n + 1) <= MAX_APPLIED_HISTORY {
      assert noted[i - dropped] == (hash, other) && |noted| - (i - dropped) + n <= MAX_APPLIED_HISTORY;
    }
    if i :| 0 <= i < |noted| && noted[i] == (hash, other) && |noted| - i + n <= MAX_APPLIED_HISTORY {
      assert dropped + i < |ledger| ==> ledger[dropped + i] == (hash, other);
    }
  }

  /** Processing the first selection shifts the count of added entries. */
  lemma {:induction false} AddedRest(ledger: Ledger, hash: nat, selections: seq<Selection>, j: nat)
    requires |ledger| <= MAX_APPLIED_HISTORY && DistinctIds(selections) && 1 <= j <= |selections| <= MAX_APPLIED_HISTORY
    ensures Added(ledger, hash, selections, j) ==
            if Survives(ledger, hash, selections[0].id, 0) then Added(ledger, hash, selections[1..], j - 1)
            else 1 + Added(Noted(ledger, hash, selections[0].id), hash, selections[1..], j - 1)
  {
    hide Survives, Noted;
    if j > 1 {
      AddedRest(ledger, hash, selections, j - 1);
      assert selections[1..][j - 2] == selections[j - 1] && selections[j - 1].id != selections[0].id;
      var n := Added(Noted(ledger, hash, selections[0].id), hash, selections[1..], j - 2);
      NotedSurvives(ledger, hash, selections[0].id, selections[j - 1].id, n);
    } else {
      assert Added(ledger, hash, selections, 0) == 0;
    }
  }

  /** Requeueing one delivery does not concern the selection of another. */
  lemma OthersUntouched(db: Database, experience: Experience, plan: Plan, done: Selection, now: int, other: Selection)
    requires Recoverable(db.spool, done.id) && other.id != done.id
    ensures Current(Applied(db, plan, done, now).spool, experience, plan.repositoryId, other)
      <==> Current(db.spool, experience, plan.repositoryId, other)
  {
  }

  /** The database after the first selection was processed. */
  ghost predicate FirstDone(db: Database, experience: Experience, plan: Plan, first: Selection, now: int,
                            next: Database) {
    if WasApplied(db, plan, first) then next == db
    else Current(db.spool, experience, plan.repositoryId, first) && next == Applied(db, plan, first, now)
  }

  /** Whether a later selection is known at its turn does not depend on when the first one was processed. */
  lemma KnownAtRest(ledger: Ledger, hash: nat, selections: seq<Selection>, j: nat, next: Ledger)
    requires |ledger| <= MAX_APPLIED_HISTORY && DistinctIds(selections) && 1 <= j < |selections| <= MAX_APPLIED_HISTORY
    requires next == if (hash, selections[0].id) in ledger then ledger else Noted(ledger, hash, selections[0].id)
    ensures KnownAt(ledger, hash, selections, j) <==> KnownAt(next, hash, selections[1..], j - 1)
  {
    hide Survives, Noted;
    var first, other := selections[0], selections[j];
    assert selections[1..][j - 1] == other && other.id != first.id;
    KnownSurvives(ledger, hash, first.id);
    AddedRest(ledger, hash, selections, j);
    if (hash, first.id) !in ledger {
      NotedSurvives(ledger, hash, first.id, other.id, Added(next, hash, selections[1..], j - 1));
    }
  }

  lemma ForgottenRest(db: Database, experience: Experience, plan: Plan, selections: seq<Selection>, j: nat, now: int,
                      next: Database)
    requires |db.ledger| <= MAX_APPLIED_HISTORY && DistinctIds(selections)
             && 1 <= j < |selections| <= MAX_APPLIED_HISTORY
    requires FirstDone(db, experience, plan, selections[0], now, next)
    ensures ForgottenAt(db, experience, plan, selections, j) <==>
              ForgottenAt(next, experience, plan, selections[1..], j - 1)
  {
    hide KnownAt, Noted, Requeue, RecordScope;
    KnownAtRest(db.ledger, plan.hash, selections, j, next.ledger);
    assert selections[1..][j - 1] == selections[j] && selections[j].id != selections[0].id;
    if !WasApplied(db, plan, selections[0]) {
      OthersUntouched(db, experience, plan, selections[0], now, selections[j]);
    }
  }

  lemma EnteredRest(ledger: Ledger, hash: nat, selections: seq<Selection>, id: DeliveryId, next: Ledger)
    requires |ledger| <= MAX_APPLIED_HISTORY && DistinctIds(selections) && 1 <= |selections| <= MAX_APPLIED_HISTORY
    requires next == if (hash, selections[0].id) in ledger then ledger else Noted(ledger, hash, selections[0].id)
    ensures Entered(ledger, hash, selections, id) <==>
            (selections[0].id == id && (hash, id) !in ledger) || Entered(next, hash, selections[1..], id)
  {
    hide KnownAt, Noted;
    assert KnownAt(ledger, hash, selections, 0) <==> (hash, selections[0].id) in ledger by {
      KnownFirst(ledger, hash, selections);
    }
    if Entered(ledger, hash, selections, id) {
      var j :| 0 <= j < |selections| && selections[j].id == id && !KnownAt(ledger, hash, selections, j);
      if j > 0 {
        KnownAtRest(ledger, hash, selections, j, next);
        assert selections[1..][j - 1].id == id;
      }
    }
    if Entered(next, hash, selections[1..], id) {
      var j :| 0 <= j < |selections[1..]| && selections[1..][j].id == id && !KnownAt(next, hash, selections[1..], j);
      KnownAtRest(ledger, hash, selections, j + 1, next);
      assert selections[j + 1].id == id;
    }
  }

  lemma KnownFirst(ledger: Ledger, hash: nat, selections: seq<Selection>)
    requires |ledger| <= MAX_APPLIED_HISTORY && selections != []
    ensures KnownAt(ledger, hash, selections, 0) <==> (hash, selections[0].id) in ledger
  {
    KnownSurvives(ledger, hash, selections[0].id);
  }

  ghost predicate SomeForgotten(db: Database, experience: Experience, plan: Plan, selections: seq<Selection>) {
    exists j :: 0 <= j < |selections| && ForgottenAt(db, experience, plan, selections, j)
  }

  lemma SomeForgottenRest(db: Database, experience: Experience, plan: Plan, selections: seq<Selection>, now: int,
                          next: Database)
    requires |db.ledger| <= MAX_APPLIED_HISTORY && DistinctIds(selections) && 1 <= |selections| <= MAX_APPLIED_HISTORY
    requires FirstDone(db, experience, plan, selections[0], now, next)
    ensures SomeForgotten(db, experience, plan, selections) <==> SomeForgotten(next, experience, plan, selections[1..])
  {
    hide ForgottenAt, FirstDone;
    if SomeForgotten(db, experience, plan, selections) {
      var j :| 0 <= j < |selections| && ForgottenAt(db, experience, plan, selections, j);
      FirstRemains(db, experience, plan, selections, now, next);
      ForgottenRest(db, experience, plan, selections, j, now, next);
    }
    if SomeForgotten(next, experience, plan, selections[1..]) {
      var j :| 0 <= j < |selections[1..]| && ForgottenAt(next, experience, plan, selections[1..], j);
      ForgottenRest(db, experience, plan, selections, j + 1, now, next);
    }
  }

  lemma FirstRemains(db: Database, experience: Experience, plan: Plan, selections: seq<Selection>, now: int,
                     next: Database)
    requires |db.ledger| <= MAX_APPLIED_HISTORY && selections != []
             && FirstDone(db, experience, plan, selections[0], now, next)
    ensures !ForgottenAt(db, experience, plan, selections, 0)
  {
    FirstForgotten(db, experience, plan, selections);
  }

  lemma FirstForgotten(db: Database, experience: Experience, plan: Plan, selections: seq<Selection>)
    requires |db.ledger| <= MAX_APPLIED_HISTORY && selections != []
    ensures ForgottenAt(db, experience, plan, selections, 0) <==>
            !Current(db.spool, experience, plan.repositoryId, selections[0]) && !WasApplied(db, plan, selections[0])
  {
    KnownSurvives(db.ledger, plan.hash, selections[0].id);
  }

  /**
   * Processing gets stale exactly if some selection is forgotten at its turn; otherwise each is counted exactly once.
   */
  lemma {:induction false} ProcessExactly(db: Database, experience: Experience, plan: Plan, selections: seq<Selection>,
      times: seq<int>)
    requires |times| == |selections| <= MAX_APPLIED_HISTORY && DistinctIds(selections)
    requires |db.ledger| <= MAX_APPLIED_HISTORY
    ensures var outcome := Process(db, experience, plan, selections, times);
      && (outcome.stale <==> SomeForgotten(db, experience, plan, selections))
      && (!outcome.stale ==> outcome.applied + outcome.alreadyApplied == |selections|)
    decreases |selections|
  {
    hide SomeForgotten, Noted, Requeue, RecordScope;
    if selections != [] {
      var first := selections[0];
      if WasApplied(db, plan, first) {
        SomeForgottenRest(db, experience, plan, selections, times[0], db);
        ProcessExactly(db, experience, plan, selections[1..], times[1..]);
      } else if Current(db.spool, experience, plan.repositoryId, first) {
        var next := Applied(db, plan, first, times[0]);
        NotedSurvives(db.ledger, plan.hash, first.id, first.id, 0);
        SomeForgottenRest(db, experience, plan, selections, times[0], next);
        ProcessExactly(next, experience, plan, selections[1..], times[1..]);
      } else {
        FirstForgotten(db, experience, plan, selections);
        Forgets(db, experience, plan, selections, 0);
      }
    } else {
      NothingForgotten(db, experience, plan);
    }
  }

  lemma Forgets(db: Database, experience: Experience, plan: Plan, selections: seq<Selection>, j: nat)
    requires j < |selections|
    ensures ForgottenAt(db, experience, plan, selections, j) ==> SomeForgotten(db, experience, plan, selections)
  {
  }

  lemma NothingForgotten(db: Database, experience: Experience, plan: Plan)
    ensures !SomeForgotten(db, experience, plan, [])
  {
  }

  /** What the ledger knows after a complete run: the selections that got an entry, and what survives those entries. */
  lemma {:induction false} LedgerExactly(db: Database, experience: Experience, plan: Plan, selections: seq<Selection>,
      times: seq<int>, id: DeliveryId, n: nat)
    requires |times| == |selections| && n + |selections| <= MAX_APPLIED_HISTORY && DistinctIds(selections)
    requires |db.ledger| <= MAX_APPLIED_HISTORY && !Process(db, experience, plan, selections, times).stale
    ensures var ledger := Process(db, experience, plan, selections, times).db.ledger;
      && |ledger| <= MAX_APPLIED_HISTORY
      && (Survives(ledger, plan.hash, id, n) <==>
          Entered(db.ledger, plan.hash, selections, id) ||
          Survives(db.ledger, plan.hash, id, n + Added(db.ledger, plan.hash, selections, |selections|)))
    decreases |selections|
  {
    hide Survives, Entered, KnownAt, Noted, Requeue, RecordScope;
    if selections != [] {
      var first, rest := selections[0], selections[1..];
      var next := if WasApplied(db, plan, first) then db else Applied(db, plan, first, times[0]);
      KnownSurvives(db.ledger, plan.hash, first.id);
      NotedSurvives(db.ledger, plan.hash, first.id, id, n + Added(next.ledger, plan.hash, rest, |rest|));
      LedgerExactly(next, experience, plan, rest, times[1..], id, n);
      EnteredRest(db.ledger, plan.hash, selections, id, next.ledger);
      AddedRest(db.ledger, plan.hash, selections, |selections|);
    } else {
      NothingEntered(db.ledger, plan.hash, id);
    }
  }

  lemma NothingEntered(ledger: Ledger, hash: nat, id: DeliveryId)
    ensures !Entered(ledger, hash, [], id)
  {
  }

  /** Selections that were all applied before change nothing. */
  lemma {:induction false} NothingLeft(db: Database, experience: Experience, plan: Plan, selections: seq<Selection>,
      times: seq<int>)
    requires |times| == |selections| && forall selection :: selection in selections ==> WasApplied(db, plan, selection)
    ensures Process(db, experience, plan, selections, times) == Outcome(db, 0, |selections|, false)
  {
    if selections != [] {
      assert selections[0] in selections;
      NothingLeft(db, experience, plan, selections[1..], times[1..]);
    }
  }

  /** Processing in two parts is processing at once. */
  lemma {:induction false} ProcessParts(db: Database, experience: Experience, plan: Plan,
    first: seq<Selection>, second: seq<Selection>, times: seq<int>)
    requires |times| == |first| + |second|
    ensures var a := Process(db, experience, plan, first, times[..|first|]);
      var all := Process(db, experience, plan, first + second, times);
      if a.stale then all == a else
        var b := Process(a.db, experience, plan, second, times[|first|..]);
        all == Outcome(b.db, a.applied + b.applied, a.alreadyApplied + b.alreadyApplied, b.stale)
    decreases |first|
  {
    if first == [] {
      assert first + second == second;
      assert times[0..] == times;
    } else {
      assert (first + second)[1..] == first[1..] + second;
      assert times[..|first|][1..] == times[1..][..|first| - 1];
      assert times[|first|..] == times[1..][|first| - 1..];
      if WasApplied(db, plan, first[0]) {
        ProcessParts(db, experience, plan, first[1..], second, times[1..]);
      } else if Current(db.spool, experience, plan.repositoryId, first[0]) {
        ProcessParts(Applied(db, plan, first[0], times[0]), experience, plan, first[1..], second, times[1..]);
      }
    }
  }

  // ---- the whole operation ----

  function Repeated(now: int, n: nat): seq<int> {
    seq(n, _ => now)
  }

  /** First every selection is checked; only when none is stale is anything changed. */
  function ApplyPlan(db: Database, experience: Experience, plan: Plan, now: int)
    : (Database, Result<(nat, nat), Failure>)
  {
    if !ValidPlan(plan) then (db, Err(InvalidPlan))
    else if !AllFine(db, experience, plan) then (db, Err(StalePlan))
    else
      var outcome := Process(db, experience, plan, plan.selections, Repeated(now, |plan.selections|));
      (outcome.db, if outcome.stale then Err(StalePlan) else Ok((outcome.applied, outcome.alreadyApplied)))
  }

  /**
   * A plan is applied completely, or nothing is changed, or the ledger forgot a selection while the plan was applied.
   * The last case can be told from the ledger beforehand; then a part of the plan is applied and the call fails.
   */
  lemma AllOrNothing(db: Database, experience: Experience, plan: Plan, now: int)
    requires ValidPlan(plan) && |db.ledger| <= MAX_APPLIED_HISTORY
    ensures var (after, result) := ApplyPlan(db, experience, plan, now);
      if !AllFine(db, experience, plan) then result == Err(StalePlan) && after == db
      else if SomeForgotten(db, experience, plan, plan.selections) then
        && result == Err(StalePlan)
        && Process(db, experience, plan, plan.selections, Repeated(now, |plan.selections|)).applied > 0
      else
        && result.Ok? && result.value.0 + result.value.1 == |plan.selections|
        && forall id :: WasNoted(after.ledger, plan.hash, id) <==>
                        Entered(db.ledger, plan.hash, plan.selections, id) ||
                        Survives(db.ledger, plan.hash, id,
                                 Added(db.ledger, plan.hash, plan.selections, |plan.selections|))
  {
    hide SomeForgotten, Entered, Survives, Process;
    var selections, times := plan.selections, Repeated(now, |plan.selections|);
    if AllFine(db, experience, plan) {
      ProcessExactly(db, experience, plan, selections, times);
      if SomeForgotten(db, experience, plan, selections) {
        StaleAfterOne(db, experience, plan, selections, times);
      } else {
        forall id
          ensures WasNoted(Process(db, experience, plan, selections, times).db.ledger, plan.hash, id) <==>
                  Entered(db.ledger, plan.hash, selections, id) ||
                  Survives(db.ledger, plan.hash, id, Added(db.ledger, plan.hash, selections, |selections|))
        {
          LedgerExactly(db, experience, plan, selections, times, id, 0);
          KnownSurvives(Process(db, experience, plan, selections, times).db.ledger, plan.hash, id);
        }
      }
    }
  }

  /** The delivery starts a new generation afresh: due at once, with no attempts in either table. */
  ghost predicate StartsAfresh(s: Spool, t: Spool, id: DeliveryId, now: int) {
    && IsCandidate(s, id) && id in s.recovery && id in t.records && id in t.recovery
    && t.records[id].state.Pending? && t.records[id].attempts == 0 && t.records[id].nextRetryAt == now
    && t.records[id].leaseUntil == None && t.records[id].payload == CandidateOf(s, id).payload
    && t.recovery[id].state.Eligible? && t.recovery[id].attempts == 0 && t.recovery[id].dependencyKey == None
    && t.recovery[id].generation == s.recovery[id].generation + 1
  }

  lemma FirstAfresh(db: Database, experience: Experience, plan: Plan, first: Selection, now: int, id: DeliveryId)
    requires Recoverable(db.spool, first.id)
    ensures var t := Applied(db, plan, first, now).spool;
      if id == first.id then StartsAfresh(db.spool, t, id, now) else SameRows(db.spool, t, id)
  {
    RequeuedIsDue(db.spool, first.id, now);
  }

  lemma AfreshThrough(s: Spool, next: Spool, t: Spool, id: DeliveryId, now: int)
    requires SameRows(s, next, id) && s.quarantine == next.quarantine
    ensures StartsAfresh(s, t, id, now) <==> StartsAfresh(next, t, id, now)
  {
  }

  lemma AfreshStays(s: Spool, next: Spool, t: Spool, id: DeliveryId, now: int)
    requires StartsAfresh(s, next, id, now) && SameRows(next, t, id)
    ensures StartsAfresh(s, t, id, now)
  {
  }

  /** A complete run at one time gives exactly the deliveries that it enters in the ledger a fresh start. */
  lemma {:induction false} SpoolExactly(db: Database, experience: Experience, plan: Plan, selections: seq<Selection>,
      now: int, id: DeliveryId)
    requires |selections| <= MAX_APPLIED_HISTORY && DistinctIds(selections) && |db.ledger| <= MAX_APPLIED_HISTORY
    requires !Process(db, experience, plan, selections, Repeated(now, |selections|)).stale
    ensures var t := Process(db, experience, plan, selections, Repeated(now, |selections|)).db.spool;
      if Entered(db.ledger, plan.hash, selections, id) then StartsAfresh(db.spool, t, id, now)
      else SameRows(db.spool, t, id)
    decreases |selections|
  {
    hide Entered, Noted, Requeue, RecordScope, StartsAfresh, SameRows;
    if selections != [] {
      var first, rest := selections[0], selections[1..];
      var next := if WasApplied(db, plan, first) then db else Applied(db, plan, first, now);
      assert Repeated(now, |selections|)[1..] == Repeated(now, |rest|);
      NotedSurvives(db.ledger, plan.hash, first.id, first.id, 0);
      SpoolExactly(next, experience, plan, rest, now, id);
      EnteredRest(db.ledger, plan.hash, selections, id, next.ledger);
      if !WasApplied(db, plan, first) {
        FirstAfresh(db, experience, plan, first, now, id);
        LaterIsOther(next.ledger, plan.hash, selections, id);
        var t := Process(next, experience, plan, rest, Repeated(now, |rest|)).db.spool;
        if id == first.id {
          AfreshStays(db.spool, next.spool, t, id, now);
        } else {
          QuarantineOfRequeue(db.spool, first.id, now);
          AfreshThrough(db.spool, next.spool, t, id, now);
          SameThrough(db.spool, next.spool, t, id);
        }
      }
    } else {
      NothingEntered(db.ledger, plan.hash, id);
      SameAsItself(db.spool, id);
    }
  }

  lemma SameAsItself(s: Spool, id: DeliveryId)
    ensures SameRows(s, s, id)
  {
  }

  lemma SameThrough(s: Spool, next: Spool, t: Spool, id: DeliveryId)
    requires SameRows(s, next, id)
    ensures SameRows(next, t, id) ==> SameRows(s, t, id)
  {
  }

  lemma QuarantineOfRequeue(s: Spool, id: DeliveryId, now: int)
    requires Recoverable(s, id)
    ensures Requeue(s, id, now).quarantine == s.quarantine
  {
  }

  lemma LaterIsOther(ledger: Ledger, hash: nat, selections: seq<Selection>, id: DeliveryId)
    requires DistinctIds(selections) && selections != []
    ensures Entered(ledger, hash, selections[1..], id) ==> id != selections[0].id
  {
    hide KnownAt;
    if Entered(ledger, hash, selections[1..], id) {
      var j :| 0 <= j < |selections[1..]| && selections[1..][j].id == id && !KnownAt(ledger, hash, selections[1..], j);
      assert selections[j + 1].id == id;
    }
  }

  /**
   * After a call that succeeds, each delivery that it requeued starts afresh and can be claimed at once; no other
   * delivery is touched. A delivery is requeued exactly if the plan selects it and the ledger did not know that.
   */
  lemma AppliedStartsAfresh(db: Database, experience: Experience, plan: Plan, now: int, id: DeliveryId)
    requires |db.ledger| <= MAX_APPLIED_HISTORY && ApplyPlan(db, experience, plan, now).1.Ok?
    ensures var t := ApplyPlan(db, experience, plan, now).0.spool;
      if Entered(db.ledger, plan.hash, plan.selections, id) then
        StartsAfresh(db.spool, t, id, now) && forall later :: later >= now ==> Claimable(t, id, later)
      else SameRows(db.spool, t, id)
  {
    hide Entered, Process;
    SpoolExactly(db, experience, plan, plan.selections, now, id);
  }

  /** So the next claim with room hands out every delivery that the call requeued and that parses. */
  lemma AppliedIsHandedOut(db: Database, experience: Experience, plan: Plan, now: int, id: DeliveryId,
      h: SpoolRuns.History, a: SpoolRuns.Action)
    requires |db.ledger| <= MAX_APPLIED_HISTORY && ApplyPlan(db, experience, plan, now).1.Ok?
    requires Entered(db.ledger, plan.hash, plan.selections, id)
    requires h.spool == ApplyPlan(db, experience, plan, now).0.spool && SpoolRuns.Invariant(h)
    requires SpoolRuns.Enabled(h, a) && a.step.DoClaim? && |a.step.batch| < a.step.limit && a.now >= now
    requires id in h.spool.records && ParseRow(h.spool.records[id]).Some?
    ensures id in SpoolRuns.Handed(h.spool, a.step.batch)
  {
    hide Entered, ApplyPlan, SpoolRuns.Invariant, SpoolRuns.Enabled;
    AppliedStartsAfresh(db, experience, plan, now, id);
    DueIsHandedOut(h, a, id, now, 0);
  }

  lemma {:induction false} StaleAfterOne(db: Database, experience: Experience, plan: Plan, selections: seq<Selection>,
      times: seq<int>)
    requires |times| == |selections| && Process(db, experience, plan, selections, times).stale
    requires forall selection :: selection in selections ==> Fine(db, experience, plan, selection)
    ensures Process(db, experience, plan, selections, times).applied > 0
    decreases |selections|
  {
    if selections != [] && WasApplied(db, plan, selections[0]) {
      StaleAfterOne(db, experience, plan, selections[1..], times[1..]);
    } else {
      assert selections[0] in selections;
    }
  }

  // ---- plans in the order in which they are applied ----

  /** The first k selections were requeued, and the others are not in the ledger: so the calls for a plan leave it. */
  ghost predicate Begun(db: Database, plan: Plan, k: nat) {
    && k <= |plan.selections| && |db.ledger| <= MAX_APPLIED_HISTORY
    && (forall i :: 0 <= i < k ==> Outgrown(db.spool, plan.selections[i]))
    && (forall i :: k <= i < |plan.selections| ==> !WasApplied(db, plan, plan.selections[i]))
  }

  /** The delivery is in a later generation. */
  predicate Outgrown(s: Spool, selection: Selection) {
    selection.id in s.recovery ==> s.recovery[selection.id].generation > selection.generation
  }

  lemma OutgrownIsStale(s: Spool, experience: Experience, repositoryId: string, selection: Selection)
    requires Outgrown(s, selection)
    ensures !Current(s, experience, repositoryId, selection)
  {
  }

  /** In that order the known selections come before those that add entries: one for each of the others. */
  lemma {:induction false} AddedInOrder(db: Database, plan: Plan, k: nat, n: nat)
    requires Begun(db, plan, k) && n <= |plan.selections|
    requires forall i :: 0 <= i < k ==> WasApplied(db, plan, plan.selections[i])
    ensures Added(db.ledger, plan.hash, plan.selections, n) == if n <= k then 0 else n - k
  {
    hide Survives;
    if n > 0 {
      AddedInOrder(db, plan, k, n - 1);
      var id := plan.selections[n - 1].id;
      KnownSurvives(db.ledger, plan.hash, id);
      if Survives(db.ledger, plan.hash, id, if n - 1 <= k then 0 else n - 1 - k) {
        FewerSurvive(db.ledger, plan.hash, id, if n - 1 <= k then 0 else n - 1 - k);
      }
    }
  }

  lemma {:induction false} AddedOfPrefix(ledger: Ledger, hash: nat, selections: seq<Selection>, n: nat, m: nat)
    requires n <= m <= |selections|
    ensures Added(ledger, hash, selections[..m], n) == Added(ledger, hash, selections, n)
  {
    if n > 0 {
      AddedOfPrefix(ledger, hash, selections, n - 1, m);
    }
  }

  lemma FewerSurvive(ledger: Ledger, hash: nat, id: DeliveryId, n: nat)
    requires Survives(ledger, hash, id, n)
    ensures Survives(ledger, hash, id, 0)
  {
  }

  /** Plans in that order are never forgotten while they are applied: completely, or nothing is changed. */
  lemma InOrderIsComplete(db: Database, experience: Experience, plan: Plan, k: nat)
    requires Begun(db, plan, k) && AllFine(db, experience, plan)
    ensures !SomeForgotten(db, experience, plan, plan.selections)
  {
    hide Survives, Current;
    KnownOfBegun(db, experience, plan, k);
    forall j | 0 <= j < |plan.selections| ensures !ForgottenAt(db, experience, plan, plan.selections, j) {
      assert plan.selections[j] in plan.selections;
      AddedInOrder(db, plan, k, j);
      KnownSurvives(db.ledger, plan.hash, plan.selections[j].id);
    }
  }

  lemma KnownOfBegun(db: Database, experience: Experience, plan: Plan, k: nat)
    requires Begun(db, plan, k) && AllFine(db, experience, plan)
    ensures forall i :: 0 <= i < k ==> WasApplied(db, plan, plan.selections[i])
    ensures forall i :: k <= i < |plan.selections| ==>
              Current(db.spool, experience, plan.repositoryId, plan.selections[i])
  {
    hide Current;
    forall i | 0 <= i < |plan.selections|
      ensures if i < k then WasApplied(db, plan, plan.selections[i])
              else Current(db.spool, experience, plan.repositoryId, plan.selections[i])
    {
      assert plan.selections[i] in plan.selections;
      if i < k {
        OutgrownIsStale(db.spool, experience, plan.repositoryId, plan.selections[i]);
      }
    }
  }

  lemma BegunOne(db: Database, experience: Experience, plan: Plan, k: nat, i: nat, now: int)
    requires Begun(db, plan, k) && DistinctIds(plan.selections) && i < |plan.selections| && i <= k
    requires !WasApplied(db, plan, plan.selections[i])
    requires Current(db.spool, experience, plan.repositoryId, plan.selections[i])
    ensures k == i && Begun(Applied(db, plan, plan.selections[i], now), plan, i + 1)
  {
    assert k == i;
  }

  /** Stopping a call after any number of selections keeps that order. */
  lemma {:induction false} BegunStays(db: Database, experience: Experience, plan: Plan, k: nat, m: nat, times: seq<int>)
    requires Begun(db, plan, k) && DistinctIds(plan.selections) && m == |times| <= |plan.selections|
    ensures var outcome := Process(db, experience, plan, plan.selections[..m], times);
      var done := outcome.applied + outcome.alreadyApplied;
      done <= m && (!outcome.stale ==> done == m) && Begun(outcome.db, plan, if done <= k then k else done)
  {
    hide Begun, WasApplied, Current, Requeue, Noted;
    var selections := plan.selections;
    if m > 0 {
      BegunStays(db, experience, plan, k, m - 1, times[..m - 1]);
      assert selections[..m] == selections[..m - 1] + [selections[m - 1]];
      assert times[..|selections[..m - 1]|] == times[..m - 1] && times[m - 1..] == [times[m - 1]];
      ProcessParts(db, experience, plan, selections[..m - 1], [selections[m - 1]], times);
      var a := Process(db, experience, plan, selections[..m - 1], times[..m - 1]);
      ProcessOne(a.db, experience, plan, selections[m - 1], times[m - 1]);
      var j := if m - 1 <= k then k else m - 1;
      if !a.stale {
        if WasApplied(a.db, plan, selections[m - 1]) {
          BegunKnows(a.db, plan, j, m - 1);
        } else if Current(a.db.spool, experience, plan.repositoryId, selections[m - 1]) {
          BegunOne(a.db, experience, plan, j, m - 1, times[m - 1]);
        }
      }
    }
  }

  lemma BegunKnows(db: Database, plan: Plan, k: nat, i: nat)
    requires Begun(db, plan, k) && i < |plan.selections| && WasApplied(db, plan, plan.selections[i])
    ensures i < k
  {
  }

  lemma ProcessOne(db: Database, experience: Experience, plan: Plan, selection: Selection, now: int)
    ensures Process(db, experience, plan, [selection], [now]) ==
            if WasApplied(db, plan, selection) then Outcome(db, 0, 1, false)
            else if !Current(db.spool, experience, plan.repositoryId, selection) then Outcome(db, 0, 0, true)
            else Outcome(Applied(db, plan, selection, now), 1, 0, false)
  {
    hide WasApplied, Current, Requeue, Noted;
    var nothing: seq<Selection> := [];
    assert [selection][1..] == nothing;
  }

  lemma {:induction false} OthersStay(db: Database, experience: Experience, plan: Plan, selections: seq<Selection>,
      times: seq<int>, other: Selection)
    requires |times| == |selections| && forall i :: 0 <= i < |selections| ==> selections[i].id != other.id
    ensures var after := Process(db, experience, plan, selections, times).db;
      Current(after.spool, experience, plan.repositoryId, other) <==>
      Current(db.spool, experience, plan.repositoryId, other)
    decreases |selections|
  {
    hide WasApplied, Requeue, Noted, RecordScope;
    if selections != [] {
      if WasApplied(db, plan, selections[0]) {
        OthersStay(db, experience, plan, selections[1..], times[1..], other);
      } else if Current(db.spool, experience, plan.repositoryId, selections[0]) {
        OthersUntouched(db, experience, plan, selections[0], times[0], other);
        OthersStay(Applied(db, plan, selections[0], times[0]), experience, plan, selections[1..], times[1..], other);
      }
    }
  }

  // ---- stopping and resuming ----

  /** The entries that processing up to the j-th selection adds when the first k are known. */
  function Fresh(k: nat, j: nat): nat {
    if j <= k then 0 else j - k
  }

  /** The selections that were requeued before this call outlive the entries that it adds before it stops. */
  ghost predicate Outlives(db: Database, plan: Plan, k: nat, j: nat)
    requires k <= |plan.selections|
  {
    forall i :: 0 <= i < k ==> Survives(db.ledger, plan.hash, plan.selections[i].id, Fresh(k, j))
  }

  lemma KnownWhenStopped(db: Database, experience: Experience, plan: Plan, k: nat, j: nat, times: seq<int>, i: nat)
    requires ValidPlan(plan) && AllFine(db, experience, plan) && Begun(db, plan, k) && j == |times| <= |plan.selections|
    requires i < |plan.selections| && (i < j || i < k)
             && !Process(db, experience, plan, plan.selections[..j], times).stale
    ensures WasApplied(Process(db, experience, plan, plan.selections[..j], times).db, plan, plan.selections[i]) <==>
            k <= i || Survives(db.ledger, plan.hash, plan.selections[i].id, Fresh(k, j))
  {
    hide Survives, Current, Process;
    var first, id := plan.selections[..j], plan.selections[i].id;
    var stopped := Process(db, experience, plan, first, times).db;
    KnownOfBegun(db, experience, plan, k);
    LedgerExactly(db, experience, plan, first, times, id, 0);
    KnownSurvives(stopped.ledger, plan.hash, id);
    KnownSurvives(db.ledger, plan.hash, id);
    AddedInOrder(db, plan, k, j);
    AddedOfPrefix(db.ledger, plan.hash, plan.selections, j, j);
    if i < j {
      AddedInOrder(db, plan, k, i);
      AddedOfPrefix(db.ledger, plan.hash, plan.selections, i, j);
      assert first[i].id == id;
      if k <= i && Survives(db.ledger, plan.hash, id, i - k) {
        FewerSurvive(db.ledger, plan.hash, id, i - k);
      }
    }
    assert i < k ==> !Entered(db.ledger, plan.hash, first, id);
  }

  /**
   * A call that stops after j selections can be resumed if and only if the ledger still knows what was requeued before
   * it. Then the next call leaves the database of a call without interruption in which the first j selections were
   * processed at the earlier times; otherwise it changes nothing.
   */
  lemma Resumable(db: Database, experience: Experience, plan: Plan, k: nat, j: nat, times: seq<int>, later: seq<int>)
    requires ValidPlan(plan) && AllFine(db, experience, plan) && Begun(db, plan, k)
    requires j <= |plan.selections| == |times| == |later|
    ensures var stopped := Process(db, experience, plan, plan.selections[..j], times[..j]).db;
      var resumed := Process(stopped, experience, plan, plan.selections, later);
      && Begun(stopped, plan, if j <= k then k else j)
      && (AllFine(stopped, experience, plan) <==> Outlives(db, plan, k, j))
      && (Outlives(db, plan, k, j) ==>
            && resumed.db == Process(db, experience, plan, plan.selections, times[..j] + later[j..]).db
            && !resumed.stale && resumed.alreadyApplied >= j
            && resumed.applied + resumed.alreadyApplied == |plan.selections|
            && Begun(resumed.db, plan, |plan.selections|))
  {
    hide Begun, Survives, Current, WasApplied, Process;
    var selections := plan.selections;
    var first, second := selections[..j], selections[j..];
    var mixed := times[..j] + later[j..];
    assert selections == first + second && mixed[..j] == times[..j] && mixed[j..] == later[j..];
    InOrderIsComplete(db, experience, plan, k);
    BegunIsShort(db, plan, k);
    ProcessExactly(db, experience, plan, selections, mixed);
    ProcessParts(db, experience, plan, first, second, mixed);
    var stopped := Process(db, experience, plan, first, times[..j]).db;
    BegunStays(db, experience, plan, k, j, times[..j]);
    StoppedIsFine(db, experience, plan, k, j, times[..j]);
    if Outlives(db, plan, k, j) {
      InOrderIsComplete(stopped, experience, plan, if j <= k then k else j);
      BegunIsShort(stopped, plan, if j <= k then k else j);
      ProcessExactly(stopped, experience, plan, selections, later);
      assert selections[..|selections|] == selections;
      BegunStays(stopped, experience, plan, if j <= k then k else j, |selections|, later);
      forall selection | selection in first ensures WasApplied(stopped, plan, selection) {
        var i :| 0 <= i < j && first[i] == selection;
        KnownWhenStopped(db, experience, plan, k, j, times[..j], i);
      }
      NothingLeft(stopped, experience, plan, first, later[..j]);
      ProcessParts(stopped, experience, plan, first, second, later);
    }
  }

  lemma BegunIsShort(db: Database, plan: Plan, k: nat)
    requires Begun(db, plan, k)
    ensures k <= |plan.selections| && |db.ledger| <= MAX_APPLIED_HISTORY
  {
  }

  lemma StoppedIsFine(db: Database, experience: Experience, plan: Plan, k: nat, j: nat, times: seq<int>)
    requires ValidPlan(plan) && AllFine(db, experience, plan) && Begun(db, plan, k) && j == |times| <= |plan.selections|
    requires !Process(db, experience, plan, plan.selections[..j], times).stale
    ensures AllFine(Process(db, experience, plan, plan.selections[..j], times).db, experience, plan) <==>
              Outlives(db, plan, k, j)
  {
    hide Survives, Current, Process, WasApplied;
    var first := plan.selections[..j];
    var stopped := Process(db, experience, plan, first, times).db;
    BegunStays(db, experience, plan, k, j, times);
    KnownOfBegun(db, experience, plan, k);
    forall i | 0 <= i < |plan.selections|
      ensures Fine(stopped, experience, plan, plan.selections[i]) <==>
              k <= i || Survives(db.ledger, plan.hash, plan.selections[i].id, Fresh(k, j))
    {
      if i < j || i < k {
        KnownWhenStopped(db, experience, plan, k, j, times, i);
        OutgrownIsStale(stopped.spool, experience, plan.repositoryId, plan.selections[i]);
      } else {
        OthersStay(db, experience, plan, first, times, plan.selections[i]);
      }
    }
    if Outlives(db, plan, k, j) {
      forall selection | selection in plan.selections ensures Fine(stopped, experience, plan, selection) {
        var i :| 0 <= i < |plan.selections| && plan.selections[i] == selection;
      }
    } else {
      var i :| 0 <= i < k && !Survives(db.ledger, plan.hash, plan.selections[i].id, Fresh(k, j));
      assert plan.selections[i] in plan.selections;
    }
  }

  /** A plan of which every selection was requeued changes nothing any more, whatever the ledger has forgotten. */
  lemma FinishedIsFinished(db: Database, experience: Experience, plan: Plan, now: int)
    requires ValidPlan(plan) && Begun(db, plan, |plan.selections|)
    ensures var (after, result) := ApplyPlan(db, experience, plan, now);
      after == db && result == if AllFine(db, experience, plan) then Ok((0, |plan.selections|)) else Err(StalePlan)
  {
    hide Current, WasApplied;
    if AllFine(db, experience, plan) {
      KnownOfBegun(db, experience, plan, |plan.selections|);
      forall selection | selection in plan.selections ensures WasApplied(db, plan, selection) {
        var i :| 0 <= i < |plan.selections| && plan.selections[i] == selection;
      }
      NothingLeft(db, experience, plan, plan.selections, Repeated(now, |plan.selections|));
    }
  }

  /**
   * A plan is invalid exactly if it has more than a hundred selections, or one delivery twice, or a selection that
   * cannot have come from a held or quarantined delivery; then nothing changes.
   */
  lemma InvalidExactly(db: Database, experience: Experience, plan: Plan, now: int)
    ensures ApplyPlan(db, experience, plan, now) == (db, Err(InvalidPlan)) <==>
            || |plan.selections| > 100
            || (exists i, j :: 0 <= i < j < |plan.selections| && plan.selections[i].id == plan.selections[j].id)
            || (exists selection :: selection in plan.selections
                  && (selection.state in {Eligible, WaitingDependency, RecoveryState.Committed}
                      || selection.generation == 0))
  {
  }

  /** The spool database as the recovery tool writes it. */
  class RecoveryDatabase {
    var spool: Spool
    var ledger: Ledger

    function Contents(): Database
      reads this
    {
      Database(spool, ledger)
    }

    method Apply(experience: Experience, plan: Plan, now: int) returns (result: Result<(nat, nat), Failure>)
      modifies this
      ensures (Contents(), result) == ApplyPlan(old(Contents()), experience, plan, now)
    {
      if !ValidPlan(plan) {
        return Err(InvalidPlan);
      }
      for i := 0 to |plan.selections|
        invariant Contents() == old(Contents())
        invariant forall j :: 0 <= j < i ==> Fine(Contents(), experience, plan, plan.selections[j])
      {
        if !WasApplied(Contents(), plan, plan.selections[i])
          && !Current(spool, experience, plan.repositoryId, plan.selections[i]) {
          assert plan.selections[i] in plan.selections && !Fine(Contents(), experience, plan, plan.selections[i]);
          return Err(StalePlan);
        }
      }
      result := ApplyEach(experience, plan, now);
    }

    /** The second pass: each selection in its own transaction. */
    method ApplyEach(experience: Experience, plan: Plan, now: int) returns (result: Result<(nat, nat), Failure>)
      modifies this
      ensures var outcome := Process(old(Contents()), experience, plan, plan.selections,
                                     Repeated(now, |plan.selections|));
        && Contents() == outcome.db
        && result == if outcome.stale then Err(StalePlan) else Ok((outcome.applied, outcome.alreadyApplied))
    {
      hide WasApplied, Requeue, Noted, RecordScope;
      var applied, alreadyApplied := 0, 0;
      var selections := plan.selections;
      ghost var times := Repeated(now, |selections|);
      ghost var whole := Process(Contents(), experience, plan, selections, times);
      for i := 0 to |selections|
        invariant var rest := Process(Contents(), experience, plan, selections[i..], times[i..]);
          whole == Outcome(rest.db, applied + rest.applied, alreadyApplied + rest.alreadyApplied, rest.stale)
      {
        var selection := selections[i];
        assert selections[i..][0] == selection && times[i..][0] == now;
        assert selections[i..][1..] == selections[i + 1..] && times[i..][1..] == times[i + 1..];
        if WasApplied(Contents(), plan, selection) {
          alreadyApplied := alreadyApplied + 1;
        } else if !Current(spool, experience, plan.repositoryId, selection) {
          return Err(StalePlan);
        } else {
          spool := Requeue(spool, selection.id, now);
          ledger := Noted(ledger, plan.hash, selection.id);
          applied := applied + 1;
        }
      }
      return Ok((applied, alreadyApplied));
    }
  }
}
