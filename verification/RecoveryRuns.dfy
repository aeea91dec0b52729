/**
 * Recovery plans among everything else that happens to the spool: each selection is applied in a transaction of its
 * own, and between two transactions of a call hooks, drainers and other calls move the database
 * (src/capture/recovery.ts).
 */
module RecoveryRuns {
  import opened Prelude
  import opened CaptureRecords
  import opened SpoolTables
  import opened Recovery
  import opened RecoveryApply
  import SpoolRuns

  /** The database of the spool, and the experience database as recovery reads it. */
  datatype World = World(db: Database, experience: Experience)

  /** The spool or the experience database moves, or some call for a plan comes to its i-th selection. */
  datatype Event = Moved | Turned(plan: Plan, i: nat, now: int)

  /** The transaction of one selection. */
  function Transacted(w: World, plan: Plan, selection: Selection, now: int): World {
    if WasApplied(w.db, plan, selection) || !Current(w.db.spool, w.experience, plan.repositoryId, selection) then w
    else w.(db := Applied(w.db, plan, selection, now))
  }

  predicate FineIn(w: World, plan: Plan, selection: Selection) {
    Fine(w.db, w.experience, plan, selection)
  }

  predicate IsTurn(event: Event, plan: Plan, i: nat) {
    event.Turned? && event.plan == plan && event.i == i
  }

  /**
   * The database while no recovery is written: the ledger stays, and no delivery that was requeued falls back to an
   * earlier generation.
   */
  ghost predicate SpoolMoves(db: Database, next: Database, plan: Plan) {
    && next.ledger == db.ledger
    && forall i :: 0 <= i < |plan.selections| && Outgrown(db.spool, plan.selections[i]) ==>
         Outgrown(next.spool, plan.selections[i])
  }

  /** A hash belongs to one plan. */
  ghost predicate Happens(w: World, v: World, event: Event, plan: Plan) {
    match event
    case Moved => SpoolMoves(w.db, v.db, plan)
    case Turned(other, i, now) =>
      && ValidPlan(other) && i < |other.selections| && (other.hash == plan.hash ==> other == plan)
      && v == Transacted(w, other, other.selections[i], now)
  }

  /** Some call has passed the j-th selection of the plan before the event t. */
  ghost predicate Passed(ws: seq<World>, events: seq<Event>, plan: Plan, j: nat, t: nat)
    requires |ws| == |events| + 1 && t <= |events| && j < |plan.selections|
  {
    exists s: nat :: s < t && IsTurn(events[s], plan, j) && FineIn(ws[s], plan, plan.selections[j])
  }

  /** Any number of calls for the plan and for other plans, and moves, from a ledger that does not know the plan. */
  ghost predicate IsHistory(ws: seq<World>, events: seq<Event>, plan: Plan) {
    && |ws| == |events| + 1 && ValidPlan(plan) && Begun(ws[0].db, plan, 0)
    && (forall t :: 0 <= t < |events| ==> Happens(ws[t], ws[t + 1], events[t], plan))
    && (forall t, i, j: nat :: 0 <= t < |events| && j < i < |plan.selections| && IsTurn(events[t], plan, i) ==>
          Passed(ws, events, plan, j, t))
  }

  // ---- the order in which a plan is applied ----

  /** How many selections of the plan have been passed. */
  ghost function Reached(ws: seq<World>, events: seq<Event>, plan: Plan, t: nat): nat
    requires |ws| == |events| + 1 && t <= |events|
  {
    if t == 0 then 0 else
      var k := Reached(ws, events, plan, t - 1);
      if k < |plan.selections| && IsTurn(events[t - 1], plan, k) && FineIn(ws[t - 1], plan, plan.selections[k])
      then k + 1 else k
  }

  lemma {:induction false} ReachedGrows(ws: seq<World>, events: seq<Event>, plan: Plan, s: nat, t: nat)
    requires |ws| == |events| + 1 && s <= t <= |events|
    ensures Reached(ws, events, plan, s) <= Reached(ws, events, plan, t)
    decreases t
  {
    if s < t {
      ReachedGrows(ws, events, plan, s, t - 1);
    }
  }

  lemma PassedIsReached(ws: seq<World>, events: seq<Event>, plan: Plan, j: nat, t: nat)
    requires IsHistory(ws, events, plan) && t <= |events| && j < |plan.selections| && Passed(ws, events, plan, j, t)
    ensures j < Reached(ws, events, plan, t)
    decreases t, 0
  {
    hide Happens, FineIn;
    var s: nat :| s < t && IsTurn(events[s], plan, j) && FineIn(ws[s], plan, plan.selections[j]);
    TurnsInOrder(ws, events, plan, s);
    ReachedGrows(ws, events, plan, s + 1, t);
  }

  /** No turn is ahead of what was passed. */
  lemma TurnsInOrder(ws: seq<World>, events: seq<Event>, plan: Plan, t: nat)
    requires IsHistory(ws, events, plan) && t < |events| && events[t].Turned? && events[t].plan == plan
    ensures events[t].i <= Reached(ws, events, plan, t) && events[t].i < |plan.selections|
    decreases t, 1
  {
    hide Passed;
    assert Happens(ws[t], ws[t + 1], events[t], plan);
    var r := Reached(ws, events, plan, t);
    if r < events[t].i {
      assert IsTurn(events[t], plan, events[t].i);
      PassedIsReached(ws, events, plan, r, t);
    }
  }

  lemma TransactionKeepsOrder(w: World, plan: Plan, k: nat, i: nat, now: int)
    requires Begun(w.db, plan, k) && DistinctIds(plan.selections) && i < |plan.selections| && i <= k
    ensures var v := Transacted(w, plan, plan.selections[i], now);
      Begun(v.db, plan, if i == k && FineIn(w, plan, plan.selections[i]) then k + 1 else k)
    ensures Transacted(w, plan, plan.selections[i], now) == w || k == i
  {
    hide Current, Requeue, Noted;
    if WasApplied(w.db, plan, plan.selections[i]) {
      BegunKnows(w.db, plan, k, i);
    } else if Current(w.db.spool, w.experience, plan.repositoryId, plan.selections[i]) {
      if i < k {
        OutgrownIsStale(w.db.spool, w.experience, plan.repositoryId, plan.selections[i]);
      }
      BegunOne(w.db, w.experience, plan, k, i, now);
    }
  }

  lemma OtherEntryKeepsOrder(db: Database, plan: Plan, k: nat, other: Plan, selection: Selection, now: int)
    requires Begun(db, plan, k) && other.hash != plan.hash && Recoverable(db.spool, selection.id)
    ensures Begun(Applied(db, other, selection, now), plan, k)
  {
  }

  lemma MoveKeepsOrder(db: Database, next: Database, plan: Plan, k: nat)
    requires Begun(db, plan, k) && SpoolMoves(db, next, plan)
    ensures Begun(next, plan, k)
  {
  }

  /** Whatever happens, the selections that were passed are requeued, and the others are not in the ledger. */
  lemma {:induction false} OrderHolds(ws: seq<World>, events: seq<Event>, plan: Plan, t: nat)
    requires IsHistory(ws, events, plan) && t <= |events|
    ensures Begun(ws[t].db, plan, Reached(ws, events, plan, t))
  {
    hide Begun, Passed, FineIn, Transacted;
    if t > 0 {
      OrderHolds(ws, events, plan, t - 1);
      EventKeepsOrder(ws, events, plan, t - 1);
    }
  }

  lemma EventKeepsOrder(ws: seq<World>, events: seq<Event>, plan: Plan, t: nat)
    requires IsHistory(ws, events, plan) && t < |events| && Begun(ws[t].db, plan, Reached(ws, events, plan, t))
    ensures Begun(ws[t + 1].db, plan, Reached(ws, events, plan, t + 1))
  {
    hide Begun, Passed, FineIn, SpoolMoves;
    var k := Reached(ws, events, plan, t);
    assert Happens(ws[t], ws[t + 1], events[t], plan);
    match events[t]
    case Moved => MoveKeepsOrder(ws[t].db, ws[t + 1].db, plan, k);
    case Turned(other, i, now) =>
      if other == plan {
        TurnsInOrder(ws, events, plan, t);
        TransactionKeepsOrder(ws[t], plan, k, i, now);
      } else if ws[t + 1] != ws[t] {
        OtherEntryKeepsOrder(ws[t].db, plan, k, other, other.selections[i], now);
      }
  }

  // ---- at most once ----

  /** The event requeues the i-th selection under the plan. */
  ghost predicate Requeues(ws: seq<World>, events: seq<Event>, plan: Plan, i: nat, t: nat)
    requires |ws| == |events| + 1 && t < |events| && i < |plan.selections|
  {
    && IsTurn(events[t], plan, i) && !WasApplied(ws[t].db, plan, plan.selections[i])
    && Current(ws[t].db.spool, ws[t].experience, plan.repositoryId, plan.selections[i])
  }

  lemma RequeueIsFirst(ws: seq<World>, events: seq<Event>, plan: Plan, i: nat, t: nat)
    requires IsHistory(ws, events, plan) && t < |events| && i < |plan.selections| && Requeues(ws, events, plan, i, t)
    ensures Reached(ws, events, plan, t) == i && Reached(ws, events, plan, t + 1) == i + 1
  {
    hide Current, Passed, Happens;
    TurnsInOrder(ws, events, plan, t);
    OrderHolds(ws, events, plan, t);
    if i < Reached(ws, events, plan, t) {
      OutgrownIsStale(ws[t].db.spool, ws[t].experience, plan.repositoryId, plan.selections[i]);
    }
  }

  /** However many calls for a plan there are, at once or one after another, each selection is requeued at most once. */
  lemma RequeuedAtMostOnce(ws: seq<World>, events: seq<Event>, plan: Plan, i: nat, s: nat, t: nat)
    requires IsHistory(ws, events, plan) && s < |events| && t < |events| && i < |plan.selections|
    requires Requeues(ws, events, plan, i, s) && Requeues(ws, events, plan, i, t)
    ensures s == t
  {
    hide Requeues, Reached, Begun, Happens, Passed;
    RequeueIsFirst(ws, events, plan, i, s);
    RequeueIsFirst(ws, events, plan, i, t);
    if s < t {
      ReachedGrows(ws, events, plan, s + 1, t);
    } else if t < s {
      ReachedGrows(ws, events, plan, t + 1, s);
    }
  }

  // ---- one call among others ----

  /** A call: its check, and the events at which it came to its selections, of which only the last one may fail. */
  ghost predicate IsCall(ws: seq<World>, events: seq<Event>, plan: Plan, check: nat, turns: seq<nat>) {
    && IsHistory(ws, events, plan) && check <= |events| && |turns| <= |plan.selections|
    && AllFine(ws[check].db, ws[check].experience, plan)
    && (forall i :: 0 <= i < |turns| ==> check <= turns[i] < |events| && IsTurn(events[turns[i]], plan, i))
    && (forall i, j :: 0 <= i < j < |turns| ==> turns[i] < turns[j])
    && (forall i :: 0 <= i < |turns| - 1 ==> FineIn(ws[turns[i]], plan, plan.selections[i]))
  }

  lemma TurnIsReached(ws: seq<World>, events: seq<Event>, plan: Plan, i: nat, t: nat)
    requires IsHistory(ws, events, plan) && t < |events| && i < |plan.selections| && IsTurn(events[t], plan, i)
    requires FineIn(ws[t], plan, plan.selections[i])
    ensures Reached(ws, events, plan, t + 1) > i
  {
    hide Happens, FineIn;
    TurnsInOrder(ws, events, plan, t);
  }

  /** A call that got through leaves the whole plan requeued for good: no later call changes anything. */
  lemma CallThrough(ws: seq<World>, events: seq<Event>, plan: Plan, check: nat, turns: seq<nat>, t: nat, now: int)
    requires IsCall(ws, events, plan, check, turns) && |turns| == |plan.selections|
    requires turns != [] ==> FineIn(ws[turns[|turns| - 1]], plan, plan.selections[|turns| - 1])
    requires check <= t <= |events| && (turns != [] ==> turns[|turns| - 1] < t)
    ensures Begun(ws[t].db, plan, |plan.selections|)
    ensures ApplyPlan(ws[t].db, ws[t].experience, plan, now).0 == ws[t].db
  {
    hide Begun, FineIn, IsHistory;
    var n := |plan.selections|;
    HistoryIsValid(ws, events, plan);
    OrderHolds(ws, events, plan, t);
    BegunIsShort(ws[t].db, plan, Reached(ws, events, plan, t));
    if n > 0 {
      TurnIsReached(ws, events, plan, n - 1, turns[n - 1]);
      ReachedGrows(ws, events, plan, turns[n - 1] + 1, t);
    }
    FinishedIsFinished(ws[t].db, ws[t].experience, plan, now);
  }

  lemma HistoryIsValid(ws: seq<World>, events: seq<Event>, plan: Plan)
    requires IsHistory(ws, events, plan)
    ensures ValidPlan(plan) && |ws| == |events| + 1
  {
  }

  /** The event makes a selection stale that was not. */
  ghost predicate Spoils(ws: seq<World>, plan: Plan, i: nat, s: nat)
    requires s + 1 < |ws| && i < |plan.selections|
  {
    FineIn(ws[s], plan, plan.selections[i]) && !FineIn(ws[s + 1], plan, plan.selections[i])
  }

  lemma {:induction false} SomethingSpoils(ws: seq<World>, plan: Plan, i: nat, from: nat, t: nat)
    requires from <= t < |ws| && i < |plan.selections|
    requires FineIn(ws[from], plan, plan.selections[i]) && !FineIn(ws[t], plan, plan.selections[i])
    ensures exists s: nat :: from <= s < t && Spoils(ws, plan, i, s)
    decreases t - from
  {
    hide FineIn;
    if FineIn(ws[from + 1], plan, plan.selections[i]) {
      SomethingSpoils(ws, plan, i, from + 1, t);
    } else {
      assert Spoils(ws, plan, i, from);
    }
  }

  /** An earlier turn of the same plan makes no later selection stale. */
  lemma EarlierTurnSpoilsNothing(ws: seq<World>, events: seq<Event>, plan: Plan, j: nat, i: nat, s: nat)
    requires IsHistory(ws, events, plan) && s < |events| && j < i < |plan.selections| && IsTurn(events[s], plan, j)
    ensures !Spoils(ws, plan, i, s)
  {
    hide Current, Requeue, Noted;
    assert Happens(ws[s], ws[s + 1], events[s], plan);
    if FineIn(ws[s], plan, plan.selections[i]) && ws[s + 1] != ws[s] {
      RequeueIsFirst(ws, events, plan, j, s);
      OrderHolds(ws, events, plan, s);
      assert !WasApplied(ws[s].db, plan, plan.selections[i]);
      TurnKeepsCurrent(ws[s], plan, j, i, events[s].now);
    }
  }

  lemma TurnKeepsCurrent(w: World, plan: Plan, j: nat, i: nat, now: int)
    requires DistinctIds(plan.selections) && j < i < |plan.selections|
    requires Current(w.db.spool, w.experience, plan.repositoryId, plan.selections[i])
    ensures Current(Transacted(w, plan, plan.selections[j], now).db.spool, w.experience, plan.repositoryId,
                    plan.selections[i])
  {
    if Current(w.db.spool, w.experience, plan.repositoryId, plan.selections[j]) {
      OthersUntouched(w.db, w.experience, plan, plan.selections[j], now, plan.selections[i]);
    }
  }

  /**
   * A call fails only because of others: since its check, an event that is none of its own made the selection stale at
   * which it fails. The selections before that stay requeued, and that one is not requeued by the failing turn.
   */
  lemma OnlyOthersSpoil(ws: seq<World>, events: seq<Event>, plan: Plan, check: nat, turns: seq<nat>)
    requires IsCall(ws, events, plan, check, turns) && turns != []
    requires !FineIn(ws[turns[|turns| - 1]], plan, plan.selections[|turns| - 1])
    ensures var i, t := |turns| - 1, turns[|turns| - 1];
      && (exists s: nat :: check <= s < t && s !in turns && Spoils(ws, plan, i, s))
      && ws[t + 1] == ws[t] && Reached(ws, events, plan, t) >= i
      && Begun(ws[t].db, plan, Reached(ws, events, plan, t))
  {
    hide FineIn, Begun, Spoils;
    var i, t := |turns| - 1, turns[|turns| - 1];
    assert plan.selections[i] in plan.selections;
    FineInCheck(ws[check], plan, plan.selections[i]);
    SomethingSpoils(ws, plan, i, check, t);
    var s: nat :| check <= s < t && Spoils(ws, plan, i, s);
    if s in turns {
      var j :| 0 <= j < |turns| && turns[j] == s;
      EarlierTurnSpoilsNothing(ws, events, plan, j, i, s);
    }
    OrderHolds(ws, events, plan, t);
    TurnsInOrder(ws, events, plan, t);
    assert Happens(ws[t], ws[t + 1], events[t], plan);
    NothingTransacted(ws[t], plan, plan.selections[i], events[t].now);
  }

  lemma FineInCheck(w: World, plan: Plan, selection: Selection)
    requires AllFine(w.db, w.experience, plan) && selection in plan.selections
    ensures FineIn(w, plan, selection)
  {
  }

  lemma NothingTransacted(w: World, plan: Plan, selection: Selection, now: int)
    requires !FineIn(w, plan, selection)
    ensures Transacted(w, plan, selection, now) == w
  {
  }

  /** A call that nothing disturbs applies the plan completely or changes nothing, at any point of such a history. */
  lemma CallsAreAllOrNothing(ws: seq<World>, events: seq<Event>, plan: Plan, t: nat, now: int)
    requires IsHistory(ws, events, plan) && t <= |events|
    ensures var w := ws[t];
      var (after, result) := ApplyPlan(w.db, w.experience, plan, now);
      if AllFine(w.db, w.experience, plan) then result.Ok? && result.value.0 + result.value.1 == |plan.selections|
      else result == Err(StalePlan) && after == w.db
  {
    hide Begun, Process, SomeForgotten, Happens, Passed;
    var w, k := ws[t], Reached(ws, events, plan, t);
    OrderHolds(ws, events, plan, t);
    BegunIsShort(w.db, plan, k);
    AllOrNothing(w.db, w.experience, plan, now);
    if AllFine(w.db, w.experience, plan) {
      InOrderIsComplete(w.db, w.experience, plan, k);
    }
  }

  /**
   * A transaction of the spool moves it so, unless it admits a delivery again that the recovery table has forgotten.
   */
  lemma TransactionMoves(h: SpoolRuns.History, a: SpoolRuns.Action, ledger: Ledger, plan: Plan)
    requires SpoolRuns.Invariant(h) && SpoolRuns.Enabled(h, a)
    requires forall selection :: selection in plan.selections ==>
               (selection.id in SpoolRuns.Apply(h, a).spool.recovery ==> selection.id in h.spool.recovery)
    ensures SpoolMoves(Database(h.spool, ledger), Database(SpoolRuns.Apply(h, a).spool, ledger), plan)
  {
    hide SpoolRuns.Invariant, SpoolRuns.Enabled, SpoolRuns.Apply;
    forall i | 0 <= i < |plan.selections| && Outgrown(h.spool, plan.selections[i])
      ensures Outgrown(SpoolRuns.Apply(h, a).spool, plan.selections[i])
    {
      assert plan.selections[i] in plan.selections;
      SpoolRuns.StepEvolves(h, a, plan.selections[i].id);
    }
  }

  // ---- the ledger has no repeated entries ----

  predicate NoRepeats(ledger: Ledger) {
    forall i, j :: 0 <= i < j < |ledger| ==> ledger[i] != ledger[j]
  }

  lemma NotedOnce(ledger: Ledger, hash: nat, id: DeliveryId)
    requires NoRepeats(ledger) && (hash, id) !in ledger
    ensures NoRepeats(Noted(ledger, hash, id))
  {
    var all := ledger + [(hash, id)];
    assert NoRepeats(all);
  }

  lemma {:induction false} LedgerHasNoRepeats(ws: seq<World>, events: seq<Event>, plan: Plan, t: nat)
    requires IsHistory(ws, events, plan) && t <= |events| && NoRepeats(ws[0].db.ledger)
    ensures NoRepeats(ws[t].db.ledger)
  {
    hide NoRepeats, Noted, Current, Requeue, Passed, Begun;
    if t > 0 {
      LedgerHasNoRepeats(ws, events, plan, t - 1);
      assert Happens(ws[t - 1], ws[t], events[t - 1], plan);
      if events[t - 1].Turned? && ws[t] != ws[t - 1] {
        var other, i := events[t - 1].plan, events[t - 1].i;
        NotedOnce(ws[t - 1].db.ledger, other.hash, other.selections[i].id);
      }
    }
  }

  // ---- two plans for one delivery ----

  const INPUT := Parsed(SessionStart(Session("s", Codex, 0, Some("repo"), None, None), None), 1)
  const EXHAUSTED_ROW := SpoolRow(SPOOL_VERSION, INPUT, 1, Pending, 0, 4, 0, None)
  const HELD_ROW := RecoveryRow(1, Held, StorageUnavailable, 1, 4, None, 0)

  function Chosen(id: DeliveryId): Selection {
    Selection(id, INPUT, Held, StorageUnavailable, 1, 4)
  }

  /** Two deliveries that used up their attempts. */
  const HELD_PAIR :=
    Spool(map[3 := EXHAUSTED_ROW, 4 := EXHAUSTED_ROW], map[3 := HELD_ROW, 4 := HELD_ROW.(rowid := 2)], map[],
          Counters(2, 0, 0, 0), 2, 0)

  const BOTH := Plan(1, "repo", [Chosen(3), Chosen(4)])
  const SECOND_ONLY := Plan(2, "repo", [Chosen(4)])

  function Overtaken(t: nat): World
    requires t <= 3
  {
    var start := World(Database(HELD_PAIR, []), None);
    var first := Transacted(start, BOTH, Chosen(3), 0);
    if t == 0 then start else if t == 1 then first else Transacted(first, SECOND_ONLY, Chosen(4), 0)
  }

  const OVERTAKING := [Turned(BOTH, 0, 0), Turned(SECOND_ONLY, 0, 0), Turned(BOTH, 1, 0)]

  function OvertakenRun(): seq<World> {
    seq(4, t requires 0 <= t < 4 => Overtaken(t))
  }

  lemma PairIsReal()
    ensures SpoolRuns.Invariant(SpoolRuns.History(HELD_PAIR, 0, {}, map[]))
  {
    assert |HELD_PAIR.records| == 2;
  }

  lemma OvertakenFacts()
    ensures FineIn(Overtaken(0), BOTH, Chosen(3))
    ensures Overtaken(0).experience == None && AllFine(Overtaken(0).db, None, BOTH)
    ensures Overtaken(1) == Transacted(Overtaken(0), BOTH, Chosen(3), 0)
    ensures Overtaken(2) == Transacted(Overtaken(1), SECOND_ONLY, Chosen(4), 0)
    ensures Overtaken(3) == Transacted(Overtaken(2), BOTH, Chosen(4), 0)
    ensures !FineIn(Overtaken(2), BOTH, Chosen(4)) && Begun(Overtaken(0).db, BOTH, 0)
    ensures var last := Overtaken(3).db;
      && WasApplied(last, BOTH, Chosen(3)) && !WasApplied(last, BOTH, Chosen(4))
      && InRecovery(last.spool, 3, Eligible) && InRecovery(last.spool, 4, Eligible)
  {
  }

  lemma OvertakenIsHistory()
    ensures IsHistory(OvertakenRun(), OVERTAKING, BOTH)
  {
    hide Overtaken, Transacted, Begun, FineIn;
    OvertakenFacts();
    var ws := OvertakenRun();
    forall t | 0 <= t < 3 ensures Happens(ws[t], ws[t + 1], OVERTAKING[t], BOTH) {
    }
    assert Passed(ws, OVERTAKING, BOTH, 0, 2) by {
      assert IsTurn(OVERTAKING[0], BOTH, 0) && FineIn(ws[0], BOTH, BOTH.selections[0]);
    }
  }

  /**
   * A call for both deliveries passes its check and requeues the first. Then a call for the second delivery requeues
   * that, and the first call fails: its plan is applied in part.
   */
  lemma PartlyApplied()
    ensures IsCall(OvertakenRun(), OVERTAKING, BOTH, 0, [0, 2])
    ensures var last := OvertakenRun()[3].db;
      && !FineIn(OvertakenRun()[2], BOTH, Chosen(4))
      && WasApplied(last, BOTH, Chosen(3)) && !WasApplied(last, BOTH, Chosen(4))
      && InRecovery(last.spool, 3, Eligible) && InRecovery(last.spool, 4, Eligible)
  {
    hide Overtaken, IsHistory, FineIn, AllFine, WasApplied;
    OvertakenIsHistory();
    OvertakenFacts();
  }

  // ---- a call that cannot be resumed ----

  /** The delivery 7 was requeued under the plan 1 so long ago that the ledger forgets it with the next entry. */
  function CrowdedLedger(): Ledger {
    [(1, 7)] + seq(MAX_APPLIED_HISTORY - 1, i requires 0 <= i => (i + 2, 8))
  }

  const CROWDED_SPOOL :=
    Spool(map[3 := EXHAUSTED_ROW, 4 := EXHAUSTED_ROW],
          map[7 := HELD_ROW.(state := Committed, generation := 2), 3 := HELD_ROW.(rowid := 2),
              4 := HELD_ROW.(rowid := 3),
              8 := HELD_ROW.(rowid := 4, state := Committed, generation := MAX_APPLIED_HISTORY)],
          map[], Counters(4, 2, 0, 0), 4, 0)

  function CrowdedDatabase(): Database {
    Database(CROWDED_SPOOL, CrowdedLedger())
  }

  const LATE_PLAN := Plan(1, "repo", [Chosen(7), Chosen(3), Chosen(4)])

  /** Such a database keeps every invariant of the spool and of the ledger. */
  lemma CrowdedIsReal()
    ensures SpoolRuns.Invariant(SpoolRuns.History(CROWDED_SPOOL, 0, {7, 8}, map[]))
    ensures NoRepeats(CrowdedLedger()) && |CrowdedLedger()| == MAX_APPLIED_HISTORY
  {
    assert |CROWDED_SPOOL.records| == 2;
  }

  lemma CrowdedIsFine()
    ensures ValidPlan(LATE_PLAN) && AllFine(CrowdedDatabase(), None, LATE_PLAN)
  {
    assert CrowdedLedger()[0] == (1, 7);
  }

  lemma CrowdedForgets()
    ensures Begun(CrowdedDatabase(), LATE_PLAN, 1) && !Outlives(CrowdedDatabase(), LATE_PLAN, 1, 2)
  {
    assert LATE_PLAN.selections[0].id == 7 && !Survives(CrowdedLedger(), 1, 7, 1);
  }

  /** The plan is fine as a whole, but a call that stops after its second selection cannot be resumed. */
  lemma CannotBeResumed(now: int)
    ensures ValidPlan(LATE_PLAN) && AllFine(CrowdedDatabase(), None, LATE_PLAN)
    ensures Begun(CrowdedDatabase(), LATE_PLAN, 1)
    ensures var stopped := Process(CrowdedDatabase(), None, LATE_PLAN, LATE_PLAN.selections[..2], [now, now]).db;
      ApplyPlan(stopped, None, LATE_PLAN, now) == (stopped, Err(StalePlan))
  {
    var db, plan, times := CrowdedDatabase(), LATE_PLAN, [now, now, now];
    CrowdedIsFine();
    CrowdedForgets();
    hide AllFine, Begun, CrowdedDatabase, Outlives, Process;
    assert times[..2] == [now, now];
    Resumable(db, None, plan, 1, 2, times, times);
  }
}
