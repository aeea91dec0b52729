/**
 * A run in which the second transaction of a persist loses a wake-up (src/capture/passive-service.ts:78-92): a request
 * is in the store, its context is refused, and the result that waits for the request is never woken.
 */
module RefusedContext {
  import opened Prelude
  import opened CaptureRecords
  import opened SpoolTables
  import opened Recovery
  import opened SpoolRuns
  import opened DrainRuns
  import StrandedWaiter

  const SESSION := Session("s", Codex, 0, None, None, None)
  const START_RECORD := SessionStart(SESSION, None)
  const RESULT := Technical(Event(Codex, "e", "s", PostResult, 1, Some("r")), None)
  const REQUEST := Technical(Event(Codex, "r", "s", PreAction, 1, None), None)
  const KEY := DependencyKey(Codex, "r")

  /** The rows of the deliveries while they are admitted, claimed and given back; everything happens at one time. */
  function Row(record: CaptureRecord, state: RecordState, attempts: nat, leaseUntil: Option<int>): SpoolRow {
    SpoolRow(SPOOL_VERSION, Parsed(record, 1), 1, state, 0, attempts, 0, leaseUntil)
  }

  function Admitted(record: CaptureRecord): SpoolRow {
    Row(record, Pending, 0, None)
  }

  function ClaimedRow(record: CaptureRecord): SpoolRow {
    Row(record, Claimed, 1, Some(LEASE_MS))
  }

  function Tracked(rowid: nat, state: RecoveryState, attempts: nat): RecoveryRow {
    RecoveryRow(rowid, state, UnknownLegacy, 1, attempts, None, 0)
  }

  const DONE := Tracked(1, Committed, 1)
  const WAITS := RecoveryRow(2, WaitingDependency, MissingRequest, 1, 1, Some(KEY), 0)

  function SpoolWith(records: map<DeliveryId, SpoolRow>, recovery: map<DeliveryId, RecoveryRow>, admitted: nat,
                     committed: nat): Spool {
    Spool(records, recovery, map[], Counters(admitted, committed, 0, 0), admitted, 0)
  }

  /** The spool after each of the moves that change it. */
  const FIRST_ADMITTED := SpoolWith(map[1 := Admitted(START_RECORD)], map[1 := Tracked(1, Eligible, 0)], 1, 0)
  const FIRST_CLAIMED := SpoolWith(map[1 := ClaimedRow(START_RECORD)], map[1 := Tracked(1, Eligible, 1)], 1, 0)
  const FIRST_DONE := SpoolWith(map[], map[1 := DONE], 1, 1)
  const RESULT_ADMITTED :=
    SpoolWith(map[2 := Admitted(RESULT)], map[1 := DONE, 2 := Tracked(2, Eligible, 0)], 2, 1)
  const RESULT_CLAIMED :=
    SpoolWith(map[2 := ClaimedRow(RESULT)], map[1 := DONE, 2 := Tracked(2, Eligible, 1)], 2, 1)
  const RESULT_WAITS := SpoolWith(map[2 := Row(RESULT, Pending, 1, None)], map[1 := DONE, 2 := WAITS], 2, 1)
  const REQUEST_ADMITTED :=
    SpoolWith(map[2 := Row(RESULT, Pending, 1, None), 3 := Admitted(REQUEST)],
              map[1 := DONE, 2 := WAITS, 3 := Tracked(3, Eligible, 0)], 3, 1)
  const REQUEST_CLAIMED :=
    SpoolWith(map[2 := Row(RESULT, Pending, 1, None), 3 := ClaimedRow(REQUEST)],
              map[1 := DONE, 2 := WAITS, 3 := Tracked(3, Eligible, 1)], 3, 1)

  const NOTHING := Store(map[], {})
  const STARTED := Store(map["s" := SESSION], {})

  function Stage(k: nat): World
    requires k <= 12
  {
    match k
    case 0 => INITIAL
    case 1 => World(History(FIRST_ADMITTED, 0, {}, map[1 := 0]), NOTHING, {}, Idle)
    case 2 => World(History(FIRST_ADMITTED, 0, {}, map[1 := 0]), NOTHING, {}, Draining([], Fresh))
    case 3 => World(History(FIRST_CLAIMED, 0, {}, map[1 := 1]), NOTHING, {}, Draining([1], Fresh))
    case 4 => World(History(FIRST_CLAIMED, 0, {1}, map[1 := 1]), STARTED, {1}, Draining([1], Persisted))
    case 5 => World(History(FIRST_CLAIMED, 0, {1}, map[1 := 1]), STARTED, {1}, Draining([1], Released))
    case 6 => World(History(FIRST_DONE, 0, {1}, map[1 := 1]), STARTED, {1}, Draining([], Fresh))
    case 7 => World(History(RESULT_ADMITTED, 0, {1}, map[1 := 1, 2 := 0]), STARTED, {1}, Draining([], Fresh))
    case 8 => World(History(RESULT_CLAIMED, 0, {1}, map[1 := 1, 2 := 1]), STARTED, {1}, Draining([2], Fresh))
    case 9 => World(History(RESULT_WAITS, 0, {1}, map[1 := 1, 2 := 1]), STARTED, {1}, Draining([], Fresh))
    case 10 =>
      World(History(REQUEST_ADMITTED, 0, {1}, map[1 := 1, 2 := 1, 3 := 0]), STARTED, {1}, Draining([], Fresh))
    case 11 =>
      World(History(REQUEST_CLAIMED, 0, {1}, map[1 := 1, 2 := 1, 3 := 1]), STARTED, {1}, Draining([3], Fresh))
    case 12 =>
      World(History(REQUEST_CLAIMED, 0, {1}, map[1 := 1, 2 := 1, 3 := 1]), Recorded(STARTED, REQUEST), {1, 3},
            Draining([3], Stored))
  }

  function MoveAt(k: nat): Move
    requires k <= 12
  {
    match k
    case 0 => Move(Admitting(1, START_RECORD, 1, StrandedWaiter.LIMITS), 0)
    case 1 => Move(Starting, 0)
    case 2 => Move(Claiming([1], 10), 0)
    case 3 => Move(Persisting, 0)
    case 4 => Move(Releasing, 0)
    case 5 => Move(Acknowledging, 0)
    case 6 => Move(Admitting(2, RESULT, 1, StrandedWaiter.LIMITS), 0)
    case 7 => Move(Claiming([2], 10), 0)
    case 8 => Move(DrainRuns.Step.Waiting, 0)
    case 9 => Move(Admitting(3, REQUEST, 1, StrandedWaiter.LIMITS), 0)
    case 10 => Move(Claiming([3], 10), 0)
    case 11 => Move(Persisting, 0)
    case 12 => Move(DrainRuns.Step.Rejected, 0)
  }

  // ---- single moves ----

  ghost predicate Leads(w: World, m: Move, v: World) {
    CanMove(w, m) && After(w, m) == v
  }

  /** A claim when only one delivery can be claimed and no lease or budget has run out. */
  lemma ClaimOnly(w: World, id: DeliveryId)
    requires w.drainer == Draining([], Fresh) && Claimable(w.history.spool, id, 0)
    requires ParseRow(w.history.spool.records[id]).Some?
    requires forall other :: other in w.history.spool.records && other != id ==> !Claimable(w.history.spool, other, 0)
    requires BeforeClaim(w.history.spool, 0) == w.history.spool
    ensures Leads(w, Move(Claiming([id], 10), 0),
                  World(w.history.(spool := ClaimRow(w.history.spool, id, 0),
                                   claims := CountClaims(w.history.claims, {id})),
                        w.store, w.stored, Draining([id], Fresh)))
  {
    hide BeforeClaim, ClaimRow, ParseRow;
    var s := w.history.spool;
    assert [id][..0] == [];
    assert HandedIds(s, [id]) == [id] by {
      assert HandedIds(s, []) == [];
    }
    assert ClaimRows(s, [id], 0) == ClaimRow(s, id, 0);
    assert Handed(s, [id]) == {id};
    assert IsBatch(s, 0, 10, [id]);
  }

  lemma Move0()
    ensures Leads(Stage(0), MoveAt(0), Stage(1))
  {
  }

  lemma Move1()
    ensures Leads(Stage(1), MoveAt(1), Stage(2))
  {
  }

  lemma Move2()
    ensures Leads(Stage(2), MoveAt(2), Stage(3))
  {
    hide Leads;
    assert BeforeClaim(FIRST_ADMITTED, 0) == FIRST_ADMITTED;
    ClaimOnly(Stage(2), 1);
    assert ClaimRow(FIRST_ADMITTED, 1, 0) == FIRST_CLAIMED;
    assert CountClaims(map[1 := 0], {1}) == map[1 := 1];
  }

  lemma Move3()
    ensures Leads(Stage(3), MoveAt(3), Stage(4))
  {
    assert HeadRecord(Stage(3)) == START_RECORD;
    assert Recorded(NOTHING, START_RECORD) == STARTED;
  }

  lemma Move4()
    ensures Leads(Stage(4), MoveAt(4), Stage(5))
  {
    assert HeadRecord(Stage(4)) == START_RECORD;
    assert ReleaseDependency(FIRST_CLAIMED, DependencyKey(Codex, "s"), 0) == FIRST_CLAIMED;
  }

  lemma Move5()
    ensures Leads(Stage(5), MoveAt(5), Stage(6))
  {
    assert Head(Stage(5)) == 1 && Stage(5).drainer.queue[1..] == [];
    assert Acknowledge(FIRST_CLAIMED, 1, 0) == FIRST_DONE;
  }

  lemma Move6()
    ensures Leads(Stage(6), MoveAt(6), Stage(7))
  {
  }

  lemma ResultIsClaimed(s: Spool)
    requires s == RESULT_ADMITTED
    ensures BeforeClaim(s, 0) == s && ClaimRow(s, 2, 0) == RESULT_CLAIMED
  {
  }

  lemma Move7()
    ensures Leads(Stage(7), MoveAt(7), Stage(8))
  {
    hide Leads, BeforeClaim, ClaimRow;
    ResultIsClaimed(RESULT_ADMITTED);
    ClaimOnly(Stage(7), 2);
    assert CountClaims(map[1 := 1, 2 := 0], {2}) == map[1 := 1, 2 := 1];
  }

  lemma Move8()
    ensures Leads(Stage(8), MoveAt(8), Stage(9))
  {
    var w := Stage(8);
    assert HeadRecord(w) == RESULT && w.drainer.queue[1..] == [];
    assert MissingDependency(STARTED, RESULT) == Some(Dependency(MissingRequest, KEY));
    assert WaitForDependency(RESULT_CLAIMED, 2, MissingRequest, KEY, 0) == RESULT_WAITS;
  }

  lemma Move9()
    ensures Leads(Stage(9), MoveAt(9), Stage(10))
  {
    StrandedWaiter.BytesOfOne(2, Row(RESULT, Pending, 1, None));
  }

  lemma NothingExpires(s: Spool)
    requires s == REQUEST_ADMITTED
    ensures BeforeClaim(s, 0) == s
  {
    assert forall id :: id in s.records ==> !Expired(s.records[id], 0) && !Exhausted(s.records, s.recovery, id);
    assert ExpireLeases(s.records, 0) == s.records;
    assert HoldExhausted(s.records, s.recovery, 0) == s.recovery;
  }

  lemma RequestIsClaimed(s: Spool)
    requires s == REQUEST_ADMITTED
    ensures ClaimRow(s, 3, 0) == REQUEST_CLAIMED
  {
  }

  lemma OnlyRequestClaimable(s: Spool)
    requires s == REQUEST_ADMITTED
    ensures Claimable(s, 3, 0) && ParseRow(s.records[3]).Some?
    ensures forall other :: other in s.records && other != 3 ==> !Claimable(s, other, 0)
  {
    assert s.records.Keys == {2, 3};
  }

  lemma Move10()
    ensures Leads(Stage(10), MoveAt(10), Stage(11))
  {
    hide Leads, BeforeClaim, Claimable, ParseRow, ClaimRow;
    NothingExpires(REQUEST_ADMITTED);
    OnlyRequestClaimable(REQUEST_ADMITTED);
    RequestIsClaimed(REQUEST_ADMITTED);
    ClaimOnly(Stage(10), 3);
    assert CountClaims(map[1 := 1, 2 := 1, 3 := 0], {3}) == map[1 := 1, 2 := 1, 3 := 1];
  }

  lemma Move11()
    ensures Leads(Stage(11), MoveAt(11), Stage(12))
  {
    assert HeadRecord(Stage(11)) == REQUEST && HasContext(REQUEST);
  }

  lemma MoveLeads(k: nat)
    requires k < 12
    ensures Leads(Stage(k), MoveAt(k), Stage(k + 1))
  {
    hide Leads;
    match k
    case 0 => Move0();
    case 1 => Move1();
    case 2 => Move2();
    case 3 => Move3();
    case 4 => Move4();
    case 5 => Move5();
    case 6 => Move6();
    case 7 => Move7();
    case 8 => Move8();
    case 9 => Move9();
    case 10 => Move10();
    case 11 => Move11();
  }

  // ---- the run ----

  /** Rejecting the request leaves the result waiting for it. */
  ghost function Last(): World {
    if CanMove(Stage(12), MoveAt(12)) then After(Stage(12), MoveAt(12)) else Stage(12)
  }

  ghost function Run(): seq<World> {
    seq(14, k requires 0 <= k < 14 => if k <= 12 then Stage(k) else Last())
  }

  function Moves(): seq<Move> {
    seq(13, k requires 0 <= k < 13 => MoveAt(k))
  }

  lemma RejectionIsPossible()
    ensures CanMove(Stage(12), MoveAt(12)) && RefusesContext(Stage(12), MoveAt(12))
  {
    assert Head(Stage(12)) == 3 && HeadRecord(Stage(12)) == REQUEST;
  }

  lemma IsRun()
    ensures IsDrainRun(Run(), Moves())
  {
    hide Stage, MoveAt, CanMove, After;
    RejectionIsPossible();
    Leading();
    forall k | 0 <= k < 13
      ensures CanMove(Run()[k], Moves()[k]) && Run()[k + 1] == After(Run()[k], Moves()[k])
    {
      if k < 12 {
        MoveLeads(k);
      } else {
        assert Run()[13] == Last();
      }
    }
  }

  lemma Leading()
    ensures Stage(0) == INITIAL
  {
  }

  /** After its request is stored, the result waits for something that only the head can wake it from. */
  lemma OnlyTheHeadProvides()
    ensures Working(Stage(12)) && Head(Stage(12)) == 3 && StrandsAt(Stage(12), 2)
  {
    var w := Stage(12);
    assert w.history.spool.records.Keys == {2, 3};
    ResultIsMet();
    assert !LiveProvider(w, 2, KEY);
  }

  lemma ResultIsMet()
    ensures Met(Stage(12), 2) && Stage(12).history.spool.recovery[2] == WAITS
    ensures RecordOf(Stage(12).history.spool, 2) == RESULT
  {
    assert MissingDependency(Recorded(STARTED, REQUEST), RESULT).None?;
  }

  lemma ResultKeepsWaiting()
    requires Invariant(Stage(12).history)
    ensures CanMove(Stage(12), MoveAt(12)) && OldWaiter(Stage(12), MoveAt(12), 2)
  {
    hide After, CanMove, Invariant;
    RejectionIsPossible();
    RejectionTakesHead(Stage(12), MoveAt(12), 2);
  }

  /**
   * The run loses a wake-up although no technical record carries a session and there is one source only: it refuses a
   * context.
   */
  lemma ContextIsRefused()
    ensures IsDrainRun(Run(), Moves()) && !NoLostWakeups(Run()[13])
    ensures forall m :: m in Moves() && m.step.Admitting? ==> InScope(m.step.record, (_: string) => Codex)
    ensures RefusesContext(Run()[12], Moves()[12])
  {
    hide IsDrainRun, Stage, After, CanMove, MoveAt, StrandsAt, NoLostWakeupAt, OldWaiter, Met;
    IsRun();
    RejectionIsPossible();
    OnlyTheHeadProvides();
    ResultIsMet();
    RecordsInScope();
    LastMove();
    assert Run()[12] == Stage(12) && Run()[13] == Last() && Moves()[12] == MoveAt(12);
    DrainInvariantHolds(Run(), Moves(), 12);
    ResultKeepsWaiting();
    RejectedMet(Stage(12), MoveAt(12), 2);
    assert !NoLostWakeupAt(Run()[13], 2);
  }

  lemma LastMove()
    ensures MoveAt(12).step.Rejected?
  {
  }

  lemma RecordsInScope()
    ensures forall m :: m in Moves() && m.step.Admitting? ==> InScope(m.step.record, (_: string) => Codex)
  {
  }
}
