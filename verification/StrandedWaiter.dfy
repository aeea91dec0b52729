/**
 * Runs that lose a wake-up (src/capture/spool-drain.ts, src/capture/passive-service.ts): whatever record inserts an
 * awaited session without releasing the key under which it is awaited strands the waiter, and two kinds of records do.
 */
module StrandedWaiter {
  import opened Prelude
  import opened CaptureRecords
  import opened SpoolTables
  import opened Recovery
  import opened SpoolRuns
  import opened DrainRuns

  const LIMITS := Limits(10, 10)
  const NOTHING := Store(map[], {})
  const ENDING := SessionEnd(Codex, "s", 1, None)
  const KEY := DependencyKey(Codex, "s")

  /**
   * A record that can be persisted at once, inserts the session "s" and does not release the key that its end waits
   * for.
   */
  ghost predicate InsertsUnreleased(late: CaptureRecord) {
    && InsertedSession(late).Some? && InsertedSession(late).value.id == "s" && ReleasedKey(late) != Some(KEY)
    && MissingDependency(NOTHING, late).None?
  }

  /** A request that carries its session: the key of the request is released, the key of the session is not. */
  const EMBEDDING := Technical(Event(Codex, "e", "s", PreAction, 1, None),
                               Some(Session("s", Codex, 0, None, None, None)))

  /** The start of a session that has the same id at another source: the store looks sessions up by their id alone. */
  const OTHER_START := SessionStart(Session("s", Cursor, 0, None, None, None), None)

  /** The rows of the two deliveries: the end of the session, and the late record. */
  function EndingRow(state: RecordState, attempts: nat, leaseUntil: Option<int>): SpoolRow {
    SpoolRow(SPOOL_VERSION, Parsed(ENDING, 1), 1, state, 0, attempts, 0, leaseUntil)
  }

  function LateRow(late: CaptureRecord, state: RecordState, attempts: nat, leaseUntil: Option<int>): SpoolRow {
    SpoolRow(SPOOL_VERSION, Parsed(late, 1), 1, state, 1, attempts, 1, leaseUntil)
  }

  const ELIGIBLE := RecoveryRow(1, Eligible, UnknownLegacy, 1, 0, None, 0)
  const WAITING := RecoveryRow(1, WaitingDependency, MissingSession, 1, 1, Some(KEY), 0)
  const SECOND := RecoveryRow(2, Eligible, UnknownLegacy, 1, 0, None, 1)

  function SpoolWith(records: map<DeliveryId, SpoolRow>, recovery: map<DeliveryId, RecoveryRow>, admitted: nat): Spool {
    Spool(records, recovery, map[], Counters(admitted, 0, 0, 0), admitted, 0)
  }

  /** The spool after the first claim, the wait, the second admission and the second claim. */
  const ENDING_ADMITTED := SpoolWith(map[1 := EndingRow(Pending, 0, None)], map[1 := ELIGIBLE], 1)
  const ENDING_CLAIMED := SpoolWith(map[1 := EndingRow(Claimed, 1, Some(LEASE_MS))], map[1 := ELIGIBLE.(attempts := 1)],
                                    1)
  const ENDING_WAITS := SpoolWith(map[1 := EndingRow(Pending, 1, None)], map[1 := WAITING], 1)

  function LateAdmitted(late: CaptureRecord): Spool {
    SpoolWith(map[1 := EndingRow(Pending, 1, None), 2 := LateRow(late, Pending, 0, None)],
              map[1 := WAITING, 2 := SECOND], 2)
  }

  function LateClaimed(late: CaptureRecord): Spool {
    SpoolWith(map[1 := EndingRow(Pending, 1, None), 2 := LateRow(late, Claimed, 1, Some(1 + LEASE_MS))],
              map[1 := WAITING, 2 := SECOND.(attempts := 1)], 2)
  }

  function Stage(late: CaptureRecord, k: nat): World
    requires k < 8
  {
    match k
    case 0 => INITIAL
    case 1 => World(History(ENDING_ADMITTED, 0, {}, map[1 := 0]), NOTHING, {}, Idle)
    case 2 => World(History(ENDING_ADMITTED, 0, {}, map[1 := 0]), NOTHING, {}, Draining([], Fresh))
    case 3 => World(History(ENDING_CLAIMED, 0, {}, map[1 := 1]), NOTHING, {}, Draining([1], Fresh))
    case 4 => World(History(ENDING_WAITS, 0, {}, map[1 := 1]), NOTHING, {}, Draining([], Fresh))
    case 5 => World(History(LateAdmitted(late), 0, {}, map[1 := 1, 2 := 0]), NOTHING, {}, Draining([], Fresh))
    case 6 => World(History(LateClaimed(late), 0, {}, map[1 := 1, 2 := 1]), NOTHING, {}, Draining([2], Fresh))
    case 7 =>
      World(History(LateClaimed(late), 0, if HasContext(late) then {} else {2}, map[1 := 1, 2 := 1]),
            Recorded(NOTHING, late), {2}, Draining([2], if HasContext(late) then Stored else Persisted))
  }

  function Stages(late: CaptureRecord): seq<World> {
    seq(8, k requires 0 <= k < 8 => Stage(late, k))
  }

  function MoveAt(late: CaptureRecord, k: nat): Move
    requires k < 7
  {
    match k
    case 0 => Move(Admitting(1, ENDING, 1, LIMITS), 0)
    case 1 => Move(Starting, 0)
    case 2 => Move(Claiming([1], 10), 0)
    case 3 => Move(DrainRuns.Step.Waiting, 0)
    case 4 => Move(Admitting(2, late, 1, LIMITS), 1)
    case 5 => Move(Claiming([2], 10), 1)
    case 6 => Move(Persisting, 1)
  }

  function Moves(late: CaptureRecord): seq<Move> {
    seq(7, k requires 0 <= k < 7 => MoveAt(late, k))
  }

  lemma BytesOfOne(id: DeliveryId, row: SpoolRow)
    ensures TotalBytes(map[id := row]) == row.payloadBytes
  {
    TotalBytesRemove(map[id := row], id);
    assert map[id := row] - {id} == map[];
  }

  lemma Stage0(late: CaptureRecord)
    ensures CanMove(Stage(late, 0), MoveAt(late, 0)) && After(Stage(late, 0), MoveAt(late, 0)) == Stage(late, 1)
  {
  }

  lemma Stage1(late: CaptureRecord)
    ensures CanMove(Stage(late, 1), MoveAt(late, 1)) && After(Stage(late, 1), MoveAt(late, 1)) == Stage(late, 2)
  {
  }

  lemma FirstClaim(s: Spool)
    requires s == ENDING_ADMITTED
    ensures BeforeClaim(s, 0) == s && IsBatch(s, 0, 10, [1])
    ensures ClaimRow(s, 1, 0) == ENDING_CLAIMED
  {
  }

  lemma Stage2(late: CaptureRecord)
    ensures CanMove(Stage(late, 2), MoveAt(late, 2)) && After(Stage(late, 2), MoveAt(late, 2)) == Stage(late, 3)
  {
    hide BeforeClaim, IsBatch, ClaimRow;
    var w, v := Stage(late, 2), Stage(late, 3);
    var s := w.history.spool;
    FirstClaim(s);
    assert ClaimRows(s, [1], 0) == ClaimRow(s, 1, 0) by {
      assert [1][..0] == [];
    }
    assert Handed(s, [1]) == {1};
    assert HandedIds(s, [1]) == [1] by {
      assert [1][..0] == [];
    }
    assert CountClaims(w.history.claims, {1}) == v.history.claims;
  }

  lemma Stage3(late: CaptureRecord)
    ensures CanMove(Stage(late, 3), MoveAt(late, 3)) && After(Stage(late, 3), MoveAt(late, 3)) == Stage(late, 4)
  {
    var w := Stage(late, 3);
    assert Head(w) == 1 && HeadRecord(w) == ENDING;
    assert w.drainer.queue[1..] == [];
    assert WaitForDependency(w.history.spool, 1, MissingSession, KEY, 0) == ENDING_WAITS;
  }

  lemma Stage4(late: CaptureRecord)
    ensures CanMove(Stage(late, 4), MoveAt(late, 4)) && After(Stage(late, 4), MoveAt(late, 4)) == Stage(late, 5)
  {
    BytesOfOne(1, EndingRow(Pending, 1, None));
  }

  lemma NothingExpires(late: CaptureRecord, s: Spool)
    requires s == LateAdmitted(late)
    ensures BeforeClaim(s, 1) == s
  {
    assert forall id :: id in s.records ==> !Expired(s.records[id], 1) && !Exhausted(s.records, s.recovery, id);
    assert ExpireLeases(s.records, 1) == s.records;
    assert HoldExhausted(s.records, s.recovery, 1) == s.recovery;
  }

  /** The waiting delivery is not claimable, so the second claim takes the request alone. */
  lemma SecondBatch(late: CaptureRecord, s: Spool)
    requires s == LateAdmitted(late)
    ensures IsBatch(s, 1, 10, [2])
  {
    assert s.records.Keys == {1, 2};
    assert Claimable(s, 2, 1) && !Claimable(s, 1, 1);
  }

  lemma SecondClaim(late: CaptureRecord, s: Spool)
    requires s == LateAdmitted(late)
    ensures ClaimRow(s, 2, 1) == LateClaimed(late)
  {
  }

  lemma SecondHanded(late: CaptureRecord, s: Spool)
    requires s == LateAdmitted(late)
    ensures Handed(s, [2]) == {2} && HandedIds(s, [2]) == [2] && ClaimRows(s, [2], 1) == ClaimRow(s, 2, 1)
  {
    assert [2][..0] == [];
    assert HandedIds(s, []) == [];
  }

  lemma Stage5(late: CaptureRecord)
    ensures CanMove(Stage(late, 5), MoveAt(late, 5)) && After(Stage(late, 5), MoveAt(late, 5)) == Stage(late, 6)
  {
    hide BeforeClaim, IsBatch, ClaimRow, ClaimRows, Handed, HandedIds;
    var w, v := Stage(late, 5), Stage(late, 6);
    var s := w.history.spool;
    NothingExpires(late, s);
    SecondBatch(late, s);
    SecondClaim(late, s);
    SecondHanded(late, s);
    assert CountClaims(w.history.claims, {2}) == v.history.claims;
  }

  lemma Stage6(late: CaptureRecord)
    requires InsertsUnreleased(late)
    ensures CanMove(Stage(late, 6), MoveAt(late, 6)) && After(Stage(late, 6), MoveAt(late, 6)) == Stage(late, 7)
  {
    var w := Stage(late, 6);
    assert Head(w) == 2 && HeadRecord(w) == late;
  }

  lemma StageAt(late: CaptureRecord, k: nat)
    requires k < 7 && InsertsUnreleased(late)
    ensures CanMove(Stage(late, k), MoveAt(late, k)) && After(Stage(late, k), MoveAt(late, k)) == Stage(late, k + 1)
  {
    hide CanMove, After, Stage, MoveAt;
    if k == 0 {
      Stage0(late);
    } else if k == 1 {
      Stage1(late);
    } else if k == 2 {
      Stage2(late);
    } else if k == 3 {
      Stage3(late);
    } else if k == 4 {
      Stage4(late);
    } else if k == 5 {
      Stage5(late);
    } else {
      Stage6(late);
    }
  }

  /** At its end the session is in the store while its end still waits for a wake-up that nobody will make. */
  lemma NobodyWakes(late: CaptureRecord)
    requires InsertsUnreleased(late)
    ensures Met(Stage(late, 7), 1) && !exists p :: LiveProvider(Stage(late, 7), p, KEY)
  {
    var v := Stage(late, 7);
    assert v.history.spool.records.Keys == {1, 2};
  }

  /** For every such record there is a run from the empty spool that loses a wake-up. */
  lemma WakeupIsLost(late: CaptureRecord)
    requires InsertsUnreleased(late)
    ensures IsDrainRun(Stages(late), Moves(late))
    ensures Met(Stages(late)[7], 1) && !exists p :: LiveProvider(Stages(late)[7], p, KEY)
  {
    hide CanMove, After, Met, LiveProvider;
    NobodyWakes(late);
    assert Stages(late)[0] == INITIAL;
    forall k | 0 <= k < |Moves(late)|
      ensures CanMove(Stages(late)[k], Moves(late)[k]) && Stages(late)[k + 1] == After(Stages(late)[k], Moves(late)[k])
    {
      StageAt(late, k);
    }
  }

  /** Either condition of the scope is needed: each of these runs keeps the other one and loses a wake-up. */
  lemma ScopeIsNeeded()
    ensures IsDrainRun(Stages(EMBEDDING), Moves(EMBEDDING)) && !NoLostWakeups(Stages(EMBEDDING)[7])
    ensures forall m :: m in Moves(EMBEDDING) && m.step.Admitting? ==> SourceOf(m.step.record) == Codex
    ensures IsDrainRun(Stages(OTHER_START), Moves(OTHER_START)) && !NoLostWakeups(Stages(OTHER_START)[7])
    ensures forall m :: m in Moves(OTHER_START) && m.step.Admitting? ==> !m.step.record.Technical?
  {
    hide CanMove, After, Met, LiveProvider, IsDrainRun, Stages;
    Loses(EMBEDDING);
    Loses(OTHER_START);
  }

  lemma Loses(late: CaptureRecord)
    requires InsertsUnreleased(late)
    ensures IsDrainRun(Stages(late), Moves(late)) && !NoLostWakeups(Stages(late)[7])
  {
    hide IsDrainRun, Met, LiveProvider;
    WakeupIsLost(late);
    assert !NoLostWakeupAt(Stages(late)[7], 1);
  }
}
