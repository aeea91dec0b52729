/**
 * Draining is finite although every wake-up gives a delivery a new attempt budget: without new admissions, recovery
 * and crashes, only finitely many claims happen (src/capture/spool-drain.ts:39-73, src/capture/spool.ts:337-463).
 */
module DrainFinite {
  import opened Prelude
  import opened CaptureRecords
  import opened SpoolTables
  import opened ClaimFacts
  import opened Recovery
  import opened SpoolRuns
  import opened DrainRuns

  /**
   * Nothing that the record of the row needs is missing from the store. What is in the store stays, so this stays too.
   */
  ghost predicate Unblocked(store: Store, row: SpoolRow) {
    ParseRow(row).Some? ==> MissingDependency(store, ParseRow(row).value).None?
  }

  ghost function BlockedIds(w: World): set<DeliveryId> {
    set id | id in w.history.spool.records && !Unblocked(w.store, w.history.spool.records[id])
  }

  ghost predicate QuietInvariant(w: World) {
    && DrainInvariant(w)
    && (w.drainer.Draining? && !w.drainer.stage.Fresh? ==>
        Working(w) && MissingDependency(w.store, HeadRecord(w)).None?)
  }

  /** The drainer holds the delivery and has not yet released its key. */
  ghost predicate InFlight(w: World, id: DeliveryId) {
    && w.drainer.Draining? && id in w.drainer.queue
    && !(w.drainer.stage.Released? && id == w.drainer.queue[0])
  }

  /** The claims that are left in the budget. A waiter that nothing blocks any more has its next budget already. */
  ghost function Budget(row: RecoveryRow, unblocked: bool): nat {
    if row.state.Held? || row.attempts > MAX_AUTOMATIC_ATTEMPTS then 0
    else if row.state.WaitingDependency? && unblocked then MAX_AUTOMATIC_ATTEMPTS
    else MAX_AUTOMATIC_ATTEMPTS - row.attempts
  }

  /** Twice the claims that are left, and one for a claim that may still wake others. */
  ghost function Weight(w: World, id: DeliveryId): nat {
    var s := w.history.spool;
    if id !in s.records || id !in s.recovery then 0
    else if ParseRow(s.records[id]).None? then 1
    else 2 * Budget(s.recovery[id], Unblocked(w.store, s.records[id])) + if InFlight(w, id) then 1 else 0
  }

  /** One token for each unit of weight of a delivery, separately for the blocked and for the others. */
  ghost function Tokens(w: World, blocked: bool): set<(DeliveryId, nat)> {
    set id, j | id in w.history.spool.records && (id in BlockedIds(w)) == blocked && 0 <= j < Weight(w, id) :: (id, j)
  }

  datatype Measure = Measure(blocked: nat, free: nat, waiting: nat)

  ghost function MeasureOf(w: World): Measure {
    Measure(|BlockedIds(w)|, |Tokens(w, false)|, |Tokens(w, true)|)
  }

  predicate Less(a: Measure, b: Measure) {
    || a.blocked < b.blocked
    || (a.blocked == b.blocked && a.free < b.free)
    || (a.blocked == b.blocked && a.free == b.free && a.waiting < b.waiting)
  }

  ghost predicate NotMore(a: Measure, b: Measure) {
    a == b || Less(a, b)
  }

  ghost predicate Quiet(step: DrainRuns.Step) {
    !step.Admitting? && !step.Requeueing? && !step.Crashing?
  }

  ghost predicate Claims(step: DrainRuns.Step) {
    step.Claiming? && step.batch != []
  }

  // ---- comparing measures ----

  /** The row was there before, with the same record, and is blocked only if it was. */
  ghost predicate FromRow(w: World, v: World, id: DeliveryId) {
    id in v.history.spool.records ==>
      && id in w.history.spool.records
      && (id in BlockedIds(v) ==> id in BlockedIds(w))
  }

  ghost predicate NotHeavier(w: World, v: World, id: DeliveryId) {
    id in v.history.spool.records ==> id in w.history.spool.records && Weight(v, id) <= Weight(w, id)
  }

  lemma FewerBlocked(w: World, v: World)
    requires forall id :: FromRow(w, v, id)
    ensures |BlockedIds(v)| <= |BlockedIds(w)|
    ensures BlockedIds(v) != BlockedIds(w) ==> Less(MeasureOf(v), MeasureOf(w))
  {
    forall id | id in BlockedIds(v) ensures id in BlockedIds(w) {
      assert FromRow(w, v, id);
    }
    SubsetSize(BlockedIds(v), BlockedIds(w));
  }

  lemma FewerTokens(w: World, v: World, blocked: bool)
    requires BlockedIds(v) == BlockedIds(w)
    requires forall id :: id in v.history.spool.records && (id in BlockedIds(w)) == blocked ==> NotHeavier(w, v, id)
    ensures Tokens(v, blocked) <= Tokens(w, blocked) && |Tokens(v, blocked)| <= |Tokens(w, blocked)|
  {
    hide Weight, BlockedIds;
    SubsetSize(Tokens(v, blocked), Tokens(w, blocked));
  }

  ghost predicate Lighter(w: World, v: World, id: DeliveryId) {
    id in w.history.spool.records && Weight(w, id) > if id in v.history.spool.records then Weight(v, id) else 0
  }

  lemma StrictlyFewerTokens(w: World, v: World, blocked: bool, id: DeliveryId)
    requires BlockedIds(v) == BlockedIds(w) && Lighter(w, v, id) && (id in BlockedIds(w)) == blocked
    requires forall i :: i in v.history.spool.records && (i in BlockedIds(w)) == blocked ==> NotHeavier(w, v, i)
    ensures |Tokens(v, blocked)| < |Tokens(w, blocked)|
  {
    hide Weight, BlockedIds;
    FewerTokens(w, v, blocked);
    var j := if id in v.history.spool.records then Weight(v, id) else 0;
    assert (id, j) in Tokens(w, blocked) && (id, j) !in Tokens(v, blocked);
    SubsetSize(Tokens(v, blocked), Tokens(w, blocked));
  }

  lemma LighterMeasure(w: World, v: World)
    requires forall id :: FromRow(w, v, id)
    requires BlockedIds(v) == BlockedIds(w) ==> forall id :: NotHeavier(w, v, id)
    ensures NotMore(MeasureOf(v), MeasureOf(w))
  {
    hide NotHeavier, Tokens, BlockedIds, FromRow;
    FewerBlocked(w, v);
    if BlockedIds(v) == BlockedIds(w) {
      FewerTokens(w, v, false);
      FewerTokens(w, v, true);
    }
  }

  lemma StrictlyLighterMeasure(w: World, v: World, id: DeliveryId)
    requires forall i :: FromRow(w, v, i) && NotHeavier(w, v, i)
    requires Lighter(w, v, id)
    ensures Less(MeasureOf(v), MeasureOf(w))
  {
    hide NotHeavier, Tokens, BlockedIds, FromRow, Lighter;
    FewerBlocked(w, v);
    if BlockedIds(v) == BlockedIds(w) {
      FewerTokens(w, v, false);
      FewerTokens(w, v, true);
      StrictlyFewerTokens(w, v, id in BlockedIds(w), id);
    }
  }

  // ---- rows across a quiet step ----

  lemma UnblockedStays(a: Store, b: Store, row: SpoolRow)
    requires Grows(a, b) && Unblocked(a, row)
    ensures Unblocked(b, row)
  {
  }

  /**
   * The row is gone, or it has the same payload and attempts and was not taken out of the held state or into waiting.
   */
  ghost predicate RowLighter(s: Spool, t: Spool, id: DeliveryId) {
    id in t.records ==>
      && id in s.records && ParseRow(t.records[id]) == ParseRow(s.records[id])
      && id in s.recovery && id in t.recovery && t.recovery[id].attempts == s.recovery[id].attempts
      && (s.recovery[id].state.Held? ==> t.recovery[id].state.Held?)
  }

  lemma ActionLightens(h: History, a: Action, id: DeliveryId)
    requires Invariant(h) && Enabled(h, a)
    requires a.step.DoRetry? || a.step.DoWait? || a.step.DoPersist? || a.step.DoAcknowledge? || a.step.DoQuarantine?
    requires a.step.DoRetry? ==> InState(h.spool, a.step.id, Claimed)
    ensures RowLighter(h.spool, Apply(h, a).spool, id)
    ensures id in Apply(h, a).spool.records && Apply(h, a).spool.recovery[id].state.WaitingDependency? ==>
              h.spool.recovery[id].state.WaitingDependency? || (a.step.DoWait? && a.step.id == id)
  {
    assert InvariantAt(h, id);
    if a.step.DoQuarantine? {
      assert InvariantAt(h, a.step.id);
      if a.step.id in h.spool.records { MoveFacts(h.spool, a.step.id, a.step.code, a.step.reason, a.now); }
    }
  }

  lemma QueueShrinks(w: World, m: Move, id: DeliveryId)
    requires QueueClaimed(w) && CanMove(w, m) && Quiet(m.step) && !m.step.Claiming?
    ensures InFlight(After(w, m), id) ==> InFlight(w, id)
  {
    var v := After(w, m);
    if InFlight(v, id) && w.drainer.Draining? && v.drainer.queue != w.drainer.queue {
      var i :| 0 <= i < |v.drainer.queue| && v.drainer.queue[i] == id;
      assert w.drainer.queue[i + 1] == id && w.drainer.queue[0] != id;
    }
  }

  /** A step on the head other than a release makes no row heavier, unless it unblocks one. */
  lemma WorkLightens(w: World, m: Move, id: DeliveryId)
    requires QuietInvariant(w) && CanMove(w, m)
    requires Quiet(m.step) && !m.step.Claiming? && !m.step.Releasing?
    ensures FromRow(w, After(w, m), id)
    ensures BlockedIds(After(w, m)) == BlockedIds(w) ==> NotHeavier(w, After(w, m), id)
  {
    var v := After(w, m);
    assert InvariantAt(w.history, id);
    var action := ActionOf(w, m);
    if action.Some? {
      ActionLightens(w.history, action.value, id);
    }
    QueueShrinks(w, m, id);
    StoreGrows(w, m);
    assert RowLighter(w.history.spool, v.history.spool, id);
    if id in v.history.spool.records {
      SameParse(w, v, id);
    }
  }

  /** A row with the same record is unblocked in the larger store if it was so in the smaller one. */
  lemma SameParse(w: World, v: World, id: DeliveryId)
    requires Grows(w.store, v.store) && id in w.history.spool.records && id in v.history.spool.records
    requires ParseRow(v.history.spool.records[id]) == ParseRow(w.history.spool.records[id])
    ensures id in BlockedIds(v) ==> id in BlockedIds(w)
    ensures v.store == w.store ==> (id in BlockedIds(v) <==> id in BlockedIds(w))
  {
    if Unblocked(w.store, w.history.spool.records[id]) {
      UnblockedStays(w.store, v.store, w.history.spool.records[id]);
    }
  }

  lemma ClaimRowLightens(w: World, m: Move, id: DeliveryId)
    requires DrainInvariant(w) && CanMove(w, m) && m.step.Claiming?
    ensures var s, t := w.history.spool, After(w, m).history.spool;
      && (id in t.records ==> id in s.records && ParseRow(t.records[id]) == ParseRow(s.records[id]))
      && (id in t.records && id !in m.step.batch ==>
            id in t.recovery && id in s.recovery && t.recovery[id].attempts == s.recovery[id].attempts
            && (t.recovery[id].state == s.recovery[id].state || t.recovery[id].state.Held?))
      && (id in m.step.batch ==>
            id in s.records && InRecovery(s, id, Eligible) && s.recovery[id].attempts < MAX_AUTOMATIC_ATTEMPTS)
      && (id in m.step.batch && id in t.records ==>
            && InRecovery(t, id, Eligible) && t.recovery[id].attempts == s.recovery[id].attempts + 1
            && ParseRow(s.records[id]).Some?)
  {
    var h, a := w.history, ActionOf(w, m).value;
    assert InvariantAt(h, id);
    ClaimAcross(h, a, id);
    if id in m.step.batch {
      assert Claimable(BeforeClaim(h.spool, a.now), id, a.now);
    }
  }

  lemma ClaimFlight(w: World, m: Move, id: DeliveryId)
    requires DrainInvariant(w) && CanMove(w, m) && m.step.Claiming?
    ensures !InFlight(w, id) && (InFlight(After(w, m), id) ==> id in m.step.batch)
  {
    var h, a := w.history, ActionOf(w, m).value;
    BatchIsValid(BeforeClaim(h.spool, a.now), a.now, a.step.limit, a.step.batch);
    HandedIdsFacts(h.spool, a.step.batch);
  }

  lemma ClaimLightens(w: World, m: Move, id: DeliveryId)
    requires DrainInvariant(w) && CanMove(w, m) && m.step.Claiming?
    ensures FromRow(w, After(w, m), id) && NotHeavier(w, After(w, m), id)
    ensures id in m.step.batch ==> Lighter(w, After(w, m), id)
  {
    ClaimRowLightens(w, m, id);
    ClaimFlight(w, m, id);
    hide ParseRow, BlockedIds, Unblocked, MissingDependency, InFlight, DrainInvariant, CanMove;
    var v := After(w, m);
    StoreGrows(w, m);
    assert v.store == w.store by { ClaimKeepsStore(w, m); }
    if id in v.history.spool.records {
      SameParse(w, v, id);
      SameBlocking(w, v, id);
    }
  }

  lemma ClaimKeepsStore(w: World, m: Move)
    requires CanMove(w, m) && (m.step.Claiming? || m.step.Releasing?)
    ensures After(w, m).store == w.store
  {
  }

  lemma SameBlocking(w: World, v: World, id: DeliveryId)
    requires v.store == w.store && id in w.history.spool.records && id in v.history.spool.records
    requires ParseRow(v.history.spool.records[id]) == ParseRow(w.history.spool.records[id])
    ensures Unblocked(v.store, v.history.spool.records[id]) == Unblocked(w.store, w.history.spool.records[id])
  {
  }

  // ---- a release ----

  /** A release takes the one unit of its own delivery, and makes no row heavier that is not blocked. */
  lemma ReleaseLightens(w: World, m: Move, id: DeliveryId)
    requires QuietInvariant(w) && CanMove(w, m) && m.step.Releasing?
    ensures FromRow(w, After(w, m), id) && (id in BlockedIds(w) ==> id in BlockedIds(After(w, m)))
    ensures id !in BlockedIds(w) ==> NotHeavier(w, After(w, m), id)
    ensures Lighter(w, After(w, m), Head(w)) && Head(w) !in BlockedIds(w)
  {
    var head := Head(w);
    assert InvariantAt(w.history, id) && InvariantAt(w.history, head);
    assert InState(w.history.spool, head, Claimed);
    ClaimKeepsStore(w, m);
  }

  lemma ReleaseMeasure(w: World, m: Move)
    requires QuietInvariant(w) && CanMove(w, m) && m.step.Releasing?
    ensures Less(MeasureOf(After(w, m)), MeasureOf(w))
  {
    hide After, Weight, MissingDependency, Lighter, NotHeavier, Tokens;
    var v := After(w, m);
    forall id ensures id in BlockedIds(v) <==> id in BlockedIds(w) {
      ReleaseLightens(w, m, id);
    }
    assert BlockedIds(v) == BlockedIds(w);
    forall id | id in v.history.spool.records && (id in BlockedIds(w)) == false ensures NotHeavier(w, v, id) {
      ReleaseLightens(w, m, id);
    }
    ReleaseLightens(w, m, Head(w));
    StrictlyFewerTokens(w, v, false, Head(w));
  }

  /** No quiet step adds to the measure; claiming something takes from it. */
  lemma QuietMeasure(w: World, m: Move)
    requires QuietInvariant(w) && CanMove(w, m) && Quiet(m.step)
    ensures NotMore(MeasureOf(After(w, m)), MeasureOf(w))
    ensures Claims(m.step) ==> Less(MeasureOf(After(w, m)), MeasureOf(w))
  {
    hide After, MeasureOf, Weight, FromRow, NotHeavier, Lighter;
    var v := After(w, m);
    if m.step.Releasing? {
      ReleaseMeasure(w, m);
    } else if m.step.Claiming? {
      forall id ensures FromRow(w, v, id) && NotHeavier(w, v, id) { ClaimLightens(w, m, id); }
      LighterMeasure(w, v);
      if Claims(m.step) {
        ClaimLightens(w, m, m.step.batch[0]);
        StrictlyLighterMeasure(w, v, m.step.batch[0]);
      }
    } else {
      forall id ensures FromRow(w, v, id) { WorkLightens(w, m, id); }
      if BlockedIds(v) == BlockedIds(w) {
        forall id ensures NotHeavier(w, v, id) { WorkLightens(w, m, id); }
      }
      LighterMeasure(w, v);
    }
  }

  // ---- the invariant along a run ----

  lemma QuietKept(w: World, m: Move)
    requires QuietInvariant(w) && CanMove(w, m)
    ensures QuietInvariant(After(w, m))
  {
    MoveKept(w, m);
    StoreGrows(w, m);
    var v := After(w, m);
    if v.drainer.Draining? && !v.drainer.stage.Fresh? {
      assert Working(w) && v.drainer.queue[0] == Head(w) && !EndsHead(w, m, Head(w));
      RowKeptByMove(w, m, Head(w));
      UnblockedStays(w.store, v.store, w.history.spool.records[Head(w)]);
    }
  }

  lemma {:induction false} QuietInvariantHolds(ws: seq<World>, moves: seq<Move>, k: nat)
    requires IsDrainRun(ws, moves) && k < |ws|
    ensures QuietInvariant(ws[k])
  {
    hide After;
    if k > 0 {
      QuietInvariantHolds(ws, moves, k - 1);
      assert CanMove(ws[k - 1], moves[k - 1]) && ws[k] == After(ws[k - 1], moves[k - 1]);
      QuietKept(ws[k - 1], moves[k - 1]);
    }
  }

  // ---- the theorem ----

  /** An endless continuation in which nothing is admitted, nothing is requeued and nothing crashes. */
  ghost predicate QuietForever(run: nat -> World, moves: nat -> Move) {
    forall n: nat :: CanMove(run(n), moves(n)) && run(n + 1) == After(run(n), moves(n)) && Quiet(moves(n).step)
  }

  lemma {:induction false} MeasureFalls(run: nat -> World, moves: nat -> Move, i: nat, k: nat)
    requires QuietForever(run, moves) && QuietInvariant(run(i)) && i <= k
    ensures QuietInvariant(run(k)) && NotMore(MeasureOf(run(k)), MeasureOf(run(i)))
    decreases k
  {
    hide After, MeasureOf, QuietInvariant;
    if i < k {
      MeasureFalls(run, moves, i, k - 1);
      assert CanMove(run(k - 1), moves(k - 1)) && run(k - 1 + 1) == After(run(k - 1), moves(k - 1));
      QuietKept(run(k - 1), moves(k - 1));
      QuietMeasure(run(k - 1), moves(k - 1));
    }
  }

  ghost predicate NoClaimsFrom(moves: nat -> Move, last: nat) {
    forall n: nat :: n >= last ==> !Claims(moves(n).step)
  }

  /** From the state `from` on, some point is the last at which anything is claimed. */
  lemma {:induction false} LastClaim(run: nat -> World, moves: nat -> Move, from: nat) returns (last: nat)
    requires QuietForever(run, moves) && QuietInvariant(run(from))
    ensures NoClaimsFrom(moves, last)
    decreases MeasureOf(run(from)).blocked, MeasureOf(run(from)).free, MeasureOf(run(from)).waiting
  {
    hide After, MeasureOf, QuietInvariant;
    if n: nat :| n >= from && Claims(moves(n).step) {
      MeasureFalls(run, moves, from, n);
      assert CanMove(run(n), moves(n)) && run(n + 1) == After(run(n), moves(n));
      QuietKept(run(n), moves(n));
      QuietMeasure(run(n), moves(n));
      last := LastClaim(run, moves, n + 1);
    } else {
      last := from;
    }
  }

  /** Whatever happened before and whatever its records are, a drain that is left alone claims only finitely often. */
  lemma DrainingIsFinite(ws: seq<World>, before: seq<Move>, run: nat -> World, moves: nat -> Move)
    requires IsDrainRun(ws, before) && run(0) == ws[|before|] && QuietForever(run, moves)
    ensures exists last: nat :: NoClaimsFrom(moves, last)
  {
    hide QuietForever;
    QuietInvariantHolds(ws, before, |before|);
    var last := LastClaim(run, moves, 0);
  }
}
