/**
 * The drain loop itself, and that each of its iterations is a run of single steps (src/capture/spool-drain.ts:39-73).
 */
module DrainLoop {
  import opened Prelude
  import opened CaptureRecords
  import opened SpoolTables
  import opened ClaimFacts
  import opened SpoolStore
  import opened SpoolRuns
  import opened DrainRuns
  import opened DrainEffects

  datatype PersistError = TypeError | StorageError

  ghost predicate Works(step: DrainRuns.Step) {
    || step.Waiting? || step.Conflicting? || step.Rejected? || step.Failing?
    || step.Persisting? || step.Preserving? || step.Releasing? || step.Acknowledging?
  }

  /** Steps of the drainer: claiming a batch, and working on its first delivery. */
  ghost predicate Drains(step: DrainRuns.Step) {
    step.Claiming? || Works(step)
  }

  ghost predicate IsPath(ws: seq<World>, moves: seq<Move>) {
    && |ws| == |moves| + 1
    && forall k :: 0 <= k < |moves| ==>
         CanMove(ws[k], moves[k]) && ws[k + 1] == After(ws[k], moves[k]) && Drains(moves[k].step)
  }

  /** The second world is reached from the first by steps of the drainer alone. */
  ghost predicate Reaches(a: World, b: World) {
    exists ws, moves :: IsPath(ws, moves) && ws[0] == a && ws[|moves|] == b
  }

  lemma ReachesSelf(a: World)
    ensures Reaches(a, a)
  {
    assert IsPath([a], []);
  }

  lemma ReachesOneMore(a: World, b: World, m: Move)
    requires Reaches(a, b) && CanMove(b, m) && Drains(m.step)
    ensures Reaches(a, After(b, m))
  {
    hide After;
    var ws, moves :| IsPath(ws, moves) && ws[0] == a && ws[|moves|] == b;
    var more, longer := ws + [After(b, m)], moves + [m];
    forall k | 0 <= k < |longer|
      ensures CanMove(more[k], longer[k]) && more[k + 1] == After(more[k], longer[k]) && Drains(longer[k].step)
    {
      if k < |moves| {
        assert more[k] == ws[k] && more[k + 1] == ws[k + 1] && longer[k] == moves[k];
      } else {
        assert more[k] == b && more[k + 1] == After(b, m);
      }
    }
    assert IsPath(more, longer) && more[|longer|] == After(b, m);
  }

  /**
   * The experience store, as far as the drainer depends on it. A persist appends the record and, for a request, then
   * preserves its context; both transactions are atomic and may be repeated.
   */
  class ExperienceStore {
    var data: Store
    var stored: set<DeliveryId>
    var persisted: set<DeliveryId>

    method AppendIncremental(id: DeliveryId, record: CaptureRecord, fate: Fate) returns (error: Option<PersistError>)
      modifies this
      ensures error == if fate.Unavailable? then Some(StorageError)
              else if fate.Invalid? && id !in old(stored) then Some(TypeError) else None
      ensures error.Some? ==> data == old(data) && stored == old(stored) && persisted == old(persisted)
      ensures error.None? ==> data == Recorded(old(data), record) && stored == old(stored) + {id}
      ensures error.None? ==> persisted == old(persisted) + if HasContext(record) then {} else {id}
    {
      if fate.Unavailable? {
        return Some(StorageError);
      }
      if fate.Invalid? && id !in stored {
        return Some(TypeError);
      }
      data := Recorded(data, record);
      stored := stored + {id};
      if !HasContext(record) {
        persisted := persisted + {id};
      }
      return None;
    }

    method PreserveContext(id: DeliveryId, fate: Fate) returns (error: Option<PersistError>)
      modifies this`persisted
      ensures error == if fate.ContextUnavailable? then Some(StorageError)
              else if fate.InvalidContext? && id !in old(persisted) then Some(TypeError) else None
      ensures persisted == old(persisted) + if error.Some? then {} else {id}
    {
      if fate.ContextUnavailable? {
        return Some(StorageError);
      }
      if fate.InvalidContext? && id !in persisted {
        return Some(TypeError);
      }
      persisted := persisted + {id};
      return None;
    }
  }

  /** The claimed deliveries are the queue of the drainer, with the records their rows hold. */
  ghost predicate Matches(w: World, claimed: seq<ClaimedRecord>) {
    && w.drainer.Draining? && w.drainer.stage.Fresh? && |w.drainer.queue| == |claimed|
    && forall i :: 0 <= i < |claimed| ==>
         && claimed[i].id == w.drainer.queue[i]
         && claimed[i].id in w.history.spool.records
         && ParseRow(w.history.spool.records[claimed[i].id]) == Some(claimed[i].record)
  }

  lemma MatchesKept(w: World, m: Move, claimed: seq<ClaimedRecord>)
    requires Invariant(w.history) && QueueClaimed(w) && CanMove(w, m) && !m.step.Claiming? && !m.step.Crashing?
    requires w.drainer.Draining? && |w.drainer.queue| == |claimed|
    requires forall i :: 0 <= i < |claimed| ==>
      && claimed[i].id == w.drainer.queue[i] && claimed[i].id in w.history.spool.records
      && ParseRow(w.history.spool.records[claimed[i].id]) == Some(claimed[i].record)
    ensures forall i :: 1 <= i < |claimed| ==>
      && claimed[i].id in After(w, m).history.spool.records
      && ParseRow(After(w, m).history.spool.records[claimed[i].id]) == Some(claimed[i].record)
    ensures claimed != [] && !EndsHead(w, m, claimed[0].id) ==>
      && claimed[0].id in After(w, m).history.spool.records
      && ParseRow(After(w, m).history.spool.records[claimed[0].id]) == Some(claimed[0].record)
  {
    forall i | 0 <= i < |claimed| && !EndsHead(w, m, claimed[i].id)
      ensures claimed[i].id in After(w, m).history.spool.records
      ensures ParseRow(After(w, m).history.spool.records[claimed[i].id]) == Some(claimed[i].record)
    {
      RowKeptByMove(w, m, claimed[i].id);
    }
  }

  /** The spool after a step that works on the head of the queue. */
  ghost function WorkedSpool(w: World, m: Move): Spool
    requires Working(w) && CanMove(w, m)
  {
    var s := w.history.spool;
    match m.step
    case Waiting =>
      var d := MissingDependency(w.store, HeadRecord(w)).value;
      SpoolTables.WaitForDependency(s, Head(w), d.reason, d.key, m.now)
    case Conflicting => SpoolTables.Quarantine(s, Head(w), Corrupt, CaptureConflict(w.store, HeadRecord(w)).value,
                                               m.now)
    case Rejected => SpoolTables.Quarantine(s, Head(w), Corrupt, UnknownLegacy, m.now)
    case Failing => SpoolTables.Retry(s, Head(w), m.now, StorageUnavailable)
    case Releasing =>
      if ReleasedKey(HeadRecord(w)).None? then s
      else SpoolTables.ReleaseDependency(s, ReleasedKey(HeadRecord(w)).value, m.now)
    case Acknowledging => SpoolTables.Acknowledge(s, Head(w), m.now)
    case _ => s
  }

  /** The step ends a persist: of a request, its second transaction. */
  ghost predicate Persists(w: World, step: DrainRuns.Step)
    requires Working(w)
  {
    step.Preserving? || (step.Persisting? && !HasContext(HeadRecord(w)))
  }

  /** The head is still being worked on after the step. */
  ghost predicate GoesOn(step: DrainRuns.Step) {
    step.Persisting? || step.Preserving? || step.Releasing?
  }

  lemma WorkShape(w: World, m: Move)
    requires Working(w) && CanMove(w, m) && Works(m.step)
    ensures var v := After(w, m);
      && v.history.spool == WorkedSpool(w, m)
      && v.history.persisted == w.history.persisted + (if Persists(w, m.step) then {Head(w)} else {})
      && v.store == (if m.step.Persisting? then Recorded(w.store, HeadRecord(w)) else w.store)
      && v.stored == w.stored + (if m.step.Persisting? then {Head(w)} else {})
      && v.drainer == if Persists(w, m.step) then w.drainer.(stage := Persisted)
                      else if m.step.Persisting? then w.drainer.(stage := Stored)
                      else if m.step.Releasing? then w.drainer.(stage := Released)
                      else Draining(w.drainer.queue[1..], Fresh)
  {
    hide Claim, Admit, SpoolTables.Acknowledge, SpoolTables.Retry, SpoolTables.WaitForDependency,
         SpoolTables.ReleaseDependency, SpoolTables.Quarantine;
  }

  /** Matches, at any stage of the first delivery. */
  ghost predicate Holds(w: World, claimed: seq<ClaimedRecord>) {
    w.drainer.Draining? && Matches(w.(drainer := w.drainer.(stage := Fresh)), claimed)
  }

  lemma MatchesHolds(w: World, claimed: seq<ClaimedRecord>)
    requires Matches(w, claimed)
    ensures Holds(w, claimed) && w.drainer.Draining? && w.drainer.stage.Fresh?
  {
  }

  lemma HeadOf(w: World, claimed: seq<ClaimedRecord>)
    requires Holds(w, claimed) && claimed != []
    ensures Working(w) && HeadRecord(w) == claimed[0].record && Head(w) == claimed[0].id
  {
  }

  lemma HoldsNext(w: World, m: Move, claimed: seq<ClaimedRecord>)
    requires Invariant(w.history) && QueueClaimed(w) && Holds(w, claimed) && claimed != []
    requires Working(w) && CanMove(w, m) && Works(m.step)
    ensures if GoesOn(m.step) then Holds(After(w, m), claimed)
            else Matches(After(w, m), claimed[1..])
  {
    hide After, WorkedSpool;
    WorkShape(w, m);
    MatchesKept(w, m, claimed);
  }

  lemma {:induction false} HandedOutIds(s: Spool, t: Spool, batch: seq<DeliveryId>)
    requires forall id :: id in batch ==>
               id in s.records && id in t.records && ParseRow(t.records[id]) == ParseRow(s.records[id])
    ensures |HandedOut(t, batch)| == |HandedIds(s, batch)| <= |batch|
    ensures forall i :: 0 <= i < |HandedOut(t, batch)| ==>
      && HandedOut(t, batch)[i].id == HandedIds(s, batch)[i] && HandedIds(s, batch)[i] in batch
      && ParseRow(s.records[HandedIds(s, batch)[i]]) == Some(HandedOut(t, batch)[i].record)
  {
    if batch != [] {
      var front := batch[..|batch| - 1];
      HandedOutIds(s, t, front);
      assert forall id :: id in front ==> id in batch;
      assert batch[|batch| - 1] in batch;
    }
  }

  /** A claim makes the deliveries it hands out the queue of the drainer. */
  lemma ClaimShape(w: World, batch: seq<DeliveryId>, now: int)
    requires Invariant(w.history) && QueueClaimed(w) && CanMove(w, Move(Claiming(batch, 100), now))
    ensures var v := After(w, Move(Claiming(batch, 100), now));
            var handed := HandedOut(BeforeClaim(w.history.spool, now), batch);
      && v.history.spool == SpoolTables.Claim(w.history.spool, batch, now)
      && v.store == w.store && v.stored == w.stored && v.history.persisted == w.history.persisted
      && Matches(v, handed) && |handed| <= 100
  {
    hide SpoolTables.Claim;
    var s, t := w.history.spool, BeforeClaim(w.history.spool, now);
    HandedOutIds(s, t, batch);
    var m := Move(Claiming(batch, 100), now);
    var handed := HandedOut(t, batch);
    forall i | 0 <= i < |handed|
      ensures handed[i].id in After(w, m).history.spool.records
      ensures ParseRow(After(w, m).history.spool.records[handed[i].id]) == Some(handed[i].record)
    {
      ClaimAcross(w.history, ActionOf(w, m).value, handed[i].id);
    }
  }

  lemma {:induction false} ReachesThrough(a: World, b: World, c: World)
    requires Reaches(a, b) && Reaches(b, c)
    ensures Reaches(a, c)
  {
    hide After, CanMove;
    var ws, moves :| IsPath(ws, moves) && ws[0] == a && ws[|moves|] == b;
    var vs, steps :| IsPath(vs, steps) && vs[0] == b && vs[|steps|] == c;
    PathsJoin(ws, moves, vs, steps);
    assert (ws + vs[1..])[|moves + steps|] == c;
  }

  lemma PathsJoin(ws: seq<World>, moves: seq<Move>, vs: seq<World>, steps: seq<Move>)
    requires IsPath(ws, moves) && IsPath(vs, steps) && ws[|moves|] == vs[0]
    ensures IsPath(ws + vs[1..], moves + steps)
  {
    hide After, CanMove;
    var all: seq<World>, both: seq<Move> := ws + vs[1..], moves + steps;
    forall k | 0 <= k < |both|
      ensures CanMove(all[k], both[k]) && all[k + 1] == After(all[k], both[k]) && Drains(both[k].step)
    {
      if k < |moves| {
        assert all[k] == ws[k] && all[k + 1] == ws[k + 1] && both[k] == moves[k];
      } else {
        var n := k - |moves|;
        assert both[k] == steps[n] && all[k + 1] == vs[n + 1] && all[k] == vs[n];
      }
    }
  }

  /** Something pending is eligible. */
  ghost predicate HasEligible(s: Spool) {
    exists id :: id in s.records && s.records[id].state.Pending? && InRecovery(s, id, Eligible)
  }

  /**
   * One batch: the first hundred claimable deliveries are claimed and take their turns. When no error strikes, all of
   * them are settled afterwards.
   */
  ghost predicate BatchRan(before: Ground, after: Ground, now: int, fates: seq<Fate>) {
    exists batch ::
      && IsBatch(BeforeClaim(before.spool, now), now, 100, batch)
      && TookTurns(before.(spool := SpoolTables.Claim(before.spool, batch, now)), after,
                   HandedOut(BeforeClaim(before.spool, now), batch), now, fates)
  }

  ghost predicate TookTurns(g: Ground, after: Ground, claimed: seq<ClaimedRecord>, now: int, fates: seq<Fate>) {
    && |claimed| <= |fates| && AllClaimed(g, claimed) && after == Turns(g, claimed, fates, now)
    && (AllDelivered(fates, |claimed|) ==>
          forall j :: 0 <= j < |claimed| ==>
            IsSettled(Turns(g, claimed[..j], fates, now), g.spool, after, claimed[j]))
  }

  lemma QueueIsClaimed(w: World, claimed: seq<ClaimedRecord>, g: Ground)
    requires QueueClaimed(w) && Matches(w, claimed) && g.spool == w.history.spool
    ensures AllClaimed(g, claimed)
  {
  }

  class Drainer {
    const spool: CaptureSpool
    const store: ExperienceStore
    ghost var world: World

    constructor (spool: CaptureSpool, store: ExperienceStore, ghost world: World)
      ensures this.spool == spool && this.store == store && this.world == world
    {
      this.spool := spool;
      this.store := store;
      this.world := world;
    }

    /** The ghost world describes the tables and the store. */
    ghost predicate Valid()
      reads this, spool, store
    {
      && Invariant(world.history) && QueueClaimed(world)
      && world.history.spool == spool.Tables()
      && world.store == store.data && world.stored == store.stored
      && world.history.persisted == store.persisted
    }

    /** The tables and the store, as the turns of a drainer change them. */
    ghost function GroundNow(): Ground
      reads spool, store
    {
      Ground(spool.Tables(), store.data, store.stored, store.persisted)
    }

    /** One iteration over a claimed delivery: wait, quarantine, retry, or persist, wake and acknowledge. */
    method Process(ghost claimed: seq<ClaimedRecord>, first: ClaimedRecord, fate: Fate, now: int)
      requires Valid() && claimed != [] && claimed[0] == first && Matches(world, claimed)
      modifies this`world, spool, store
      ensures Valid() && Matches(world, claimed[1..])
      ensures Reaches(old(world), world)
      ensures GroundNow() == Turn(old(GroundNow()), first, fate, now)
    {
      hide After, Holds, Matches, Invariant, QueueClaimed, Recorded, MissingDependency, CaptureConflict, ReleasedKey,
           SpoolTables.Acknowledge, SpoolTables.Retry, SpoolTables.WaitForDependency, SpoolTables.ReleaseDependency,
           SpoolTables.Quarantine, Reaches;
      ReachesSelf(world);
      MatchesHolds(world, claimed);
      HeadOf(world, claimed);
      var dependency := MissingDependency(store.data, first.record);
      if dependency.Some? {
        spool.WaitForDependency(first.id, dependency.value.reason, dependency.value.key, now);
        Moved(Move(Waiting, now), claimed, old(world));
        return;
      }
      var conflict := CaptureConflict(store.data, first.record);
      if conflict.Some? {
        spool.Quarantine(first.id, Corrupt, now, conflict.value);
        Moved(Move(Conflicting, now), claimed, old(world));
        return;
      }
      PersistFirst(claimed, first, fate, now, old(world), old(GroundNow()));
    }

    /** The rest of an iteration when nothing is missing and nothing conflicts. */
    method PersistFirst(ghost claimed: seq<ClaimedRecord>, first: ClaimedRecord, fate: Fate, now: int,
                        ghost start: World, ghost g: Ground)
      requires Valid() && claimed != [] && claimed[0] == first && Matches(world, claimed) && Reaches(start, world)
      requires MissingDependency(g.store, first.record).None? && CaptureConflict(g.store, first.record).None?
      requires GroundNow() == g
      modifies this`world, spool, store
      ensures Valid() && Matches(world, claimed[1..])
      ensures Reaches(start, world)
      ensures GroundNow() == Turn(g, first, fate, now)
    {
      hide After, Holds, Matches, Invariant, QueueClaimed, Recorded, MissingDependency, CaptureConflict, ReleasedKey,
           SpoolTables.Acknowledge, SpoolTables.Retry, SpoolTables.WaitForDependency, SpoolTables.ReleaseDependency,
           SpoolTables.Quarantine, Reaches, Unlocked;
      MatchesHolds(world, claimed);
      HeadOf(world, claimed);
      var error := store.AppendIncremental(first.id, first.record, fate);
      if error.Some? {
        if error.value.TypeError? {
          spool.Quarantine(first.id, Corrupt, now, UnknownLegacy);
          Moved(Move(Rejected, now), claimed, start);
        } else {
          spool.Retry(first.id, now, StorageUnavailable);
          Moved(Move(Failing, now), claimed, start);
        }
        return;
      }
      Moved(Move(Persisting, now), claimed, start);
      AfterAppend(claimed, first, fate, now, start, g);
    }

    /** The rest of an iteration once the record is in the store: the second transaction of a request. */
    method AfterAppend(ghost claimed: seq<ClaimedRecord>, first: ClaimedRecord, fate: Fate, now: int,
                       ghost start: World, ghost g: Ground)
      requires Valid() && claimed != [] && claimed[0] == first && Holds(world, claimed) && Reaches(start, world)
      requires if HasContext(first.record) then world.drainer.stage.Stored? else world.drainer.stage.Persisted?
      requires Stores(g, first, fate) && GroundNow() == Ground(g.spool, Recorded(g.store, first.record),
                 g.stored + {first.id}, g.persisted + if HasContext(first.record) then {} else {first.id})
      modifies this`world, spool, store
      ensures Valid() && Matches(world, claimed[1..])
      ensures Reaches(start, world)
      ensures GroundNow() == Turn(g, first, fate, now)
    {
      hide After, Holds, Matches, Invariant, ReleasedKey, Reaches, SpoolTables.Retry, SpoolTables.Quarantine, Recorded,
           MissingDependency, CaptureConflict, SpoolTables.Acknowledge, SpoolTables.WaitForDependency, Unlocked;
      HeadOf(world, claimed);
      if HasContext(first.record) {
        var error := store.PreserveContext(first.id, fate);
        if error.Some? {
          if error.value.TypeError? {
            spool.Quarantine(first.id, Corrupt, now, UnknownLegacy);
            Moved(Move(Rejected, now), claimed, start);
          } else {
            spool.Retry(first.id, now, StorageUnavailable);
            Moved(Move(Failing, now), claimed, start);
          }
          return;
        }
        Moved(Move(Preserving, now), claimed, start);
      }
      AfterPersist(claimed, first, fate, now, start, g);
    }

    /** The rest of an iteration once the record is persisted. */
    method AfterPersist(ghost claimed: seq<ClaimedRecord>, first: ClaimedRecord, fate: Fate, now: int,
                        ghost start: World, ghost g: Ground)
      requires Valid() && claimed != [] && claimed[0] == first && Holds(world, claimed)
               && world.drainer.stage.Persisted?
      requires first.id in world.history.persisted && Reaches(start, world)
      requires Completes(g, first, fate) && GroundNow() == Ground(g.spool, Recorded(g.store, first.record),
                 g.stored + {first.id}, g.persisted + {first.id})
      modifies this`world, spool
      ensures Valid() && Matches(world, claimed[1..])
      ensures Reaches(start, world)
      ensures GroundNow() == Turn(g, first, fate, now)
    {
      hide After, Holds, Matches, Invariant, QueueClaimed, ReleasedKey, Reaches, SpoolTables.Acknowledge, Recorded,
           SpoolTables.Retry, SpoolTables.ReleaseDependency, MissingDependency, CaptureConflict,
           SpoolTables.WaitForDependency, SpoolTables.Quarantine;
      HeadOf(world, claimed);
      if fate.LostAfterPersist? {
        spool.Retry(first.id, now, StorageUnavailable);
        Moved(Move(Failing, now), claimed, start);
        return;
      }
      var key := ReleasedKey(first.record);
      if key.Some? {
        var released := spool.ReleaseDependency(key.value, now);
      }
      Moved(Move(Releasing, now), claimed, start);
      AfterRelease(claimed, first, fate, now, start, g);
    }

    /** The rest of an iteration once the key has been released. */
    method AfterRelease(ghost claimed: seq<ClaimedRecord>, first: ClaimedRecord, fate: Fate, now: int,
                        ghost start: World, ghost g: Ground)
      requires Valid() && claimed != [] && claimed[0] == first && Holds(world, claimed) && world.drainer.stage.Released?
      requires first.id in world.history.persisted && Reaches(start, world)
      requires Completes(g, first, fate) && !fate.LostAfterPersist?
      requires GroundNow() == Ground(Unlocked(g.spool, first.record, now), Recorded(g.store, first.record),
                 g.stored + {first.id}, g.persisted + {first.id})
      modifies this`world, spool
      ensures Valid() && Matches(world, claimed[1..])
      ensures Reaches(start, world)
      ensures GroundNow() == Turn(g, first, fate, now)
    {
      hide After, Holds, Matches, Invariant, QueueClaimed, ReleasedKey, Reaches, SpoolTables.Acknowledge, Recorded,
           SpoolTables.Retry, SpoolTables.ReleaseDependency, MissingDependency, CaptureConflict, Unlocked,
           SpoolTables.WaitForDependency, SpoolTables.Quarantine;
      HeadOf(world, claimed);
      if fate.LostAfterRelease? {
        spool.Retry(first.id, now, StorageUnavailable);
        Moved(Move(Failing, now), claimed, start);
        return;
      }
      spool.Acknowledge(first.id, now);
      Moved(Move(Acknowledging, now), claimed, start);
    }

    /** With no claimed delivery left the queue is empty. */
    ghost method AllWorked()
      requires Matches(world, [])
      ensures world.drainer == Draining([], Fresh)
    {
    }

    /** Records in the ghost world the step whose effects the tables and the store already show. */
    ghost method Moved(m: Move, claimed: seq<ClaimedRecord>, start: World)
      requires Invariant(world.history) && QueueClaimed(world) && Working(world) && CanMove(world, m) && Works(m.step)
      requires Reaches(start, world) && claimed != [] && Holds(world, claimed)
      requires WorkedSpool(world, m) == spool.Tables()
      requires store.data == if m.step.Persisting? then Recorded(world.store, HeadRecord(world)) else world.store
      requires store.stored == world.stored + if m.step.Persisting? then {Head(world)} else {}
      requires store.persisted == world.history.persisted + if Persists(world, m.step) then {Head(world)} else {}
      modifies this`world
      ensures Valid() && Reaches(start, world)
      ensures if GoesOn(m.step) then Holds(world, claimed) else Matches(world, claimed[1..])
      ensures old(Persists(world, m.step)) ==> world.drainer.stage.Persisted?
      ensures m.step.Persisting? && !old(Persists(world, m.step)) ==> world.drainer.stage.Stored?
      ensures m.step.Releasing? ==> world.drainer.stage.Released?
      ensures old(world).history.persisted <= world.history.persisted
    {
      hide After, WorkedSpool, Recorded;
      WorkShape(world, m);
      HistoryKept(world, m);
      QueueKept(world, m);
      HoldsNext(world, m, claimed);
      ReachesOneMore(start, world, m);
      world := After(world, m);
    }

    /** Records in the ghost world the claim whose effects the tables already show. */
    ghost method BatchClaimed(batch: seq<DeliveryId>, now: int)
      requires Invariant(world.history) && QueueClaimed(world) && world.drainer == Draining([], Fresh)
      requires IsBatch(BeforeClaim(world.history.spool, now), now, 100, batch)
      requires spool.Tables() == SpoolTables.Claim(world.history.spool, batch, now)
      requires world.store == store.data && world.stored == store.stored
      requires world.history.persisted == store.persisted
      modifies this`world
      ensures Valid() && Reaches(old(world), world)
      ensures var handed := HandedOut(BeforeClaim(old(world).history.spool, now), batch);
        Matches(world, handed) && |handed| <= 100
    {
      hide After, Invariant, QueueClaimed, Matches, Reaches;
      var m := Move(Claiming(batch, 100), now);
      ReachesSelf(world);
      ReachesOneMore(world, world, m);
      HistoryKept(world, m);
      QueueKept(world, m);
      ClaimShape(world, batch, now);
      world := After(world, m);
    }

    /** Claims a batch and processes it, delivery by delivery; the batch is empty when nothing can be claimed. */
    method DrainBatch(fates: seq<Fate>, now: int) returns (size: nat)
      requires Valid() && world.drainer == Draining([], Fresh) && |fates| >= 100
      modifies this`world, spool, store
      ensures Valid() && world.drainer == Draining([], Fresh)
      ensures Reaches(old(world), world)
      ensures BatchRan(old(GroundNow()), GroundNow(), now, fates)
    {
      hide Invariant, QueueClaimed, Matches, Reaches, BeforeClaim, SpoolTables.Claim, HandedOut, Turn, AllClaimed,
           IsSettled;
      var claimed := spool.Claim(now, 100);
      ghost var batch :| IsBatch(BeforeClaim(world.history.spool, now), now, 100, batch)
        && spool.Tables() == SpoolTables.Claim(world.history.spool, batch, now)
        && claimed.value == HandedOut(BeforeClaim(world.history.spool, now), batch);
      BatchClaimed(batch, now);
      ghost var g, h := GroundNow(), world.history;
      QueueIsClaimed(world, claimed.value, g);
      size := |claimed.value|;
      var i := 0;
      while i < |claimed.value|
        invariant 0 <= i <= |claimed.value| <= 100
        invariant Valid() && Matches(world, claimed.value[i..]) && Reaches(old(world), world)
        invariant GroundNow() == Turns(g, claimed.value[..i], fates, now)
      {
        ghost var before := world;
        Process(claimed.value[i..], claimed.value[i], fates[i], now);
        ReachesThrough(old(world), before, world);
        assert claimed.value[i..][1..] == claimed.value[i + 1..];
        assert claimed.value[..i + 1][..i] == claimed.value[..i];
        i := i + 1;
      }
      assert claimed.value[i..] == [] && claimed.value[..i] == claimed.value;
      AllWorked();
      if AllDelivered(fates, |claimed.value|) {
        BatchSettles(g, claimed.value, fates, now, h, |claimed.value|);
      }
    }

    /**
     * The whole loop, for the readings of the clock that it takes before its deadline: `grounds` are those between its
     * passes. It ends before its deadline exactly when nothing pending is eligible any more.
     */
    method Drain(passes: seq<(int, seq<Fate>)>) returns (passed: nat, ghost grounds: seq<Ground>)
      requires Valid() && world.drainer == Draining([], Fresh)
      requires forall pass :: pass in passes ==> |pass.1| >= 100
      modifies this`world, spool, store
      ensures Valid() && world.drainer == Draining([], Fresh)
      ensures Reaches(old(world), world)
      ensures passed <= |passes| && |grounds| == passed + 1
      ensures grounds[0] == old(GroundNow()) && grounds[passed] == GroundNow()
      ensures forall k :: 0 <= k < passed ==> BatchRan(grounds[k], grounds[k + 1], passes[k].0, passes[k].1)
      ensures forall k :: 0 < k < passed ==> HasEligible(grounds[k].spool)
      ensures passed < |passes| ==> passed > 0 && !HasEligible(grounds[passed].spool)
    {
      hide BatchRan, Invariant, QueueClaimed, Reaches, HasEligible;
      ReachesSelf(world);
      passed := 0;
      grounds := [GroundNow()];
      while passed < |passes|
        invariant Valid() && world.drainer == Draining([], Fresh) && Reaches(old(world), world)
        invariant 0 <= passed <= |passes| && |grounds| == passed + 1
        invariant grounds[0] == old(GroundNow()) && grounds[passed] == GroundNow()
        invariant forall k :: 0 <= k < passed ==> BatchRan(grounds[k], grounds[k + 1], passes[k].0, passes[k].1)
        invariant forall k :: 0 < k <= passed && k < |passes| ==> HasEligible(grounds[k].spool)
      {
        ghost var before := world;
        assert passes[passed] in passes;
        var size := DrainBatch(passes[passed].1, passes[passed].0);
        ReachesThrough(old(world), before, world);
        grounds := grounds + [GroundNow()];
        passed := passed + 1;
        var goesOn := spool.HasEligiblePending();
        EligibleTold(grounds[passed].spool, goesOn);
        if !goesOn {
          break;
        }
      }
    }

    lemma EligibleTold(s: Spool, goesOn: bool)
      requires goesOn <==> exists id :: id in s.records && s.records[id].state.Pending? && InRecovery(s, id, Eligible)
      ensures goesOn <==> HasEligible(s)
    {
    }
  }
}
