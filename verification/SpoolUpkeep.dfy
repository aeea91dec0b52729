/**
 * What the spool keeps of the past, and in what order (src/capture/spool.ts): over every run its tables are tidy, the
 * quarantined copies are the newest thousand, and recovery rows are forgotten only behind ten thousand newer ones.
 */
module SpoolUpkeep {
  import opened Prelude
  import opened CaptureRecords
  import opened SpoolTables
  import opened ClaimFacts
  import opened Recovery
  import opened SpoolRuns

  // ---- the newest rows ----

  /** No two rows have one number, and none has a higher number than the last one given. */
  ghost predicate Numbered(rowids: map<DeliveryId, nat>, last: nat) {
    && (forall id :: id in rowids ==> rowids[id] <= last)
    && (forall a, b :: a in rowids && b in rowids && rowids[a] == rowids[b] ==> a == b)
  }

  lemma {:induction false} LowestExists(rowids: map<DeliveryId, nat>, ids: set<DeliveryId>) returns (low: DeliveryId)
    requires ids != {} && ids <= rowids.Keys
    ensures low in ids && forall id :: id in ids ==> rowids[low] <= rowids[id]
    decreases |ids|
  {
    var some :| some in ids;
    var rest := ids - {some};
    low := some;
    if rest != {} {
      var next := LowestExists(rowids, rest);
      if rowids[next] < rowids[some] {
        low := next;
      }
    }
    forall id | id in ids ensures rowids[low] <= rowids[id] {
      assert id == some || id in rest;
    }
  }

  /** At most `keep` rows are kept, and a row is dropped only behind `keep` newer ones. */
  lemma NewestAreKept(rowids: map<DeliveryId, nat>, last: nat, keep: nat)
    requires Numbered(rowids, last)
    ensures |Newest(rowids, keep)| <= keep
    ensures |rowids| <= keep ==> Newest(rowids, keep) == rowids.Keys
  {
    hide NewerThan;
    var kept := Newest(rowids, keep);
    if kept != {} {
      var low := LowestExists(rowids, kept);
      OthersAreNewer(rowids, last, kept, low);
      SubsetSize(kept - {low}, NewerThan(rowids, low));
    }
    forall id | id in rowids ensures |NewerThan(rowids, id)| < |rowids| {
      NewerIsSmaller(rowids, id);
    }
  }

  lemma OthersAreNewer(rowids: map<DeliveryId, nat>, last: nat, kept: set<DeliveryId>, low: DeliveryId)
    requires Numbered(rowids, last) && kept <= rowids.Keys && low in kept
    requires forall id :: id in kept ==> rowids[low] <= rowids[id]
    ensures kept - {low} <= NewerThan(rowids, low)
  {
  }

  lemma NewerIsSmaller(rowids: map<DeliveryId, nat>, id: DeliveryId)
    requires id in rowids
    ensures |NewerThan(rowids, id)| < |rowids|
  {
    assert NewerThan(rowids, id) <= rowids.Keys - {id};
    SubsetSize(NewerThan(rowids, id), rowids.Keys - {id});
    assert |rowids.Keys - {id}| == |rowids| - 1;
  }

  // ---- tidy tables ----

  /** Exactly the claimed rows have a lease, sizes are those of the payloads, and only who waits or ended has a key. */
  ghost predicate IsTidy(s: Spool, id: DeliveryId) {
    && (id in s.records ==>
          && (s.records[id].leaseUntil.Some? <==> s.records[id].state.Claimed?)
          && s.records[id].payloadBytes == s.records[id].payload.bytes)
    && (id in s.recovery ==>
          && (s.recovery[id].state.WaitingDependency? ==> s.recovery[id].dependencyKey.Some?)
          && (s.recovery[id].dependencyKey.Some? ==>
                s.recovery[id].state.WaitingDependency? || s.recovery[id].state.Quarantined?))
  }

  ghost predicate AreNumbered(s: Spool) {
    && Numbered(RecoveryNumbers(s.recovery), s.lastRecoveryRow)
    && Numbered(CopyNumbers(s.quarantine), s.lastQuarantineRow) && |s.quarantine| <= 1_000
  }

  lemma ClaimStaysTidy(h: History, a: Action, id: DeliveryId)
    requires InvariantAt(h, id) && a.step.DoClaim? && Enabled(h, a) && IsTidy(h.spool, id)
    ensures IsTidy(Apply(h, a).spool, id)
  {
    hide Apply;
    ClaimAcross(h, a, id);
  }

  lemma QuarantineStaysTidy(h: History, a: Action, id: DeliveryId)
    requires InvariantAt(h, id) && a.step.DoQuarantine? && IsTidy(h.spool, id)
    requires InvariantAt(h, a.step.id)
    ensures IsTidy(Apply(h, a).spool, id)
  {
    hide MoveToQuarantine;
    if a.step.id in h.spool.records {
      MoveFacts(h.spool, a.step.id, a.step.code, a.step.reason, a.now);
    }
  }

  lemma AcknowledgeStaysTidy(h: History, a: Action, id: DeliveryId)
    requires InvariantAt(h, id) && a.step.DoAcknowledge? && Enabled(h, a) && IsTidy(h.spool, id)
    requires InvariantAt(h, a.step.id)
    ensures IsTidy(Apply(h, a).spool, id)
  {
  }

  lemma AdmitStaysTidy(h: History, a: Action, id: DeliveryId)
    requires InvariantAt(h, id) && a.step.DoAdmit? && IsTidy(h.spool, id)
    ensures IsTidy(Apply(h, a).spool, id)
  {
    hide TotalBytes;
  }

  lemma RequeueStaysTidy(h: History, a: Action, id: DeliveryId)
    requires InvariantAt(h, id) && a.step.DoRequeue? && Enabled(h, a) && IsTidy(h.spool, id)
    ensures IsTidy(Apply(h, a).spool, id)
  {
  }

  lemma MoveStaysTidy(h: History, a: Action, id: DeliveryId)
    requires InvariantAt(h, id) && IsTidy(h.spool, id)
    requires a.step.DoPersist? || a.step.DoRetry? || a.step.DoWait? || a.step.DoRelease?
    ensures IsTidy(Apply(h, a).spool, id)
  {
    hide RetryDelay;
  }

  lemma RowStaysTidy(h: History, a: Action, id: DeliveryId)
    requires Invariant(h) && Enabled(h, a) && IsTidy(h.spool, id)
    ensures IsTidy(Apply(h, a).spool, id)
  {
    hide Apply, IsTidy, Enabled;
    assert InvariantAt(h, id);
    if a.step.DoClaim? {
      ClaimStaysTidy(h, a, id);
    } else if a.step.DoQuarantine? {
      assert InvariantAt(h, a.step.id);
      QuarantineStaysTidy(h, a, id);
    } else if a.step.DoAcknowledge? {
      assert InvariantAt(h, a.step.id);
      AcknowledgeStaysTidy(h, a, id);
    } else if a.step.DoAdmit? {
      AdmitStaysTidy(h, a, id);
    } else if a.step.DoRequeue? {
      RequeueStaysTidy(h, a, id);
    } else {
      MoveStaysTidy(h, a, id);
    }
  }

  // ---- the numbers ----

  /** The copies of a table without some rows, or with one more that got the next number. */
  lemma FewerAreNumbered(all: map<DeliveryId, nat>, some: map<DeliveryId, nat>, last: nat, next: nat)
    requires Numbered(all, last) && last <= next
    requires forall id :: id in some ==> id in all && some[id] == all[id]
    ensures Numbered(some, next)
  {
  }

  lemma OneMoreIsNumbered(all: map<DeliveryId, nat>, id: DeliveryId, last: nat)
    requires Numbered(all, last) && id !in all
    ensures Numbered(all[id := last + 1], last + 1)
  {
  }

  lemma NewestCopiesAre(quarantine: map<DeliveryId, QuarantineRow>, numbers: map<DeliveryId, nat>, last: nat)
    requires numbers == CopyNumbers(quarantine) && Numbered(numbers, last)
    ensures var kept := NewestCopies(quarantine);
      && |kept| <= 1_000
      && (|quarantine| <= 1_000 ==> kept == quarantine)
      && (forall id :: id in kept ==> id in quarantine && kept[id] == quarantine[id])
      && (forall id :: id in quarantine ==> (id in kept <==> |NewerThan(numbers, id)| < 1_000))
  {
    hide NewerThan, Numbered;
    NewestAreKept(numbers, last, 1_000);
    assert numbers.Keys == quarantine.Keys;
    assert NewestCopies(quarantine).Keys == Newest(numbers, 1_000);
  }

  /**
   * The copy of a quarantined delivery is in the table: an earlier one as it was, or a new one. The other copies stay,
   * except the oldest one when a thousand are newer.
   */
  lemma CopyIsKept(s: Spool, id: DeliveryId, payload: Payload, code: QuarantineCode, now: int)
    requires AreNumbered(s)
    ensures var t := CopyToQuarantine(s, id, payload, code, now);
      && AreNumbered(t) && id in t.quarantine
      && (id in s.quarantine ==> t.quarantine == s.quarantine)
      && (id !in s.quarantine ==>
            && (t.quarantine[id].payload, t.quarantine[id].code, t.quarantine[id].quarantinedAt) == (payload, code, now)
            && t.quarantine[id].rowid == s.lastQuarantineRow + 1)
      && (forall other :: other in t.quarantine && other != id ==>
            other in s.quarantine && t.quarantine[other] == s.quarantine[other])
      && (forall other :: other in s.quarantine && other !in t.quarantine ==> IsOldestOfThousand(s, other))
  {
    if id in s.quarantine {
      hide NewestCopies, Numbered, NewerThan;
      NewestCopiesAre(s.quarantine, CopyNumbers(s.quarantine), s.lastQuarantineRow);
    } else {
      hide Numbered, CopyNumbers;
      NewCopyIsKept(s, id, QuarantineRow(s.lastQuarantineRow + 1, payload, code, now));
    }
  }

  lemma NewCopyIsKept(s: Spool, id: DeliveryId, row: QuarantineRow)
    requires AreNumbered(s) && id !in s.quarantine && row.rowid == s.lastQuarantineRow + 1
    ensures var kept := NewestCopies(s.quarantine[id := row]);
      && |kept| <= 1_000 && Numbered(CopyNumbers(kept), row.rowid) && id in kept && kept[id] == row
      && (forall other :: other in kept && other != id ==> other in s.quarantine && kept[other] == s.quarantine[other])
      && (forall other :: other in s.quarantine && other !in kept ==> IsOldestOfThousand(s, other))
  {
    hide NewestCopies, Numbered, NewerThan, IsOldestOfThousand;
    var all, numbers := s.quarantine[id := row], CopyNumbers(s.quarantine)[id := row.rowid];
    OneMoreIsNumbered(CopyNumbers(s.quarantine), id, s.lastQuarantineRow);
    assert numbers == CopyNumbers(all);
    NewestCopiesAre(all, numbers, row.rowid);
    LastIsNewest(CopyNumbers(s.quarantine), id, s.lastQuarantineRow);
    var kept := NewestCopies(all);
    FewerAreNumbered(numbers, CopyNumbers(kept), row.rowid, row.rowid);
    forall other | other in s.quarantine && other !in kept ensures IsOldestOfThousand(s, other) {
      assert other in all;
      DroppedIsOldest(s, id, row.rowid, other);
    }
  }

  ghost predicate IsOldestOfThousand(s: Spool, id: DeliveryId)
    requires id in s.quarantine
  {
    && |s.quarantine| == 1_000
    && forall other :: other in s.quarantine && other != id ==> s.quarantine[id].rowid < s.quarantine[other].rowid
  }

  lemma LastIsNewest(numbers: map<DeliveryId, nat>, id: DeliveryId, last: nat)
    requires Numbered(numbers, last)
    ensures NewerThan(numbers[id := last + 1], id) == {}
  {
  }

  lemma DroppedIsOldest(s: Spool, id: DeliveryId, number: nat, other: DeliveryId)
    requires id !in s.quarantine && other in s.quarantine && |s.quarantine| <= 1_000
    requires |NewerThan(CopyNumbers(s.quarantine)[id := number], other)| >= 1_000
    ensures IsOldestOfThousand(s, other)
  {
    var numbers := CopyNumbers(s.quarantine)[id := number];
    var newer, rest := NewerThan(numbers, other), numbers.Keys - {other};
    assert numbers.Keys == s.quarantine.Keys + {id};
    assert |rest| == |s.quarantine|;
    assert newer <= rest;
    SubsetSize(newer, rest);
    forall k | k in s.quarantine && k != other ensures s.quarantine[other].rowid < s.quarantine[k].rowid {
      assert k in newer;
    }
  }

  /**
   * A row that does not parse leaves its copy behind when it is claimed: as corrupt text if it is of the current
   * version, as unsupported otherwise.
   */
  lemma UnreadableIsCopied(s: Spool, id: DeliveryId, now: int)
    requires AreNumbered(s) && id in s.records && ParseRow(s.records[id]).None?
    ensures var t := ClaimRow(s, id, now);
      && id !in t.records && id in t.quarantine && t.counters.quarantined == s.counters.quarantined + 1
      && (id in s.quarantine ==> t.quarantine == s.quarantine)
      && (id !in s.quarantine ==>
            && t.quarantine[id].payload == s.records[id].payload
            && t.quarantine[id].code == if s.records[id].version == 1 then Corrupt else Unsupported)
      && (id in t.recovery ==>
            && t.recovery[id].state.Quarantined?
            && t.recovery[id].reason == if s.records[id].version == 1 then MalformedRecord else UnsupportedSchema)
  {
    hide CopyToQuarantine, AreNumbered;
    var payload := s.records[id].payload;
    CopyIsKept(s, id, payload, Corrupt, now);
    CopyIsKept(s, id, payload, Unsupported, now);
    CopyCountsNothing(s, id, payload, Corrupt, now);
    CopyCountsNothing(s, id, payload, Unsupported, now);
  }

  lemma CopyCountsNothing(s: Spool, id: DeliveryId, payload: Payload, code: QuarantineCode, now: int)
    ensures CopyToQuarantine(s, id, payload, code, now).counters == s.counters
  {
  }

  lemma MoveIsNumbered(s: Spool, id: DeliveryId, code: QuarantineCode, reason: Reason, now: int)
    requires AreNumbered(s) && id in s.records
    ensures AreNumbered(MoveToQuarantine(s, id, code, reason, now))
  {
    hide CopyToQuarantine;
    CopyIsKept(s, id, s.records[id].payload, code, now);
    CopyLeavesRecovery(s, id, s.records[id].payload, code, now);
    var t := MoveToQuarantine(s, id, code, reason, now);
    assert RecoveryNumbers(t.recovery) == RecoveryNumbers(s.recovery);
    assert t.quarantine == CopyToQuarantine(s, id, s.records[id].payload, code, now).quarantine;
  }

  lemma CopyLeavesRecovery(s: Spool, id: DeliveryId, payload: Payload, code: QuarantineCode, now: int)
    ensures var t := CopyToQuarantine(s, id, payload, code, now);
      t.recovery == s.recovery && t.records == s.records && t.lastRecoveryRow == s.lastRecoveryRow
  {
  }

  lemma {:induction false} ClaimRowsAreNumbered(s: Spool, batch: seq<DeliveryId>, now: int)
    requires AreNumbered(s)
    ensures AreNumbered(ClaimRows(s, batch, now))
  {
    if batch != [] {
      hide AreNumbered, MoveToQuarantine;
      var front, last := batch[..|batch| - 1], batch[|batch| - 1];
      ClaimRowsAreNumbered(s, front, now);
      ClaimRowIsNumbered(ClaimRows(s, front, now), last, now);
    }
  }

  lemma ClaimRowIsNumbered(s: Spool, id: DeliveryId, now: int)
    requires AreNumbered(s)
    ensures AreNumbered(ClaimRow(s, id, now))
  {
    hide MoveToQuarantine;
    if id in s.records {
      if ParseRow(s.records[id]).None? {
        MoveIsNumbered(s, id, Corrupt, MalformedRecord, now);
        MoveIsNumbered(s, id, Unsupported, UnsupportedSchema, now);
      } else {
        SameNumbers(s, ClaimRow(s, id, now));
      }
    }
  }

  /** The rows have the numbers they had; some may be gone. */
  lemma SameNumbers(s: Spool, t: Spool)
    requires AreNumbered(s) && t.quarantine == s.quarantine
    requires t.lastQuarantineRow == s.lastQuarantineRow && t.lastRecoveryRow == s.lastRecoveryRow
    requires forall id :: id in t.recovery ==> id in s.recovery && t.recovery[id].rowid == s.recovery[id].rowid
    ensures AreNumbered(t)
  {
    FewerAreNumbered(RecoveryNumbers(s.recovery), RecoveryNumbers(t.recovery), s.lastRecoveryRow, s.lastRecoveryRow);
    assert CopyNumbers(t.quarantine) == CopyNumbers(s.quarantine);
  }

  lemma NumbersKept(h: History, a: Action)
    requires Invariant(h) && Enabled(h, a) && AreNumbered(h.spool)
    ensures AreNumbered(Apply(h, a).spool)
  {
    hide AreNumbered, MoveToQuarantine, Invariant;
    var s, t := h.spool, Apply(h, a).spool;
    match a.step
    case DoClaim(batch, _) =>
      SameNumbers(s, BeforeClaim(s, a.now));
      ClaimRowsAreNumbered(BeforeClaim(s, a.now), batch, a.now);
    case DoQuarantine(q, code, reason) =>
      if q in s.records {
        var moved := MoveToQuarantine(s, q, code, reason, a.now);
        MoveIsNumbered(s, q, code, reason, a.now);
        SameNumbers(moved, Prune(moved));
      }
    case DoAcknowledge(_) => SameNumbers(s, t);
    case DoRequeue(id) => SameNumbers(s, t);
    case DoAdmit(id, record, bytes, limits) => AdmittedIsNumbered(s, id, record, bytes, limits, a.now);
    case DoPersist(_) =>
    case DoRetry(_, _) => SameNumbers(s, t);
    case DoWait(_, _, _) => SameNumbers(s, t);
    case DoRelease(_) => SameNumbers(s, t);
  }

  lemma AdmittedIsNumbered(s: Spool, id: DeliveryId, record: CaptureRecord, bytes: nat, limits: Limits, now: int)
    requires AreNumbered(s)
    ensures AreNumbered(Admit(s, limits, TotalBytes(s.records), id, record, bytes, now).0)
  {
    hide Numbered, TotalBytes;
    if id !in s.recovery {
      var t := Inserted(s, id, record, bytes, now);
      OneMoreIsNumbered(RecoveryNumbers(s.recovery), id, s.lastRecoveryRow);
      assert RecoveryNumbers(t.recovery) == RecoveryNumbers(s.recovery)[id := s.lastRecoveryRow + 1];
      assert CopyNumbers(t.quarantine) == CopyNumbers(s.quarantine);
    }
    var failed := s.(counters := s.counters.(failedAdmission := s.counters.failedAdmission + 1));
    assert failed.recovery == s.recovery && failed.quarantine == s.quarantine;
  }

  /** In every state of every run the tables are tidy, their rows are numbered, and there are at most 1,000 copies. */
  lemma {:induction false} TablesAreTidy(hs: seq<History>, actions: seq<Action>, k: nat)
    requires IsRun(hs, actions) && k < |hs|
    ensures (forall id :: IsTidy(hs[k].spool, id)) && AreNumbered(hs[k].spool)
  {
    hide Apply, AreNumbered, IsTidy, Invariant;
    if k > 0 {
      TablesAreTidy(hs, actions, k - 1);
      InvariantHolds(hs, actions, k - 1);
      NumbersKept(hs[k - 1], actions[k - 1]);
      forall id ensures IsTidy(hs[k].spool, id) {
        RowStaysTidy(hs[k - 1], actions[k - 1], id);
      }
    } else {
      EmptyIsTidy();
    }
  }

  lemma EmptyIsTidy()
    ensures (forall id :: IsTidy(EMPTY, id)) && AreNumbered(EMPTY)
  {
    assert RecoveryNumbers(EMPTY.recovery) == map[] && CopyNumbers(EMPTY.quarantine) == map[];
  }

  // ---- what is forgotten ----

  /** The step brings the number of committed or of quarantined deliveries to a multiple of 256. */
  ghost predicate IsPruning(h: History, a: Action) {
    match a.step
    case DoAcknowledge(id) => InState(h.spool, id, Claimed) && (h.spool.counters.committed + 1) % 256 == 0
    case DoQuarantine(id, _, _) => id in h.spool.records && (h.spool.counters.quarantined + 1) % 256 == 0
    case _ => false
  }

  lemma PrunedExactly(s: Spool, id: DeliveryId)
    requires AreNumbered(s) && id in s.recovery
    ensures id !in Prune(s).recovery <==> id !in s.records && |NewerThan(RecoveryNumbers(s.recovery), id)| >= 10_000
  {
    NewestAreKept(RecoveryNumbers(s.recovery), s.lastRecoveryRow, 10_000);
  }

  /** What is known of the delivery is forgotten by a step that prunes, behind ten thousand newer rows. */
  ghost predicate IsForgotten(h: History, a: Action, id: DeliveryId)
    requires id in h.spool.recovery && Enabled(h, a)
  {
    && IsPruning(h, a) && id !in Apply(h, a).spool.records
    && |NewerThan(RecoveryNumbers(h.spool.recovery), id)| >= 10_000
  }

  lemma QuarantineForgets(h: History, a: Action, id: DeliveryId)
    requires Invariant(h) && a.step.DoQuarantine? && AreNumbered(h.spool) && id in h.spool.recovery
    ensures id !in Apply(h, a).spool.recovery <==> IsForgotten(h, a, id)
  {
    hide MoveToQuarantine, AreNumbered, KeptHistory, NewerThan, RecoveryNumbers;
    var q := a.step.id;
    assert InvariantAt(h, id) && InvariantAt(h, q);
    hide Invariant;
    if q in h.spool.records {
      var moved := MoveToQuarantine(h.spool, q, a.step.code, a.step.reason, a.now);
      MoveFacts(h.spool, q, a.step.code, a.step.reason, a.now);
      MoveIsNumbered(h.spool, q, a.step.code, a.step.reason, a.now);
      NumbersAreSame(h.spool, moved);
      PrunedExactly(moved, id);
    }
  }

  lemma AcknowledgeForgets(h: History, a: Action, id: DeliveryId)
    requires Invariant(h) && a.step.DoAcknowledge? && Enabled(h, a) && AreNumbered(h.spool) && id in h.spool.recovery
    ensures id !in Apply(h, a).spool.recovery <==> IsForgotten(h, a, id)
  {
    hide AreNumbered, KeptHistory, NewerThan, RecoveryNumbers;
    var q := a.step.id;
    assert InvariantAt(h, id) && InvariantAt(h, q);
    hide Invariant;
    if InState(h.spool, q, Claimed) {
      var t := h.spool.(
        records := h.spool.records - {q},
        counters := h.spool.counters.(committed := h.spool.counters.committed + 1),
        recovery := h.spool.recovery[q := h.spool.recovery[q].(state := Committed, updatedAt := a.now)]);
      SameNumbers(h.spool, t);
      NumbersAreSame(h.spool, t);
      PrunedExactly(t, id);
    }
  }

  /**
   * A step forgets what it knows of a delivery exactly if it is a pruning one, leaves the delivery out of the spool,
   * and ten thousand deliveries have newer rows.
   */
  lemma ForgetsExactly(h: History, a: Action, id: DeliveryId)
    requires Invariant(h) && Enabled(h, a) && AreNumbered(h.spool) && id in h.spool.recovery
    ensures id !in Apply(h, a).spool.recovery <==> IsForgotten(h, a, id)
  {
    if a.step.DoClaim? {
      hide Apply, AreNumbered, NewerThan;
      ClaimAcross(h, a, id);
    } else if a.step.DoQuarantine? {
      QuarantineForgets(h, a, id);
    } else if a.step.DoAcknowledge? {
      AcknowledgeForgets(h, a, id);
    } else {
      hide AreNumbered, NewerThan, Invariant, Claim, Quarantine, Acknowledge, TotalBytes;
    }
  }

  lemma NumbersAreSame(s: Spool, t: Spool)
    requires t.recovery.Keys == s.recovery.Keys
    requires forall id :: id in s.recovery ==> t.recovery[id].rowid == s.recovery[id].rowid
    ensures RecoveryNumbers(t.recovery) == RecoveryNumbers(s.recovery)
  {
  }
}
