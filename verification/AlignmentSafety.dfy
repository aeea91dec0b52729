/**
 * Crash safety of alignment over any number of runs: an interrupted publication can always be finished or undone, a
 * rollback can be finished exactly when it was not interrupted half way, and no write ever replaces a state the plan
 * does not know.
 */
module AlignmentSafety {
  import opened Alignment

  // ---- what a restore does ----

  /** After the first `fuel` writes of a restore, exactly the first `fuel` files are back. */
  lemma {:induction false} RestoreShape(p: Process, files: seq<AlignmentFile>)
    requires DistinctPaths(files) && !p.stopped
    ensures var r := Restore(p, files);
      && r.disk.journal == p.disk.journal
      && r.stopped == (p.fuel < |files|)
      && r.fuel == (if p.fuel < |files| then 0 else p.fuel - |files|)
      && (forall i :: 0 <= i < |files| ==>
            StateOf(r.disk, files[i].path) == if i < p.fuel then files[i].before else StateOf(p.disk, files[i].path))
      && (forall path :: (forall i :: 0 <= i < |files| ==> files[i].path != path) ==>
          StateOf(r.disk, path) == StateOf(p.disk, path))
  {
    if files != [] {
      RestoreShape(p, files[..|files| - 1]);
    }
  }

  // ---- what a publication does when nobody else edits the files ----

  ghost predicate NoEdits(hooks: seq<Hook>) {
    forall i :: 0 <= i < |hooks| ==> hooks[i].edits == map[]
  }

  /** The first n files are published, the others are not. */
  ghost predicate PublishedUpTo(disk: Disk, files: seq<AlignmentFile>, n: nat) {
    forall i :: 0 <= i < |files| ==> if i < n then IsAfter(disk, files[i]) else IsBefore(disk, files[i])
  }

  lemma {:induction false} PublishShape(p: Process, files: seq<AlignmentFile>, i: nat, hooks: seq<Hook>)
    requires DistinctPaths(files) && i <= |files| && NoEdits(hooks) && PublishedUpTo(p.disk, files, i)
    ensures var r := Publish(p, files, i, hooks);
      && r.process.disk.journal == p.disk.journal
      && (p.stopped ==> r.process == p)
      && (r.process.stopped ==> !r.thrown)
      && PublishedUpTo(r.process.disk, files, r.published)
      && (!r.process.stopped && !r.thrown ==> r.published == |files|)
    decreases |files| - i
  {
    if !p.stopped && i < |files| && !HookAt(hooks, i).writeFails {
      var written := Edited(WriteFile(p, files[i].path, files[i].After()), HookAt(hooks, i).edits);
      assert HookAt(hooks, i).edits == map[];
      if !written.stopped {
        assert written.disk.files == p.disk.files[files[i].path := files[i].After()];
        assert PublishedUpTo(written.disk, files, i + 1);
        if !HookAt(hooks, i).throws {
          PublishShape(written, files, i + 1, hooks);
        }
      }
    }
  }

  // ---- crash safety ----

  /**
   * Every file is in its before or its after state, and if they are mixed the journal says that a publication was under
   * way.
   */
  ghost predicate Recoverable(disk: Disk, plan: Plan) {
    && AllKnown(disk, plan)
    && (disk.journal.Publishing? || AllBefore(disk, plan) || (AllAfter(disk, plan) && !disk.journal.NoJournal?))
  }

  /** Putting the published files back leaves every file known, and all of them before when it gets to its end. */
  lemma UndoShape(p: Process, plan: Plan, n: nat)
    requires n <= |plan| && PublishedUpTo(p.disk, plan, n) && !p.stopped
    ensures var r := Restore(p, plan[..n]);
      && r.disk.journal == p.disk.journal && AllKnown(r.disk, plan) && (!r.stopped ==> AllBefore(r.disk, plan))
  {
    var published := plan[..n];
    RestoreShape(p, published);
    forall i | 0 <= i < |plan|
      ensures var r := Restore(p, published);
        StateOf(r.disk, plan[i].path) == if i < n && i < p.fuel then plan[i].before else StateOf(p.disk, plan[i].path)
    {
      if i < n {
        assert published[i] == plan[i];
      } else {
        assert forall j :: 0 <= j < n ==> published[j] == plan[j];
      }
    }
  }

  lemma WholeRestore(p: Process, plan: Plan)
    requires AllKnown(p.disk, plan) && !p.stopped
    ensures var r := Restore(p, plan);
      && r.disk.journal == p.disk.journal && AllKnown(r.disk, plan) && (!r.stopped ==> AllBefore(r.disk, plan))
  {
    RestoreShape(p, plan);
  }

  lemma ForwardKeeps(p: Process, plan: Plan, hooks: seq<Hook>)
    requires Recoverable(p.disk, plan) && NoEdits(hooks)
    ensures Recoverable(Forward(p, plan, hooks).0.disk, plan)
  {
    hide Publish, Restore;
    if !p.stopped && !AllAfter(p.disk, plan) && AllBefore(p.disk, plan) {
      var begun := WriteJournal(p, Publishing);
      PublishShape(begun, plan, 0, hooks);
      var result := Publish(begun, plan, 0, hooks);
      if !result.process.stopped {
        UndoShape(result.process, plan, result.published);
      }
    }
  }

  lemma ForwardCompletes(p: Process, plan: Plan)
    requires (AllBefore(p.disk, plan) || AllAfter(p.disk, plan)) && !Forward(p, plan, []).0.stopped
    ensures Forward(p, plan, []).1 == Done && AllAfter(Forward(p, plan, []).0.disk, plan)
  {
    if !AllAfter(p.disk, plan) {
      NeverThrown(WriteJournal(p, Publishing), plan, 0);
      PublishShape(WriteJournal(p, Publishing), plan, 0, []);
    }
  }

  lemma {:induction false} NeverThrown(p: Process, files: seq<AlignmentFile>, i: nat)
    requires DistinctPaths(files) && i <= |files| && PublishedUpTo(p.disk, files, i)
    ensures !Publish(p, files, i, []).thrown
    decreases |files| - i
  {
    if !p.stopped && i < |files| {
      var written := Edited(WriteFile(p, files[i].path, files[i].After()), map[]);
      if !written.stopped {
        assert written.disk.files == p.disk.files[files[i].path := files[i].After()];
        assert PublishedUpTo(written.disk, files, i + 1);
        NeverThrown(written, files, i + 1);
      }
    }
  }

  lemma BackwardCompletes(p: Process, plan: Plan)
    requires Recoverable(p.disk, plan) && (AllBefore(p.disk, plan) || AllAfter(p.disk, plan))
    requires !Backward(p, plan).0.stopped && (p.disk.journal.Publishing? ==> AllBefore(p.disk, plan))
    ensures Backward(p, plan).1 == Done && AllBefore(Backward(p, plan).0.disk, plan)
  {
    hide Restore;
    if !p.stopped {
      WholeRestore(p, plan);
    }
  }

  // ---- one call ----

  /** A call as its caller sees it: its direction, the writes it lives for, and what happens around its publications. */
  datatype Call = Call(rollback: bool, fuel: nat, hooks: seq<Hook>)

  function Outcome(disk: Disk, plan: Plan, call: Call): (Process, Status) {
    Run(Started(disk, call.fuel), plan, call.rollback, call.hooks)
  }

  /** A restore of applied files that stops after `fuel` writes leaves no mixture behind. */
  ghost predicate LeavesNoMixture(plan: Plan, fuel: nat) {
    || |plan| <= fuel
    || (forall i :: 0 <= i < fuel ==> plan[i].before == plan[i].After())
    || (forall i :: fuel <= i < |plan| ==> plan[i].before == plan[i].After())
  }

  /**
   * What a caller can check before a rollback: there is nothing to undo, or the undoing is journaled, or it is long
   * enough.
   */
  ghost predicate MayStop(disk: Disk, plan: Plan, call: Call) {
    call.rollback ==> disk.journal.Publishing? || AllBefore(disk, plan) || LeavesNoMixture(plan, call.fuel)
  }

  lemma RecoveryKeeps(p: Process, plan: Plan)
    requires Recoverable(p.disk, plan) && p.disk.journal.Publishing? && !p.stopped
    ensures Recoverable(Restore(p, plan).disk, plan)
    ensures !Restore(p, plan).stopped ==> AllBefore(Restore(p, plan).disk, plan)
    ensures Restore(p, plan).disk.journal.Publishing?
  {
    hide Restore;
    WholeRestore(p, plan);
  }

  /** An apply may stop anywhere. A rollback may stop exactly where it leaves no mixture behind. */
  lemma CallKeeps(disk: Disk, plan: Plan, call: Call)
    requires Recoverable(disk, plan) && NoEdits(call.hooks)
    ensures Recoverable(Outcome(disk, plan, call).0.disk, plan) <==> MayStop(disk, plan, call)
  {
    hide Restore, Forward;
    var p := Started(disk, call.fuel);
    if disk.journal.Publishing? {
      RecoveryKeeps(p, plan);
      if !call.rollback {
        ForwardKeeps(Restore(p, plan), plan, call.hooks);
      }
    } else if !call.rollback {
      ForwardKeeps(p, plan, call.hooks);
    } else if !AllBefore(disk, plan) {
      StoppedRollback(p, plan);
    }
  }

  lemma StoppedRollback(p: Process, plan: Plan)
    requires Recoverable(p.disk, plan) && !p.stopped && !p.disk.journal.Publishing? && !AllBefore(p.disk, plan)
    ensures Recoverable(Backward(p, plan).0.disk, plan) <==> LeavesNoMixture(plan, p.fuel)
  {
    hide Restore;
    RestoreShape(p, plan);
    var r := Restore(p, plan);
    if p.fuel < |plan| {
      assert Backward(p, plan).0.disk == r.disk;
      forall i | 0 <= i < |plan|
        ensures StateOf(r.disk, plan[i].path) == if i < p.fuel then plan[i].before else plan[i].After()
      {
        assert IsAfter(p.disk, plan[i]);
      }
      if AllBefore(r.disk, plan) {
        forall i | p.fuel <= i < |plan| ensures plan[i].before == plan[i].After() {
          assert IsBefore(r.disk, plan[i]);
        }
      }
      if AllAfter(r.disk, plan) {
        forall i | 0 <= i < p.fuel ensures plan[i].before == plan[i].After() {
          assert IsAfter(r.disk, plan[i]);
        }
      }
    }
  }

  /**
   * Where a rollback may not stop, it strands its files: every later call, in either direction, refuses and changes
   * nothing.
   */
  lemma StoppedRollbackIsStuck(disk: Disk, plan: Plan, call: Call, next: Call)
    requires Recoverable(disk, plan) && NoEdits(call.hooks) && !MayStop(disk, plan, call)
    ensures var stranded := Outcome(disk, plan, call).0.disk;
      Outcome(stranded, plan, next) == (Started(stranded, next.fuel), Refused)
  {
    hide Restore;
    CallKeeps(disk, plan, call);
    WholeRestore(Started(disk, call.fuel), plan);
  }

  function NewFiles(): Plan {
    [AlignmentFile("wrapper", Absent, "w", 493), AlignmentFile("hooks", Absent, "h", 420)]
  }

  function AppliedFiles(): Disk {
    Disk(map["wrapper" := Present("w", 493), "hooks" := Present("h", 420)], Applied)
  }

  /** Two new files are applied; their rollback stops after the first of them. Neither direction works any more. */
  lemma RollbackCanStrand(next: Call)
    ensures Outcome(Disk(map[], NoJournal), NewFiles(), Call(false, 4, [])) == (Process(AppliedFiles(), 0, false,
          [("wrapper", Absent), ("hooks", Absent)]), Done)
    ensures var stranded := Outcome(AppliedFiles(), NewFiles(), Call(true, 1, [])).0.disk;
      Outcome(stranded, NewFiles(), next) == (Started(stranded, next.fuel), Refused)
  {
    var plan := NewFiles();
    var p := Started(Disk(map[], NoJournal), 4);
    assert !IsAfter(p.disk, plan[0]);
    var begun := WriteJournal(p, Publishing);
    var first := Edited(WriteFile(begun, "wrapper", plan[0].After()), map[]);
    var second := Edited(WriteFile(first, "hooks", plan[1].After()), map[]);
    assert Publish(second, plan, 2, []) == Publication(second, 2, false);
    assert Publish(first, plan, 1, []) == Publication(second, 2, false);
    assert Publish(begun, plan, 0, []) == Publication(second, 2, false);
    assert begun.fuel == 3 && second.log == [("wrapper", Absent), ("hooks", Absent)];
    assert second.disk.files == AppliedFiles().files;
    assert plan[0].before != plan[0].After() && plan[1].before != plan[1].After();
    assert !IsBefore(AppliedFiles(), plan[0]);
    StoppedRollbackIsStuck(AppliedFiles(), plan, Call(true, 1, []), next);
  }

  // ---- what a call ends with ----

  /** Some publication fails or throws, or the journal cannot be written after the last one. */
  ghost predicate Interferes(hooks: seq<Hook>, n: nat) {
    exists i :: 0 <= i < |hooks| && ((i <= n && hooks[i].writeFails) || (i < n && hooks[i].throws))
  }

  /** The plan leaves some file different from before. */
  ghost predicate Changes(plan: Plan) {
    exists i :: 0 <= i < |plan| && plan[i].before != plan[i].After()
  }

  ghost predicate FailsAt(hooks: seq<Hook>, i: nat) {
    HookAt(hooks, i).writeFails || HookAt(hooks, i).throws
  }

  lemma {:induction false} ThrowsExactly(p: Process, files: seq<AlignmentFile>, i: nat, hooks: seq<Hook>)
    requires DistinctPaths(files) && i <= |files| && NoEdits(hooks) && PublishedUpTo(p.disk, files, i)
    ensures var r := Publish(p, files, i, hooks);
      !r.process.stopped ==> (r.thrown <==> exists j: nat :: i <= j < |files| && FailsAt(hooks, j))
    decreases |files| - i
  {
    if !p.stopped && i < |files| {
      if FailsAt(hooks, i) {
        assert IsBefore(p.disk, files[i]);
      } else {
        var written := Edited(WriteFile(p, files[i].path, files[i].After()), HookAt(hooks, i).edits);
        assert HookAt(hooks, i).edits == map[];
        if !written.stopped {
          assert written.disk.files == p.disk.files[files[i].path := files[i].After()];
          assert PublishedUpTo(written.disk, files, i + 1);
          ThrowsExactly(written, files, i + 1, hooks);
        }
      }
    }
  }

  lemma InterferesExactly(hooks: seq<Hook>, n: nat)
    ensures Interferes(hooks, n) <==> HookAt(hooks, n).writeFails || exists j: nat :: 0 <= j < n && FailsAt(hooks, j)
  {
    if j: nat :| 0 <= j < n && FailsAt(hooks, j) {
      assert j < |hooks|;
    }
    if Interferes(hooks, n) {
      var i :| 0 <= i < |hooks| && ((i <= n && hooks[i].writeFails) || (i < n && hooks[i].throws));
      assert i < n ==> FailsAt(hooks, i);
    }
  }

  /** A forward run from a disk with every file before, at its end: all or nothing, and journaled so. */
  lemma ForwardEnds(p: Process, plan: Plan, hooks: seq<Hook>)
    requires AllBefore(p.disk, plan) && NoEdits(hooks) && !Forward(p, plan, hooks).0.stopped
    ensures var (process, status) := Forward(p, plan, hooks);
      && status == (if Changes(plan) && Interferes(hooks, |plan|) then Failed else Done)
      && (status == Done ==> AllAfter(process.disk, plan) && (Changes(plan) ==> process.disk.journal == Applied))
      && (status == Failed ==> AllBefore(process.disk, plan) && process.disk.journal == RolledBack)
  {
    hide Publish, Restore;
    AfterUnlessChanges(p.disk, plan);
    if Changes(plan) {
      var begun := WriteJournal(p, Publishing);
      PublishShape(begun, plan, 0, hooks);
      ThrowsExactly(begun, plan, 0, hooks);
      InterferesExactly(hooks, |plan|);
      var result := Publish(begun, plan, 0, hooks);
      if !result.process.stopped {
        UndoShape(result.process, plan, result.published);
        PrefixIsAfter(result.process.disk, plan, result.published);
      }
    }
  }

  lemma PrefixIsAfter(disk: Disk, plan: Plan, n: nat)
    requires n <= |plan| && PublishedUpTo(disk, plan, n)
    ensures AllAfter(disk, plan[..n])
  {
  }

  lemma AfterUnlessChanges(disk: Disk, plan: Plan)
    requires AllBefore(disk, plan)
    ensures AllAfter(disk, plan) <==> !Changes(plan)
  {
    if AllAfter(disk, plan) {
      assert forall i :: 0 <= i < |plan| ==> IsBefore(disk, plan[i]) && IsAfter(disk, plan[i]);
    } else {
      var i :| 0 <= i < |plan| && !IsAfter(disk, plan[i]);
      assert IsBefore(disk, plan[i]);
    }
  }

  /**
   * An apply that is not stopped, from files that are all before or were being published: it fails exactly if
   * something interferes with a plan that changes something. Then every file is back and the journal says so; otherwise
   * every file is after, and that is journaled.
   */
  lemma FailedApplyIsPutBack(disk: Disk, plan: Plan, call: Call)
    requires AllKnown(disk, plan) && (disk.journal.Publishing? || AllBefore(disk, plan))
    requires !call.rollback && NoEdits(call.hooks) && !Outcome(disk, plan, call).0.stopped
    ensures var (process, status) := Outcome(disk, plan, call);
      && status == (if Changes(plan) && Interferes(call.hooks, |plan|) then Failed else Done)
      && (status == Done ==> AllAfter(process.disk, plan) && (Changes(plan) ==> process.disk.journal == Applied))
      && (status == Failed ==> AllBefore(process.disk, plan) && process.disk.journal == RolledBack)
  {
    hide Restore, Forward;
    var p := Started(disk, call.fuel);
    if disk.journal.Publishing? {
      WholeRestore(p, plan);
    }
    var ready := if disk.journal.Publishing? then Restore(p, plan) else p;
    if ready.stopped {
      StoppedStays(ready, plan, call.hooks);
    } else {
      ForwardEnds(ready, plan, call.hooks);
    }
  }

  /** A rollback of applied files that is not stopped puts every file back and journals it. */
  lemma RollbackIsJournaled(disk: Disk, plan: Plan, call: Call)
    requires AllAfter(disk, plan) && !AllBefore(disk, plan) && (disk.journal.Applied? || disk.journal.RolledBack?)
    requires call.rollback && !Outcome(disk, plan, call).0.stopped
    ensures var (process, status) := Outcome(disk, plan, call);
      status == Done && AllBefore(process.disk, plan) && process.disk.journal == RolledBack
  {
    hide Restore;
    WholeRestore(Started(disk, call.fuel), plan);
  }

  /** What a call refuses before it writes: files in a state that its direction and its journal do not explain. */
  ghost predicate IsRefused(disk: Disk, plan: Plan, rollback: bool) {
    if disk.journal.Publishing? then !AllKnown(disk, plan)
    else if AllBefore(disk, plan) then false
    else if AllAfter(disk, plan) then rollback && disk.journal.NoJournal?
    else true
  }

  /** A call refuses at its start exactly such files, and then leaves the disk as it is. */
  lemma RefusesExactly(disk: Disk, plan: Plan, call: Call)
    requires NoEdits(call.hooks)
    ensures var (process, status) := Outcome(disk, plan, call);
      && (status == Refused <==> IsRefused(disk, plan, call.rollback))
      && (status == Refused ==> process.disk == disk)
  {
    hide Restore, Forward;
    var p := Started(disk, call.fuel);
    if disk.journal.Publishing? && AllKnown(disk, plan) {
      WholeRestore(p, plan);
    }
    var ready := if disk.journal.Publishing? then Restore(p, plan) else p;
    if !call.rollback && AllBefore(ready.disk, plan) && !ready.stopped {
      ForwardNeverRefuses(ready, plan, call.hooks);
    } else if !call.rollback {
      ForwardRefuses(ready, plan, call.hooks);
    }
  }

  lemma ForwardRefuses(p: Process, plan: Plan, hooks: seq<Hook>)
    requires p.stopped || !AllBefore(p.disk, plan)
    ensures Forward(p, plan, hooks).1 == Refused <==> !p.stopped && !AllAfter(p.disk, plan)
    ensures Forward(p, plan, hooks).0 == p
  {
  }

  lemma ForwardNeverRefuses(p: Process, plan: Plan, hooks: seq<Hook>)
    requires AllBefore(p.disk, plan) && NoEdits(hooks)
    ensures Forward(p, plan, hooks).1 != Refused
  {
    hide Publish, Restore;
    if !p.stopped {
      var begun := WriteJournal(p, Publishing);
      PublishShape(begun, plan, 0, hooks);
      var result := Publish(begun, plan, 0, hooks);
      PrefixIsAfter(result.process.disk, plan, result.published);
    }
  }

  // ---- nothing else is touched ----

  ghost predicate Names(plan: seq<AlignmentFile>, path: string) {
    exists i :: 0 <= i < |plan| && plan[i].path == path
  }

  lemma {:induction false} RestoreTouchesPlan(p: Process, files: seq<AlignmentFile>, path: string)
    requires !Names(files, path)
    ensures StateOf(Restore(p, files).disk, path) == StateOf(p.disk, path)
  {
    if files != [] {
      assert files[|files| - 1].path != path;
      assert forall i :: 0 <= i < |files| - 1 ==> files[..|files| - 1][i] == files[i];
      RestoreTouchesPlan(p, files[..|files| - 1], path);
    }
  }

  lemma {:induction false} PublishTouchesPlan(p: Process, files: seq<AlignmentFile>, i: nat, hooks: seq<Hook>,
      path: string)
    requires i <= |files| && NoEdits(hooks) && !Names(files, path)
    ensures StateOf(Publish(p, files, i, hooks).process.disk, path) == StateOf(p.disk, path)
    decreases |files| - i
  {
    if !p.stopped && i < |files| && IsBefore(p.disk, files[i]) && !HookAt(hooks, i).writeFails {
      var written := Edited(WriteFile(p, files[i].path, files[i].After()), HookAt(hooks, i).edits);
      assert HookAt(hooks, i).edits == map[] && files[i].path != path;
      if !written.stopped && !HookAt(hooks, i).throws {
        PublishTouchesPlan(written, files, i + 1, hooks, path);
      }
    }
  }

  /** A call, wherever it stops, leaves every file alone that the plan does not name. */
  lemma OthersUntouched(disk: Disk, plan: Plan, call: Call, path: string)
    requires NoEdits(call.hooks) && !Names(plan, path)
    ensures StateOf(Outcome(disk, plan, call).0.disk, path) == StateOf(disk, path)
  {
    hide Restore, Publish;
    var p := Started(disk, call.fuel);
    RestoreTouchesPlan(p, plan, path);
    var ready := if disk.journal.Publishing? then Restore(p, plan) else p;
    RestoreTouchesPlan(ready, plan, path);
    var begun := WriteJournal(ready, Publishing);
    PublishTouchesPlan(begun, plan, 0, call.hooks, path);
    var result := Publish(begun, plan, 0, call.hooks);
    assert !Names(plan[..result.published], path);
    RestoreTouchesPlan(result.process, plan[..result.published], path);
  }

  // ---- any number of calls ----

  function AfterCalls(disk: Disk, plan: Plan, calls: seq<Call>): Disk {
    if calls == [] then disk else
      Outcome(AfterCalls(disk, plan, calls[..|calls| - 1]), plan, calls[|calls| - 1]).0.disk
  }

  ghost predicate AllMayStop(disk: Disk, plan: Plan, calls: seq<Call>) {
    forall i :: 0 <= i < |calls| ==>
          NoEdits(calls[i].hooks) && MayStop(AfterCalls(disk, plan, calls[..i]), plan, calls[i])
  }

  lemma {:induction false} CallsKeep(disk: Disk, plan: Plan, calls: seq<Call>)
    requires Recoverable(disk, plan) && AllMayStop(disk, plan, calls)
    ensures Recoverable(AfterCalls(disk, plan, calls), plan)
  {
    if calls != [] {
      var earlier := calls[..|calls| - 1];
      assert forall i :: 0 <= i < |earlier| ==> earlier[..i] == calls[..i];
      CallsKeep(disk, plan, earlier);
      CallKeeps(AfterCalls(disk, plan, earlier), plan, calls[|calls| - 1]);
    }
  }

  /** A call that is not stopped and meets no failure reaches its goal from every recoverable disk. */
  lemma CallCompletes(disk: Disk, plan: Plan, call: Call)
    requires Recoverable(disk, plan) && call.hooks == []
    ensures var (process, status) := Outcome(disk, plan, call);
      !process.stopped ==>
        status == Done && if call.rollback then AllBefore(process.disk, plan) else AllAfter(process.disk, plan)
  {
    hide Restore, Forward, Backward;
    var p := Started(disk, call.fuel);
    if disk.journal.Publishing? {
      RecoveryKeeps(p, plan);
    }
    var ready := if disk.journal.Publishing? then Restore(p, plan) else p;
    if ready.stopped {
      StoppedStays(ready, plan, call.hooks);
    } else if call.rollback {
      if !Backward(ready, plan).0.stopped {
        BackwardCompletes(ready, plan);
      }
    } else if !Forward(ready, plan, []).0.stopped {
      ForwardCompletes(ready, plan);
    }
  }

  lemma StoppedStays(p: Process, plan: Plan, hooks: seq<Hook>)
    requires p.stopped
    ensures Forward(p, plan, hooks).0.stopped && Backward(p, plan).0.stopped
  {
  }

  /** A call with enough writes is not stopped: it puts back, publishes and journals each file at most once. */
  lemma CallIsFinite(disk: Disk, plan: Plan, call: Call)
    requires call.fuel >= 3 * |plan| + 2
    ensures !Outcome(disk, plan, call).0.stopped
  {
    hide Restore, Publish;
    var p := Started(disk, call.fuel);
    RestoreShape(p, plan);
    var ready := if disk.journal.Publishing? then Restore(p, plan) else p;
    RestoreShape(ready, plan);
    var begun := WriteJournal(ready, Publishing);
    PublishCost(begun, plan, 0, call.hooks);
    var result := Publish(begun, plan, 0, call.hooks);
    var published := plan[..result.published];
    assert DistinctPaths(published) by {
      assert forall i :: 0 <= i < |published| ==> published[i] == plan[i];
    }
    if !result.process.stopped {
      RestoreShape(result.process, published);
    }
  }

  lemma {:induction false} PublishCost(p: Process, files: seq<AlignmentFile>, i: nat, hooks: seq<Hook>)
    requires i <= |files| && !p.stopped && p.fuel >= |files| - i
    ensures var r := Publish(p, files, i, hooks);
      !r.process.stopped && r.process.fuel >= p.fuel - (|files| - i)
    decreases |files| - i
  {
    if i < |files| && IsBefore(p.disk, files[i]) && !HookAt(hooks, i).writeFails && !HookAt(hooks, i).throws {
      PublishCost(Edited(WriteFile(p, files[i].path, files[i].After()), HookAt(hooks, i).edits), files, i + 1, hooks);
    }
  }

  /**
   * However many applies were stopped, at whatever write, and however many rollbacks were stopped where they may, the
   * next call that lives long enough finishes: an apply with every file after, a rollback with every file before.
   */
  lemma AlignmentIsResumable(disk: Disk, plan: Plan, calls: seq<Call>, last: Call)
    requires Recoverable(disk, plan) && AllMayStop(disk, plan, calls)
    requires last.hooks == [] && last.fuel >= 3 * |plan| + 2
    ensures var (process, status) := Outcome(AfterCalls(disk, plan, calls), plan, last);
      status == Done && if last.rollback then AllBefore(process.disk, plan) else AllAfter(process.disk, plan)
  {
    CallsKeep(disk, plan, calls);
    CallCompletes(AfterCalls(disk, plan, calls), plan, last);
    CallIsFinite(AfterCalls(disk, plan, calls), plan, last);
  }

  // ---- a file in neither state is never overwritten ----

  ghost predicate KnownState(plan: Plan, path: string, state: FileState) {
    exists i :: 0 <= i < |plan| && plan[i].path == path && (state == plan[i].before || state == plan[i].After())
  }

  /** Every write replaced the before or the after state of the file it wrote. */
  ghost predicate Faithful(log: seq<(string, FileState)>, plan: Plan) {
    forall k :: 0 <= k < |log| ==> KnownState(plan, log[k].0, log[k].1)
  }

  lemma {:induction false} RestoreIsFaithful(p: Process, plan: Plan, n: nat)
    requires n <= |plan| && Faithful(p.log, plan) && AllKnown(p.disk, plan[..n])
    ensures Faithful(Restore(p, plan[..n]).log, plan)
  {
    if n > 0 && !p.stopped {
      var earlier := plan[..n - 1];
      assert plan[..n][..n - 1] == earlier;
      assert forall i :: 0 <= i < |earlier| ==> earlier[i] == plan[..n][i];
      RestoreIsFaithful(p, plan, n - 1);
      RestoreShape(p, earlier);
      var last := plan[..n][n - 1];
      assert last == plan[n - 1];
      assert StateOf(Restore(p, earlier).disk, last.path) == StateOf(p.disk, last.path);
      assert KnownState(plan, last.path, StateOf(p.disk, last.path));
    } else if n > 0 {
      StoppedRestore(p, plan[..n]);
    }
  }

  lemma {:induction false} StoppedRestore(p: Process, files: seq<AlignmentFile>)
    requires p.stopped
    ensures Restore(p, files) == p
  {
    if files != [] {
      StoppedRestore(p, files[..|files| - 1]);
    }
  }

  lemma {:induction false} PublishIsFaithful(p: Process, plan: Plan, i: nat, hooks: seq<Hook>)
    requires i <= |plan| && Faithful(p.log, plan)
    ensures Faithful(Publish(p, plan, i, hooks).process.log, plan)
    decreases |plan| - i
  {
    if !p.stopped && i < |plan| && IsBefore(p.disk, plan[i]) && !HookAt(hooks, i).writeFails {
      assert KnownState(plan, plan[i].path, StateOf(p.disk, plan[i].path));
      PublishIsFaithful(Edited(WriteFile(p, plan[i].path, plan[i].After()), HookAt(hooks, i).edits), plan, i + 1,
                        hooks);
    }
  }

  /**
   * Whatever others did to the files before the call or around its publications: a file that is in neither of its
   * states is never overwritten, and a path the plan does not name is never written.
   */
  lemma NeverOverwritesOthers(disk: Disk, plan: Plan, call: Call)
    ensures Faithful(Outcome(disk, plan, call).0.log, plan)
  {
    hide Restore, Publish;
    var p := Started(disk, call.fuel);
    assert plan[..|plan|] == plan;
    if disk.journal.Publishing? && AllKnown(disk, plan) {
      RestoreIsFaithful(p, plan, |plan|);
    }
    var ready := if disk.journal.Publishing? then Restore(p, plan) else p;
    if disk.journal.Publishing? && !AllKnown(disk, plan) {
    } else if call.rollback {
      if AllAfter(ready.disk, plan) {
        RestoreIsFaithful(ready, plan, |plan|);
      }
    } else {
      var begun := WriteJournal(ready, Publishing);
      PublishIsFaithful(begun, plan, 0, call.hooks);
      var result := Publish(begun, plan, 0, call.hooks);
      if AllAfter(result.process.disk, plan[..result.published]) {
        RestoreIsFaithful(result.process, plan, result.published);
      }
    }
  }
}
