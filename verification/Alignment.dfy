/**
 * Alignment of managed files: a journaled publication that may be stopped at any write (src/installation/alignment.ts).
 * Renaming a staged file into place is one atomic write. A process is stopped when its writes run out, which stands for
 * a crash and for an error that leaves no handler.
 */
module Alignment {
  datatype FileState = Absent | Present(content: string, mode: nat)

  datatype AlignmentFile = AlignmentFile(path: string, before: FileState, content: string, mode: nat)
  {
    function After(): FileState {
      Present(content, mode)
    }
  }

  datatype Journal = NoJournal | Publishing | Applied | RolledBack

  /** The managed files and the journal of the plan. */
  datatype Disk = Disk(files: map<string, FileState>, journal: Journal)

  /** A running process: what it sees, how many writes it will still make, and what each write to a file replaced. */
  datatype Process = Process(disk: Disk, fuel: nat, stopped: bool, log: seq<(string, FileState)>)

  /** What happens around one publication: the write fails, others edit files once it is done, the callback throws. */
  datatype Hook = Hook(writeFails: bool, edits: map<string, FileState>, throws: bool)

  datatype Status = Done | Refused | Failed | Stopped

  type Plan = files: seq<AlignmentFile> | DistinctPaths(files) witness []

  ghost predicate DistinctPaths(files: seq<AlignmentFile>) {
    forall i, j :: 0 <= i < j < |files| ==> files[i].path != files[j].path
  }

  function StateOf(disk: Disk, path: string): FileState {
    if path in disk.files then disk.files[path] else Absent
  }

  predicate IsBefore(disk: Disk, file: AlignmentFile) {
    StateOf(disk, file.path) == file.before
  }

  predicate IsAfter(disk: Disk, file: AlignmentFile) {
    StateOf(disk, file.path) == file.After()
  }

  predicate AllBefore(disk: Disk, files: seq<AlignmentFile>) {
    forall i :: 0 <= i < |files| ==> IsBefore(disk, files[i])
  }

  predicate AllAfter(disk: Disk, files: seq<AlignmentFile>) {
    forall i :: 0 <= i < |files| ==> IsAfter(disk, files[i])
  }

  predicate AllKnown(disk: Disk, files: seq<AlignmentFile>) {
    forall i :: 0 <= i < |files| ==> IsBefore(disk, files[i]) || IsAfter(disk, files[i])
  }

  // ---- writes ----

  function WriteFile(p: Process, path: string, state: FileState): Process {
    if p.stopped then p
    else if p.fuel == 0 then p.(stopped := true)
    else p.(
      disk := p.disk.(files := p.disk.files[path := state]),
      fuel := p.fuel - 1,
      log := p.log + [(path, StateOf(p.disk, path))])
  }

  function WriteJournal(p: Process, journal: Journal): Process {
    if p.stopped then p
    else if p.fuel == 0 then p.(stopped := true)
    else p.(disk := p.disk.(journal := journal), fuel := p.fuel - 1)
  }

  function Edited(p: Process, edits: map<string, FileState>): Process {
    if p.stopped then p else p.(disk := p.disk.(files := p.disk.files + edits))
  }

  /** Puts the files back, one after the other. */
  function Restore(p: Process, files: seq<AlignmentFile>): Process {
    if files == [] then p else
      var last := files[|files| - 1];
      WriteFile(Restore(p, files[..|files| - 1]), last.path, last.before)
  }

  function HookAt(hooks: seq<Hook>, i: nat): Hook {
    if i < |hooks| then hooks[i] else Hook(false, map[], false)
  }

  /** How a publication ended: with every file written, or by an exception after `published` files. */
  datatype Publication = Publication(process: Process, published: nat, thrown: bool)

  function Publish(p: Process, files: seq<AlignmentFile>, i: nat, hooks: seq<Hook>): (r: Publication)
    requires i <= |files|
    ensures i <= r.published <= |files|
    decreases |files| - i
  {
    if p.stopped || i == |files| then Publication(p, i, false)
    else if !IsBefore(p.disk, files[i]) || HookAt(hooks, i).writeFails then Publication(p, i, true)
    else
      var written := Edited(WriteFile(p, files[i].path, files[i].After()), HookAt(hooks, i).edits);
      if written.stopped then Publication(written, i, false)
      else if HookAt(hooks, i).throws then Publication(written, i + 1, true)
      else Publish(written, files, i + 1, hooks)
  }

  function Forward(p: Process, files: seq<AlignmentFile>, hooks: seq<Hook>): (Process, Status) {
    if p.stopped then (p, Stopped)
    else if AllAfter(p.disk, files) then (p, Done)
    else if !AllBefore(p.disk, files) then (p, Refused)
    else
      var result := Publish(WriteJournal(p, Publishing), files, 0, hooks);
      var thrown := result.thrown || (!result.process.stopped && HookAt(hooks, |files|).writeFails);
      if !thrown then
        var written := WriteJournal(result.process, Applied);
        (written, if written.stopped then Stopped else Done)
      else
        var published := files[..result.published];
        if !AllAfter(result.process.disk, published) then (result.process, Refused)
        else
          var restored := WriteJournal(Restore(result.process, published), RolledBack);
          (restored, if restored.stopped then Stopped else Failed)
  }

  function Backward(p: Process, files: seq<AlignmentFile>): (Process, Status) {
    if p.stopped then (p, Stopped)
    else if AllBefore(p.disk, files) then (p, Done)
    else if !AllAfter(p.disk, files) || p.disk.journal.NoJournal? then (p, Refused)
    else
      var restored := WriteJournal(Restore(p, files), RolledBack);
      (restored, if restored.stopped then Stopped else Done)
  }

  /** One call, forward or as a rollback. An interrupted publication is put back first. */
  function Run(p: Process, plan: Plan, rollback: bool, hooks: seq<Hook>): (Process, Status) {
    if p.disk.journal.Publishing? && !AllKnown(p.disk, plan) then (p, Refused)
    else
      var ready := if p.disk.journal.Publishing? then Restore(p, plan) else p;
      if rollback then Backward(ready, plan) else Forward(ready, plan, hooks)
  }

  function Started(disk: Disk, fuel: nat): Process {
    Process(disk, fuel, false, [])
  }

  // ---- the process, with its state updated in place ----

  class Installation {
    var files: map<string, FileState>
    var journal: Journal
    var fuel: nat
    var stopped: bool
    ghost var log: seq<(string, FileState)>

    constructor (disk: Disk, fuel: nat)
      ensures State() == Started(disk, fuel)
    {
      files, journal, this.fuel, stopped, log := disk.files, disk.journal, fuel, false, [];
    }

    ghost function State(): Process
      reads this
    {
      Process(Disk(files, journal), fuel, stopped, log)
    }

    function FileAt(path: string): FileState
      reads this
    {
      if path in files then files[path] else Absent
    }

    method Put(path: string, state: FileState)
      modifies this
      ensures State() == WriteFile(old(State()), path, state)
    {
      if stopped {
        return;
      }
      if fuel == 0 {
        stopped := true;
        return;
      }
      log := log + [(path, FileAt(path))];
      files := files[path := state];
      fuel := fuel - 1;
    }

    method Record(state: Journal)
      modifies this
      ensures State() == WriteJournal(old(State()), state)
    {
      if stopped {
        return;
      }
      if fuel == 0 {
        stopped := true;
        return;
      }
      journal := state;
      fuel := fuel - 1;
    }

    method Matches(plan: seq<AlignmentFile>, after: bool) returns (every: bool)
      ensures every == if after then AllAfter(State().disk, plan) else AllBefore(State().disk, plan)
    {
      every := true;
      for i := 0 to |plan|
        invariant every == if after then AllAfter(State().disk, plan[..i]) else AllBefore(State().disk, plan[..i])
      {
        assert plan[..i + 1] == plan[..i] + [plan[i]];
        every := every && FileAt(plan[i].path) == if after then plan[i].After() else plan[i].before;
      }
      assert plan[..|plan|] == plan;
    }

    method EachKnown(plan: seq<AlignmentFile>) returns (every: bool)
      ensures every == AllKnown(State().disk, plan)
    {
      every := true;
      for i := 0 to |plan|
        invariant every == AllKnown(State().disk, plan[..i])
      {
        assert plan[..i + 1] == plan[..i] + [plan[i]];
        every := every && (FileAt(plan[i].path) == plan[i].before || FileAt(plan[i].path) == plan[i].After());
      }
      assert plan[..|plan|] == plan;
    }

    method PutBack(published: seq<AlignmentFile>)
      modifies this
      ensures State() == Restore(old(State()), published)
    {
      for i := 0 to |published|
        invariant State() == Restore(old(State()), published[..i])
      {
        assert published[..i + 1][..i] == published[..i];
        Put(published[i].path, published[i].before);
      }
      assert published[..|published|] == published;
    }

    method PublishFiles(plan: seq<AlignmentFile>, hooks: seq<Hook>)
        returns (published: seq<AlignmentFile>, thrown: bool)
      modifies this
      ensures var r := Publish(old(State()), plan, 0, hooks);
        State() == r.process && thrown == r.thrown && published == plan[..r.published]
    {
      published, thrown := [], false;
      for i := 0 to |plan|
        invariant published == plan[..i]
        invariant !thrown
        invariant Publish(State(), plan, i, hooks) == Publish(old(State()), plan, 0, hooks)
      {
        if stopped {
          return;
        }
        if FileAt(plan[i].path) != plan[i].before || HookAt(hooks, i).writeFails {
          thrown := true;
          return;
        }
        Put(plan[i].path, plan[i].After());
        if stopped {
          return;
        }
        published := published + [plan[i]];
        files := files + HookAt(hooks, i).edits;
        if HookAt(hooks, i).throws {
          thrown := true;
          return;
        }
      }
    }

    method PublishGeneration(plan: seq<AlignmentFile>, hooks: seq<Hook>) returns (status: Status)
      modifies this
      ensures (State(), status) == Forward(old(State()), plan, hooks)
    {
      if stopped {
        return Stopped;
      }
      var applied := Matches(plan, true);
      if applied {
        return Done;
      }
      var untouched := Matches(plan, false);
      if !untouched {
        return Refused;
      }
      Record(Publishing);
      var published, thrown := PublishFiles(plan, hooks);
      if !thrown && (stopped || !HookAt(hooks, |plan|).writeFails) {
        Record(Applied);
        return if stopped then Stopped else Done;
      }
      var intact := Matches(published, true);
      if !intact {
        return Refused;
      }
      PutBack(published);
      Record(RolledBack);
      return if stopped then Stopped else Failed;
    }

    method RollBack(plan: seq<AlignmentFile>) returns (status: Status)
      modifies this
      ensures (State(), status) == Backward(old(State()), plan)
    {
      if stopped {
        return Stopped;
      }
      var untouched := Matches(plan, false);
      if untouched {
        return Done;
      }
      var applied := Matches(plan, true);
      if !applied || journal.NoJournal? {
        return Refused;
      }
      PutBack(plan);
      Record(RolledBack);
      return if stopped then Stopped else Done;
    }

    method Apply(plan: Plan, rollback: bool, hooks: seq<Hook>) returns (status: Status)
      modifies this
      ensures (State(), status) == Run(old(State()), plan, rollback, hooks)
    {
      if journal.Publishing? {
        var known := EachKnown(plan);
        if !known {
          return Refused;
        }
        PutBack(plan);
      }
      if rollback {
        status := RollBack(plan);
      } else {
        status := PublishGeneration(plan, hooks);
      }
    }
  }
}
