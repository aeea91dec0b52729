/**
 * What any number of annotation imports keeps (src/evidence/repository.ts): the resolved annotations are closed under
 * their relations, never shrink and have no cycle, although each import looks for cycles in its own batch only.
 */
module EvidenceRuns {
  import opened Prelude
  import opened RelationGraph
  import opened EvidenceImport

  /** One resolved annotation relates to another one of its own scope. */
  predicate KeyEdge(rows: map<Key, Row>, a: Key, b: Key) {
    IsResolved(rows, a) && IsResolved(rows, b) && b == a.(id := b.id) && b.id in rows[a].content.record.Relations()
  }

  ghost predicate KeyWalk(rows: map<Key, Row>, walk: seq<Key>) {
    forall i, j :: 0 <= i && j == i + 1 && j < |walk| ==> KeyEdge(rows, walk[i], walk[j])
  }

  ghost predicate Acyclic(rows: map<Key, Row>) {
    forall walk :: KeyWalk(rows, walk) && |walk| > 1 ==> walk[0] != walk[|walk| - 1]
  }

  ghost predicate Keyed(rows: map<Key, Row>, evidence: Evidence) {
    forall key :: key in rows ==>
                    && rows[key].content.record.id == key.id
                    && key.session in evidence.sessions && evidence.sessions[key.session] == Some(key.repository)
  }

  /** What a resolved annotation relates to is resolved, in the same scope. */
  ghost predicate Closed(rows: map<Key, Row>) {
    forall key, id :: IsResolved(rows, key) && id in rows[key].content.record.Relations() ==>
          IsResolved(rows, key.(id := id))
  }

  /** The session retains the operation, and it is a request. */
  ghost predicate RetainsRequest(evidence: Evidence, session: string, record: Record) {
    Logged(record.operation, session) in evidence.logical && evidence.logical[Logged(record.operation, session)]
  }

  ghost predicate Owned(rows: map<Key, Row>, evidence: Evidence) {
    forall key :: IsResolved(rows, key) ==> RetainsRequest(evidence, key.session, rows[key].content.record)
  }

  ghost predicate HasIndexRow(index: seq<IndexRow>, key: Key) {
    exists i :: 0 <= i < |index| && index[i].KeyOf() == key
  }

  /** The index holds exactly the resolved annotations, each session in the order of its ordinals. */
  ghost predicate Indexed(t: Annotations) {
    && (forall key :: IsResolved(t.rows, key) <==> HasIndexRow(t.index, key))
    && (forall i, j :: 0 <= i < j < |t.index| && t.index[i].session == t.index[j].session ==>
        t.index[i].ordinal < t.index[j].ordinal)
  }

  ghost predicate Invariant(t: Annotations, evidence: Evidence) {
    Keyed(t.rows, evidence) && Closed(t.rows) && Owned(t.rows, evidence) && Acyclic(t.rows) && Indexed(t)
  }

  /** Resolved annotations stay, with their content. */
  ghost predicate ResolvedKept(before: map<Key, Row>, after: map<Key, Row>) {
    forall key :: IsResolved(before, key) ==> IsResolved(after, key) && after[key].content == before[key].content
  }

  // ---- one import: its rows ----

  lemma {:induction false} NoFaults(rows: map<Key, Row>, evidence: Evidence, artifact: Artifact,
      records: seq<Record>, i: nat)
    requires FirstFault(rows, evidence, artifact, records).None? && i < |records|
    ensures FaultOf(rows, evidence, artifact, records[i]).None?
  {
    if i > 0 {
      NoFaults(rows, evidence, artifact, records[1..], i - 1);
    }
  }

  ghost predicate InBatch(artifact: Artifact, n: nat, key: Key)
    requires n <= |artifact.records|
  {
    exists i :: 0 <= i < n && artifact.KeyOf(artifact.records[i].id) == key
  }

  lemma {:induction false} StoredElsewhere(t: Annotations, evidence: Evidence, artifact: Artifact,
      resolved: seq<bool>, n: nat, key: Key)
    requires |resolved| == |artifact.records| && n <= |resolved| && !InBatch(artifact, n, key)
    ensures var rows := StoreRecords(t, evidence, artifact, resolved, n).rows;
      (key in rows <==> key in t.rows) && (key in rows ==> rows[key] == t.rows[key])
  {
    if n > 0 {
      assert artifact.KeyOf(artifact.records[n - 1].id) != key;
      StoredElsewhere(t, evidence, artifact, resolved, n - 1, key);
    }
  }

  lemma {:induction false} StoredRecord(t: Annotations, evidence: Evidence, artifact: Artifact, resolved: seq<bool>,
      n: nat, i: nat)
    requires |resolved| == |artifact.records| && i < n <= |resolved| && Distinct(artifact.Ids())
    ensures var key := artifact.KeyOf(artifact.records[i].id);
      var rows := StoreRecords(t, evidence, artifact, resolved, n).rows;
      && key in rows
      && rows[key] ==
         Row(if key in t.rows then t.rows[key].content else artifact.ContentOf(artifact.records[i]), resolved[i])
  {
    var key := artifact.KeyOf(artifact.records[i].id);
    DistinctRecords(artifact);
    if i == n - 1 {
      StoredElsewhere(t, evidence, artifact, resolved, n - 1, key);
    } else {
      StoredRecord(t, evidence, artifact, resolved, n - 1, i);
    }
  }

  /**
   * After an accepted import: the rows of the batch have its content and their resolutions, the others are unchanged.
   */
  lemma SavedRow(t: Annotations, evidence: Evidence, artifact: Artifact, key: Key)
    requires RejectionOf(t.rows, evidence, artifact).None? && Distinct(artifact.Ids())
    ensures var rows := Saved(t, evidence, artifact).rows;
      !InBatch(artifact, |artifact.records|, key) ==>
            (key in rows <==> key in t.rows) && (key in rows ==> rows[key] == t.rows[key])
    ensures var rows := Saved(t, evidence, artifact).rows;
      forall i :: 0 <= i < |artifact.records| && artifact.KeyOf(artifact.records[i].id) == key ==>
        key in rows && rows[key] == Row(artifact.ContentOf(artifact.records[i]), !IsPending(t.rows, evidence, artifact,
              artifact.records[i]))
  {
    hide IsPending, HasCycle, RelationCrosses;
    var resolved := Resolutions(t, evidence, artifact);
    if !InBatch(artifact, |artifact.records|, key) {
      StoredElsewhere(t, evidence, artifact, resolved, |resolved|, key);
    }
    forall i | 0 <= i < |artifact.records| && artifact.KeyOf(artifact.records[i].id) == key
      ensures var rows := Saved(t, evidence, artifact).rows;
        key in rows && rows[key] == Row(artifact.ContentOf(artifact.records[i]), !IsPending(t.rows, evidence, artifact,
              artifact.records[i]))
    {
      StoredRecord(t, evidence, artifact, resolved, |resolved|, i);
      NoFaults(t.rows, evidence, artifact, artifact.records, i);
    }
  }

  lemma Edges(artifact: Artifact, i: nat, b: string)
    requires Distinct(artifact.Ids()) && i < |artifact.records|
    ensures artifact.records[i].id in BatchOf(artifact.records)
    ensures Edge(BatchOf(artifact.records), artifact.records[i].id, b) <==>
            b in BatchOf(artifact.records) && b in artifact.records[i].Relations()
    ensures b in BatchOf(artifact.records) <==> InBatch(artifact, |artifact.records|, artifact.KeyOf(b))
  {
    DistinctRecords(artifact);
    BatchFacts(artifact.records);
    if InBatch(artifact, |artifact.records|, artifact.KeyOf(b)) {
      var k :| 0 <= k < |artifact.records| && artifact.KeyOf(artifact.records[k].id) == artifact.KeyOf(b);
      assert artifact.records[k].id in BatchOf(artifact.records).Keys;
    }
    if b in BatchOf(artifact.records) {
      var k :| 0 <= k < |artifact.records| && artifact.records[k].id == b;
      assert artifact.KeyOf(artifact.records[k].id) == artifact.KeyOf(b);
    }
    assert artifact.records[i].id in BatchOf(artifact.records).Keys;
  }

  // ---- one import: what was resolved stays so ----

  /** The records of the batch that are not resolved so far. */
  ghost function NotYet(t: Annotations, artifact: Artifact): set<string> {
    set id | id in BatchOf(artifact.records) && !IsResolved(t.rows, artifact.KeyOf(id))
  }

  lemma NotYetSpreadsBack(t: Annotations, evidence: Evidence, artifact: Artifact, a: string, b: string)
    requires Invariant(t, evidence) && RejectionOf(t.rows, evidence, artifact).None? && Distinct(artifact.Ids())
    requires Edge(BatchOf(artifact.records), a, b) && b in NotYet(t, artifact)
    ensures a in NotYet(t, artifact)
  {
    BatchFacts(artifact.records);
    var i :| 0 <= i < |artifact.records| && artifact.records[i].id == a;
    Edges(artifact, i, b);
    NoFaults(t.rows, evidence, artifact, artifact.records, i);
    assert artifact.KeyOf(b) == artifact.KeyOf(a).(id := b);
  }

  lemma UnsettledIsNotYet(t: Annotations, evidence: Evidence, artifact: Artifact, id: string)
    requires Invariant(t, evidence) && RejectionOf(t.rows, evidence, artifact).None? && Distinct(artifact.Ids())
    requires id in Unsettled(t.rows, evidence, artifact)
    ensures id in NotYet(t, artifact)
  {
    var batch := BatchOf(artifact.records);
    var i :| 0 <= i < |artifact.records| && artifact.records[i].id == id
          && IsUnsettled(t.rows, evidence, artifact, batch, artifact.records[i]);
    Edges(artifact, i, id);
    NoFaults(t.rows, evidence, artifact, artifact.records, i);
    assert forall outside :: artifact.KeyOf(outside) == artifact.KeyOf(id).(id := outside);
  }

  lemma ResolvedIsNotPending(t: Annotations, evidence: Evidence, artifact: Artifact, i: nat)
    requires Invariant(t, evidence) && RejectionOf(t.rows, evidence, artifact).None? && Distinct(artifact.Ids())
    requires i < |artifact.records| && IsResolved(t.rows, artifact.KeyOf(artifact.records[i].id))
    ensures !IsPending(t.rows, evidence, artifact, artifact.records[i])
  {
    hide Invariant, RejectionOf, IsUnsettled, Unsettled, NotYet, Edge;
    var batch := BatchOf(artifact.records);
    if IsPending(t.rows, evidence, artifact, artifact.records[i]) {
      var walk :| Walk(batch, walk) && walk[0] == artifact.records[i].id
          && walk[|walk| - 1] in Unsettled(t.rows, evidence, artifact);
      var inside := NotYet(t, artifact);
      UnsettledIsNotYet(t, evidence, artifact, walk[|walk| - 1]);
      forall a, b | Edge(batch, a, b) && b in inside ensures a in inside {
        NotYetSpreadsBack(t, evidence, artifact, a, b);
      }
      LeadsStaysInside(batch, walk, inside);
      assert false by {
        assert walk[0] in NotYet(t, artifact);
        NotYetIsUnresolved(t, artifact, walk[0]);
      }
    }
  }

  lemma NotYetIsUnresolved(t: Annotations, artifact: Artifact, id: string)
    requires id in NotYet(t, artifact)
    ensures !IsResolved(t.rows, artifact.KeyOf(id))
  {
  }

  lemma SaveKeepsResolved(t: Annotations, evidence: Evidence, artifact: Artifact)
    requires Invariant(t, evidence) && Distinct(artifact.Ids())
    ensures ResolvedKept(t.rows, Saved(t, evidence, artifact).rows)
  {
    hide IsPending, HasCycle, RelationCrosses, Saved, FaultOf;
    var after := Saved(t, evidence, artifact);
    if RejectionOf(t.rows, evidence, artifact).None? {
      forall key | IsResolved(t.rows, key)
        ensures IsResolved(after.rows, key) && after.rows[key].content == t.rows[key].content
      {
        SavedRow(t, evidence, artifact, key);
        if InBatch(artifact, |artifact.records|, key) {
          var i :| 0 <= i < |artifact.records| && artifact.KeyOf(artifact.records[i].id) == key;
          ResolvedIsNotPending(t, evidence, artifact, i);
          SameContent(t, evidence, artifact, i);
        }
      }
    } else {
      RejectedIsUnchanged(t, evidence, artifact);
    }
  }

  lemma SameContent(t: Annotations, evidence: Evidence, artifact: Artifact, i: nat)
    requires RejectionOf(t.rows, evidence, artifact).None? && i < |artifact.records|
             && artifact.KeyOf(artifact.records[i].id) in t.rows
    ensures t.rows[artifact.KeyOf(artifact.records[i].id)].content == artifact.ContentOf(artifact.records[i])
  {
    NoFaults(t.rows, evidence, artifact, artifact.records, i);
  }

  lemma RejectedIsUnchanged(t: Annotations, evidence: Evidence, artifact: Artifact)
    requires RejectionOf(t.rows, evidence, artifact).Some?
    ensures Saved(t, evidence, artifact) == t
  {
  }

  // ---- one import: closure and cycles ----

  lemma SaveKeepsKeyedAndOwned(t: Annotations, evidence: Evidence, artifact: Artifact)
    requires Invariant(t, evidence) && Distinct(artifact.Ids()) && RejectionOf(t.rows, evidence, artifact).None?
    ensures Keyed(Saved(t, evidence, artifact).rows, evidence) && Owned(Saved(t, evidence, artifact).rows, evidence)
  {
    hide Saved, FaultOf, Acyclic, Indexed, HasCycle, RelationCrosses, IsPending;
    var after := Saved(t, evidence, artifact);
    forall key | key in after.rows
      ensures after.rows[key].content.record.id == key.id
      ensures key.session in evidence.sessions && evidence.sessions[key.session] == Some(key.repository)
      ensures IsResolved(after.rows, key) ==> RetainsRequest(evidence, key.session, after.rows[key].content.record)
    {
      SavedRow(t, evidence, artifact, key);
      if InBatch(artifact, |artifact.records|, key) {
        var i :| 0 <= i < |artifact.records| && artifact.KeyOf(artifact.records[i].id) == key;
        if !IsPending(t.rows, evidence, artifact, artifact.records[i]) {
          SettledRecord(t, evidence, artifact, i, "");
          OwnedIsRequest(t, evidence, artifact, i);
        }
      }
    }
  }

  lemma OwnedIsRequest(t: Annotations, evidence: Evidence, artifact: Artifact, i: nat)
    requires RejectionOf(t.rows, evidence, artifact).None? && i < |artifact.records|
             && Owns(evidence, artifact.session, artifact.records[i])
    ensures RetainsRequest(evidence, artifact.session, artifact.records[i])
  {
    NoFaults(t.rows, evidence, artifact, artifact.records, i);
  }

  /** A record that is not pending owns its operation, and what it relates to is not pending or was resolved before. */
  lemma SettledRecord(t: Annotations, evidence: Evidence, artifact: Artifact, i: nat, id: string)
    requires Distinct(artifact.Ids()) && i < |artifact.records|
             && !IsPending(t.rows, evidence, artifact, artifact.records[i])
    ensures Owns(evidence, artifact.session, artifact.records[i])
    ensures id in artifact.records[i].Relations() && id !in BatchOf(artifact.records) ==>
              IsResolved(t.rows, artifact.KeyOf(id))
    ensures id in artifact.records[i].Relations() ==>
              forall k :: 0 <= k < |artifact.records| && artifact.records[k].id == id ==>
                !IsPending(t.rows, evidence, artifact, artifact.records[k])
  {
    var batch := BatchOf(artifact.records);
    Edges(artifact, i, id);
    if IsUnsettled(t.rows, evidence, artifact, batch, artifact.records[i]) {
      UnsettledLeads(t.rows, evidence, artifact, i);
    }
    forall k | 0 <= k < |artifact.records| && artifact.records[k].id == id && id in artifact.records[i].Relations()
      ensures !IsPending(t.rows, evidence, artifact, artifact.records[k])
    {
      Edges(artifact, k, id);
      if IsPending(t.rows, evidence, artifact, artifact.records[k]) {
        LeadsThrough(batch, artifact.records[i].id, id, Unsettled(t.rows, evidence, artifact));
      }
    }
  }

  lemma SaveKeepsClosed(t: Annotations, evidence: Evidence, artifact: Artifact, key: Key, id: string)
    requires Invariant(t, evidence) && Distinct(artifact.Ids()) && RejectionOf(t.rows, evidence, artifact).None?
    requires IsResolved(Saved(t, evidence, artifact).rows, key)
             && id in Saved(t, evidence, artifact).rows[key].content.record.Relations()
    ensures IsResolved(Saved(t, evidence, artifact).rows, key.(id := id))
  {
    hide Saved, FaultOf, Acyclic, Indexed, HasCycle, RelationCrosses, IsPending, RejectionOf;
    SavedRow(t, evidence, artifact, key);
    SavedRow(t, evidence, artifact, key.(id := id));
    SaveKeepsResolved(t, evidence, artifact);
    if InBatch(artifact, |artifact.records|, key) {
      var i :| 0 <= i < |artifact.records| && artifact.KeyOf(artifact.records[i].id) == key;
      SettledRecord(t, evidence, artifact, i, id);
      Edges(artifact, i, id);
    }
  }

  /** Once a walk is among the annotations resolved before the import, it stays there. */
  lemma {:induction false} OldWalk(t: Annotations, after: map<Key, Row>, walk: seq<Key>, i: nat)
    requires Closed(t.rows) && ResolvedKept(t.rows, after) && KeyWalk(after, walk)
    requires i < |walk| && IsResolved(t.rows, walk[i])
    ensures forall j :: i <= j < |walk| ==> IsResolved(t.rows, walk[j])
    decreases |walk| - i
  {
    if i + 1 < |walk| {
      assert KeyEdge(after, walk[i], walk[i + 1]);
      assert IsResolved(t.rows, walk[i].(id := walk[i + 1].id));
      OldWalk(t, after, walk, i + 1);
    }
  }

  lemma NewWalkIsInBatch(t: Annotations, evidence: Evidence, artifact: Artifact, walk: seq<Key>)
    requires Invariant(t, evidence) && Distinct(artifact.Ids()) && RejectionOf(t.rows, evidence, artifact).None?
    requires KeyWalk(Saved(t, evidence, artifact).rows, walk) && |walk| > 1 && walk[0] == walk[|walk| - 1]
    requires forall i :: 0 <= i < |walk| ==> !IsResolved(t.rows, walk[i])
    ensures HasCycle(BatchOf(artifact.records))
  {
    hide Invariant, Saved, HasCycle, IsPending, RejectionOf;
    var after := Saved(t, evidence, artifact).rows;
    var batch := BatchOf(artifact.records);
    var ids := seq(|walk|, i requires 0 <= i < |walk| => walk[i].id);
    forall i | 0 <= i < |walk| - 1
      ensures Edge(batch, ids[i], ids[i + 1])
    {
      assert KeyEdge(after, walk[i], walk[i + 1]);
      SavedRow(t, evidence, artifact, walk[i]);
      SavedRow(t, evidence, artifact, walk[i + 1]);
      var k :| 0 <= k < |artifact.records| && artifact.KeyOf(artifact.records[k].id) == walk[i];
      Edges(artifact, k, ids[i + 1]);
    }
    assert Edge(batch, ids[0], ids[1]);
    CycleOf(batch, ids);
  }

  lemma CycleOf(g: Graph, ids: seq<string>)
    requires |ids| > 1 && ids[0] == ids[|ids| - 1] && forall i :: 0 <= i < |ids| - 1 ==> Edge(g, ids[i], ids[i + 1])
    ensures HasCycle(g)
  {
    forall i | 0 <= i < |ids| ensures ids[i] in g {
      if i < |ids| - 1 {
        assert Edge(g, ids[i], ids[i + 1]);
      } else {
        assert Edge(g, ids[0], ids[1]);
      }
    }
    assert ClosedWalk(g, ids);
  }

  lemma SaveKeepsAcyclic(t: Annotations, evidence: Evidence, artifact: Artifact)
    requires Invariant(t, evidence) && Distinct(artifact.Ids()) && RejectionOf(t.rows, evidence, artifact).None?
    ensures Acyclic(Saved(t, evidence, artifact).rows)
  {
    hide Saved, HasCycle, IsPending, FaultOf, RelationCrosses;
    var after := Saved(t, evidence, artifact).rows;
    SaveKeepsResolved(t, evidence, artifact);
    forall walk | KeyWalk(after, walk) && |walk| > 1 ensures walk[0] != walk[|walk| - 1] {
      if walk[0] == walk[|walk| - 1] {
        if i :| 0 <= i < |walk| && IsResolved(t.rows, walk[i]) {
          OldWalk(t, after, walk, i);
          OldWalk(t, after, walk, 0);
          assert false;
        }
        NewWalkIsInBatch(t, evidence, artifact, walk);
        assert false;
      }
    }
  }

  // ---- one import: what is accepted, and what it resolves ----

  /** The same producer retains the id in this scope from another version, in another context or with other content. */
  ghost predicate IsOtherwiseKnown(rows: map<Key, Row>, artifact: Artifact, record: Record) {
    var key := Key(artifact.namespace, artifact.repository, artifact.session, record.id);
    && key in rows
    && var known := rows[key].content;
       || (known.producerKind, known.producerVersion) != (artifact.producerKind, artifact.producerVersion)
       || known.contextRevision != artifact.contextRevision || known.record != record
  }

  /** Nothing retained contradicts a record: no other content under its id, no other use of its operation. */
  ghost predicate IsAcceptable(rows: map<Key, Row>, evidence: Evidence, artifact: Artifact, record: Record) {
    && !IsOtherwiseKnown(rows, artifact, record)
    && (RetainsRequest(evidence, artifact.session, record) || IsUnheardOf(evidence, artifact.session, record))
  }

  /** No session has the operation, and whatever was captured of it is a request of this session. */
  ghost predicate IsUnheardOf(evidence: Evidence, session: string, record: Record) {
    && (forall logged :: logged in evidence.logical ==> logged.operation != record.operation)
    && (forall p :: p in evidence.physical && p.operation == record.operation ==> p.session == session && p.isRequest)
  }

  lemma {:induction false} FaultlessExactly(rows: map<Key, Row>, evidence: Evidence, artifact: Artifact,
      records: seq<Record>)
    ensures FirstFault(rows, evidence, artifact, records).None? <==>
            forall i :: 0 <= i < |records| ==> IsAcceptable(rows, evidence, artifact, records[i])
  {
    if records != [] {
      AcceptableExactly(rows, evidence, artifact, records[0]);
      FaultlessExactly(rows, evidence, artifact, records[1..]);
      assert forall i :: 0 < i < |records| ==> records[i] == records[1..][i - 1];
      assert forall i :: 0 <= i < |records| - 1 ==> records[1..][i] == records[i + 1];
    }
  }

  lemma AcceptableExactly(rows: map<Key, Row>, evidence: Evidence, artifact: Artifact, record: Record)
    ensures FaultOf(rows, evidence, artifact, record).None? <==> IsAcceptable(rows, evidence, artifact, record)
  {
  }

  /** The operation of the record is logged or captured in the session. */
  ghost predicate IsUsedIn(evidence: Evidence, session: string, record: Record) {
    || Logged(record.operation, session) in evidence.logical
    || Physical(record.operation, session, true) in evidence.physical
    || Physical(record.operation, session, false) in evidence.physical
  }

  ghost predicate IsUsedElsewhere(evidence: Evidence, session: string, record: Record) {
    exists other: string :: other != session && IsUsedIn(evidence, other, record)
  }

  /** What is wrong with a record: its content first, then its operation. */
  lemma FaultsAreExact(rows: map<Key, Row>, evidence: Evidence, artifact: Artifact, record: Record)
    ensures var fault := FaultOf(rows, evidence, artifact, record);
      var other := IsOtherwiseKnown(rows, artifact, record);
      var here := Logged(record.operation, artifact.session);
      var elsewhere := IsUsedElsewhere(evidence, artifact.session, record);
      && (fault == Some(ContentConflict) <==> other)
      && (fault == Some(CrossesScope) <==> !other && here !in evidence.logical && elsewhere)
      && (fault == Some(NotARequest) <==>
          && !other
          && (if here in evidence.logical then !evidence.logical[here]
              else !elsewhere && Physical(record.operation, artifact.session, false) in evidence.physical))
  {
    if !Owns(evidence, artifact.session, record) {
      ElsewhereExactly(evidence, artifact.session, record);
    }
    assert forall p: Physical :: p == Physical(p.operation, p.session, p.isRequest);
  }

  lemma ElsewhereExactly(evidence: Evidence, session: string, record: Record)
    requires Logged(record.operation, session) !in evidence.logical
    ensures IsUsedElsewhere(evidence, session, record) <==>
            || (exists logged :: logged in evidence.logical && logged.operation == record.operation)
            || exists p :: p in evidence.physical && p.operation == record.operation && p.session != session
  {
    if logged :| logged in evidence.logical && logged.operation == record.operation {
      assert logged == Logged(record.operation, logged.session);
      assert IsUsedIn(evidence, logged.session, record);
    }
    if p :| p in evidence.physical && p.operation == record.operation && p.session != session {
      assert p == Physical(record.operation, p.session, p.isRequest);
      assert IsUsedIn(evidence, p.session, record);
    }
  }

  /**
   * An import is accepted if and only if its session belongs to its repository, every record is acceptable, the
   * relations of the batch lead nowhere back, and none names an annotation that another scope retains.
   */
  lemma AcceptedExactly(t: Annotations, evidence: Evidence, artifact: Artifact)
    requires Distinct(artifact.Ids())
    ensures RejectionOf(t.rows, evidence, artifact).None? <==>
            && artifact.repository in evidence.repositories
            && artifact.session in evidence.sessions
            && evidence.sessions[artifact.session] == Some(artifact.repository)
            && (forall i :: 0 <= i < |artifact.records| ==>
                  IsAcceptable(t.rows, evidence, artifact, artifact.records[i]))
            && !HasCycle(BatchOf(artifact.records))
            && forall key ::
                 key in t.rows && key.namespace == artifact.namespace && IsRelatedOutside(artifact, key.id) ==>
                   key == artifact.KeyOf(key.id)
  {
    hide FirstFault, HasCycle;
    FaultlessExactly(t.rows, evidence, artifact, artifact.records);
    CrossesExactly(t.rows, artifact);
  }

  ghost predicate IsRelatedOutside(artifact: Artifact, id: string) {
    id !in artifact.Ids() && exists i :: 0 <= i < |artifact.records| && id in artifact.records[i].Relations()
  }

  lemma CrossesExactly(rows: map<Key, Row>, artifact: Artifact)
    requires Distinct(artifact.Ids())
    ensures RelationCrosses(rows, artifact, BatchOf(artifact.records), |artifact.records|) <==>
            exists key :: key in rows && key.namespace == artifact.namespace && IsRelatedOutside(artifact, key.id)
              && key != artifact.KeyOf(key.id)
  {
    IdsFacts(artifact);
    var batch := BatchOf(artifact.records);
    if key :| key in rows && key.namespace == artifact.namespace && IsRelatedOutside(artifact, key.id)
              && key != artifact.KeyOf(key.id) {
      assert IsElsewhere(rows, artifact, key.id) && key.id !in batch;
    }
  }

  /**
   * After an accepted import a record of the batch is resolved if and only if its session retains its operation and
   * everything it relates to is resolved in its own scope, inside the batch or outside.
   */
  lemma ResolvedExactly(t: Annotations, evidence: Evidence, artifact: Artifact, i: nat)
    requires Invariant(t, evidence) && Distinct(artifact.Ids()) && RejectionOf(t.rows, evidence, artifact).None?
             && i < |artifact.records|
    ensures var rows := Saved(t, evidence, artifact).rows;
      IsResolved(rows, artifact.KeyOf(artifact.records[i].id)) <==>
      && RetainsRequest(evidence, artifact.session, artifact.records[i])
      && forall id :: id in artifact.records[i].Relations() ==> IsResolved(rows, artifact.KeyOf(id))
  {
    hide Saved, FaultOf, HasCycle, RelationCrosses, RejectionOf, Invariant;
    var record := artifact.records[i];
    var rows := Saved(t, evidence, artifact).rows;
    SavedRow(t, evidence, artifact, artifact.KeyOf(record.id));
    if IsResolved(rows, artifact.KeyOf(record.id)) {
      SettledRecord(t, evidence, artifact, i, "");
      OwnedIsRequest(t, evidence, artifact, i);
      forall id | id in record.Relations() ensures IsResolved(rows, artifact.KeyOf(id)) {
        SaveKeepsClosed(t, evidence, artifact, artifact.KeyOf(record.id), id);
        assert artifact.KeyOf(record.id).(id := id) == artifact.KeyOf(id);
      }
    } else {
      PendingHasReason(t, evidence, artifact, i);
    }
  }

  lemma PendingHasReason(t: Annotations, evidence: Evidence, artifact: Artifact, i: nat)
    requires Invariant(t, evidence) && Distinct(artifact.Ids()) && RejectionOf(t.rows, evidence, artifact).None?
             && i < |artifact.records| && IsPending(t.rows, evidence, artifact, artifact.records[i])
    ensures RetainsRequest(evidence, artifact.session, artifact.records[i]) ==>
              exists id :: id in artifact.records[i].Relations()
                && !IsResolved(Saved(t, evidence, artifact).rows, artifact.KeyOf(id))
  {
    hide Saved, FaultOf, HasCycle, RelationCrosses, RejectionOf, Invariant;
    var batch := BatchOf(artifact.records);
    var record := artifact.records[i];
    var seeds := Unsettled(t.rows, evidence, artifact);
    var walk :| Walk(batch, walk) && walk[0] == record.id && walk[|walk| - 1] in seeds;
    if |walk| == 1 {
      var k :| 0 <= k < |artifact.records| && artifact.records[k].id == record.id
            && IsUnsettled(t.rows, evidence, artifact, batch, artifact.records[k]);
      DistinctRecords(artifact);
      if RetainsRequest(evidence, artifact.session, record) {
        var id :| id in record.Relations() && id !in batch && !IsResolved(t.rows, artifact.KeyOf(id));
        Edges(artifact, i, id);
        SavedRow(t, evidence, artifact, artifact.KeyOf(id));
      }
    } else {
      assert Edge(batch, record.id, walk[1]);
      Edges(artifact, i, walk[1]);
      var k :| 0 <= k < |artifact.records| && artifact.KeyOf(artifact.records[k].id) == artifact.KeyOf(walk[1]);
      assert Leads(batch, walk[1], seeds) by {
        assert Walk(batch, walk[1..]);
      }
      SavedRow(t, evidence, artifact, artifact.KeyOf(walk[1]));
    }
  }

  // ---- one import: the index ----

  lemma {:induction false} HighestIsBound(index: seq<IndexRow>, i: nat)
    requires i < |index|
    ensures index[i].ordinal <= HighestIndexed(index, index[i].session)
  {
    if i < |index| - 1 {
      HighestIsBound(index[..|index| - 1], i);
    }
  }

  /** Storing one record keeps the index exact, unless it unresolves an indexed record. */
  lemma StoreKeepsIndexed(t: Annotations, evidence: Evidence, artifact: Artifact, record: Record, resolved: bool)
    requires Indexed(t) && InScope(evidence, artifact)
    requires forall key :: key in t.rows ==>
               key.session in evidence.sessions && evidence.sessions[key.session] == Some(key.repository)
    requires IsResolved(t.rows, artifact.KeyOf(record.id)) ==> resolved
    ensures Indexed(StoreRecord(t, evidence, artifact, record, resolved))
  {
    var key := artifact.KeyOf(record.id);
    var after := StoreRecord(t, evidence, artifact, record, resolved);
    assert IsIndexed(t.index, artifact, record.id) <==> HasIndexRow(t.index, key) by {
      if IsIndexed(t.index, artifact, record.id) {
        var i :| 0 <= i < |t.index| && t.index[i].session == artifact.session
              && t.index[i].namespace == artifact.namespace && t.index[i].id == record.id;
        assert HasIndexRow(t.index, t.index[i].KeyOf());
        assert t.index[i].KeyOf() == key;
      }
      if i :| 0 <= i < |t.index| && t.index[i].KeyOf() == key {
        assert IsIndexed(t.index, artifact, record.id);
      }
    }
    forall other ensures IsResolved(after.rows, other) <==> HasIndexRow(after.index, other) {
      AppendedIndex(t.index, after.index, key, other);
    }
    forall i, j | 0 <= i < j < |after.index| && after.index[i].session == after.index[j].session
      ensures after.index[i].ordinal < after.index[j].ordinal
    {
      HighestIsBound(t.index, i);
    }
  }

  /** A resolved record that is not indexed yet gets the number after the highest that its session has given so far. */
  lemma IndexedNext(t: Annotations, evidence: Evidence, artifact: Artifact, record: Record)
    requires Indexed(t) && !HasIndexRow(t.index, artifact.KeyOf(record.id)) && InScope(evidence, artifact)
    requires forall key :: key in t.rows ==>
               key.session in evidence.sessions && evidence.sessions[key.session] == Some(key.repository)
    ensures var index := StoreRecord(t, evidence, artifact, record, true).index;
      var logged := if artifact.session in evidence.ordinals then evidence.ordinals[artifact.session] else 0;
      && |index| == |t.index| + 1 && index[..|t.index|] == t.index
      && var last := index[|t.index|];
         && last.KeyOf() == artifact.KeyOf(record.id) && last.session == artifact.session && last.ordinal > logged
         && (forall row :: row in t.index && row.session == artifact.session ==> row.ordinal < last.ordinal)
         && (|| last.ordinal == logged + 1
             || exists row :: row in t.index && row.session == artifact.session && row.ordinal + 1 == last.ordinal)
  {
    NotIndexedByKey(t, evidence, artifact, record.id);
    forall row | row in t.index && row.session == artifact.session
      ensures row.ordinal <= HighestIndexed(t.index, artifact.session)
    {
      var i :| 0 <= i < |t.index| && t.index[i] == row;
      HighestIsBound(t.index, i);
    }
    HighestIsTaken(t.index, artifact.session);
  }

  lemma NotIndexedByKey(t: Annotations, evidence: Evidence, artifact: Artifact, id: string)
    requires Indexed(t) && InScope(evidence, artifact) && !HasIndexRow(t.index, artifact.KeyOf(id))
    requires forall key :: key in t.rows ==>
               key.session in evidence.sessions && evidence.sessions[key.session] == Some(key.repository)
    ensures !IsIndexed(t.index, artifact, id)
  {
    if i :| 0 <= i < |t.index| && t.index[i].session == artifact.session
              && t.index[i].namespace == artifact.namespace && t.index[i].id == id {
      assert HasIndexRow(t.index, t.index[i].KeyOf());
    }
  }

  lemma {:induction false} HighestIsTaken(index: seq<IndexRow>, session: string)
    ensures || HighestIndexed(index, session) == 0
            || exists row :: row in index && row.session == session && row.ordinal == HighestIndexed(index, session)
  {
    if index != [] {
      HighestIsTaken(index[..|index| - 1], session);
      assert index[|index| - 1] in index && forall row :: row in index[..|index| - 1] ==> row in index;
    }
  }

  /** The receipt counts the records of the batch that are pending. */
  lemma {:induction false} PendingAreCounted(resolved: seq<bool>)
    ensures CountPending(resolved) == |set i | 0 <= i < |resolved| && !resolved[i]|
  {
    if resolved != [] {
      var n := |resolved| - 1;
      var earlier := resolved[..n];
      PendingAreCounted(earlier);
      var before := set i | 0 <= i < |earlier| && !earlier[i];
      assert (set i | 0 <= i < |resolved| && !resolved[i]) == before + if resolved[n] then {} else {n};
    }
  }

  lemma AppendedIndex(index: seq<IndexRow>, after: seq<IndexRow>, key: Key, other: Key)
    requires after == index || (|after| == |index| + 1 && after[..|index|] == index && after[|index|].KeyOf() == key)
    ensures HasIndexRow(after, other) <==> HasIndexRow(index, other) || (after != index && other == key)
  {
    if i :| 0 <= i < |index| && index[i].KeyOf() == other {
      assert after[i] == after[..|index|][i] || after == index;
      assert after[i].KeyOf() == other;
    }
    if i :| 0 <= i < |after| && after[i].KeyOf() == other {
      assert i < |index| ==> after[i] == index[i] by {
        assert i < |index| && after != index ==> after[i] == after[..|index|][i];
      }
    }
  }

  lemma {:induction false} StoresKeepIndexed(t: Annotations, evidence: Evidence, artifact: Artifact,
      resolved: seq<bool>, n: nat)
    requires Keyed(t.rows, evidence) && Indexed(t) && InScope(evidence, artifact) && Distinct(artifact.Ids())
    requires |resolved| == |artifact.records| && n <= |resolved|
    requires forall i :: 0 <= i < |resolved| && IsResolved(t.rows, artifact.KeyOf(artifact.records[i].id)) ==>
               resolved[i]
    ensures var after := StoreRecords(t, evidence, artifact, resolved, n);
      && Indexed(after)
      && forall key :: key in after.rows ==>
           key.session in evidence.sessions && evidence.sessions[key.session] == Some(key.repository)
  {
    hide Indexed;
    if n > 0 {
      StoresKeepIndexed(t, evidence, artifact, resolved, n - 1);
      var before := StoreRecords(t, evidence, artifact, resolved, n - 1);
      DistinctRecords(artifact);
      StoredElsewhere(t, evidence, artifact, resolved, n - 1, artifact.KeyOf(artifact.records[n - 1].id));
      StoreKeepsIndexed(before, evidence, artifact, artifact.records[n - 1], resolved[n - 1]);
    }
  }

  lemma SaveKeepsIndexed(t: Annotations, evidence: Evidence, artifact: Artifact)
    requires Invariant(t, evidence) && Distinct(artifact.Ids()) && RejectionOf(t.rows, evidence, artifact).None?
    ensures Indexed(Saved(t, evidence, artifact))
  {
    hide IsPending, HasCycle, FaultOf, RelationCrosses, Indexed, Acyclic, Closed, Owned, StoreRecords;
    var resolved := Resolutions(t, evidence, artifact);
    forall i | 0 <= i < |resolved| && IsResolved(t.rows, artifact.KeyOf(artifact.records[i].id)) ensures resolved[i] {
      ResolvedIsNotPending(t, evidence, artifact, i);
    }
    StoresKeepIndexed(t, evidence, artifact, resolved, |resolved|);
  }

  /** Every import, accepted or rejected, keeps the invariant and every resolved annotation. */
  lemma SaveKeeps(t: Annotations, evidence: Evidence, artifact: Artifact)
    requires Invariant(t, evidence) && Distinct(artifact.Ids())
    ensures Invariant(Saved(t, evidence, artifact), evidence) && ResolvedKept(t.rows, Saved(t, evidence, artifact).rows)
  {
    SaveKeepsResolved(t, evidence, artifact);
    var after := Saved(t, evidence, artifact);
    if RejectionOf(t.rows, evidence, artifact).None? {
      SaveKeepsKeyedAndOwned(t, evidence, artifact);
      SaveKeepsAcyclic(t, evidence, artifact);
      SaveKeepsIndexed(t, evidence, artifact);
      assert Closed(after.rows) by {
        forall key, id | IsResolved(after.rows, key) && id in after.rows[key].content.record.Relations()
          ensures IsResolved(after.rows, key.(id := id))
        {
          SaveKeepsClosed(t, evidence, artifact, key, id);
        }
      }
    } else {
      RejectedIsUnchanged(t, evidence, artifact);
    }
  }

  // ---- any number of imports ----

  datatype Import = Import(evidence: Evidence, artifact: Artifact)

  /** Retained operations and the repositories of sessions are never taken back. */
  ghost predicate Grows(before: Evidence, after: Evidence) {
    && (forall o :: o in before.logical ==> o in after.logical && after.logical[o] == before.logical[o])
    && forall s :: s in before.sessions && before.sessions[s].Some? ==>
         s in after.sessions && after.sessions[s] == before.sessions[s]
  }

  ghost predicate IsHistory(imports: seq<Import>) {
    && (forall i :: 0 <= i < |imports| ==> Distinct(imports[i].artifact.Ids()))
    && (forall i, j :: 0 <= i < j < |imports| ==> Grows(imports[i].evidence, imports[j].evidence))
  }

  ghost function AfterImports(imports: seq<Import>): Annotations {
    if imports == [] then Annotations(map[], []) else
      var last := imports[|imports| - 1];
      Saved(AfterImports(imports[..|imports| - 1]), last.evidence, last.artifact)
  }

  lemma GrowingKeeps(t: Annotations, before: Evidence, after: Evidence)
    requires Invariant(t, before) && Grows(before, after)
    ensures Invariant(t, after)
  {
  }

  lemma EmptyIsFine(evidence: Evidence)
    ensures Invariant(Annotations(map[], []), evidence)
  {
    var t := Annotations(map[], []);
    assert forall walk: seq<Key> :: |walk| > 1 ==> !KeyEdge(t.rows, walk[0], walk[1]);
    assert forall key :: !HasIndexRow(t.index, key);
  }

  /** Over any number of imports the resolved annotations are closed, owned, acyclic and exactly indexed. */
  lemma {:induction false} ImportsKeepInvariant(imports: seq<Import>)
    requires IsHistory(imports) && imports != []
    ensures Invariant(AfterImports(imports), imports[|imports| - 1].evidence)
  {
    hide Invariant, Saved;
    var last := imports[|imports| - 1];
    var earlier := imports[..|imports| - 1];
    if earlier == [] {
      EmptyIsFine(last.evidence);
    } else {
      ImportsKeepInvariant(earlier);
      GrowingKeeps(AfterImports(earlier), earlier[|earlier| - 1].evidence, last.evidence);
    }
    SaveKeeps(AfterImports(earlier), last.evidence, last.artifact);
  }

  /** Nothing that was once resolved is lost, changed or made pending again. */
  lemma {:induction false} ResolvedNeverShrinks(imports: seq<Import>, n: nat)
    requires IsHistory(imports) && n <= |imports|
    ensures ResolvedKept(AfterImports(imports[..n]).rows, AfterImports(imports).rows)
  {
    hide Invariant, Saved, IsResolved;
    if n == |imports| {
      assert imports[..n] == imports;
    } else {
      var last := imports[|imports| - 1];
      var earlier := imports[..|imports| - 1];
      assert earlier[..n] == imports[..n];
      ResolvedNeverShrinks(earlier, n);
      if earlier == [] {
        EmptyIsFine(last.evidence);
      } else {
        ImportsKeepInvariant(earlier);
        GrowingKeeps(AfterImports(earlier), earlier[|earlier| - 1].evidence, last.evidence);
      }
      SaveKeeps(AfterImports(earlier), last.evidence, last.artifact);
    }
  }
}
