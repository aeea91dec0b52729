/**
 * The import of typed annotations (src/evidence/repository.ts): what one artifact does to the retained annotations and
 * to their session index. The digest of a payload is the payload itself; the retained operations are a parameter.
 */
module EvidenceImport {
  import opened Prelude
  import opened RelationGraph

  datatype Operation = Operation(source: string, eventId: string)

  /** `fields` holds the origin, the kind, the state, the keys and the reason class. */
  datatype Record = Record(id: string, operation: Operation, related: Option<seq<string>>, fields: string)
  {
    function Relations(): seq<string> {
      if related.Some? then related.value else []
    }
  }

  datatype Artifact = Artifact(namespace: string, producerKind: string, producerVersion: string, repository: string,
                               session: string, contextRevision: string, records: seq<Record>)
  {
    function KeyOf(id: string): Key {
      Key(namespace, repository, session, id)
    }

    function ContentOf(record: Record): Content {
      Content(producerKind, producerVersion, contextRevision, record)
    }

    function Ids(): seq<string> {
      seq(|records|, i requires 0 <= i < |records| => records[i].id)
    }
  }

  datatype Content = Content(producerKind: string, producerVersion: string, contextRevision: string, record: Record)

  datatype Key = Key(namespace: string, repository: string, session: string, id: string)

  datatype Row = Row(content: Content, resolved: bool)

  datatype IndexRow = IndexRow(session: string, ordinal: nat, namespace: string, repository: string, id: string)
  {
    function KeyOf(): Key {
      Key(namespace, repository, session, id)
    }
  }

  datatype Annotations = Annotations(rows: map<Key, Row>, index: seq<IndexRow>)

  datatype Logged = Logged(operation: Operation, session: string)

  datatype Physical = Physical(operation: Operation, session: string, isRequest: bool)

  /**
   * What the experience store retains: for each logged operation whether it is a request, and each session's last
   * ordinal.
   */
  datatype Evidence = Evidence(repositories: set<string>, sessions: map<string, Option<string>>,
                               logical: map<Logged, bool>, physical: set<Physical>, ordinals: map<string, nat>)

  datatype Rejection = InvalidScope | ContentConflict | NotARequest | CrossesScope | Cycle | RelationCrossesScope

  datatype Receipt = Receipt(received: nat, retained: nat, pending: nat, indexed: nat)

  // ---- checks ----

  predicate InScope(evidence: Evidence, artifact: Artifact) {
    && artifact.repository in evidence.repositories
    && artifact.session in evidence.sessions
    && evidence.sessions[artifact.session] == Some(artifact.repository)
  }

  /** The session of the artifact retains the operation that the record names. */
  predicate Owns(evidence: Evidence, session: string, record: Record) {
    Logged(record.operation, session) in evidence.logical
  }

  function FaultOf(rows: map<Key, Row>, evidence: Evidence, artifact: Artifact, record: Record): Option<Rejection> {
    var key := artifact.KeyOf(record.id);
    if key in rows && rows[key].content != artifact.ContentOf(record) then Some(ContentConflict)
    else if Owns(evidence, artifact.session, record) then
      if evidence.logical[Logged(record.operation, artifact.session)] then None else Some(NotARequest)
    else if exists logged :: logged in evidence.logical && logged.operation == record.operation then Some(CrossesScope)
    else if exists p :: p in evidence.physical && p.operation == record.operation && p.session != artifact.session
    then Some(CrossesScope)
    else if exists p :: p in evidence.physical && p.operation == record.operation && !p.isRequest then Some(NotARequest)
    else None
  }

  /** The fault of the first record that has one. */
  function FirstFault(rows: map<Key, Row>, evidence: Evidence, artifact: Artifact,
                      records: seq<Record>): Option<Rejection> {
    if records == [] then None else
      var fault := FaultOf(rows, evidence, artifact, records[0]);
      if fault.Some? then fault else FirstFault(rows, evidence, artifact, records[1..])
  }

  function BatchOf(records: seq<Record>): Graph {
    if records == [] then map[] else
      var last := records[|records| - 1];
      BatchOf(records[..|records| - 1])[last.id := last.Relations()]
  }

  /** The same producer retains the id in another repository or session. */
  predicate IsElsewhere(rows: map<Key, Row>, artifact: Artifact, id: string) {
    exists key :: key in rows && key.namespace == artifact.namespace && key.id == id && key != artifact.KeyOf(id)
  }

  predicate IsResolved(rows: map<Key, Row>, key: Key) {
    key in rows && rows[key].resolved
  }

  ghost predicate RelationCrosses(rows: map<Key, Row>, artifact: Artifact, batch: Graph, n: nat)
    requires n <= |artifact.records|
  {
    exists i, id :: 0 <= i < n && id in artifact.records[i].Relations() && id !in batch
        && IsElsewhere(rows, artifact, id)
  }

  // ---- the effect of an accepted artifact ----

  /**
   * A record cannot be resolved by itself: its operation is not retained, or it relates to an unresolved one outside.
   */
  ghost predicate IsUnsettled(rows: map<Key, Row>, evidence: Evidence, artifact: Artifact, batch: Graph,
                              record: Record) {
    || !Owns(evidence, artifact.session, record)
    || exists id :: id in record.Relations() && id !in batch && !IsResolved(rows, artifact.KeyOf(id))
  }

  ghost function Unsettled(rows: map<Key, Row>, evidence: Evidence, artifact: Artifact): set<string> {
    set i | 0 <= i < |artifact.records|
        && IsUnsettled(rows, evidence, artifact, BatchOf(artifact.records), artifact.records[i])
      :: artifact.records[i].id
  }

  /** A record is pending if and only if the relations of the batch lead from it to an unsettled record. */
  ghost predicate IsPending(rows: map<Key, Row>, evidence: Evidence, artifact: Artifact, record: Record) {
    Leads(BatchOf(artifact.records), record.id, Unsettled(rows, evidence, artifact))
  }

  function Higher(a: nat, b: nat): nat {
    if a < b then b else a
  }

  function HighestIndexed(index: seq<IndexRow>, session: string): nat {
    if index == [] then 0 else
      var last := index[|index| - 1];
      var earlier := HighestIndexed(index[..|index| - 1], session);
      if last.session == session then Higher(earlier, last.ordinal) else earlier
  }

  function NextOrdinal(index: seq<IndexRow>, evidence: Evidence, session: string): nat {
    Higher(HighestIndexed(index, session), if session in evidence.ordinals then evidence.ordinals[session] else 0) + 1
  }

  predicate IsIndexed(index: seq<IndexRow>, artifact: Artifact, id: string) {
    exists i :: 0 <= i < |index| && index[i].session == artifact.session && index[i].namespace == artifact.namespace
        && index[i].id == id
  }

  function StoreRecord(t: Annotations, evidence: Evidence, artifact: Artifact, record: Record,
                       resolved: bool): Annotations {
    var key := artifact.KeyOf(record.id);
    var content := if key in t.rows then t.rows[key].content else artifact.ContentOf(record);
    Annotations(
      t.rows[key := Row(content, resolved)],
      if resolved && !IsIndexed(t.index, artifact, record.id)
      then t.index + [IndexRow(artifact.session, NextOrdinal(t.index, evidence, artifact.session), artifact.namespace,
            artifact.repository, record.id)]
      else t.index)
  }

  ghost function StoreRecords(t: Annotations, evidence: Evidence, artifact: Artifact, resolved: seq<bool>,
      n: nat): Annotations
    requires |resolved| == |artifact.records| && n <= |resolved|
  {
    if n == 0 then t else
      StoreRecord(StoreRecords(t, evidence, artifact, resolved, n - 1), evidence, artifact, artifact.records[n - 1],
                  resolved[n - 1])
  }

  function CountPending(resolved: seq<bool>): nat {
    if resolved == [] then 0 else CountPending(resolved[..|resolved| - 1]) + if resolved[|resolved| - 1] then 0 else 1
  }

  lemma NothingStored(t: Annotations, evidence: Evidence, artifact: Artifact, resolved: seq<bool>)
    requires |resolved| == |artifact.records|
    ensures StoreRecords(t, evidence, artifact, resolved, 0) == t && CountPending(resolved[..0]) == 0
  {
  }

  lemma StoredOneMore(t: Annotations, evidence: Evidence, artifact: Artifact, resolved: seq<bool>, n: nat)
    requires |resolved| == |artifact.records| && n < |resolved|
    ensures StoreRecords(t, evidence, artifact, resolved, n + 1) ==
            StoreRecord(StoreRecords(t, evidence, artifact, resolved, n), evidence, artifact, artifact.records[n],
                        resolved[n])
    ensures CountPending(resolved[..n + 1]) == CountPending(resolved[..n]) + if resolved[n] then 0 else 1
  {
    assert resolved[..n + 1][..n] == resolved[..n];
  }

  ghost function Resolutions(t: Annotations, evidence: Evidence, artifact: Artifact): seq<bool> {
    seq(|artifact.records|, i requires 0 <= i < |artifact.records| =>
      !IsPending(t.rows, evidence, artifact, artifact.records[i]))
  }

  ghost function RejectionOf(rows: map<Key, Row>, evidence: Evidence, artifact: Artifact): Option<Rejection> {
    var fault := FirstFault(rows, evidence, artifact, artifact.records);
    var batch := BatchOf(artifact.records);
    if !InScope(evidence, artifact) then Some(InvalidScope)
    else if fault.Some? then fault
    else if HasCycle(batch) then Some(Cycle)
    else if RelationCrosses(rows, artifact, batch, |artifact.records|) then Some(RelationCrossesScope)
    else None
  }

  /** One import: the annotations afterwards, whether it is accepted or not. */
  ghost function Saved(t: Annotations, evidence: Evidence, artifact: Artifact): Annotations {
    if RejectionOf(t.rows, evidence, artifact).Some? then t
    else StoreRecords(t, evidence, artifact, Resolutions(t, evidence, artifact), |artifact.records|)
  }

  // ---- facts about a batch ----

  lemma {:induction false} BatchFacts(records: seq<Record>)
    ensures BatchOf(records).Keys == set i | 0 <= i < |records| :: records[i].id
    ensures (forall i, j :: 0 <= i < j < |records| ==> records[i].id != records[j].id) ==>
              forall i :: 0 <= i < |records| ==> BatchOf(records)[records[i].id] == records[i].Relations()
  {
    if records != [] {
      var earlier := records[..|records| - 1];
      BatchFacts(earlier);
      assert forall i :: 0 <= i < |earlier| ==> records[i] == earlier[i];
      forall id ensures id in BatchOf(records) <==> exists i :: 0 <= i < |records| && records[i].id == id {
        if id in BatchOf(earlier) {
          var i :| 0 <= i < |earlier| && earlier[i].id == id;
          assert records[i].id == id;
        } else if id == records[|records| - 1].id {
        } else {
          assert forall i :: 0 <= i < |earlier| ==> records[i].id == earlier[i].id;
        }
      }
    }
  }

  lemma IdsFacts(artifact: Artifact)
    ensures BatchOf(artifact.records).Keys == set id | id in artifact.Ids()
  {
    BatchFacts(artifact.records);
    forall id ensures id in BatchOf(artifact.records) <==> id in artifact.Ids() {
      if id in BatchOf(artifact.records) {
        var i :| 0 <= i < |artifact.records| && artifact.records[i].id == id;
        assert artifact.Ids()[i] == id;
      }
    }
  }

  // ---- before the propagation ----

  /** The first n relations leave the record resolved: siblings own their operations, the others are resolved. */
  ghost predicate BeginsResolved(rows: map<Key, Row>, evidence: Evidence, artifact: Artifact, batch: Graph,
      record: Record, n: nat)
    requires n <= |record.Relations()|
  {
    && Owns(evidence, artifact.session, record)
    && forall j :: 0 <= j < n ==>
         if record.Relations()[j] in batch then SiblingsOwn(evidence, artifact, record.Relations()[j])
         else IsResolved(rows, artifact.KeyOf(record.Relations()[j]))
  }

  ghost predicate SiblingsOwn(evidence: Evidence, artifact: Artifact, id: string) {
    forall i :: 0 <= i < |artifact.records| && artifact.records[i].id == id ==>
          Owns(evidence, artifact.session, artifact.records[i])
  }

  ghost predicate BeginAs(rows: map<Key, Row>, evidence: Evidence, artifact: Artifact, begins: seq<bool>) {
    && |begins| == |artifact.records|
    && forall i :: 0 <= i < |begins| ==>
         (begins[i] <==> BeginsResolved(rows, evidence, artifact, BatchOf(artifact.records), artifact.records[i],
               |artifact.records[i].Relations()|))
  }

  lemma UnsettledBeginsPending(rows: map<Key, Row>, evidence: Evidence, artifact: Artifact, begins: seq<bool>,
                               id: string)
    requires BeginAs(rows, evidence, artifact, begins) && id in Unsettled(rows, evidence, artifact)
    ensures id in Unresolved(artifact.Ids(), begins)
  {
    var batch := BatchOf(artifact.records);
    var i :| 0 <= i < |artifact.records| && artifact.records[i].id == id
          && IsUnsettled(rows, evidence, artifact, batch, artifact.records[i]);
    var record := artifact.records[i];
    if Owns(evidence, artifact.session, record) {
      var outside :| outside in record.Relations() && outside !in batch && !IsResolved(rows, artifact.KeyOf(outside));
      var j :| 0 <= j < |record.Relations()| && record.Relations()[j] == outside;
    }
    assert !begins[i] && artifact.Ids()[i] == id;
  }

  lemma UnsettledLeads(rows: map<Key, Row>, evidence: Evidence, artifact: Artifact, i: nat)
    requires i < |artifact.records|
             && IsUnsettled(rows, evidence, artifact, BatchOf(artifact.records), artifact.records[i])
    ensures Leads(BatchOf(artifact.records), artifact.records[i].id, Unsettled(rows, evidence, artifact))
  {
    BatchFacts(artifact.records);
    LeadsToItself(BatchOf(artifact.records), artifact.records[i].id, Unsettled(rows, evidence, artifact));
  }

  lemma PendingLeadsToUnsettled(rows: map<Key, Row>, evidence: Evidence, artifact: Artifact, i: nat)
    requires Distinct(artifact.Ids()) && i < |artifact.records|
    requires var record := artifact.records[i]; !BeginsResolved(rows, evidence, artifact, BatchOf(artifact.records),
          record, |record.Relations()|)
    ensures Leads(BatchOf(artifact.records), artifact.records[i].id, Unsettled(rows, evidence, artifact))
  {
    hide Leads, Unsettled, IsResolved, Owns;
    var batch := BatchOf(artifact.records);
    var record := artifact.records[i];
    if IsUnsettled(rows, evidence, artifact, batch, record) {
      UnsettledLeads(rows, evidence, artifact, i);
    } else {
      var j :| 0 <= j < |record.Relations()| && record.Relations()[j] in batch
          && !SiblingsOwn(evidence, artifact, record.Relations()[j]);
      var k :| 0 <= k < |artifact.records| && artifact.records[k].id == record.Relations()[j]
            && !Owns(evidence, artifact.session, artifact.records[k]);
      UnsettledLeads(rows, evidence, artifact, k);
      DistinctRecords(artifact);
      BatchFacts(artifact.records);
      LeadsThrough(batch, record.id, artifact.records[k].id, Unsettled(rows, evidence, artifact));
    }
  }

  lemma DistinctRecords(artifact: Artifact)
    requires Distinct(artifact.Ids())
    ensures forall i, j :: 0 <= i < j < |artifact.records| ==> artifact.records[i].id != artifact.records[j].id
  {
    assert forall i :: 0 <= i < |artifact.records| ==> artifact.Ids()[i] == artifact.records[i].id;
  }

  lemma WalksJoin(g: Graph, a: seq<string>, b: seq<string>)
    requires Walk(g, a) && Walk(g, b) && a[|a| - 1] == b[0]
    ensures Walk(g, a + b[1..]) && (a + b[1..])[0] == a[0] && (a + b[1..])[|a + b[1..]| - 1] == b[|b| - 1]
  {
  }

  /** Starting the propagation from the siblings' operations as well changes nothing. */
  lemma SeedsAgree(rows: map<Key, Row>, evidence: Evidence, artifact: Artifact, begins: seq<bool>, id: string)
    requires Distinct(artifact.Ids()) && BeginAs(rows, evidence, artifact, begins)
    ensures Leads(BatchOf(artifact.records), id, Unresolved(artifact.Ids(), begins)) <==>
            Leads(BatchOf(artifact.records), id, Unsettled(rows, evidence, artifact))
  {
    hide Unsettled, BeginsResolved;
    var batch := BatchOf(artifact.records);
    var wide := Unresolved(artifact.Ids(), begins);
    var narrow := Unsettled(rows, evidence, artifact);
    forall k | k in narrow ensures k in wide {
      UnsettledBeginsPending(rows, evidence, artifact, begins, k);
    }
    if Leads(batch, id, wide) {
      var walk :| Walk(batch, walk) && walk[0] == id && walk[|walk| - 1] in wide;
      var i :| 0 <= i < |begins| && !begins[i] && artifact.Ids()[i] == walk[|walk| - 1];
      PendingLeadsToUnsettled(rows, evidence, artifact, i);
      var rest :| Walk(batch, rest) && rest[0] == walk[|walk| - 1] && rest[|rest| - 1] in narrow;
      WalksJoin(batch, walk, rest);
    }
  }

  // ---- the store ----

  class AnnotationStore {
    var rows: map<Key, Row>
    var index: seq<IndexRow>

    constructor ()
      ensures Table() == Annotations(map[], [])
    {
      rows, index := map[], [];
    }

    function Table(): Annotations
      reads this
    {
      Annotations(rows, index)
    }

    method CheckRecords(evidence: Evidence, artifact: Artifact) returns (fault: Option<Rejection>)
      ensures fault == FirstFault(rows, evidence, artifact, artifact.records)
    {
      for i := 0 to |artifact.records|
        invariant FirstFault(rows, evidence, artifact, artifact.records) ==
                  FirstFault(rows, evidence, artifact, artifact.records[i..])
      {
        fault := FaultOf(rows, evidence, artifact, artifact.records[i]);
        if fault.Some? {
          return;
        }
      }
      fault := None;
    }

    method SiblingOwns(evidence: Evidence, artifact: Artifact, id: string) returns (owns: bool)
      ensures owns <==> SiblingsOwn(evidence, artifact, id)
    {
      for i := 0 to |artifact.records|
        invariant forall j :: 0 <= j < i && artifact.records[j].id == id ==>
                    Owns(evidence, artifact.session, artifact.records[j])
      {
        if artifact.records[i].id == id && !Owns(evidence, artifact.session, artifact.records[i]) {
          return false;
        }
      }
      owns := true;
    }

    method ResolveAlone(evidence: Evidence, artifact: Artifact, batch: Graph,
        record: Record) returns (resolved: bool, crosses: bool)
      ensures crosses <==> exists id :: id in record.Relations() && id !in batch && IsElsewhere(rows, artifact, id)
      ensures !crosses ==> (resolved <==> BeginsResolved(rows, evidence, artifact, batch, record, |record.Relations()|))
    {
      var related := record.Relations();
      resolved, crosses := Owns(evidence, artifact.session, record), false;
      for j := 0 to |related|
        invariant !crosses
        invariant forall i :: 0 <= i < j && related[i] !in batch ==> !IsElsewhere(rows, artifact, related[i])
        invariant resolved <==> BeginsResolved(rows, evidence, artifact, batch, record, j)
      {
        if related[j] in batch {
          var owns := SiblingOwns(evidence, artifact, related[j]);
          if !owns {
            resolved := false;
          }
        } else {
          if IsElsewhere(rows, artifact, related[j]) {
            crosses := true;
            return;
          }
          if !IsResolved(rows, artifact.KeyOf(related[j])) {
            resolved := false;
          }
        }
      }
    }

    method ResolveEach(evidence: Evidence, artifact: Artifact, batch: Graph)
        returns (resolved: array<bool>, crosses: bool)
      ensures fresh(resolved) && resolved.Length == |artifact.records|
      ensures crosses <==> RelationCrosses(rows, artifact, batch, |artifact.records|)
      ensures !crosses ==> forall i :: 0 <= i < resolved.Length ==>
                (resolved[i] <==> BeginsResolved(rows, evidence, artifact, batch, artifact.records[i],
                                                 |artifact.records[i].Relations()|))
    {
      hide IsElsewhere;
      resolved := new bool[|artifact.records|];
      for n := 0 to |artifact.records|
        invariant !RelationCrosses(rows, artifact, batch, n)
        invariant forall i :: 0 <= i < n ==>
                    (resolved[i] <==> BeginsResolved(rows, evidence, artifact, batch, artifact.records[i],
                          |artifact.records[i].Relations()|))
      {
        var alone;
        alone, crosses := ResolveAlone(evidence, artifact, batch, artifact.records[n]);
        if crosses {
          return;
        }
        resolved[n] := alone;
      }
      crosses := false;
    }

    method Save(evidence: Evidence, artifact: Artifact) returns (r: Result<Receipt, Rejection>)
      requires Distinct(artifact.Ids())
      modifies this
      ensures Table() == Saved(old(Table()), evidence, artifact)
      ensures r.Err? <==> RejectionOf(old(rows), evidence, artifact).Some?
      ensures r.Err? ==> r.error == RejectionOf(old(rows), evidence, artifact).value
      ensures r.Ok? ==> r.value.received == |artifact.records| && |rows| == |old(rows)| + r.value.retained
      ensures r.Ok? ==> r.value.pending == CountPending(Resolutions(old(Table()), evidence, artifact))
      ensures r.Ok? ==> |index| == |old(index)| + r.value.indexed
    {
      hide HasCycle, Leads, FaultOf, RelationCrosses, BeginsResolved;
      if !InScope(evidence, artifact) {
        return Err(InvalidScope);
      }
      var fault := CheckRecords(evidence, artifact);
      if fault.Some? {
        return Err(fault.value);
      }
      IdsFacts(artifact);
      var batch := BatchOf(artifact.records);
      var cycle := FindCycle(batch, artifact.Ids());
      if cycle {
        return Err(Cycle);
      }
      var resolved, crosses := ResolveEach(evidence, artifact, batch);
      if crosses {
        return Err(RelationCrossesScope);
      }
      ghost var begins := resolved[..];
      Propagate(batch, artifact.Ids(), resolved);
      forall i | 0 <= i < |artifact.records| ensures resolved[i] == Resolutions(Table(), evidence, artifact)[i] {
        SeedsAgree(rows, evidence, artifact, begins, artifact.records[i].id);
        assert artifact.Ids()[i] == artifact.records[i].id;
      }
      assert resolved[..] == Resolutions(Table(), evidence, artifact);
      var retained, pending, indexed := Store(evidence, artifact, resolved);
      r := Ok(Receipt(|artifact.records|, retained, pending, indexed));
    }

    method Store(evidence: Evidence, artifact: Artifact, resolved: array<bool>) returns (retained: nat, pending: nat,
        indexed: nat)
      requires resolved.Length == |artifact.records|
      modifies this
      ensures Table() == StoreRecords(old(Table()), evidence, artifact, resolved[..], resolved.Length)
      ensures |rows| == |old(rows)| + retained && |index| == |old(index)| + indexed
              && pending == CountPending(resolved[..])
    {
      hide NextOrdinal, IsIndexed, StoreRecords, CountPending;
      retained, pending, indexed := 0, 0, 0;
      NothingStored(Table(), evidence, artifact, resolved[..]);
      for n := 0 to |artifact.records|
        invariant Table() == StoreRecords(old(Table()), evidence, artifact, resolved[..], n)
        invariant |rows| == |old(rows)| + retained && |index| == |old(index)| + indexed
                  && pending == CountPending(resolved[..n])
      {
        StoredOneMore(old(Table()), evidence, artifact, resolved[..], n);
        var record := artifact.records[n];
        var key := artifact.KeyOf(record.id);
        if !resolved[n] {
          pending := pending + 1;
        }
        if key in rows {
          rows := rows[key := rows[key].(resolved := resolved[n])];
        } else {
          rows := rows[key := Row(artifact.ContentOf(record), resolved[n])];
          retained := retained + 1;
        }
        if resolved[n] && !IsIndexed(index, artifact, record.id) {
          var next := NextOrdinal(index, evidence, artifact.session);
          index := index + [IndexRow(artifact.session, next, artifact.namespace, artifact.repository, record.id)];
          indexed := indexed + 1;
        }
      }
      assert resolved[..resolved.Length] == resolved[..];
    }
  }
}
