/**
 * The two graph algorithms of an annotation import: the depth-first search that rejects a cycle among the relations of
 * a batch, and the in-place propagation of the pending state along them (src/evidence/repository.ts).
 */
module RelationGraph {

  /** The related ids of each record of a batch. Ids outside of the batch are allowed; they are no edges. */
  type Graph = map<string, seq<string>>

  predicate Edge(g: Graph, a: string, b: string) {
    a in g && b in g && b in g[a]
  }

  ghost predicate Walk(g: Graph, walk: seq<string>) {
    && |walk| > 0
    && (forall i :: 0 <= i < |walk| ==> walk[i] in g)
    && (forall i, j :: 0 <= i && j == i + 1 && j < |walk| ==> Edge(g, walk[i], walk[j]))
  }

  ghost predicate ClosedWalk(g: Graph, walk: seq<string>) {
    Walk(g, walk) && |walk| > 1 && walk[0] == walk[|walk| - 1]
  }

  ghost predicate HasCycle(g: Graph) {
    exists walk :: ClosedWalk(g, walk)
  }

  /** Some walk leads from `id` to one of the targets; a target leads to itself. */
  ghost predicate Leads(g: Graph, id: string, targets: set<string>) {
    exists walk :: Walk(g, walk) && walk[0] == id && walk[|walk| - 1] in targets
  }

  lemma LeadsToItself(g: Graph, id: string, targets: set<string>)
    requires id in g && id in targets
    ensures Leads(g, id, targets)
  {
    assert Walk(g, [id]);
  }

  lemma LeadsThrough(g: Graph, a: string, b: string, targets: set<string>)
    requires Edge(g, a, b) && Leads(g, b, targets)
    ensures Leads(g, a, targets)
  {
    var walk :| Walk(g, walk) && walk[0] == b && walk[|walk| - 1] in targets;
    assert Walk(g, [a] + walk);
  }

  lemma WalkExtends(g: Graph, walk: seq<string>, id: string)
    requires id in g && (walk == [] || (Walk(g, walk) && Edge(g, walk[|walk| - 1], id)))
    ensures Walk(g, walk + [id])
  {
  }

  /** A set that every edge respects backwards takes in everything that leads to a target. */
  lemma {:induction false} LeadsStaysInside(g: Graph, walk: seq<string>, inside: set<string>)
    requires Walk(g, walk) && walk[|walk| - 1] in inside
    requires forall a, b :: Edge(g, a, b) && b in inside ==> a in inside
    ensures walk[0] in inside
  {
    if |walk| > 1 {
      assert Edge(g, walk[0], walk[1]);
      LeadsStaysInside(g, walk[1..], inside);
    }
  }

  // ---- cycles ----

  /** Every id comes after all the ids of the batch that it relates to. */
  ghost predicate Ordered(g: Graph, order: seq<string>) {
    && (forall i :: 0 <= i < |order| ==> order[i] in g)
    && (forall i, b :: 0 <= i < |order| && Edge(g, order[i], b) ==> b in order[..i])
  }

  lemma {:induction false} WalkGoesBack(g: Graph, order: seq<string>, walk: seq<string>, at: nat)
    requires Ordered(g, order) && Walk(g, walk) && at < |order| && walk[0] == order[at]
    ensures walk[|walk| - 1] in if |walk| > 1 then order[..at] else order[..at + 1]
  {
    if |walk| > 1 {
      assert Edge(g, order[at], walk[1]);
      var next :| 0 <= next < at && order[next] == walk[1];
      WalkGoesBack(g, order, walk[1..], next);
    }
  }

  lemma OrderedHasNoCycle(g: Graph, order: seq<string>)
    requires Ordered(g, order) && g.Keys <= (set id | id in order)
    ensures !HasCycle(g)
  {
    if walk :| ClosedWalk(g, walk) {
      var at := FirstPlace(order, walk[0]);
      WalkGoesBack(g, order, walk, at);
    }
  }

  /** The first place where an id stands. */
  lemma {:induction false} FirstPlace(order: seq<string>, id: string) returns (at: nat)
    requires id in order
    ensures at < |order| && order[at] == id && id !in order[..at]
  {
    if order[0] == id {
      at := 0;
    } else {
      assert id in order[1..];
      var rest := FirstPlace(order[1..], id);
      at := rest + 1;
      assert order[..at] == [order[0]] + order[1..][..rest];
    }
  }

  lemma OneMoreVisiting(all: set<string>, visiting: set<string>, trail: seq<string>, id: string)
    requires visiting == (set k | k in trail) && id in all && id !in visiting
    ensures visiting + {id} == (set k | k in trail + [id])
    ensures |all - (visiting + {id})| < |all - visiting|
  {
    assert all - (visiting + {id}) == (all - visiting) - {id};
  }

  class RelationVisitor {
    const batch: Graph
    var visited: set<string>
    var visiting: set<string>
    ghost var trail: seq<string>
    ghost var order: seq<string>

    /** What is being visited is a walk. */
    ghost predicate TrailValid()
      reads `visiting, `trail
    {
      (trail == [] || Walk(batch, trail)) && visiting == (set id | id in trail) && visiting <= batch.Keys
    }

    /** What has been visited is ordered. */
    ghost predicate OrderValid()
      reads `visited, `order
    {
      Ordered(batch, order) && visited == (set id | id in order)
    }

    ghost predicate Valid()
      reads this
    {
      TrailValid() && OrderValid() && visiting !! visited
    }

    constructor (batch: Graph)
      ensures Valid() && this.batch == batch && trail == [] && order == []
    {
      this.batch, visited, visiting, trail, order := batch, {}, {}, [], [];
    }

    method Enter(id: string)
      requires TrailValid() && id in batch && id !in visiting
      requires trail == [] || Edge(batch, trail[|trail| - 1], id)
      modifies `visiting, `trail
      ensures TrailValid() && trail == old(trail) + [id] && visiting == old(visiting) + {id}
      ensures |batch.Keys - visiting| < |batch.Keys - old(visiting)|
    {
      hide Walk;
      WalkExtends(batch, trail, id);
      OneMoreVisiting(batch.Keys, visiting, trail, id);
      visiting := visiting + {id};
      trail := trail + [id];
    }

    method Leave(id: string)
      requires Valid() && trail != [] && trail[|trail| - 1] == id && id !in trail[..|trail| - 1]
      requires forall b :: Edge(batch, id, b) ==> b in visited
      modifies this
      ensures Valid() && trail == old(trail[..|trail| - 1])
      ensures order == old(order) + [id] && visited == old(visited) + {id} && visiting == old(visiting) - {id}
    {
      ghost var before := order;
      visiting := visiting - {id};
      trail := trail[..|trail| - 1];
      visited := visited + {id};
      order := order + [id];
      assert forall i :: 0 <= i < |before| ==> order[..i] == before[..i];
      assert order[..|before|] == before;
    }

    lemma OnTrail(id: string)
      requires TrailValid()
      ensures id in visiting <==> id in trail
    {
    }

    lemma TrailCloses(id: string)
      requires TrailValid() && id in visiting && Edge(batch, trail[|trail| - 1], id)
      ensures HasCycle(batch)
    {
      var start :| 0 <= start < |trail| && trail[start] == id;
      assert ClosedWalk(batch, trail[start..] + [id]);
    }

    /** Follows the relations of one record. It reports a cycle exactly by running into a record that it is visiting. */
    method Visit(id: string) returns (cycle: bool)
      requires Valid() && id in batch && (trail == [] || Edge(batch, trail[|trail| - 1], id))
      modifies this
      ensures cycle ==> HasCycle(batch)
      ensures !cycle ==> Valid() && trail == old(trail) && visiting == old(visiting)
      ensures !cycle ==> id in visited && old(order) <= order && old(visited) <= visited
      decreases |batch.Keys - visiting|
    {
      hide Walk, Ordered, HasCycle, TrailValid, OrderValid;
      OnTrail(id);
      if id in visiting {
        TrailCloses(id);
        return true;
      }
      if id in visited {
        return false;
      }
      ghost var above := trail;
      Enter(id);
      for i := 0 to |batch[id]|
        invariant Valid() && trail == above + [id] && visiting == old(visiting) + {id}
        invariant old(order) <= order && old(visited) <= visited
        invariant |batch.Keys - visiting| < |batch.Keys - old(visiting)|
        invariant forall j :: 0 <= j < i && batch[id][j] in batch ==> batch[id][j] in visited
      {
        if batch[id][i] in batch {
          cycle := Visit(batch[id][i]);
          if cycle {
            return;
          }
        }
      }
      assert trail[..|trail| - 1] == above;
      Leave(id);
      cycle := false;
    }
  }

  /** The search over a whole batch rejects it if and only if its relations have a cycle. */
  method FindCycle(batch: Graph, ids: seq<string>) returns (cycle: bool)
    requires batch.Keys == (set id | id in ids)
    ensures cycle <==> HasCycle(batch)
  {
    var visitor := new RelationVisitor(batch);
    for i := 0 to |ids|
      invariant visitor.Valid() && visitor.batch == batch && visitor.trail == [] && fresh(visitor)
      invariant forall j :: 0 <= j < i ==> ids[j] in visitor.visited
    {
      cycle := visitor.Visit(ids[i]);
      if cycle {
        return;
      }
    }
    OrderedHasNoCycle(batch, visitor.order);
    cycle := false;
  }

  // ---- the pending state ----

  ghost function Unresolved(ids: seq<string>, resolved: seq<bool>): set<string>
    requires |ids| == |resolved|
  {
    set i | 0 <= i < |ids| && !resolved[i] :: ids[i]
  }

  ghost predicate Distinct(ids: seq<string>) {
    forall i, j :: 0 <= i < j < |ids| ==> ids[i] != ids[j]
  }

  /** Whether a record that the row relates to is pending. */
  method RelatesToPending(ids: seq<string>, related: seq<string>, resolved: array<bool>) returns (found: bool)
    requires |ids| == resolved.Length
    ensures found <==> exists b :: b in related && b in Unresolved(ids, resolved[..])
  {
    for i := 0 to |related|
      invariant forall j :: 0 <= j < i ==> related[j] !in Unresolved(ids, resolved[..])
    {
      for k := 0 to |ids|
        invariant forall j :: 0 <= j < k ==> ids[j] != related[i] || resolved[j]
      {
        if ids[k] == related[i] && !resolved[k] {
          assert related[i] in Unresolved(ids, resolved[..]);
          return true;
        }
      }
    }
    found := false;
  }

  /** Every pending row leads to a seed, and every seed is pending. */
  ghost predicate Justified(g: Graph, ids: seq<string>, resolved: seq<bool>, seeds: set<string>)
    requires |ids| == |resolved|
  {
    && (forall i :: 0 <= i < |ids| && !resolved[i] ==> Leads(g, ids[i], seeds))
    && seeds <= Unresolved(ids, resolved)
  }

  /** The first n rows are pending if they relate to a pending row. */
  ghost predicate Settled(g: Graph, ids: seq<string>, resolved: seq<bool>, n: nat)
    requires |ids| == |resolved| && n <= |ids|
  {
    forall i, b :: 0 <= i < n && Edge(g, ids[i], b) && b in Unresolved(ids, resolved) ==> !resolved[i]
  }

  lemma RowBecomesPending(g: Graph, ids: seq<string>, resolved: seq<bool>, seeds: set<string>, n: nat)
    requires |ids| == |resolved| && n < |ids| && Justified(g, ids, resolved, seeds) && ids[n] in g
    requires forall i :: 0 <= i < |ids| ==> ids[i] in g
    requires exists b :: b in g[ids[n]] && b in Unresolved(ids, resolved)
    ensures Justified(g, ids, resolved[n := false], seeds)
  {
    var b :| b in g[ids[n]] && b in Unresolved(ids, resolved);
    LeadsThrough(g, ids[n], b, seeds);
    assert Unresolved(ids, resolved) <= Unresolved(ids, resolved[n := false]);
  }

  /** One pass over the rows. */
  method Pass(g: Graph, ids: seq<string>, resolved: array<bool>, ghost seeds: set<string>) returns (changed: bool)
    requires |ids| == resolved.Length && Justified(g, ids, resolved[..], seeds)
    requires forall i :: 0 <= i < |ids| ==> ids[i] in g
    modifies resolved
    ensures Justified(g, ids, resolved[..], seeds)
    ensures !changed ==> resolved[..] == old(resolved[..]) && Settled(g, ids, resolved[..], |ids|)
    ensures forall i :: 0 <= i < |ids| && resolved[i] ==> old(resolved[i])
    ensures changed ==> exists i :: 0 <= i < |ids| && old(resolved[i]) && !resolved[i]
  {
    hide Leads, Justified;
    changed := false;
    for n := 0 to |ids|
      invariant Justified(g, ids, resolved[..], seeds)
      invariant forall i :: 0 <= i < |ids| && resolved[i] ==> old(resolved[i])
      invariant changed ==> exists i :: 0 <= i < |ids| && old(resolved[i]) && !resolved[i]
      invariant !changed ==> resolved[..] == old(resolved[..]) && Settled(g, ids, resolved[..], n)
    {
      if resolved[n] {
        var pending := RelatesToPending(ids, g[ids[n]], resolved);
        if pending {
          RowBecomesPending(g, ids, resolved[..], seeds, n);
          assert old(resolved[n]);
          ghost var after := resolved[..][n := false];
          resolved[n] := false;
          assert resolved[..] == after;
          changed := true;
        }
      }
    }
  }

  lemma PendingSpreadsBack(g: Graph, ids: seq<string>, resolved: seq<bool>, a: string, b: string)
    requires |ids| == |resolved| && a in ids
    requires Settled(g, ids, resolved, |ids|) && Edge(g, a, b) && b in Unresolved(ids, resolved)
    ensures a in Unresolved(ids, resolved)
  {
    var i :| 0 <= i < |ids| && ids[i] == a;
  }

  /** When a pass changes nothing, the pending rows are exactly those that lead to a seed. */
  lemma SettledIsExact(g: Graph, ids: seq<string>, resolved: seq<bool>, seeds: set<string>, i: nat)
    requires |ids| == |resolved| && Distinct(ids) && g.Keys == (set id | id in ids) && i < |ids|
    requires Justified(g, ids, resolved, seeds) && Settled(g, ids, resolved, |ids|)
    ensures resolved[i] <==> !Leads(g, ids[i], seeds)
  {
    if Leads(g, ids[i], seeds) {
      var pending := Unresolved(ids, resolved);
      var walk :| Walk(g, walk) && walk[0] == ids[i] && walk[|walk| - 1] in seeds;
      forall a, b | Edge(g, a, b) && b in pending ensures a in pending {
        assert a in g.Keys;
        PendingSpreadsBack(g, ids, resolved, a, b);
      }
      LeadsStaysInside(g, walk, pending);
      var j :| 0 <= j < |ids| && !resolved[j] && ids[j] == ids[i];
      assert i == j;
    }
  }

  /**
   * Passes over the rows until one changes nothing. A row ends up pending if and only if it leads to a row that began
   * so.
   */
  method Propagate(g: Graph, ids: seq<string>, resolved: array<bool>)
    requires Distinct(ids) && |ids| == resolved.Length && g.Keys == (set id | id in ids)
    modifies resolved
    ensures forall i :: 0 <= i < |ids| ==> (resolved[i] <==> !Leads(g, ids[i], Unresolved(ids, old(resolved[..]))))
  {
    hide Leads, Justified, Settled, Distinct;
    ghost var seeds := Unresolved(ids, resolved[..]);
    BeginsJustified(g, ids, resolved[..]);
    var changed := true;
    while changed
      invariant Justified(g, ids, resolved[..], seeds)
      invariant !changed ==> Settled(g, ids, resolved[..], |ids|)
      decreases (set i | 0 <= i < |ids| && resolved[i]), changed
    {
      ghost var was := resolved[..];
      ghost var before := set i | 0 <= i < |ids| && resolved[i];
      changed := Pass(g, ids, resolved, seeds);
      ghost var after := set i | 0 <= i < |ids| && resolved[i];
      assert after <= before;
      if changed {
        ghost var i :| 0 <= i < |ids| && was[i] && !resolved[i];
        assert i in before && i !in after;
      }
    }
    forall i | 0 <= i < |ids| ensures resolved[i] <==> !Leads(g, ids[i], seeds) {
      SettledIsExact(g, ids, resolved[..], seeds, i);
    }
  }

  lemma BeginsJustified(g: Graph, ids: seq<string>, resolved: seq<bool>)
    requires |ids| == |resolved| && forall i :: 0 <= i < |ids| ==> ids[i] in g
    ensures Justified(g, ids, resolved, Unresolved(ids, resolved))
  {
    var seeds := Unresolved(ids, resolved);
    forall i | 0 <= i < |ids| && !resolved[i] ensures Leads(g, ids[i], seeds) {
      LeadsToItself(g, ids[i], seeds);
    }
  }
}
