/**
 * The memoised recursive resolver of runtime profiles and the validation of serialized registries
 * (src/config/runtime-profile.ts). It accepts exactly what the definitions mean, whatever their order.
 */
module ProfileResolver {
  import opened Ordering
  import opened Prelude
  import opened Profiles

  /** Each id of the trail extends the next one. */
  ghost predicate Trail(byId: Definitions, trail: seq<string>) {
    && (forall i :: 0 <= i < |trail| ==> trail[i] in byId)
    && (forall i, j :: 0 <= i && j == i + 1 && j < |trail| ==> byId[trail[i]].parent == trail[j])
  }

  lemma TrailExtends(byId: Definitions, trail: seq<string>, id: string)
    requires Trail(byId, trail) && id in byId && (trail == [] || byId[trail[|trail| - 1]].parent == id)
    ensures Trail(byId, trail + [id])
  {
  }

  lemma {:induction false} TrailDescends(byId: Definitions, trail: seq<string>, n: nat)
    requires Trail(byId, trail) && trail != [] && Reaches(byId, trail[0], n)
    ensures n >= |trail| && Reaches(byId, byId[trail[|trail| - 1]].parent, n - |trail|)
  {
    if |trail| > 1 {
      TrailDescends(byId, trail[1..], n - 1);
    }
  }

  /** An id that extends itself through a trail has no chain. */
  lemma ClosedTrailHasNoChain(byId: Definitions, trail: seq<string>)
    requires Trail(byId, trail) && trail != [] && byId[trail[|trail| - 1]].parent == trail[0]
    ensures !HasChain(byId, trail[0])
  {
    if n: nat :| Reaches(byId, trail[0], n) {
      TrailDescends(byId, trail, n);
      ChainLengthIsUnique(byId, trail[0], n, n - |trail|);
    }
  }

  /** A resolved profile is the fold along a sound chain, and its lineage is right. */
  ghost predicate Means(byId: Definitions, id: string, profile: Profile, learner: bool) {
    exists n: nat :: MeansAt(byId, id, profile, learner, n)
  }

  ghost predicate MeansAt(byId: Definitions, id: string, profile: Profile, learner: bool, n: nat) {
    Sound(byId, id, n) && profile == Folded(byId, id, n) && (learner <==> IsLearning(byId, id, n))
  }

  lemma BuiltInMeans(byId: Definitions, id: string)
    requires id in BuiltIn()
    ensures Means(byId, id, BuiltIn()[id], id == "learning")
  {
    assert MeansAt(byId, id, BuiltIn()[id], id == "learning", 0);
  }

  lemma MeaningIsSound(byId: Definitions, id: string, profile: Profile, learner: bool)
    requires Means(byId, id, profile, learner)
    ensures IsSound(byId, id)
  {
    var n: nat :| MeansAt(byId, id, profile, learner, n);
    assert Sound(byId, id, n);
  }

  /**
   * A child of a resolved parent: it is sound unless it is a learner that stopped capturing, and then it means its
   * overrides.
   */
  lemma ChildMeans(byId: Definitions, id: string, parent: Profile, learner: bool)
    requires id in byId && Means(byId, byId[id].parent, parent, learner)
    ensures byId[id].parent == "learning" ==> learner
    ensures learner && !Overridden(parent, byId[id]).captureEnabled ==> !IsSound(byId, id)
    ensures !(learner && !Overridden(parent, byId[id]).captureEnabled) ==>
              Means(byId, id, Overridden(parent, byId[id]), learner)
  {
    var n: nat :| MeansAt(byId, byId[id].parent, parent, learner, n);
    assert Reaches(byId, id, n + 1);
    if byId[id].parent == "learning" {
      ChainLengthIsUnique(byId, "learning", n, 0);
    }
    if learner && !Overridden(parent, byId[id]).captureEnabled {
      forall m: nat ensures !Sound(byId, id, m) {
        if Reaches(byId, id, m) {
          ChainLengthIsUnique(byId, id, n + 1, m);
        }
      }
    } else {
      assert MeansAt(byId, id, Overridden(parent, byId[id]), learner, n + 1);
    }
  }

  lemma VisitedChild(byId: Definitions, id: string, first: seq<string>, order: seq<string>)
    requires id in byId && id !in first
    requires forall n: nat :: Sound(byId, byId[id].parent, n) ==> order == Visited(byId, first, byId[id].parent, n)
    ensures forall n: nat :: Sound(byId, id, n) ==> order + [id] == Visited(byId, first, id, n)
  {
    forall n: nat | Sound(byId, id, n) ensures order + [id] == Visited(byId, first, id, n) {
      assert Sound(byId, byId[id].parent, n - 1);
    }
  }

  lemma NoChainIsNotSound(byId: Definitions, id: string)
    requires !HasChain(byId, id)
    ensures !IsSound(byId, id)
  {
    SoundHasChain(byId);
  }

  lemma NoDefinitionIsNotSound(byId: Definitions, id: string)
    requires id !in byId && id !in BuiltIn()
    ensures !IsSound(byId, id)
  {
    assert forall n: nat :: !Reaches(byId, id, n);
  }

  lemma SoundParent(byId: Definitions, id: string)
    requires id in byId && IsSound(byId, id)
    ensures IsSound(byId, byId[id].parent)
  {
    var n: nat :| Sound(byId, id, n);
    assert n > 0;
    assert Sound(byId, byId[id].parent, n - 1);
  }

  lemma OneMoreResolving(all: set<string>, resolving: set<string>, trail: seq<string>, id: string)
    requires resolving == (set k | k in trail) && id in all && id !in resolving
    ensures resolving + {id} == (set k | k in trail + [id])
    ensures |all - (resolving + {id})| < |all - resolving|
  {
    assert all - (resolving + {id}) == (all - resolving) - {id};
  }

  class Resolver {
    const byId: Definitions
    var resolved: map<string, Profile>
    var order: seq<string>
    var learning: map<string, bool>
    var resolving: set<string>
    ghost var trail: seq<string>

    predicate IsLearner(id: string)
      reads `learning
    {
      id in learning && learning[id]
    }

    /** What is resolved is sound and has its meaning. */
    ghost predicate ResolvedValid()
      reads `resolved, `order, `learning
    {
      && (forall id :: id in resolved <==> id in order)
      && (forall id :: id in resolved ==> Means(byId, id, resolved[id], IsLearner(id)))
      && BuiltIn().Keys <= resolved.Keys <= byId.Keys + BuiltIn().Keys
    }

    /** What is being resolved is the trail. */
    ghost predicate TrailValid()
      reads `resolving, `trail
    {
      Trail(byId, trail) && resolving == (set id | id in trail) && resolving <= byId.Keys
    }

    ghost predicate Valid()
      reads this
    {
      ResolvedValid() && TrailValid() && forall id :: id in resolving ==> id !in resolved
    }

    constructor (byId: Definitions)
      ensures Valid() && this.byId == byId && trail == [] && order == ["normal", "learning", "observe-only"]
      ensures resolved == BuiltIn()
    {
      this.byId := byId;
      resolved, order := BuiltIn(), ["normal", "learning", "observe-only"];
      learning := map["learning" := true];
      resolving, trail := {}, [];
      new;
      forall id | id in resolved ensures Means(byId, id, resolved[id], IsLearner(id)) {
        BuiltInMeans(byId, id);
      }
    }

    lemma TrailCloses(id: string)
      requires TrailValid() && id in resolving && byId[trail[|trail| - 1]].parent == id
      ensures !HasChain(byId, id)
    {
      var at :| 0 <= at < |trail| && trail[at] == id;
      ClosedTrailHasNoChain(byId, trail[at..]);
    }

    method Enter(id: string)
      requires TrailValid() && id in byId && id !in resolving
      requires trail == [] || byId[trail[|trail| - 1]].parent == id
      modifies `resolving, `trail
      ensures TrailValid() && trail == old(trail) + [id] && resolving == old(resolving) + {id}
      ensures |byId.Keys - resolving| < |byId.Keys - old(resolving)|
    {
      hide Trail;
      TrailExtends(byId, trail, id);
      OneMoreResolving(byId.Keys, resolving, trail, id);
      resolving := resolving + {id};
      trail := trail + [id];
    }

    method Leave(id: string)
      requires TrailValid() && trail != [] && trail[|trail| - 1] == id && id !in trail[..|trail| - 1]
      modifies `resolving, `trail
      ensures TrailValid() && trail == old(trail[..|trail| - 1]) && resolving == old(resolving) - {id}
    {
      resolving := resolving - {id};
      trail := trail[..|trail| - 1];
    }

    method Record(id: string, profile: Profile, learner: bool)
      requires ResolvedValid() && id in byId && Means(byId, id, profile, learner)
      modifies `resolved, `order, `learning
      ensures ResolvedValid() && order == old(order) + [id] && resolved == old(resolved)[id := profile]
      ensures forall k :: k in resolved ==> k == id || k in old(resolved)
    {
      hide Means;
      order := order + [id];
      resolved := resolved[id := profile];
      learning := learning[id := learner];
    }

    lemma KnownIsSound(id: string)
      requires ResolvedValid()
      ensures id in resolved ==>
                IsSound(byId, id) && forall n: nat :: Sound(byId, id, n) ==> order == Visited(byId, order, id, n)
      ensures id !in resolved ==> id !in order && id !in BuiltIn()
    {
      if id in resolved {
        MeaningIsSound(byId, id, resolved[id], IsLearner(id));
      }
    }

    lemma OffTrail(id: string)
      requires TrailValid()
      ensures id in resolving <==> id in trail
    {
    }

    /** Resolves one id through its parents. It fails exactly if the id is not sound. */
    method Resolve(id: string) returns (profile: Option<Profile>)
      requires Valid() && (trail == [] || byId[trail[|trail| - 1]].parent == id)
      modifies this
      ensures profile.Some? <==> IsSound(byId, id)
      ensures profile.Some? ==> Valid() && trail == old(trail) && id in resolved && profile.value == resolved[id]
      ensures profile.Some? ==> forall n: nat :: Sound(byId, id, n) ==> order == Visited(byId, old(order), id, n)
      ensures profile.Some? ==> old(resolved.Keys) <= resolved.Keys
      decreases |byId.Keys - resolving|
    {
      hide IsSound, Sound, Visited, Reaches, HasChain, ResolvedValid, TrailValid;
      KnownIsSound(id);
      OffTrail(id);
      if id in resolved {
        return Some(resolved[id]);
      }
      if id in resolving {
        TrailCloses(id);
        NoChainIsNotSound(byId, id);
        return None;
      }
      if id !in byId {
        NoDefinitionIsNotSound(byId, id);
        return None;
      }
      ghost var before := trail;
      ghost var first := order;
      Enter(id);
      var parent := Resolve(byId[id].parent);
      if parent.None? {
        if IsSound(byId, id) {
          SoundParent(byId, id);
        }
        return None;
      }
      assert trail[..|trail| - 1] == before;
      profile := Complete(id, parent.value, first);
    }

    /** The part of the resolution after the parent is known: the overrides, the learning check and the bookkeeping. */
    method Complete(id: string, parent: Profile, ghost first: seq<string>) returns (profile: Option<Profile>)
      requires Valid() && trail != [] && trail[|trail| - 1] == id && id !in trail[..|trail| - 1] && id !in first
      requires byId[id].parent in resolved && parent == resolved[byId[id].parent]
      requires forall n: nat :: Sound(byId, byId[id].parent, n) ==> order == Visited(byId, first, byId[id].parent, n)
      modifies this
      ensures profile.Some? <==> IsSound(byId, id)
      ensures profile.Some? ==>
                Valid() && trail == old(trail[..|trail| - 1]) && id in resolved && profile.value == resolved[id]
      ensures profile.Some? ==> forall n: nat :: Sound(byId, id, n) ==> order == Visited(byId, first, id, n)
      ensures profile.Some? ==> old(resolved.Keys) <= resolved.Keys
    {
      hide IsSound, Sound, Folded, Means, Trail, Visited, Overridden, Reaches, HasChain;
      var definition := byId[id];
      var inherits := definition.parent == "learning" || IsLearner(definition.parent);
      profile := Some(Overridden(parent, definition));
      ChildMeans(byId, id, parent, IsLearner(definition.parent));
      if inherits && !profile.value.captureEnabled {
        return None;
      }
      MeaningIsSound(byId, id, profile.value, inherits);
      VisitedChild(byId, id, first, order);
      Leave(id);
      Record(id, profile.value, inherits);
    }
  }

  // ---- the registry ----

  lemma NextIsUnique(definitions: seq<Definition>, i: nat)
    requires i < |definitions| && UniqueIds(definitions[..i])
    ensures UniqueIds(definitions[..i + 1]) <==>
              definitions[i].id !in BuiltIn() && definitions[i].id !in ById(definitions[..i])
    ensures UniqueIds(definitions) ==> UniqueIds(definitions[..i + 1])
    ensures ById(definitions[..i + 1]) == ById(definitions[..i])[definitions[i].id := definitions[i]]
  {
    assert definitions[..i + 1] == definitions[..i] + [definitions[i]];
    OneMoreIsUnique(definitions[..i], definitions[i]);
    if UniqueIds(definitions) {
      UniquePrefix(definitions, i + 1);
    }
  }

  lemma UniquePrefix(definitions: seq<Definition>, n: nat)
    requires n <= |definitions| && UniqueIds(definitions)
    ensures UniqueIds(definitions[..n])
  {
    assert forall j :: 0 <= j < n ==> definitions[..n][j] == definitions[j];
  }

  lemma OneMoreIndexed(earlier: seq<Definition>, last: Definition)
    ensures ById(earlier + [last]) == ById(earlier)[last.id := last]
  {
    assert (earlier + [last])[..|earlier|] == earlier;
  }

  lemma OneMoreIsUnique(earlier: seq<Definition>, last: Definition)
    requires UniqueIds(earlier)
    ensures UniqueIds(earlier + [last]) <==> last.id !in BuiltIn() && last.id !in ById(earlier)
    ensures ById(earlier + [last]) == ById(earlier)[last.id := last]
  {
    hide ById;
    OneMoreIndexed(earlier, last);
    var next := earlier + [last];
    var n := |earlier|;
    assert next[n] == last;
    if last.id in BuiltIn() {
      assert !UniqueIds(next);
    } else if last.id in ById(earlier) {
      var j :| 0 <= j < n && earlier[j].id == last.id;
      assert next[j] == earlier[j];
      assert !UniqueIds(next);
    } else {
      assert forall j :: 0 <= j < n ==> next[j] == earlier[j] && earlier[j].id != last.id;
    }
  }

  /** The map from ids to definitions; nothing if an id is taken twice or is a built-in one. */
  method IndexDefinitions(definitions: seq<Definition>) returns (byId: Option<Definitions>)
    ensures byId.Some? <==> UniqueIds(definitions)
    ensures byId.Some? ==> byId.value == ById(definitions)
  {
    hide UniqueIds;
    NoneAreUnique();
    var known: map<string, Definition> := map[];
    for i := 0 to |definitions|
      invariant known == ById(definitions[..i]) && UniqueIds(definitions[..i])
    {
      NextIsUnique(definitions, i);
      if definitions[i].id in BuiltIn() || definitions[i].id in known {
        return None;
      }
      known := known[definitions[i].id := definitions[i]];
    }
    assert definitions[..|definitions|] == definitions;
    UniqueIsIndex(definitions);
    byId := Some(known);
  }

  lemma NoneAreUnique()
    ensures UniqueIds([])
  {
  }

  lemma UniqueIsIndex(definitions: seq<Definition>)
    requires UniqueIds(definitions)
    ensures ById(definitions).Keys !! BuiltIn().Keys
  {
    forall id | id in ById(definitions) ensures id !in BuiltIn() {
      var i :| 0 <= i < |definitions| && definitions[i].id == id;
    }
  }

  /** The fold that a profile was resolved to is the one of the registry. */
  lemma MeaningIsFold(byId: Definitions, id: string, profile: Profile, learner: bool)
    requires Means(byId, id, profile, learner)
    ensures HasChain(byId, id) && profile == Folded(byId, id, ChainLength(byId, id))
    ensures learner <==> DescendsFromLearning(byId, id)
    ensures id in BuiltIn() ==> profile == BuiltIn()[id]
  {
    var n: nat :| MeansAt(byId, id, profile, learner, n);
    assert Reaches(byId, id, n);
    ChainLengthIsUnique(byId, id, n, ChainLength(byId, id));
    if m: nat :| Reaches(byId, id, m) && IsLearning(byId, id, m) {
      ChainLengthIsUnique(byId, id, n, m);
    }
    if id in BuiltIn() {
      ChainLengthIsUnique(byId, id, n, 0);
    }
  }

  lemma NextInOrder(byId: Definitions, ids: seq<string>, order: seq<string>, i: nat)
    requires i < |ids| && (forall j :: 0 <= j <= i ==> IsSound(byId, ids[j]))
    requires forall n: nat :: Sound(byId, ids[i], n) ==>
               order == Visited(byId, ResolutionOrder(byId, ids[..i]), ids[i], n)
    ensures order == ResolutionOrder(byId, ids[..i + 1])
  {
    assert ids[..i + 1][..i] == ids[..i];
  }

  method LearningIds(resolver: Resolver) returns (ids: seq<string>)
    requires resolver.Valid()
    ensures ids == LearningIn(resolver.byId, resolver.order)
  {
    ids := [];
    for i := 0 to |resolver.order|
      invariant ids == LearningIn(resolver.byId, resolver.order[..i])
    {
      assert resolver.order[..i + 1][..i] == resolver.order[..i];
      var id := resolver.order[i];
      assert id in resolver.order;
      MeaningIsFold(resolver.byId, id, resolver.resolved[id], resolver.IsLearner(id));
      if resolver.IsLearner(id) {
        ids := ids + [id];
      }
    }
    assert resolver.order[..|resolver.order|] == resolver.order;
  }

  lemma ResolvedAre(resolver: Resolver)
    requires resolver.Valid() && resolver.resolved.Keys == resolver.byId.Keys + BuiltIn().Keys
    requires forall id :: id in resolver.byId ==> HasChain(resolver.byId, id)
    ensures resolver.resolved == ProfilesOf(resolver.byId)
  {
    hide Means, Folded;
    forall id | id in resolver.resolved ensures resolver.resolved[id] == ProfilesOf(resolver.byId)[id] {
      MeaningIsFold(resolver.byId, id, resolver.resolved[id], resolver.IsLearner(id));
    }
  }

  /** Resolves every definition, in order; fails if one of them is not sound. */
  method ResolveAll(byId: Definitions, ids: seq<string>) returns (resolver: Resolver, ok: bool)
    ensures ok <==> forall i :: 0 <= i < |ids| ==> IsSound(byId, ids[i])
    ensures ok ==>
              && fresh(resolver) && resolver.Valid()
              && resolver.byId == byId && resolver.order == ResolutionOrder(byId, ids)
    ensures ok ==> forall i :: 0 <= i < |ids| ==> ids[i] in resolver.resolved
  {
    hide Visited, ResolutionOrder, Means, Sound, IsSound, Trail, BuiltIn, Reaches, Folded, Resolver.ResolvedValid,
         Resolver.TrailValid;
    resolver := new Resolver(byId);
    BeginsOrder(byId, ids);
    for i := 0 to |ids|
      invariant fresh(resolver) && resolver.Valid() && resolver.byId == byId && resolver.trail == []
      invariant forall j :: 0 <= j < i ==> IsSound(byId, ids[j]) && ids[j] in resolver.resolved
      invariant resolver.order == ResolutionOrder(byId, ids[..i])
    {
      ghost var before := resolver.resolved.Keys;
      var profile := resolver.Resolve(ids[i]);
      if profile.None? {
        return resolver, false;
      }
      assert forall j :: 0 <= j < i ==> ids[j] in before;
      NextInOrder(byId, ids, resolver.order, i);
    }
    assert ids[..|ids|] == ids;
    ok := true;
  }

  lemma AcceptedMeans(definitions: seq<Definition>)
    requires UniqueIds(definitions)
    ensures Accepted(definitions) <==>
              forall i :: 0 <= i < |definitions| ==> IsSound(ById(definitions), IdsOf(definitions)[i])
    ensures Accepted(definitions) ==> forall id :: id in ById(definitions) ==> HasChain(ById(definitions), id)
  {
    hide IsSound;
    var byId: Definitions := ById(definitions);
    SoundHasChain(byId);
    if Accepted(definitions) {
      IdsAreSound(definitions);
    } else {
      var id :| id in byId && !IsSound(byId, id);
      var i :| 0 <= i < |definitions| && definitions[i].id == id;
      assert IdsOf(definitions)[i] == id;
    }
  }

  /** The memoised resolver accepts and computes exactly what the definitions mean. */
  method DefineRuntimeProfiles(definitions: seq<Definition>) returns (registry: Option<Registry>)
    ensures registry == RegistryOf(definitions)
  {
    hide LearningIn, ResolutionOrder, IsSound, ProfilesOf, UniqueIds;
    var byId := IndexDefinitions(definitions);
    if byId.None? {
      return None;
    }
    AcceptedMeans(definitions);
    var ids := IdsOf(definitions);
    var resolver, ok := ResolveAll(byId.value, ids);
    if !ok {
      return None;
    }
    AllAreResolved(definitions, resolver.resolved);
    ResolvedAre(resolver);
    var learning := LearningIds(resolver);
    registry := Some(Registry(definitions, resolver.resolved, learning));
  }

  lemma AllAreResolved(definitions: seq<Definition>, resolved: map<string, Profile>)
    requires BuiltIn().Keys <= resolved.Keys <= ById(definitions).Keys + BuiltIn().Keys
    requires forall i :: 0 <= i < |definitions| ==> IdsOf(definitions)[i] in resolved
    ensures resolved.Keys == ById(definitions).Keys + BuiltIn().Keys
  {
    hide BuiltIn;
    forall id | id in ById(definitions) ensures id in resolved {
      var i :| 0 <= i < |definitions| && definitions[i].id == id;
      assert IdsOf(definitions)[i] in resolved;
    }
  }

  lemma BeginsOrder(byId: Definitions, ids: seq<string>)
    ensures ResolutionOrder(byId, ids[..0]) == ["normal", "learning", "observe-only"]
  {
  }

  // ---- serialized registries ----

  ghost predicate WithinChain(byId: Definitions, id: string, n: nat) {
    exists m: nat :: m <= n && Reaches(byId, id, m)
  }

  lemma {:induction false} VisitedHasNoDuplicates(byId: Definitions, order: seq<string>, id: string, n: nat)
    requires Reaches(byId, id, n) && NoDuplicates(order)
    ensures NoDuplicates(Visited(byId, order, id, n))
    ensures forall k :: k in Visited(byId, order, id, n) ==> k in order || WithinChain(byId, k, n)
    decreases n
  {
    if id !in order && n > 0 {
      VisitedHasNoDuplicates(byId, order, byId[id].parent, n - 1);
      if WithinChain(byId, id, n - 1) {
        var m: nat :| m <= n - 1 && Reaches(byId, id, m);
        ChainLengthIsUnique(byId, id, n, m);
      }
      forall k | WithinChain(byId, k, n - 1) ensures WithinChain(byId, k, n) {
        var m: nat :| m <= n - 1 && Reaches(byId, k, m);
      }
      assert WithinChain(byId, id, n);
    }
  }

  lemma {:induction false} OrderHasNoDuplicates(byId: Definitions, ids: seq<string>)
    requires forall i :: 0 <= i < |ids| ==> IsSound(byId, ids[i])
    ensures NoDuplicates(ResolutionOrder(byId, ids))
    ensures forall k :: k in ResolutionOrder(byId, ids) ==> HasChain(byId, k)
  {
    if ids == [] {
      assert Reaches(byId, "normal", 0) && Reaches(byId, "learning", 0) && Reaches(byId, "observe-only", 0);
    } else {
      var last := ids[|ids| - 1];
      OrderHasNoDuplicates(byId, ids[..|ids| - 1]);
      assert IsSound(byId, last);
      forall n: nat | Sound(byId, last, n)
        ensures NoDuplicates(Visited(byId, ResolutionOrder(byId, ids[..|ids| - 1]), last, n))
        ensures forall k :: k in Visited(byId, ResolutionOrder(byId, ids[..|ids| - 1]), last, n) ==> HasChain(byId, k)
      {
        VisitedHasNoDuplicates(byId, ResolutionOrder(byId, ids[..|ids| - 1]), last, n);
        forall k | WithinChain(byId, k, n) ensures HasChain(byId, k) {
          var m: nat :| m <= n && Reaches(byId, k, m);
        }
      }
    }
  }

  lemma {:induction false} LearningHasNoDuplicates(byId: Definitions, order: seq<string>)
    requires NoDuplicates(order)
    ensures NoDuplicates(LearningIn(byId, order)) && forall k :: k in LearningIn(byId, order) ==> k in order
  {
    if order != [] {
      LearningHasNoDuplicates(byId, order[..|order| - 1]);
      assert forall k :: k in order[..|order| - 1] ==> k in order;
      assert order[|order| - 1] !in order[..|order| - 1];
    }
  }

  lemma ProfilesAreNamed(byId: Definitions)
    requires forall id :: id in byId ==> HasChain(byId, id)
    ensures forall id :: id in ProfilesOf(byId) ==> ProfilesOf(byId)[id].id == id
    ensures ProfilesOf(byId).Keys == byId.Keys + BuiltIn().Keys
  {
  }

  lemma ChainedIsKnown(byId: Definitions, id: string)
    requires HasChain(byId, id)
    ensures id in byId || id in BuiltIn()
  {
    var n: nat :| Reaches(byId, id, n);
  }

  /** What the checks of a serialized registry ask for holds of every produced one. */
  lemma ProducedIsWellFormed(registry: Registry)
    requires RegistryOf(registry.definitions) == Some(registry)
    ensures forall id :: id in registry.profiles ==> registry.profiles[id].id == id
    ensures NoDuplicates(registry.learningProfileIds)
    ensures forall id :: id in registry.learningProfileIds ==> id in registry.profiles
  {
    hide LearningIn, ResolutionOrder, ProfilesOf, HasChain, IsSound;
    var byId: Definitions := ById(registry.definitions);
    var ids := IdsOf(registry.definitions);
    IdsAreSound(registry.definitions);
    SoundHasChain(byId);
    ProfilesAreNamed(byId);
    OrderHasNoDuplicates(byId, ids);
    LearningHasNoDuplicates(byId, ResolutionOrder(byId, ids));
    forall id | id in registry.learningProfileIds ensures id in registry.profiles {
      ChainedIsKnown(byId, id);
    }
  }

  /** Two maps of the same size are the same if the entries of one are entries of the other. */
  lemma SameEntries(left: map<string, Profile>, right: map<string, Profile>)
    requires |left| == |right| && forall id :: id in left ==> id in right && left[id] == right[id]
    ensures left == right
  {
    assert left.Keys <= right.Keys;
    SubsetSize(left.Keys, right.Keys);
    assert left.Keys == right.Keys;
  }

  /** Accepts exactly the registries that definitions produce, and returns them unchanged. */
  method ValidateRegistry(value: Registry) returns (registry: Option<Registry>)
    ensures registry == if RegistryOf(value.definitions) == Some(value) then Some(value) else None
  {
    hide RegistryOf;
    if RegistryOf(value.definitions) == Some(value) {
      ProducedIsWellFormed(value);
    }
    if exists id :: id in value.profiles && value.profiles[id].id != id {
      return None;
    }
    var seen: set<string> := {};
    for i := 0 to |value.learningProfileIds|
      invariant seen == set j | 0 <= j < i :: value.learningProfileIds[j]
    {
      var id := value.learningProfileIds[i];
      if id in seen || id !in value.profiles {
        return None;
      }
      seen := seen + {id};
    }
    registry := DefineRuntimeProfiles(value.definitions);
    if registry.None? {
      return None;
    }
    DefinitionsAreKept(value.definitions);
    if !(|value.profiles| == |registry.value.profiles| &&
         forall id :: id in value.profiles ==>
               id in registry.value.profiles && value.profiles[id] == registry.value.profiles[id])
    {
      return None;
    }
    SameEntries(value.profiles, registry.value.profiles);
    if value.learningProfileIds != registry.value.learningProfileIds {
      return None;
    }
  }

  lemma DefinitionsAreKept(definitions: seq<Definition>)
    ensures RegistryOf(definitions).Some? ==> RegistryOf(definitions).value.definitions == definitions
  {
  }

  // ---- consequences ----

  /** The order of the definitions decides neither what is accepted nor any profile nor who descends from learning. */
  lemma DefinitionOrderDoesNotMatter(a: seq<Definition>, b: seq<Definition>)
    requires multiset(a) == multiset(b)
    ensures RegistryOf(a).Some? <==> RegistryOf(b).Some?
    ensures RegistryOf(a).Some? ==> RegistryOf(a).value.profiles == RegistryOf(b).value.profiles
    ensures RegistryOf(a).Some? ==>
              forall id :: id in RegistryOf(a).value.learningProfileIds <==>
                    id in RegistryOf(b).value.learningProfileIds
  {
    if UniqueIds(a) {
      UniqueIdsPermute(a, b);
    }
    if UniqueIds(b) {
      UniqueIdsPermute(b, a);
    }
    if RegistryOf(a).Some? {
      forall id ensures id in RegistryOf(a).value.learningProfileIds <==> id in RegistryOf(b).value.learningProfileIds {
        LearningIsLineage(a, id);
        LearningIsLineage(b, id);
      }
    }
  }

  lemma SameMembers(a: seq<Definition>, b: seq<Definition>)
    requires multiset(a) == multiset(b)
    ensures forall d :: d in a <==> d in b
  {
    forall d ensures d in a <==> d in b {
      assert d in a <==> d in multiset(a);
      assert d in b <==> d in multiset(b);
    }
  }

  lemma SameIdSameDefinition(a: seq<Definition>, d: Definition, e: Definition)
    requires UniqueIds(a) && d in a && e in a && d.id == e.id
    ensures d == e
  {
  }

  lemma UniqueIdsPermute(a: seq<Definition>, b: seq<Definition>)
    requires multiset(a) == multiset(b) && UniqueIds(a)
    ensures UniqueIds(b) && ById(a) == ById(b)
  {
    SameMembers(a, b);
    forall i | 0 <= i < |b| ensures b[i].id !in BuiltIn() {
      assert b[i] in a;
    }
    forall i, j | 0 <= i < j < |b| ensures b[i].id != b[j].id {
      assert b[i] in a && b[j] in a;
      if b[i].id == b[j].id {
        SameIdSameDefinition(a, b[i], b[j]);
        TwiceInBoth(a, b, i, j);
      }
    }
    SameIndex(a, b);
  }

  lemma SameIndex(a: seq<Definition>, b: seq<Definition>)
    requires UniqueIds(a) && forall d :: d in a <==> d in b
    ensures ById(a) == ById(b)
  {
    hide UniqueIds;
    forall id ensures id in ById(a) <==> id in ById(b) {
      if i :| 0 <= i < |a| && a[i].id == id {
        assert a[i] in b;
      }
      if i :| 0 <= i < |b| && b[i].id == id {
        assert b[i] in a;
      }
    }
    forall id | id in ById(a) ensures ById(a)[id] == ById(b)[id] {
      SameIdSameDefinition(a, ById(a)[id], ById(b)[id]);
    }
  }

  /** An element that stands twice in one list stands twice in every list of the same elements. */
  lemma TwiceInBoth(a: seq<Definition>, b: seq<Definition>, i: nat, j: nat)
    requires multiset(a) == multiset(b) && i < j < |b| && b[i] == b[j]
    ensures exists k, l :: 0 <= k < l < |a| && a[k] == a[l]
  {
    assert b == b[..j] + [b[j]] + b[j + 1..];
    assert b[..j][i] == b[i];
    assert b[i] in multiset(b[..j]);
    assert multiset(b)[b[i]] >= 2;
    if forall k, l :: 0 <= k < l < |a| ==> a[k] != a[l] {
      AtMostOnce(a, b[i]);
    }
  }

  lemma {:induction false} AtMostOnce(a: seq<Definition>, d: Definition)
    requires forall k, l :: 0 <= k < l < |a| ==> a[k] != a[l]
    ensures multiset(a)[d] <= 1
  {
    if a != [] {
      var earlier := a[..|a| - 1];
      assert a == earlier + [a[|a| - 1]];
      AtMostOnce(earlier, d);
      assert a[|a| - 1] in earlier <==> a[|a| - 1] in multiset(earlier);
    }
  }

  lemma {:induction false} LearningInIs(byId: Definitions, order: seq<string>, id: string)
    ensures id in LearningIn(byId, order) <==> id in order && DescendsFromLearning(byId, id)
  {
    if order != [] {
      LearningInIs(byId, order[..|order| - 1], id);
      assert order == order[..|order| - 1] + [order[|order| - 1]];
    }
  }

  lemma {:induction false} OrderHolds(byId: Definitions, ids: seq<string>, id: string)
    requires forall i :: 0 <= i < |ids| ==> IsSound(byId, ids[i])
    ensures id in BuiltIn() || id in ids ==> id in ResolutionOrder(byId, ids)
  {
    if ids != [] {
      var last := ids[|ids| - 1];
      var earlier := ids[..|ids| - 1];
      OrderHolds(byId, earlier, id);
      assert ids == earlier + [last];
      assert IsSound(byId, last);
      forall n: nat | Sound(byId, last, n)
        ensures id in BuiltIn() || id in ids ==> id in Visited(byId, ResolutionOrder(byId, earlier), last, n)
      {
        VisitedHolds(byId, ResolutionOrder(byId, earlier), last, n, id);
        OrderHolds(byId, earlier, last);
      }
    }
  }

  lemma {:induction false} VisitedHolds(byId: Definitions, order: seq<string>, id: string, n: nat, k: string)
    requires Reaches(byId, id, n)
    ensures k in order || (k == id && n > 0) ==> k in Visited(byId, order, id, n)
    decreases n
  {
    if id !in order && n > 0 {
      VisitedHolds(byId, order, byId[id].parent, n - 1, k);
    }
  }

  /** The listed learning profiles are exactly the profiles whose chain ends at learning. */
  lemma LearningIsLineage(definitions: seq<Definition>, id: string)
    requires Accepted(definitions)
    ensures id in RegistryOf(definitions).value.learningProfileIds <==> DescendsFromLearning(ById(definitions), id)
  {
    var byId: Definitions := ById(definitions);
    var ids := IdsOf(definitions);
    IdsAreSound(definitions);
    LearningInIs(byId, ResolutionOrder(byId, ids), id);
    if DescendsFromLearning(byId, id) {
      var n: nat :| Reaches(byId, id, n) && IsLearning(byId, id, n);
      if id in byId {
        var i :| 0 <= i < |definitions| && definitions[i].id == id;
        assert ids[i] == id;
      }
      OrderHolds(byId, ids, id);
    }
  }

  /** Every profile of a registry that descends from learning captures. */
  lemma LearnersCapture(definitions: seq<Definition>, id: string)
    requires Accepted(definitions) && id in RegistryOf(definitions).value.learningProfileIds
    ensures id in RegistryOf(definitions).value.profiles && RegistryOf(definitions).value.profiles[id].captureEnabled
  {
    var byId: Definitions := ById(definitions);
    LearningIsLineage(definitions, id);
    SoundHasChain(byId);
    var n: nat :| Reaches(byId, id, n) && IsLearning(byId, id, n);
    if id in byId {
      var m: nat :| Sound(byId, id, m);
      ChainLengthIsUnique(byId, id, n, m);
      ChainLengthIsUnique(byId, id, n, ChainLength(byId, id));
      assert id !in BuiltIn();
    } else {
      assert n == 0 && id == "learning";
    }
  }
}
