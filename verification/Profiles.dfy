/**
 * Runtime profiles and their inheritance (src/config/runtime-profile.ts): what a definition means, independently of the
 * resolver that computes it.
 */
module Profiles {
  import opened Prelude

  datatype Decision = Allow | Warn | Block

  datatype Degraded = Degraded(normal: Decision, caution: Decision, protected: Decision)

  datatype Profile = Profile(id: string, hardBlocking: bool, warningsEnabled: bool, captureEnabled: bool,
        retrievalEnabled: bool, degraded: Degraded)

  datatype Definition = Definition(id: string, parent: string, hardBlocking: Option<bool>,
                                   warningsEnabled: Option<bool>, captureEnabled: Option<bool>,
                                   retrievalEnabled: Option<bool>, degraded: Option<Degraded>)

  datatype Registry = Registry(definitions: seq<Definition>, profiles: map<string, Profile>,
                               learningProfileIds: seq<string>)

  const DEFAULT_DEGRADED := Degraded(Allow, Warn, Block)
  const NORMAL := Profile("normal", true, true, true, true, DEFAULT_DEGRADED)
  const LEARNING := NORMAL.(id := "learning", hardBlocking := false)
  const OBSERVE_ONLY := NORMAL.(id := "observe-only", hardBlocking := false, warningsEnabled := false)

  function BuiltIn(): map<string, Profile> {
    map["normal" := NORMAL, "learning" := LEARNING, "observe-only" := OBSERVE_ONLY]
  }

  /** All built-in profiles capture and retrieve; only the normal one blocks hard, only the observing one is silent. */
  lemma BuiltInsDiffer(id: string)
    requires id in BuiltIn()
    ensures var profile := BuiltIn()[id];
      && profile.id == id && profile.captureEnabled && profile.retrievalEnabled
      && (profile.hardBlocking <==> id == "normal") && (profile.warningsEnabled <==> id != "observe-only")
      && (profile.degraded.normal, profile.degraded.caution, profile.degraded.protected) == (Allow, Warn, Block)
  {
  }

  function Or<T>(override: Option<T>, inherited: T): T {
    if override.Some? then override.value else inherited
  }

  /** A profile with the overrides of a definition applied to it. */
  function Overridden(parent: Profile, definition: Definition): Profile {
    Profile(
      definition.id,
      Or(definition.hardBlocking, parent.hardBlocking),
      Or(definition.warningsEnabled, parent.warningsEnabled),
      Or(definition.captureEnabled, parent.captureEnabled),
      Or(definition.retrievalEnabled, parent.retrievalEnabled),
      Or(definition.degraded, parent.degraded))
  }

  /** Definitions by id; none of them has the id of a built-in profile. */
  type Definitions = byId: map<string, Definition> |
    byId.Keys !! BuiltIn().Keys && forall id :: id in byId ==> byId[id].id == id
    witness map[]

  /** Following `extends` from `id` n times arrives at a built-in profile, and not before. */
  predicate Reaches(byId: Definitions, id: string, n: nat)
    decreases n
  {
    if n == 0 then id in BuiltIn() else id in byId && Reaches(byId, byId[id].parent, n - 1)
  }

  /** The overrides along the chain, folded from the built-in profile down to `id`. */
  function Folded(byId: Definitions, id: string, n: nat): Profile
    requires Reaches(byId, id, n)
    decreases n
  {
    if n == 0 then BuiltIn()[id] else Overridden(Folded(byId, byId[id].parent, n - 1), byId[id])
  }

  function Root(byId: Definitions, id: string, n: nat): (root: string)
    requires Reaches(byId, id, n)
    ensures root in BuiltIn()
    decreases n
  {
    if n == 0 then id else Root(byId, byId[id].parent, n - 1)
  }

  predicate IsLearning(byId: Definitions, id: string, n: nat)
    requires Reaches(byId, id, n)
  {
    Root(byId, id, n) == "learning"
  }

  /** The chain exists, and every definition on it that descends from learning still captures. */
  predicate Sound(byId: Definitions, id: string, n: nat)
    decreases n
  {
    && Reaches(byId, id, n)
    && (n > 0 ==> Sound(byId, byId[id].parent, n - 1))
    && (n > 0 && IsLearning(byId, id, n) ==> Folded(byId, id, n).captureEnabled)
  }

  ghost predicate IsSound(byId: Definitions, id: string) {
    exists n: nat :: Sound(byId, id, n)
  }

  lemma {:induction false} ChainLengthIsUnique(byId: Definitions, id: string, n: nat, m: nat)
    requires Reaches(byId, id, n) && Reaches(byId, id, m)
    ensures n == m
    decreases n
  {
    if n > 0 && m > 0 {
      ChainLengthIsUnique(byId, byId[id].parent, n - 1, m - 1);
    }
  }

  ghost predicate HasChain(byId: Definitions, id: string) {
    exists n: nat :: Reaches(byId, id, n)
  }

  ghost function ChainLength(byId: Definitions, id: string): (n: nat)
    requires HasChain(byId, id)
    ensures Reaches(byId, id, n)
  {
    var n: nat :| Reaches(byId, id, n);
    n
  }

  // ---- what the fold means, field by field ----

  datatype Field = HardBlocking | Warnings | Capture | Retrieval | DegradedOutcomes

  datatype Value = Flag(on: bool) | Outcomes(degraded: Degraded)

  function FlagSet(override: Option<bool>): Option<Value> {
    if override.Some? then Some(Flag(override.value)) else None
  }

  function SetBy(definition: Definition, field: Field): Option<Value> {
    match field
    case HardBlocking => FlagSet(definition.hardBlocking)
    case Warnings => FlagSet(definition.warningsEnabled)
    case Capture => FlagSet(definition.captureEnabled)
    case Retrieval => FlagSet(definition.retrievalEnabled)
    case DegradedOutcomes => if definition.degraded.Some? then Some(Outcomes(definition.degraded.value)) else None
  }

  function ValueOf(profile: Profile, field: Field): Value {
    match field
    case HardBlocking => Flag(profile.hardBlocking)
    case Warnings => Flag(profile.warningsEnabled)
    case Capture => Flag(profile.captureEnabled)
    case Retrieval => Flag(profile.retrievalEnabled)
    case DegradedOutcomes => Outcomes(profile.degraded)
  }

  function Ancestor(byId: Definitions, id: string, n: nat, k: nat): string
    requires Reaches(byId, id, n) && k <= n
    decreases k
  {
    if k == 0 then id else Ancestor(byId, byId[id].parent, n - 1, k - 1)
  }

  predicate Before(j: nat, k: nat) {
    j < k
  }

  /** The j-th definition of the chain leaves the field alone. */
  predicate Inherits(byId: Definitions, id: string, n: nat, field: Field, j: nat)
    requires Reaches(byId, id, n) && j <= n
  {
    Ancestor(byId, id, n, j) in byId && SetBy(byId[Ancestor(byId, id, n, j)], field).None?
  }

  /** A field has the value that the nearest definition on the chain gives it, or else that of the built-in profile. */
  lemma {:induction false} NearestOverrideWins(byId: Definitions, id: string, n: nat, field: Field, k: nat)
    requires Reaches(byId, id, n) && k <= n
    requires forall j: nat :: Before(j, k) ==> Inherits(byId, id, n, field, j)
    ensures k == n ==> ValueOf(Folded(byId, id, n), field) == ValueOf(BuiltIn()[Root(byId, id, n)], field)
    ensures Ancestor(byId, id, n, k) in byId && SetBy(byId[Ancestor(byId, id, n, k)], field).Some? ==>
              ValueOf(Folded(byId, id, n), field) == SetBy(byId[Ancestor(byId, id, n, k)], field).value
    decreases k
  {
    if k > 0 {
      assert Before(0, k) && Inherits(byId, id, n, field, 0);
      var up, m, rest := byId[id].parent, n - 1, k - 1;
      forall j: nat | Before(j, rest) ensures Inherits(byId, up, m, field, j) {
        assert Before(j + 1, k) && Inherits(byId, id, n, field, j + 1);
      }
      NearestOverrideWins(byId, byId[id].parent, n - 1, field, k - 1);
    }
  }

  // ---- the registry of a list of definitions ----

  ghost predicate UniqueIds(definitions: seq<Definition>) {
    && (forall i :: 0 <= i < |definitions| ==> definitions[i].id !in BuiltIn())
    && (forall i, j :: 0 <= i < j < |definitions| ==> definitions[i].id != definitions[j].id)
  }

  function ById(definitions: seq<Definition>): (byId: map<string, Definition>)
    ensures forall id :: id in byId <==> exists i :: 0 <= i < |definitions| && definitions[i].id == id
    ensures forall id :: id in byId ==> byId[id].id == id && byId[id] in definitions
  {
    if definitions == [] then map[] else
      var last := definitions[|definitions| - 1];
      ById(definitions[..|definitions| - 1])[last.id := last]
  }

  /** Ids in the order in which they are resolved: a parent before its child. */
  function Visited(byId: Definitions, order: seq<string>, id: string, n: nat): seq<string>
    requires Reaches(byId, id, n)
    decreases n
  {
    if id in order || n == 0 then order else Visited(byId, order, byId[id].parent, n - 1) + [id]
  }

  ghost function ResolutionOrder(byId: Definitions, ids: seq<string>): seq<string>
    requires forall i :: 0 <= i < |ids| ==> IsSound(byId, ids[i])
  {
    if ids == [] then ["normal", "learning", "observe-only"] else
      var last := ids[|ids| - 1];
      assert IsSound(byId, last);
      var n: nat :| Sound(byId, last, n);
      Visited(byId, ResolutionOrder(byId, ids[..|ids| - 1]), last, n)
  }

  function IdsOf(definitions: seq<Definition>): (ids: seq<string>)
    ensures |ids| == |definitions| && forall i :: 0 <= i < |ids| ==> ids[i] == definitions[i].id
  {
    seq(|definitions|, i requires 0 <= i < |definitions| => definitions[i].id)
  }

  ghost predicate Accepted(definitions: seq<Definition>) {
    UniqueIds(definitions) && forall id :: id in ById(definitions) ==> IsSound(ById(definitions), id)
  }

  ghost predicate DescendsFromLearning(byId: Definitions, id: string) {
    exists n: nat :: Reaches(byId, id, n) && IsLearning(byId, id, n)
  }

  ghost function LearningIn(byId: Definitions, order: seq<string>): seq<string> {
    if order == [] then [] else
      var last := order[|order| - 1];
      LearningIn(byId, order[..|order| - 1]) + if DescendsFromLearning(byId, last) then [last] else []
  }

  /** The profiles that the definitions stand for: for each id, the fold along its chain. */
  ghost function ProfilesOf(byId: Definitions): map<string, Profile>
    requires forall id :: id in byId ==> HasChain(byId, id)
  {
    BuiltIn() + map id | id in byId :: Folded(byId, id, ChainLength(byId, id))
  }

  ghost function RegistryOf(definitions: seq<Definition>): Option<Registry> {
    if !Accepted(definitions) then None else
      var byId: Definitions := ById(definitions);
      SoundHasChain(byId);
      IdsAreSound(definitions);
      Some(Registry(definitions, ProfilesOf(byId), LearningIn(byId, ResolutionOrder(byId, IdsOf(definitions)))))
  }

  lemma SoundHasChain(byId: Definitions)
    ensures forall id :: IsSound(byId, id) ==> HasChain(byId, id)
  {
    forall id | IsSound(byId, id) ensures HasChain(byId, id) {
      var n: nat :| Sound(byId, id, n);
      assert Reaches(byId, id, n);
    }
  }

  lemma IdsAreSound(definitions: seq<Definition>)
    requires Accepted(definitions)
    ensures forall i :: 0 <= i < |definitions| ==> IsSound(ById(definitions), IdsOf(definitions)[i])
  {
    forall i | 0 <= i < |definitions| ensures IsSound(ById(definitions), IdsOf(definitions)[i]) {
      assert definitions[i].id in ById(definitions);
    }
  }
}
