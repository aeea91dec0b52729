/**
 * The layered choice of a runtime profile for a target (src/config/profile-resolver.ts). Matching a selector against
 * the target is left out: a match carries the counts that the choice looks at.
 */
module ProfileLayers {
  import opened Prelude
  import opened Profiles

  /** What a layer says: a profile, and values of its own that go before those of the profile. */
  datatype Selection = Selection(profile: Option<string>, hardBlocking: Option<bool>, warningsEnabled: Option<bool>,
                                 captureEnabled: Option<bool>, retrievalEnabled: Option<bool>,
                                 degraded: Option<Degraded>)

  /** The values of a candidate; a profile gives all of them. */
  datatype Values = Values(id: Option<string>, hardBlocking: Option<bool>, warningsEnabled: Option<bool>,
                           captureEnabled: Option<bool>, retrievalEnabled: Option<bool>, degraded: Option<Degraded>)

  function First<T>(nearer: Option<T>, farther: Option<T>): Option<T> {
    if nearer.Some? then nearer else farther
  }

  function Over(nearer: Values, farther: Values): Values {
    Values(First(nearer.id, farther.id), First(nearer.hardBlocking, farther.hardBlocking),
          First(nearer.warningsEnabled, farther.warningsEnabled),
           First(nearer.captureEnabled, farther.captureEnabled),
           First(nearer.retrievalEnabled, farther.retrievalEnabled),
           First(nearer.degraded, farther.degraded))
  }

  const NOTHING := Values(None, None, None, None, None, None)

  function ValuesOf(profile: Profile): Values {
    Values(Some(profile.id), Some(profile.hardBlocking), Some(profile.warningsEnabled), Some(profile.captureEnabled),
           Some(profile.retrievalEnabled), Some(profile.degraded))
  }

  /** The values of a layer, or nothing if it names an unknown profile. */
  function ResolveSetting(selection: Selection, profiles: map<string, Profile>): Option<Values> {
    var own := Values(None, selection.hardBlocking, selection.warningsEnabled, selection.captureEnabled,
          selection.retrievalEnabled, selection.degraded);
    if selection.profile.None? then Some(own)
    else if selection.profile.value in profiles then Some(Over(own, ValuesOf(profiles[selection.profile.value])))
    else None
  }

  /** The values of all layers, nearest first, down to the built-in default. */
  function Layered(layers: seq<Selection>, profiles: map<string, Profile>, fallback: Profile): Option<Values> {
    if layers == [] then Some(ValuesOf(fallback)) else
      var nearest := ResolveSetting(layers[0], profiles);
      var rest := Layered(layers[1..], profiles, fallback);
      if nearest.Some? && rest.Some? then Some(Over(nearest.value, rest.value)) else None
  }

  predicate Complete(values: Values) {
    && values.id.Some? && values.hardBlocking.Some? && values.warningsEnabled.Some? && values.captureEnabled.Some?
    && values.retrievalEnabled.Some? && values.degraded.Some?
  }

  function ProfileOf(values: Values): Profile
    requires Complete(values)
  {
    Profile(values.id.value, values.hardBlocking.value, values.warningsEnabled.value, values.captureEnabled.value,
            values.retrievalEnabled.value, values.degraded.value)
  }

  /** The first candidate that has a value, field by field. */
  function Found(candidates: seq<Values>): Values {
    if candidates == [] then NOTHING else Over(candidates[0], Found(candidates[1..]))
  }

  lemma {:induction false} FoundAppends(candidates: seq<Values>, last: Values)
    ensures Found(candidates + [last]) == Over(Found(candidates), last)
  {
    if candidates != [] {
      assert (candidates + [last])[1..] == candidates[1..] + [last];
      FoundAppends(candidates[1..], last);
    }
  }

  lemma {:induction false} LayeredIsFound(layers: seq<Selection>, profiles: map<string, Profile>, fallback: Profile,
      candidates: seq<Values>)
    requires |candidates| == |layers|
    requires forall i :: 0 <= i < |layers| ==> ResolveSetting(layers[i], profiles) == Some(candidates[i])
    ensures Layered(layers, profiles, fallback) == Some(Found(candidates + [ValuesOf(fallback)]))
    ensures Complete(Found(candidates + [ValuesOf(fallback)]))
  {
    if layers != [] {
      assert (candidates + [ValuesOf(fallback)])[1..] == candidates[1..] + [ValuesOf(fallback)];
      LayeredIsFound(layers[1..], profiles, fallback, candidates[1..]);
    }
  }

  lemma {:induction false} UnknownProfileFails(layers: seq<Selection>, profiles: map<string, Profile>,
      fallback: Profile, i: nat)
    requires i < |layers| && ResolveSetting(layers[i], profiles).None?
    ensures Layered(layers, profiles, fallback).None?
  {
    if i > 0 {
      UnknownProfileFails(layers[1..], profiles, fallback, i - 1);
    }
  }

  /** The profile of a target, or nothing where it is refused. */
  function TargetProfile(registry: Registry, layers: seq<Selection>, fallback: string): Option<Profile> {
    if fallback !in BuiltIn() || fallback !in registry.profiles then None else
      match Layered(layers, registry.profiles, registry.profiles[fallback])
      case None => None
      case Some(values) =>
        if Complete(values) && (values.id.value in registry.learningProfileIds ==> values.captureEnabled.value)
        then Some(ProfileOf(values)) else None
  }

  /**
   * Chooses each field from the nearest layer that has it. A profile of learning lineage is refused if it does not
   * capture.
   */
  method ResolveTarget(registry: Registry, layers: seq<Selection>, fallback: string) returns (profile: Option<Profile>)
    ensures profile == TargetProfile(registry, layers, fallback)
  {
    if fallback !in BuiltIn() || fallback !in registry.profiles {
      return None;
    }
    var candidates: seq<Values> := [];
    var values := NOTHING;
    for i := 0 to |layers|
      invariant |candidates| == i
      invariant forall j :: 0 <= j < i ==> ResolveSetting(layers[j], registry.profiles) == Some(candidates[j])
      invariant values == Found(candidates)
    {
      var candidate := ResolveSetting(layers[i], registry.profiles);
      if candidate.None? {
        UnknownProfileFails(layers, registry.profiles, registry.profiles[fallback], i);
        return None;
      }
      FoundAppends(candidates, candidate.value);
      candidates := candidates + [candidate.value];
      values := Over(values, candidate.value);
    }
    FoundAppends(candidates, ValuesOf(registry.profiles[fallback]));
    LayeredIsFound(layers, registry.profiles, registry.profiles[fallback], candidates);
    values := Over(values, ValuesOf(registry.profiles[fallback]));
    if values.id.value in registry.learningProfileIds && !values.captureEnabled.value {
      return None;
    }
    profile := Some(ProfileOf(values));
  }

  /** A layer that names a profile hides everything behind it, except that profiles named there must exist. */
  lemma {:induction false} ProfileHidesTheRest(layers: seq<Selection>, profiles: map<string, Profile>,
      fallback: Profile, n: nat)
    requires n < |layers| && layers[n].profile.Some? && Layered(layers, profiles, fallback).Some?
    ensures layers[n].profile.value in profiles
    ensures Layered(layers, profiles, fallback) ==
              Layered(layers[..n] + [layers[n].(profile := None)], profiles, profiles[layers[n].profile.value])
  {
    var named := layers[..n] + [layers[n].(profile := None)];
    if n == 0 {
      assert named[1..] == [];
    } else {
      ProfileHidesTheRest(layers[1..], profiles, fallback, n - 1);
      assert named[1..] == layers[1..][..n - 1] + [layers[1..][n - 1].(profile := None)];
    }
  }

  // ---- what the layers mean, field by field ----

  function OwnValue(selection: Selection, field: Field): Option<Value> {
    match field
    case HardBlocking => FlagSet(selection.hardBlocking)
    case Warnings => FlagSet(selection.warningsEnabled)
    case Capture => FlagSet(selection.captureEnabled)
    case Retrieval => FlagSet(selection.retrievalEnabled)
    case DegradedOutcomes => if selection.degraded.Some? then Some(Outcomes(selection.degraded.value)) else None
  }

  /** What a layer gives: its own value, or else that of the profile it names. */
  function Given(selection: Selection, profiles: map<string, Profile>, field: Field): Option<Value> {
    if OwnValue(selection, field).Some? then OwnValue(selection, field)
    else if selection.profile.Some? && selection.profile.value in profiles
    then Some(ValueOf(profiles[selection.profile.value], field))
    else None
  }

  predicate IsKnown(selection: Selection, profiles: map<string, Profile>) {
    selection.profile.Some? ==> selection.profile.value in profiles
  }

  function ValueIn(values: Values, field: Field): Option<Value> {
    match field
    case HardBlocking => FlagSet(values.hardBlocking)
    case Warnings => FlagSet(values.warningsEnabled)
    case Capture => FlagSet(values.captureEnabled)
    case Retrieval => FlagSet(values.retrievalEnabled)
    case DegradedOutcomes => if values.degraded.Some? then Some(Outcomes(values.degraded.value)) else None
  }

  lemma {:induction false} LayeredExactly(layers: seq<Selection>, profiles: map<string, Profile>, fallback: Profile)
    ensures Layered(layers, profiles, fallback).Some? <==>
            forall i :: 0 <= i < |layers| ==> IsKnown(layers[i], profiles)
    ensures Layered(layers, profiles, fallback).Some? ==> Complete(Layered(layers, profiles, fallback).value)
  {
    if layers != [] {
      LayeredExactly(layers[1..], profiles, fallback);
      assert forall i :: 0 < i < |layers| ==> layers[i] == layers[1..][i - 1];
      assert forall i :: 0 <= i < |layers| - 1 ==> layers[1..][i] == layers[i + 1];
    }
  }

  lemma {:induction false} LayeredValue(layers: seq<Selection>, profiles: map<string, Profile>, fallback: Profile,
      field: Field, k: nat)
    requires Layered(layers, profiles, fallback).Some? && k <= |layers|
    requires forall j :: 0 <= j < k ==> Given(layers[j], profiles, field).None?
    ensures k == |layers| ==>
              ValueIn(Layered(layers, profiles, fallback).value, field) == Some(ValueOf(fallback, field))
    ensures k < |layers| && Given(layers[k], profiles, field).Some? ==>
              ValueIn(Layered(layers, profiles, fallback).value, field) == Given(layers[k], profiles, field)
  {
    if k > 0 {
      assert Given(layers[0], profiles, field).None?;
      assert forall j :: 0 <= j < k - 1 ==> layers[1..][j] == layers[j + 1];
      LayeredValue(layers[1..], profiles, fallback, field, k - 1);
    }
  }

  /**
   * Each field of a target has the value that the nearest layer gives it, or else that of the fallback: the k-th layer
   * is the nearest one if none before it gives a value.
   */
  lemma NearestLayerWins(registry: Registry, layers: seq<Selection>, fallback: string, field: Field, k: nat)
    requires TargetProfile(registry, layers, fallback).Some? && k <= |layers|
    requires forall j :: 0 <= j < k ==> Given(layers[j], registry.profiles, field).None?
    ensures var profile := TargetProfile(registry, layers, fallback).value;
      && fallback in registry.profiles
      && (k == |layers| ==> ValueOf(profile, field) == ValueOf(registry.profiles[fallback], field))
      && (k < |layers| && Given(layers[k], registry.profiles, field).Some? ==>
            Some(ValueOf(profile, field)) == Given(layers[k], registry.profiles, field))
  {
    hide Layered;
    LayeredValue(layers, registry.profiles, registry.profiles[fallback], field, k);
  }

  /** The profile that the nearest naming layer names, or the fallback. */
  function NamedBy(layers: seq<Selection>, fallback: string): string {
    if layers == [] then fallback
    else if layers[0].profile.Some? then layers[0].profile.value else NamedBy(layers[1..], fallback)
  }

  /** No layer, or the first one that gives the capture flag, or the fallback, turns capture off. */
  function Captures(registry: Registry, layers: seq<Selection>, fallback: string): bool
    requires fallback in registry.profiles
  {
    if layers == [] then registry.profiles[fallback].captureEnabled
    else match Given(layers[0], registry.profiles, Capture)
         case Some(value) => value == Flag(true)
         case None => Captures(registry, layers[1..], fallback)
  }

  lemma {:induction false} NamedAndCaptures(registry: Registry, layers: seq<Selection>, fallback: string)
    requires fallback in registry.profiles && forall id :: id in registry.profiles ==> registry.profiles[id].id == id
    requires Layered(layers, registry.profiles, registry.profiles[fallback]).Some?
    ensures var values := Layered(layers, registry.profiles, registry.profiles[fallback]).value;
      && values.id == Some(NamedBy(layers, fallback))
      && values.captureEnabled == Some(Captures(registry, layers, fallback))
  {
    if layers != [] {
      NamedAndCaptures(registry, layers[1..], fallback);
    }
  }

  /**
   * A target is refused exactly if its fallback is no built-in profile, some layer names an unknown profile, or the
   * named profile descends from learning and the target would not capture.
   */
  lemma RefusedExactly(registry: Registry, layers: seq<Selection>, fallback: string)
    requires forall id :: id in registry.profiles ==> registry.profiles[id].id == id
    ensures TargetProfile(registry, layers, fallback).None? <==>
            || fallback !in {"normal", "learning", "observe-only"} || fallback !in registry.profiles
            || (exists i :: 0 <= i < |layers| && !IsKnown(layers[i], registry.profiles))
            || (NamedBy(layers, fallback) in registry.learningProfileIds && !Captures(registry, layers, fallback))
    ensures TargetProfile(registry, layers, fallback).Some? ==>
              TargetProfile(registry, layers, fallback).value.id == NamedBy(layers, fallback)
  {
    if fallback in registry.profiles {
      LayeredExactly(layers, registry.profiles, registry.profiles[fallback]);
      if Layered(layers, registry.profiles, registry.profiles[fallback]).Some? {
        NamedAndCaptures(registry, layers, fallback);
      }
    }
  }

  // ---- the choice among wildcard selectors ----

  datatype Match = Match(selection: Selection, wildcards: nat, literals: nat)

  datatype Choice = NoMatch | Chosen(winner: Match) | Ambiguous

  /** More literal characters win, then fewer wildcards. */
  predicate Better(a: Match, b: Match) {
    a.literals > b.literals || (a.literals == b.literals && a.wildcards < b.wildcards)
  }

  /** No other wildcard match has more literals, nor as many with fewer wildcards. */
  ghost predicate IsBest(matches: seq<Match>, i: nat) {
    && i < |matches| && matches[i].wildcards > 0
    && forall j :: 0 <= j < |matches| && matches[j].wildcards > 0 ==>
         && matches[j].literals <= matches[i].literals
         && (matches[j].literals == matches[i].literals ==> matches[j].wildcards >= matches[i].wildcards)
  }

  /** The one best wildcard match wins; none is chosen when two are equally good. */
  method SelectWildcard(matches: seq<Match>) returns (choice: Choice)
    ensures choice == NoMatch <==> forall i :: 0 <= i < |matches| ==> matches[i].wildcards == 0
    ensures choice == Ambiguous <==> exists i: nat, j: nat :: i < j && IsBest(matches, i) && IsBest(matches, j)
    ensures choice.Chosen? <==> exists i: nat :: IsBest(matches, i) && forall j: nat :: IsBest(matches, j) ==> i == j
    ensures choice.Chosen? ==> exists i: nat :: IsBest(matches, i) && choice.winner == matches[i]
  {
    var best: Option<nat> := None;
    for i := 0 to |matches|
      invariant best.None? ==> forall j :: 0 <= j < i ==> matches[j].wildcards == 0
      invariant best.Some? ==> best.value < i && matches[best.value].wildcards > 0
      invariant best.Some? ==> forall j :: 0 <= j < i && matches[j].wildcards > 0 ==>
                  !Better(matches[j], matches[best.value])
    {
      if matches[i].wildcards > 0 && (best.None? || Better(matches[i], matches[best.value])) {
        best := Some(i);
      }
    }
    if best.None? {
      return NoMatch;
    }
    var top := matches[best.value];
    assert IsBest(matches, best.value);
    var second: Option<nat> := None;
    for i := 0 to |matches|
      invariant second.None? ==> forall j: nat :: j < i && IsBest(matches, j) ==> j == best.value
      invariant second.Some? ==> second.value < |matches| && second.value != best.value && IsBest(matches, second.value)
    {
      if i != best.value && matches[i].wildcards > 0 && matches[i].literals == top.literals
         && matches[i].wildcards == top.wildcards {
        assert IsBest(matches, i);
        second := Some(i);
      }
      assert IsBest(matches, i) ==> !Better(top, matches[i]) && !Better(matches[i], top);
    }
    choice := if second.Some? then Ambiguous else Chosen(top);
    if second.Some? {
      ghost var low := if best.value < second.value then best.value else second.value;
      ghost var high := if best.value < second.value then second.value else best.value;
      assert low < high && IsBest(matches, low) && IsBest(matches, high);
    }
  }
}
