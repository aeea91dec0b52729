/**
 * Soundness of the exposure monitor over every event stream (src/advice/codex-exposure.ts): it reports only after the
 * whole exchange took place in order, and whatever invalidates it does so for good.
 */
module ExposureRuns {
  import opened Prelude
  import opened AdviceExposure

  /** Where the stream set each field of the monitor. */
  datatype Marks = Marks(thread: nat, retrieval: nat, response: nat, echo: nat, done: nat, turn: nat)

  function Watched(invocation: string, bundleId: string, events: seq<Event>): Monitor {
    if events == [] then Initial(invocation, bundleId)
    else Consumed(Watched(invocation, bundleId, events[..|events| - 1]), events[|events| - 1])
  }

  /** The marks move with the monitor; the completion of an echo and of a turn are marked the first time. */
  function Marked(k: Marks, before: Monitor, after: Monitor, event: Event, at: nat): Marks {
    if after.invalid then k
    else if event.ThreadStarted? then k.(thread := at)
    else if event.TurnCompleted? then if before.turnCompleted then k else k.(turn := at)
    else if after.retrievalItemId != before.retrievalItemId then k.(retrieval := at)
    else if after.marker != before.marker then k.(response := at)
    else if after.echoItemId != before.echoItemId then k.(echo := at)
    else if after.echoCompleted && !before.echoCompleted then k.(done := at)
    else k
  }

  function MarksOf(invocation: string, bundleId: string, events: seq<Event>): Marks {
    if events == [] then Marks(0, 0, 0, 0, 0, 0)
    else
      var earlier := events[..|events| - 1];
      var before := Watched(invocation, bundleId, earlier);
      Marked(MarksOf(invocation, bundleId, earlier), before, Watched(invocation, bundleId, events),
             events[|events| - 1], |events| - 1)
  }

  // ---- what the marks witness ----

  ghost predicate ThreadWitnessed(m: Monitor, k: Marks, events: seq<Event>) {
    && (m.threadId.None? ==> forall i :: 0 <= i < |events| ==> !events[i].ThreadStarted?)
    && (m.threadId.Some? ==>
          && k.thread < |events| && events[k.thread] == ThreadStarted(m.threadId) && |m.threadId.value| <= MAX_THREAD_ID
          && (forall i :: 0 <= i < k.thread && events[i].ThreadStarted? ==> events[i].threadId == Some(""))
          && (forall i :: k.thread < i < |events| ==> !events[i].ThreadStarted?))
  }

  ghost predicate RetrievalWitnessed(m: Monitor, k: Marks, events: seq<Event>) {
    m.retrievalItemId.Some? ==>
      && IsSet(m.threadId) && k.thread < k.retrieval < |events| && events[k.retrieval].ItemStarted?
      && events[k.retrieval].item.id == m.retrievalItemId.value
         && IsExactInvocation(events[k.retrieval].item.command, m.invocation)
  }

  ghost predicate ResponseWitnessed(m: Monitor, k: Marks, events: seq<Event>) {
    if m.marker.None? then m.response.None? && m.echoItemId.None? && !m.echoCompleted else
      && m.retrievalItemId.Some? && k.retrieval < k.response < |events| && events[k.response].ItemCompleted?
      && var item := events[k.response].item;
        && item.id == m.retrievalItemId.value && IsExactInvocation(item.command, m.invocation)
           && IsGoodResponse(item, m.bundleId)
        && item.output.value.response.value.challenge == m.marker && m.response == item.output
  }

  ghost predicate EchoWitnessed(m: Monitor, k: Marks, events: seq<Event>) {
    m.echoItemId.Some? ==>
      && m.marker.Some? && IsSet(m.retrievalItemId) && k.response < k.echo < |events| && events[k.echo].ItemStarted?
      && var item := events[k.echo].item;
        && item.id == m.echoItemId.value && Some(item.id) != m.retrievalItemId
        && !IsExactInvocation(item.command, m.invocation) && Includes(item.command, m.marker.value)
  }

  ghost predicate DoneWitnessed(m: Monitor, k: Marks, events: seq<Event>) {
    if !m.echoCompleted then !m.turnCompleted && forall i :: 0 <= i < |events| ==> !events[i].TurnCompleted? else
      && m.echoItemId.Some? && m.marker.Some? && k.response < k.done < |events| && events[k.done].ItemCompleted?
      && IsGoodEcho(events[k.done].item, m.marker.value)
      && (events[k.done].item.id != "" ==> events[k.done].item.id == m.echoItemId.value && k.echo < k.done)
      && (forall i :: 0 <= i < k.done ==> !events[i].TurnCompleted?)
      && (m.turnCompleted ==> k.done < k.turn < |events| && events[k.turn].TurnCompleted?)
  }

  ghost predicate Witnessed(m: Monitor, k: Marks, events: seq<Event>) {
    !m.invalid ==>
      && ThreadWitnessed(m, k, events) && RetrievalWitnessed(m, k, events) && ResponseWitnessed(m, k, events)
      && EchoWitnessed(m, k, events) && DoneWitnessed(m, k, events)
  }

  // ---- one event at a time ----

  /** An event that changes no field. */
  lemma IdleKeeps(m: Monitor, k: Marks, events: seq<Event>, event: Event)
    requires Witnessed(m, k, events) && !m.invalid && !event.ThreadStarted? && !event.TurnCompleted?
    ensures Witnessed(m, k, events + [event])
  {
  }

  lemma ThreadKeeps(m: Monitor, k: Marks, events: seq<Event>, id: Option<string>)
    requires Witnessed(m, k, events) && !m.invalid && !IsSet(m.threadId) && id.Some? && |id.value| <= MAX_THREAD_ID
    ensures Witnessed(m.(threadId := id), k.(thread := |events|), events + [ThreadStarted(id)])
  {
    var after := events + [ThreadStarted(id)];
    assert after[|events|] == ThreadStarted(id);
    assert m.retrievalItemId.None?;
    forall i | 0 <= i < |events| && after[i].ThreadStarted? ensures after[i].threadId == Some("") {
      assert after[i] == events[i];
    }
  }

  lemma TurnKeeps(m: Monitor, k: Marks, events: seq<Event>)
    requires Witnessed(m, k, events) && !m.invalid && m.echoCompleted
    ensures Witnessed(m.(turnCompleted := true), if m.turnCompleted then k else k.(turn := |events|),
                      events + [TurnCompleted])
  {
    var after := events + [TurnCompleted];
    assert after[|events|] == TurnCompleted;
  }

  lemma StartKeeps(m: Monitor, k: Marks, events: seq<Event>, item: Item)
    requires Witnessed(m, k, events) && !m.invalid
    ensures StartsRetrieval(m, item) ==> Witnessed(m.(retrievalItemId := Some(item.id)), k.(retrieval := |events|),
          events + [ItemStarted(item)])
    ensures StartsEcho(m, item) ==>
              Witnessed(m.(echoItemId := Some(item.id)), k.(echo := |events|), events + [ItemStarted(item)])
  {
    IdleKeeps(m, k, events, ItemStarted(item));
    assert (events + [ItemStarted(item)])[|events|] == ItemStarted(item);
  }

  lemma EndKeeps(m: Monitor, k: Marks, events: seq<Event>, item: Item)
    requires Witnessed(m, k, events) && !m.invalid
    ensures EndsRetrieval(m, item) && IsGoodResponse(item, m.bundleId) ==>
              Witnessed(m.(marker := item.output.value.response.value.challenge, response := item.output),
                        k.(response := |events|), events + [ItemCompleted(item)])
    ensures !m.echoCompleted && Some(item.id) == m.echoItemId && m.marker.Some? && IsGoodEcho(item, m.marker.value) ==>
              Witnessed(m.(echoCompleted := true), k.(done := |events|), events + [ItemCompleted(item)])
  {
    IdleKeeps(m, k, events, ItemCompleted(item));
    assert (events + [ItemCompleted(item)])[|events|] == ItemCompleted(item);
  }

  /** Setting a field to the value it has leaves its mark; it is witnessed all the same. */
  lemma StepKeeps(m: Monitor, k: Marks, events: seq<Event>, event: Event)
    requires Witnessed(m, k, events)
    ensures Witnessed(Consumed(m, event), Marked(k, m, Consumed(m, event), event, |events|), events + [event])
  {
    hide Witnessed;
    var after := Consumed(m, event);
    if m.invalid || after.invalid {
      InvalidIsWitnessed(after, Marked(k, m, after, event, |events|), events + [event]);
    } else {
      match event
      case ThreadStarted(id) => ThreadKeeps(m, k, events, id);
      case TurnCompleted => TurnKeeps(m, k, events);
      case ItemStarted(item) =>
        StartKeeps(m, k, events, item);
        IdleKeeps(m, k, events, event);
      case ItemCompleted(item) =>
        EndKeeps(m, k, events, item);
        IdleKeeps(m, k, events, event);
        EndsOnce(m, k, events);
      case Unrelated => IdleKeeps(m, k, events, event);
      case NotAnObject => IdleKeeps(m, k, events, event);
    }
  }

  lemma InvalidIsWitnessed(m: Monitor, k: Marks, events: seq<Event>)
    requires m.invalid
    ensures Witnessed(m, k, events)
  {
  }

  lemma EndsOnce(m: Monitor, k: Marks, events: seq<Event>)
    requires Witnessed(m, k, events) && !m.invalid
    ensures m.marker.None? ==> m.response.None? && m.echoItemId.None?
  {
  }

  lemma {:induction false} RunsAreWitnessed(invocation: string, bundleId: string, events: seq<Event>)
    ensures Witnessed(Watched(invocation, bundleId, events), MarksOf(invocation, bundleId, events), events)
  {
    hide Witnessed, Consumed, Marked;
    if events == [] {
      StartIsWitnessed(invocation, bundleId);
    } else {
      var earlier := events[..|events| - 1];
      RunsAreWitnessed(invocation, bundleId, earlier);
      assert events == earlier + [events[|events| - 1]];
      StepKeeps(Watched(invocation, bundleId, earlier), MarksOf(invocation, bundleId, earlier), earlier,
                events[|events| - 1]);
    }
  }

  lemma StartIsWitnessed(invocation: string, bundleId: string)
    ensures Witnessed(Initial(invocation, bundleId), Marks(0, 0, 0, 0, 0, 0), [])
  {
  }

  // ---- soundness ----

  /**
   * The advice was shown: a thread start, the retrieval with the bundle and a challenge, and the start of an echo of
   * that.
   */
  ghost predicate Shown(events: seq<Event>, invocation: string, seen: Observed, k: Marks) {
    && k.thread < k.retrieval < k.response < k.echo < |events|
    && events[k.thread] == ThreadStarted(Some(seen.threadId)) && seen.threadId != ""
    && (forall i :: 0 <= i < |events| && i != k.thread && events[i].ThreadStarted? ==>
          i < k.thread && events[i].threadId == Some(""))
    && events[k.retrieval].ItemStarted? && events[k.retrieval].item.id == seen.retrievalItemId
    && IsExactInvocation(events[k.retrieval].item.command, invocation)
    && events[k.response].ItemCompleted? && events[k.response].item.id == seen.retrievalItemId
    && IsExactInvocation(events[k.response].item.command, invocation)
    && IsGoodResponse(events[k.response].item, seen.bundleId)
    && events[k.response].item.output == Some(seen.response)
    && events[k.echo].ItemStarted? && events[k.echo].item.id == seen.echoItemId != seen.retrievalItemId
    && !IsExactInvocation(events[k.echo].item.command, invocation)
    && Includes(events[k.echo].item.command, seen.response.response.value.challenge.value)
  }

  /** And a command with the challenge completed successfully before any turn ended. */
  ghost predicate Exchange(events: seq<Event>, invocation: string, seen: Observed, k: Marks) {
    && Shown(events, invocation, seen, k)
    && k.response < k.done < |events| && events[k.done].ItemCompleted?
    && IsGoodEcho(events[k.done].item, seen.response.response.value.challenge.value)
    && NoTurnBefore(events, k.done)
  }

  ghost predicate NoTurnBefore(events: seq<Event>, n: nat) {
    forall i :: 0 <= i < n && i < |events| ==> !events[i].TurnCompleted?
  }

  /** The completion is that of the echo itself, after its start. */
  ghost predicate EchoEnds(events: seq<Event>, seen: Observed, k: Marks) {
    k.echo < k.done < |events| && events[k.done].ItemCompleted? && events[k.done].item.id == seen.echoItemId
  }

  ghost predicate TurnEnds(events: seq<Event>, k: Marks) {
    k.done < k.turn < |events| && events[k.turn].TurnCompleted?
  }

  ghost predicate NamesCompletions(events: seq<Event>) {
    forall i :: 0 <= i < |events| && events[i].ItemCompleted? ==> events[i].item.id != ""
  }

  ghost predicate NamesThreads(events: seq<Event>) {
    ThreadStarted(Some("")) !in events
  }

  ghost predicate StartsOneThread(events: seq<Event>) {
    exists t :: 0 <= t < |events| && events[t].ThreadStarted?
                && forall i :: 0 <= i < |events| && events[i].ThreadStarted? ==> i == t
  }

  lemma MarksAreSound(invocation: string, bundleId: string, events: seq<Event>)
    requires DeliveryReady(Watched(invocation, bundleId, events)).Some?
    ensures var seen := DeliveryReady(Watched(invocation, bundleId, events)).value;
      var k := MarksOf(invocation, bundleId, events);
      && seen.bundleId == bundleId && Exchange(events, invocation, seen, k)
      && (NamesCompletions(events) ==> EchoEnds(events, seen, k))
      && (TurnResult(Watched(invocation, bundleId, events)).Some? ==> TurnEnds(events, k))
  {
    RunsAreWitnessed(invocation, bundleId, events);
    SameMonitor(invocation, bundleId, events);
  }

  /**
   * On every stream, a delivery is reported only after the whole exchange, and as the result of a turn only after that
   * turn ended. If the completed items of the stream have names, the exchange ends with the reported echo. The reported
   * thread is the only one exactly if no thread started with an empty id.
   */
  lemma ReportsAreSound(invocation: string, bundleId: string, events: seq<Event>)
    requires DeliveryReady(Watched(invocation, bundleId, events)).Some?
    ensures var m := Watched(invocation, bundleId, events);
      var seen := DeliveryReady(m).value;
      && seen.bundleId == bundleId && (TurnResult(m).Some? ==> TurnResult(m) == Some(seen))
      && exists k ::
        && Exchange(events, invocation, seen, k)
        && (NamesCompletions(events) ==> EchoEnds(events, seen, k))
        && (TurnResult(m).Some? ==> TurnEnds(events, k))
    ensures StartsOneThread(events) <==> NamesThreads(events)
  {
    MarksAreSound(invocation, bundleId, events);
    OneThread(events, invocation, DeliveryReady(Watched(invocation, bundleId, events)).value,
              MarksOf(invocation, bundleId, events));
  }

  lemma OneThread(events: seq<Event>, invocation: string, seen: Observed, k: Marks)
    requires Exchange(events, invocation, seen, k)
    ensures StartsOneThread(events) <==> NamesThreads(events)
  {
    assert events[k.thread].ThreadStarted?;
  }

  // ---- whose completion it was ----

  /** What a monitor has learnt for good, another still knows. */
  ghost predicate Remembers(later: Monitor, m: Monitor) {
    && !m.invalid && later.invocation == m.invocation && later.bundleId == m.bundleId
    && (IsSet(m.threadId) ==> later.threadId == m.threadId)
    && (IsSet(m.retrievalItemId) ==> later.retrievalItemId == m.retrievalItemId)
    && (m.marker.Some? ==>
          later.marker == m.marker && later.response == m.response && later.retrievalItemId == m.retrievalItemId)
    && (IsSet(m.echoItemId) ==> later.echoItemId == m.echoItemId)
  }

  lemma {:induction false} PrefixIsRemembered(invocation: string, bundleId: string, events: seq<Event>, n: nat)
    requires n <= |events| && !Watched(invocation, bundleId, events).invalid
    ensures Remembers(Watched(invocation, bundleId, events), Watched(invocation, bundleId, events[..n]))
  {
    if n < |events| {
      hide Includes, IsExactInvocation, IsGoodResponse, IsGoodEcho;
      assert events[..|events| - 1][..n] == events[..n];
      PrefixIsRemembered(invocation, bundleId, events[..|events| - 1], n);
    } else {
      assert events[..n] == events;
    }
  }

  lemma Later(invocation: string, bundleId: string, events: seq<Event>, i: nat, n: nat)
    requires i <= n <= |events| && !Watched(invocation, bundleId, events).invalid
    ensures Remembers(Watched(invocation, bundleId, events[..n]), Watched(invocation, bundleId, events[..i]))
    ensures Remembers(Watched(invocation, bundleId, events), Watched(invocation, bundleId, events[..n]))
  {
    hide Watched, Remembers;
    PrefixIsRemembered(invocation, bundleId, events, n);
    assert !Watched(invocation, bundleId, events[..n]).invalid by {
      NotInvalid(Watched(invocation, bundleId, events), Watched(invocation, bundleId, events[..n]));
    }
    assert events[..n][..i] == events[..i];
    PrefixIsRemembered(invocation, bundleId, events[..n], i);
  }

  lemma NotInvalid(later: Monitor, m: Monitor)
    requires Remembers(later, m)
    ensures !m.invalid
  {
  }

  /** The monitor before and after one event of a stream that it reports. */
  lemma Around(invocation: string, bundleId: string, events: seq<Event>, n: nat)
    requires n < |events| && !Watched(invocation, bundleId, events).invalid
    ensures var before, after, last := Watched(invocation, bundleId, events[..n]),
                Watched(invocation, bundleId, events[..n + 1]), Watched(invocation, bundleId, events);
      && after == Consumed(before, events[n]) && before.invocation == invocation && before.bundleId == bundleId
      && Remembers(last, before) && Remembers(last, after)
  {
    hide Remembers, Consumed;
    assert events[..n + 1][..n] == events[..n];
    PrefixIsRemembered(invocation, bundleId, events, n);
    PrefixIsRemembered(invocation, bundleId, events, n + 1);
    SameMonitor(invocation, bundleId, events[..n]);
  }

  /** The challenge of a monitor is that of its response. */
  lemma ResponseHasMarker(m: Monitor, k: Marks, events: seq<Event>)
    requires Witnessed(m, k, events) && !m.invalid && m.marker.Some?
    ensures m.response.Some? && m.response.value.response.Some? && m.response.value.response.value.challenge == m.marker
  {
  }

  ghost predicate Reported(events: seq<Event>, invocation: string, bundleId: string, seen: Observed, k: Marks) {
    DeliveryReady(Watched(invocation, bundleId, events)) == Some(seen) && Shown(events, invocation, seen, k)
  }

  lemma ThreadIsKnown(events: seq<Event>, invocation: string, bundleId: string, seen: Observed, k: Marks)
    requires Reported(events, invocation, bundleId, seen, k)
    ensures IsSet(Watched(invocation, bundleId, events[..k.retrieval]).threadId)
  {
    hide Includes, IsExactInvocation, IsGoodResponse, IsGoodEcho, Watched;
    Around(invocation, bundleId, events, k.thread);
    Later(invocation, bundleId, events, k.thread + 1, k.retrieval);
  }

  lemma RetrievalIsKnown(events: seq<Event>, invocation: string, bundleId: string, seen: Observed, k: Marks)
    requires Reported(events, invocation, bundleId, seen, k)
    ensures Watched(invocation, bundleId, events[..k.response]).retrievalItemId == Some(seen.retrievalItemId)
  {
    hide Includes, IsExactInvocation, IsGoodResponse, IsGoodEcho, Watched;
    ThreadIsKnown(events, invocation, bundleId, seen, k);
    Around(invocation, bundleId, events, k.retrieval);
    Later(invocation, bundleId, events, k.retrieval + 1, k.response);
  }

  lemma ChallengeIsKnown(events: seq<Event>, invocation: string, bundleId: string, seen: Observed, k: Marks)
    requires Reported(events, invocation, bundleId, seen, k)
    ensures var m := Watched(invocation, bundleId, events[..k.echo]);
      m.retrievalItemId == Some(seen.retrievalItemId) && m.marker == seen.response.response.value.challenge != None
  {
    hide Includes, IsExactInvocation, IsGoodEcho, Watched;
    RetrievalIsKnown(events, invocation, bundleId, seen, k);
    Around(invocation, bundleId, events, k.response);
    Later(invocation, bundleId, events, k.response + 1, k.echo);
    RunsAreWitnessed(invocation, bundleId, events);
    assert Watched(invocation, bundleId, events[..k.response + 1]).marker.Some?;
    ResponseHasMarker(Watched(invocation, bundleId, events), MarksOf(invocation, bundleId, events), events);
  }

  lemma EchoIsKnown(events: seq<Event>, invocation: string, bundleId: string, seen: Observed, k: Marks, n: nat)
    requires Reported(events, invocation, bundleId, seen, k) && k.echo < n <= |events|
    ensures var m := Watched(invocation, bundleId, events[..n]);
      m.echoItemId == Some(seen.echoItemId) && m.marker == seen.response.response.value.challenge
  {
    hide Includes, IsExactInvocation, IsGoodResponse, IsGoodEcho, Watched;
    ChallengeIsKnown(events, invocation, bundleId, seen, k);
    Around(invocation, bundleId, events, k.echo);
    Later(invocation, bundleId, events, k.echo + 1, n);
  }

  /** A later completion of the echo succeeded, or the stream would not be reported. */
  lemma EchoIsGood(events: seq<Event>, invocation: string, bundleId: string, seen: Observed, k: Marks, d: nat)
    requires Reported(events, invocation, bundleId, seen, k) && EchoEnds(events, seen, k.(done := d))
    ensures IsGoodEcho(events[d].item, seen.response.response.value.challenge.value)
  {
    hide Includes, IsExactInvocation, IsGoodResponse, IsGoodEcho, Watched;
    EchoIsKnown(events, invocation, bundleId, seen, k, d);
    Around(invocation, bundleId, events, d);
  }

  /** After its echo started, the reported command completed before any turn ended. */
  ghost predicate CompletesInTime(events: seq<Event>, invocation: string, seen: Observed) {
    exists k :: Shown(events, invocation, seen, k) && EchoEnds(events, seen, k) && NoTurnBefore(events, k.done)
  }

  /**
   * Of a reported stream, the exchange ends with the reported echo if and only if some completion of the name of that
   * echo stands after its start and before the end of a turn, whether or not the stream has items without a name.
   */
  lemma EchoEndsExactly(invocation: string, bundleId: string, events: seq<Event>)
    requires DeliveryReady(Watched(invocation, bundleId, events)).Some?
    ensures var seen := DeliveryReady(Watched(invocation, bundleId, events)).value;
      (exists k :: Exchange(events, invocation, seen, k) && EchoEnds(events, seen, k)) <==>
      CompletesInTime(events, invocation, seen)
  {
    hide Watched, DeliveryReady, Shown;
    var seen := DeliveryReady(Watched(invocation, bundleId, events)).value;
    if CompletesInTime(events, invocation, seen) {
      var k :| Shown(events, invocation, seen, k) && EchoEnds(events, seen, k) && NoTurnBefore(events, k.done);
      EchoIsGood(events, invocation, bundleId, seen, k, k.done);
      ShownFirst(events, invocation, seen, k);
      assert Exchange(events, invocation, seen, k);
    }
  }

  lemma ShownFirst(events: seq<Event>, invocation: string, seen: Observed, k: Marks)
    requires Shown(events, invocation, seen, k)
    ensures k.response < k.echo
  {
  }

  lemma {:induction false} SameMonitor(invocation: string, bundleId: string, events: seq<Event>)
    ensures Watched(invocation, bundleId, events).invocation == invocation
            && Watched(invocation, bundleId, events).bundleId == bundleId
  {
    if events != [] {
      SameMonitor(invocation, bundleId, events[..|events| - 1]);
    }
  }

  ghost predicate SameButEmptyThread(m: Monitor, n: Monitor) {
    n == m || (m.threadId.None? && n == m.(threadId := Some("")))
  }

  lemma EmptyThreadStep(m: Monitor, n: Monitor, event: Event)
    requires SameButEmptyThread(m, n)
    ensures SameButEmptyThread(Consumed(m, event), Consumed(n, event))
  {
    hide Includes, IsExactInvocation, IsGoodResponse;
  }

  lemma {:induction false} EmptyStartIsForgotten(invocation: string, bundleId: string, events: seq<Event>)
    ensures SameButEmptyThread(Watched(invocation, bundleId, events),
                               Watched(invocation, bundleId, [ThreadStarted(Some(""))] + events))
  {
    var longer := [ThreadStarted(Some(""))] + events;
    if events == [] {
      assert longer[..0] == [];
      assert Watched(invocation, bundleId, longer) == Consumed(Initial(invocation, bundleId), ThreadStarted(Some("")));
    } else {
      hide Consumed, SameButEmptyThread;
      EmptyStartIsForgotten(invocation, bundleId, events[..|events| - 1]);
      assert longer[..|longer| - 1] == [ThreadStarted(Some(""))] + events[..|events| - 1];
      EmptyThreadStep(Watched(invocation, bundleId, events[..|events| - 1]), Watched(invocation, bundleId,
            longer[..|longer| - 1]), events[|events| - 1]);
    }
  }

  /** A thread start with an empty id is not counted: in front of any stream it changes no report. */
  lemma EmptyThreadIdIsNotCounted(invocation: string, bundleId: string, events: seq<Event>)
    ensures DeliveryReady(Watched(invocation, bundleId,
          [ThreadStarted(Some(""))] + events)) == DeliveryReady(Watched(invocation, bundleId, events))
    ensures TurnResult(Watched(invocation, bundleId,
          [ThreadStarted(Some(""))] + events)) == TurnResult(Watched(invocation, bundleId, events))
  {
    hide Watched;
    EmptyStartIsForgotten(invocation, bundleId, events);
  }

  /** What an item without a name allows: the delivery is reported although the reported echo has not completed. */
  lemma UnnamedItemFoolsTheMonitor()
    ensures var events := UnnamedStream();
      var seen := DeliveryReady(Watched("get", "b", events));
      && seen.Some? && seen.value.echoItemId == "x"
      && (forall i :: 0 <= i < |events| && events[i].ItemCompleted? ==> events[i].item.id != "x")
      && forall k :: !EchoEnds(events, seen.value, k)
  {
    var events := UnnamedStream();
    var m0 := Initial("get", "b");
    assert Includes(Challenge(), Challenge());
    assert IsChallenge(Challenge());
    var m1 := Consumed(m0, events[0]);
    var m2 := Consumed(m1, events[1]);
    var m3 := Consumed(m2, events[2]);
    assert m3.marker == Some(Challenge());
    assert !IsExactInvocation(Challenge(), "get");
    var m4 := Consumed(m3, events[3]);
    assert m4.echoItemId == Some("");
    var m5 := Consumed(m4, events[4]);
    assert m5.echoCompleted;
    var m6 := Consumed(m5, events[5]);
    assert m6.echoItemId == Some("x");
    Unfolds(events, m1, m2, m3, m4, m5, m6);
  }

  lemma Unfolds(events: seq<Event>, m1: Monitor, m2: Monitor, m3: Monitor, m4: Monitor, m5: Monitor, m6: Monitor)
    requires |events| == 6 && m1 == Consumed(Initial("get", "b"), events[0]) && m2 == Consumed(m1, events[1])
          && m3 == Consumed(m2, events[2])
    requires m4 == Consumed(m3, events[3]) && m5 == Consumed(m4, events[4]) && m6 == Consumed(m5, events[5])
    ensures Watched("get", "b", events) == m6
  {
    hide Consumed;
    assert events[..5][..4] == events[..4] && events[..4][..3] == events[..3] && events[..3][..2] == events[..2]
          && events[..2][..1] == events[..1] && events[..1][..0] == [];
    assert Watched("get", "b", events[..1]) == m1;
    assert Watched("get", "b", events[..2]) == m2;
    assert Watched("get", "b", events[..3]) == m3;
    assert Watched("get", "b", events[..4]) == m4;
    assert Watched("get", "b", events[..5]) == m5;
  }

  function Challenge(): string {
    CHALLENGE_PREFIX + "00000000000000000000000000000000"
  }

  function UnnamedStream(): seq<Event> {
    var answer := Output("ready", 5, Some(Response(true, ["b"], Some(Challenge()))));
    [
      ThreadStarted(Some("t")),
      ItemStarted(Item("r", "get", false, None, None)),
      ItemCompleted(Item("r", "get", true, Some(0), Some(answer))),
      ItemStarted(Item("", Challenge(), false, None, None)),
      ItemCompleted(Item("", Challenge(), true, Some(0), None)),
      ItemStarted(Item("x", Challenge(), false, None, None))
    ]
  }

  // ---- for good ----

  /** Once invalid, the monitor reports nothing any more. */
  lemma {:induction false} InvalidIsForGood(invocation: string, bundleId: string, events: seq<Event>, n: nat)
    requires n <= |events| && Watched(invocation, bundleId, events[..n]).invalid
    ensures Watched(invocation, bundleId, events).invalid
    ensures DeliveryReady(Watched(invocation, bundleId, events)) == None
            && TurnResult(Watched(invocation, bundleId, events)) == None
  {
    if n < |events| {
      assert events[..|events| - 1][..n] == events[..n];
      InvalidIsForGood(invocation, bundleId, events[..|events| - 1], n);
    } else {
      assert events[..n] == events;
    }
  }

  lemma ReportStaysOneStep(m: Monitor, event: Event)
    requires DeliveryReady(m).Some? && m.marker.Some?
    ensures DeliveryReady(Consumed(m, event)) == DeliveryReady(m) || Consumed(m, event).invalid
    ensures Consumed(m, event).marker == m.marker || Consumed(m, event).invalid
  {
  }

  /** A report never changes: later events leave it as it is or withdraw it for good. */
  lemma {:induction false} ReportNeverChanges(invocation: string, bundleId: string, events: seq<Event>, n: nat)
    requires n <= |events| && DeliveryReady(Watched(invocation, bundleId, events[..n])).Some?
    ensures var m := Watched(invocation, bundleId, events);
      m.invalid || (m.marker.Some? && DeliveryReady(m) == DeliveryReady(Watched(invocation, bundleId, events[..n])))
  {
    hide Consumed, DeliveryReady, Witnessed;
    if n < |events| {
      var earlier := events[..|events| - 1];
      assert earlier[..n] == events[..n];
      ReportNeverChanges(invocation, bundleId, earlier, n);
      if Watched(invocation, bundleId, earlier).invalid {
        InvalidStays(Watched(invocation, bundleId, earlier), events[|events| - 1]);
      } else {
        ReportStaysOneStep(Watched(invocation, bundleId, earlier), events[|events| - 1]);
      }
    } else {
      assert events[..n] == events;
      RunsAreWitnessed(invocation, bundleId, events);
      ReadyHasMarker(Watched(invocation, bundleId, events), MarksOf(invocation, bundleId, events), events);
    }
  }

  lemma InvalidStays(m: Monitor, event: Event)
    requires m.invalid
    ensures Consumed(m, event).invalid
  {
  }

  lemma ReadyHasMarker(m: Monitor, k: Marks, events: seq<Event>)
    requires Witnessed(m, k, events) && DeliveryReady(m).Some?
    ensures m.marker.Some?
  {
  }

  // ---- the deferred observer ----

  function Deferring(scopeOf: string -> Option<Scope>, events: seq<Event>): Deferred {
    if events == [] then Deferred(None, None, false)
    else DeferredConsumed(Deferring(scopeOf, events[..|events| - 1]), events[|events| - 1], scopeOf)
  }

  function DeferredReady(d: Deferred): Option<Observed> {
    if d.invalid || d.inner.None? || d.scope.None? then None else DeliveryReady(d.inner.value)
  }

  /**
   * Up to its first object the stream is noise; that object starts the only thread, and the inner monitor sees the
   * rest.
   */
  ghost predicate StartsOnce(d: Deferred, scopeOf: string -> Option<Scope>, events: seq<Event>, start: nat) {
    && start < |events| && (forall i :: 0 <= i < start ==> events[i].NotAnObject?)
    && events[start].ThreadStarted? && IsSet(events[start].threadId)
    && (forall i :: start < i < |events| ==> !events[i].ThreadStarted?)
    && d.scope.Some? && d.scope == scopeOf(events[start].threadId.value)
       && d.scope.value.sessionId == events[start].threadId.value
    && d.inner == Some(Watched(d.scope.value.invocation, d.scope.value.bundleId, events[start..]))
  }

  lemma {:induction false} DeferredStartsOnce(scopeOf: string -> Option<Scope>, events: seq<Event>)
    ensures var d := Deferring(scopeOf, events);
      !d.invalid ==>
        if d.inner.None? then forall i :: 0 <= i < |events| ==> events[i].NotAnObject?
        else exists start: nat :: StartsOnce(d, scopeOf, events, start)
  {
    hide Consumed;
    if events != [] {
      var earlier := events[..|events| - 1];
      var last := events[|events| - 1];
      DeferredStartsOnce(scopeOf, earlier);
      var before := Deferring(scopeOf, earlier);
      var d := Deferring(scopeOf, events);
      assert events == earlier + [last];
      if !d.invalid && d.inner.Some? {
        if before.inner.None? {
          DeferredBegins(before, d, scopeOf, earlier, last);
        } else {
          var start: nat :| StartsOnce(before, scopeOf, earlier, start);
          DeferredSeesRest(before, d, scopeOf, earlier, last, start);
        }
      }
    }
  }

  lemma DeferredBegins(before: Deferred, d: Deferred, scopeOf: string -> Option<Scope>, earlier: seq<Event>,
                       last: Event)
    requires before.inner.None? && !before.invalid && (forall i :: 0 <= i < |earlier| ==> earlier[i].NotAnObject?)
    requires d == DeferredConsumed(before, last, scopeOf) && !d.invalid && d.inner.Some?
    ensures StartsOnce(d, scopeOf, earlier + [last], |earlier|)
  {
    hide Consumed;
    assert (earlier + [last])[|earlier|..] == [last];
    assert [last][..0] == [];
    assert Watched(d.scope.value.invocation, d.scope.value.bundleId, [last]) ==
           Consumed(Initial(d.scope.value.invocation, d.scope.value.bundleId), last);
  }

  lemma DeferredSeesRest(before: Deferred, d: Deferred, scopeOf: string -> Option<Scope>, earlier: seq<Event>,
      last: Event, start: nat)
    requires StartsOnce(before, scopeOf, earlier, start) && d == DeferredConsumed(before, last, scopeOf) && !d.invalid
    ensures StartsOnce(d, scopeOf, earlier + [last], start)
  {
    var events := earlier + [last];
    var rest := events[start..];
    assert rest[..|rest| - 1] == earlier[start..];
    assert rest[|rest| - 1] == last;
    assert forall m: Monitor :: Consumed(m, NotAnObject) == m;
  }

  function DeferredResult(d: Deferred): Option<Observed> {
    if d.invalid || d.inner.None? || d.scope.None? then None else TurnResult(d.inner.value)
  }

  /**
   * What the deferred observer reports is the exchange of the only thread of the stream, the one its scope belongs to,
   * and a result comes after the end of a turn. The exchange ends with the reported echo as that of the inner monitor
   * does.
   */
  lemma DeferredReportsAreSound(scopeOf: string -> Option<Scope>, events: seq<Event>)
    requires DeferredReady(Deferring(scopeOf, events)).Some?
    ensures var d := Deferring(scopeOf, events);
      var seen := DeferredReady(d).value;
      && d.scope.Some? && seen.threadId == d.scope.value.sessionId && seen.bundleId == d.scope.value.bundleId
      && (DeferredResult(d).Some? ==> DeferredResult(d) == Some(seen))
      && exists start: nat, k: Marks ::
        && StartsOnce(d, scopeOf, events, start) && k.thread == 0
        && Exchange(events[start..], d.scope.value.invocation, seen, k)
        && (NamesCompletions(events) ==> EchoEnds(events[start..], seen, k))
        && (DeferredResult(d).Some? ==> TurnEnds(events[start..], k))
  {
    hide Exchange, DeliveryReady, EchoEnds, TurnEnds;
    DeferredStartsOnce(scopeOf, events);
    var d := Deferring(scopeOf, events);
    var start: nat :| StartsOnce(d, scopeOf, events, start);
    var rest := events[start..];
    MarksAreSound(d.scope.value.invocation, d.scope.value.bundleId, rest);
    var k := MarksOf(d.scope.value.invocation, d.scope.value.bundleId, rest);
    OnlyThread(rest, d.scope.value.invocation, DeferredReady(d).value, k);
  }

  /**
   * The stream from its first object on is what the inner monitor saw: its echo ends exactly as `EchoEndsExactly` says.
   */
  lemma DeferredEchoEndsExactly(scopeOf: string -> Option<Scope>, events: seq<Event>, start: nat)
    requires DeferredReady(Deferring(scopeOf, events)).Some?
             && StartsOnce(Deferring(scopeOf, events), scopeOf, events, start)
    ensures var d := Deferring(scopeOf, events);
      var seen, invocation, rest := DeferredReady(d).value, d.scope.value.invocation, events[start..];
      (exists k :: Exchange(rest, invocation, seen, k) && EchoEnds(rest, seen, k)) <==>
            CompletesInTime(rest, invocation, seen)
  {
    hide Exchange, DeliveryReady, EchoEnds, CompletesInTime, Watched;
    var scope := Deferring(scopeOf, events).scope.value;
    EchoEndsExactly(scope.invocation, scope.bundleId, events[start..]);
  }

  lemma OnlyThread(events: seq<Event>, invocation: string, seen: Observed, k: Marks)
    requires Exchange(events, invocation, seen, k) && events[0].ThreadStarted?
    requires forall i :: 0 < i < |events| ==> !events[i].ThreadStarted?
    ensures k.thread == 0 && events[0].threadId == Some(seen.threadId)
  {
  }
}
