/**
 * The exposure monitor is not deaf (src/advice/codex-exposure.ts): every stream that tells the whole exchange, with
 * nothing in between that speaks against it, is reported.
 */
module ExposureStories {
  import opened Prelude
  import opened AdviceExposure
  import opened ExposureRuns

  // ---- what the monitor recognizes ----

  ghost predicate Contains(s: string, part: string) {
    exists before, after: string :: s == before + part + after
  }

  lemma {:induction false} IncludesIsContains(s: string, part: string)
    ensures Includes(s, part) <==> Contains(s, part)
  {
    if part <= s {
      assert s == [] + part + s[|part|..];
    } else if s != [] {
      IncludesIsContains(s[1..], part);
      if before, after :| s == before + part + after {
        assert before != [] && s[1..] == before[1..] + part + after;
      }
      if before, after :| s[1..] == before + part + after {
        assert s == ([s[0]] + before) + part + after;
      }
    }
  }

  /** The retrieval command, as it is or quoted for the shell. */
  ghost predicate Retrieves(item: Item, invocation: string) {
    item.command == invocation || (item.command == "/bin/zsh -lc '" + invocation + "'" && '\'' !in invocation)
  }

  ghost predicate IsMarker(s: string) {
    |s| == 46 && s[..14] == "aap-challenge:" && forall c :: c in s[14..] ==> c in "0123456789abcdef"
  }

  /** A success whose output offers the bundle and carries the challenge. */
  ghost predicate Answers(item: Item, bundleId: string, marker: string) {
    && item.completed && item.exitCode == Some(0)
    && item.output.Some? && item.output.value.bytes <= 4096 && item.output.value.response.Some?
    && var response := item.output.value.response.value;
       response.ready && bundleId in response.bundleIds && response.challenge == Some(marker) && IsMarker(marker)
  }

  ghost predicate Repeats(item: Item, marker: string) {
    item.completed && item.exitCode == Some(0) && Contains(item.command, marker)
  }

  lemma MarkersAre(s: string)
    ensures IsChallenge(s) <==> IsMarker(s)
  {
    assert |CHALLENGE_PREFIX| == 14;
    if |s| == 46 {
      var digits := s[14..];
      assert forall i :: 14 <= i < 46 ==> s[i] == digits[i - 14] && s[i] in digits;
      assert forall c :: c in "0123456789abcdef" <==> '0' <= c <= '9' || 'a' <= c <= 'f';
    }
  }

  lemma AnswersAre(item: Item, bundleId: string)
    ensures IsGoodResponse(item, bundleId) <==> exists marker :: Answers(item, bundleId, marker)
  {
    hide IsChallenge, IsMarker;
    if item.output.Some? && item.output.value.response.Some? && item.output.value.response.value.challenge.Some? {
      var marker := item.output.value.response.value.challenge.value;
      MarkersAre(marker);
      assert IsGoodResponse(item, bundleId) ==> Answers(item, bundleId, marker);
    }
  }

  lemma RepeatsAre(item: Item, marker: string)
    ensures IsGoodEcho(item, marker) <==> Repeats(item, marker)
  {
    IncludesIsContains(item.command, marker);
  }

  // ---- the exchange, and what may stand in between ----

  datatype Story = Story(before: seq<Event>, threadId: string, onThread: seq<Event>, retrieval: Item,
                         retrieving: seq<Event>, response: Item, answered: seq<Event>, echo: Item,
                         echoing: seq<Event>, done: Item, afterwards: seq<Event>, marker: string)

  ghost predicate NoThreadNoTurn(events: seq<Event>) {
    forall e :: e in events ==> !e.ThreadStarted? && !e.TurnCompleted?
  }

  ghost predicate NoneStarts(events: seq<Event>, invocation: string) {
    forall e :: e in events && e.ItemStarted? ==> !Retrieves(e.item, invocation)
  }

  ghost predicate NoneEnds(events: seq<Event>, id: string, invocation: string) {
    forall e :: e in events && e.ItemCompleted? && Retrieves(e.item, invocation) ==> e.item.id != id
  }

  /** The item starts another command that has the challenge in it. */
  ghost predicate Echoes(item: Item, retrievalId: string, invocation: string, marker: string) {
    item.id != retrievalId && !Retrieves(item, invocation) && Contains(item.command, marker)
  }

  ghost predicate NoneEchoes(events: seq<Event>, retrievalId: string, invocation: string, marker: string) {
    forall e :: e in events && e.ItemStarted? ==> !Echoes(e.item, retrievalId, invocation, marker)
  }

  /** Whatever completes under the id of the echo is the echo, and a success. */
  ghost predicate OnlyGoodEnds(events: seq<Event>, id: string, marker: string) {
    forall e :: e in events && e.ItemCompleted? && e.item.id == id ==> Repeats(e.item, marker)
  }

  ghost predicate Begins(s: Story, invocation: string, bundleId: string) {
    && 0 < |s.threadId| <= 160 && s.retrieval.id != "" && Retrieves(s.retrieval, invocation)
    && s.response.id == s.retrieval.id && Retrieves(s.response, invocation) && Answers(s.response, bundleId, s.marker)
    && NoThreadNoTurn(s.before + s.onThread + s.retrieving)
    && NoneStarts(s.onThread, invocation) && NoneEnds(s.retrieving, s.retrieval.id, invocation)
  }

  ghost predicate Ends(s: Story, invocation: string) {
    && s.echo.id != "" && Echoes(s.echo, s.retrieval.id, invocation, s.marker)
    && s.done.id == s.echo.id && Repeats(s.done, s.marker)
    && NoThreadNoTurn(s.answered + s.echoing) && NoneEchoes(s.answered, s.retrieval.id, invocation, s.marker)
    && OnlyGoodEnds(s.echoing + s.afterwards, s.echo.id, s.marker)
    && forall e :: e in s.afterwards ==> !e.ThreadStarted?
  }

  function Beginning(s: Story): seq<Event> {
    s.before + [ThreadStarted(Some(s.threadId))] + s.onThread + [ItemStarted(s.retrieval)] + s.retrieving
    + [ItemCompleted(s.response)]
  }

  function Told(s: Story): seq<Event> {
    Beginning(s) + s.answered + [ItemStarted(s.echo)] + s.echoing + [ItemCompleted(s.done)] + s.afterwards
  }

  // ---- the monitor follows it ----

  lemma OneMore(invocation: string, bundleId: string, events: seq<Event>, event: Event)
    ensures Watched(invocation, bundleId, events + [event]) == Consumed(Watched(invocation, bundleId, events), event)
  {
    assert (events + [event])[..|events|] == events;
  }

  /** A segment none of whose events changes the monitor. */
  lemma {:induction false} Stays(invocation: string, bundleId: string, events: seq<Event>, more: seq<Event>)
    requires forall e :: e in more ==>
               Consumed(Watched(invocation, bundleId, events), e) == Watched(invocation, bundleId, events)
    ensures Watched(invocation, bundleId, events + more) == Watched(invocation, bundleId, events)
  {
    hide Consumed, Watched;
    if more == [] {
      assert events + more == events;
    } else {
      var front, last := more[..|more| - 1], more[|more| - 1];
      assert last in more && forall e :: e in front ==> e in more;
      Stays(invocation, bundleId, events, front);
      assert events + more == (events + front) + [last];
      OneMore(invocation, bundleId, events + front, last);
    }
  }

  function AtThread(s: Story, invocation: string, bundleId: string): Monitor {
    Initial(invocation, bundleId).(threadId := Some(s.threadId))
  }

  function AtRetrieval(s: Story, invocation: string, bundleId: string): Monitor {
    AtThread(s, invocation, bundleId).(retrievalItemId := Some(s.retrieval.id))
  }

  function AtAnswer(s: Story, invocation: string, bundleId: string): Monitor {
    AtRetrieval(s, invocation, bundleId).(marker := Some(s.marker), response := s.response.output)
  }

  lemma BeginningIsFollowed(s: Story, invocation: string, bundleId: string)
    requires Begins(s, invocation, bundleId)
    ensures Watched(invocation, bundleId, Beginning(s)) == AtAnswer(s, invocation, bundleId)
  {
    hide Watched, IsGoodResponse, Includes, Answers;
    assert Watched(invocation, bundleId, []) == Initial(invocation, bundleId) by {
      WatchedNothing(invocation, bundleId);
    }
    Stays(invocation, bundleId, [], s.before);
    assert [] + s.before == s.before;
    OneMore(invocation, bundleId, s.before, ThreadStarted(Some(s.threadId)));
    var started := s.before + [ThreadStarted(Some(s.threadId))];
    assert Watched(invocation, bundleId, started) == AtThread(s, invocation, bundleId);
    OnThreadStays(s, invocation, bundleId, started);
    OneMore(invocation, bundleId, started + s.onThread, ItemStarted(s.retrieval));
    var retrieving := started + s.onThread + [ItemStarted(s.retrieval)];
    RetrievingStays(s, invocation, bundleId, retrieving);
    OneMore(invocation, bundleId, retrieving + s.retrieving, ItemCompleted(s.response));
    AnswersAre(s.response, bundleId);
    ChallengeOf(s.response, bundleId, s.marker);
  }

  lemma WatchedNothing(invocation: string, bundleId: string)
    ensures Watched(invocation, bundleId, []) == Initial(invocation, bundleId)
  {
  }

  lemma ChallengeOf(item: Item, bundleId: string, marker: string)
    requires Answers(item, bundleId, marker)
    ensures item.output.Some? && item.output.value.response.Some?
            && item.output.value.response.value.challenge == Some(marker)
  {
  }

  lemma OnThreadStays(s: Story, invocation: string, bundleId: string, events: seq<Event>)
    requires Begins(s, invocation, bundleId)
    requires Watched(invocation, bundleId, events) == AtThread(s, invocation, bundleId)
    ensures Watched(invocation, bundleId, events + s.onThread) == AtThread(s, invocation, bundleId)
  {
    hide Watched, IsGoodResponse, Includes, Answers;
    var m := AtThread(s, invocation, bundleId);
    forall e | e in s.onThread ensures Consumed(m, e) == m {
      assert e in s.before + s.onThread + s.retrieving;
    }
    Stays(invocation, bundleId, events, s.onThread);
  }

  lemma RetrievingStays(s: Story, invocation: string, bundleId: string, events: seq<Event>)
    requires Begins(s, invocation, bundleId)
    requires Watched(invocation, bundleId, events) == AtRetrieval(s, invocation, bundleId)
    ensures Watched(invocation, bundleId, events + s.retrieving) == AtRetrieval(s, invocation, bundleId)
  {
    hide Watched, IsGoodResponse, Includes, Answers;
    var m := AtRetrieval(s, invocation, bundleId);
    forall e | e in s.retrieving ensures Consumed(m, e) == m {
      assert e in s.before + s.onThread + s.retrieving;
    }
    Stays(invocation, bundleId, events, s.retrieving);
  }

  function AtEcho(s: Story, invocation: string, bundleId: string): Monitor {
    AtAnswer(s, invocation, bundleId).(echoItemId := Some(s.echo.id))
  }

  lemma AnsweredStays(s: Story, invocation: string, bundleId: string, events: seq<Event>)
    requires Begins(s, invocation, bundleId) && Ends(s, invocation)
    requires Watched(invocation, bundleId, events) == AtAnswer(s, invocation, bundleId)
    ensures Watched(invocation, bundleId, events + s.answered) == AtAnswer(s, invocation, bundleId)
  {
    hide Watched, IsGoodResponse, Includes, Answers, Contains;
    var m := AtAnswer(s, invocation, bundleId);
    forall e | e in s.answered ensures Consumed(m, e) == m {
      assert e in s.answered + s.echoing;
      if e.ItemStarted? {
        IncludesIsContains(e.item.command, s.marker);
      }
    }
    Stays(invocation, bundleId, events, s.answered);
  }

  /** While the echo runs, and afterwards, only its own good completion and the end of a turn are noticed. */
  lemma {:induction false} EchoesStay(s: Story, invocation: string, bundleId: string, events: seq<Event>,
      more: seq<Event>)
    requires Begins(s, invocation, bundleId) && Ends(s, invocation) && OnlyGoodEnds(more, s.echo.id, s.marker)
    requires forall e :: e in more ==> !e.ThreadStarted?
    requires var m := Watched(invocation, bundleId, events);
      && m.(echoCompleted := false, turnCompleted := false) == AtEcho(s, invocation, bundleId)
      && (m.echoCompleted || (!m.turnCompleted && NoThreadNoTurn(more)))
    ensures var m, n := Watched(invocation, bundleId, events), Watched(invocation, bundleId, events + more);
      && n.(echoCompleted := false, turnCompleted := false) == AtEcho(s, invocation, bundleId)
      && (m.echoCompleted ==> n.echoCompleted)
      && (n.turnCompleted <==> m.turnCompleted || TurnCompleted in more)
  {
    hide Watched, IsGoodResponse, Includes, Answers, Contains;
    if more == [] {
      assert events + more == events;
    } else {
      var front, last := more[..|more| - 1], more[|more| - 1];
      assert more == front + [last] && last in more;
      EchoesStay(s, invocation, bundleId, events, front);
      assert events + more == (events + front) + [last];
      OneMore(invocation, bundleId, events + front, last);
      if last.ItemCompleted? {
        RepeatsAre(last.item, s.marker);
      }
    }
  }

  /**
   * Every stream that tells the exchange is reported, with the ids that it names and with the response; as the result
   * of a turn once a turn has ended.
   */
  lemma StoriesAreReported(s: Story, invocation: string, bundleId: string)
    requires Begins(s, invocation, bundleId) && Ends(s, invocation)
    ensures var m := Watched(invocation, bundleId, Told(s));
      var seen := Observed(bundleId, s.threadId, s.retrieval.id, s.echo.id, s.response.output.value);
      && DeliveryReady(m) == Some(seen)
      && TurnResult(m) == if TurnCompleted in s.afterwards then Some(seen) else None
  {
    hide Watched, IsGoodResponse, Includes, Contains;
    BeginningIsFollowed(s, invocation, bundleId);
    AnsweredStays(s, invocation, bundleId, Beginning(s));
    var answered := Beginning(s) + s.answered;
    OneMore(invocation, bundleId, answered, ItemStarted(s.echo));
    IncludesIsContains(s.echo.command, s.marker);
    var echoing := answered + [ItemStarted(s.echo)];
    assert Watched(invocation, bundleId, echoing) == AtEcho(s, invocation, bundleId);
    SegmentsOf(s);
    EchoesStay(s, invocation, bundleId, echoing, s.echoing);
    OneMore(invocation, bundleId, echoing + s.echoing, ItemCompleted(s.done));
    RepeatsAre(s.done, s.marker);
    var done := echoing + s.echoing + [ItemCompleted(s.done)];
    assert Watched(invocation, bundleId, done) == AtEcho(s, invocation, bundleId).(echoCompleted := true);
    EchoesStay(s, invocation, bundleId, done, s.afterwards);
    assert Told(s) == done + s.afterwards;
  }

  lemma SegmentsOf(s: Story)
    ensures forall e :: e in s.echoing ==> e in s.answered + s.echoing && e in s.echoing + s.afterwards
    ensures forall e :: e in s.afterwards ==> e in s.echoing + s.afterwards
  {
  }

  // ---- the deferred observer ----

  /** A stream whose first event starts its only thread, in a scope of its own. */
  ghost predicate HasScope(stream: seq<Event>, scopeOf: string -> Option<Scope>, scope: Scope) {
    && stream != [] && stream[0] == ThreadStarted(Some(scope.sessionId)) && 0 < |scope.sessionId| <= 160
    && scopeOf(scope.sessionId) == Some(scope)
    && forall i :: 1 <= i < |stream| ==> !stream[i].ThreadStarted?
  }

  ghost predicate IsNoise(events: seq<Event>) {
    forall e :: e in events ==> e == NotAnObject
  }

  lemma {:induction false} NoiseIsIgnored(scopeOf: string -> Option<Scope>, noise: seq<Event>)
    requires IsNoise(noise)
    ensures Deferring(scopeOf, noise) == Deferred(None, None, false)
  {
    if noise != [] {
      var front := noise[..|noise| - 1];
      assert noise[|noise| - 1] in noise && forall e :: e in front ==> e in noise;
      NoiseIsIgnored(scopeOf, front);
    }
  }

  lemma {:induction false} DeferredSees(scopeOf: string -> Option<Scope>, noise: seq<Event>, stream: seq<Event>,
      scope: Scope)
    requires IsNoise(noise) && HasScope(stream, scopeOf, scope)
    ensures Deferring(scopeOf, noise + stream) ==
            Deferred(Some(scope), Some(Watched(scope.invocation, scope.bundleId, stream)), false)
  {
    hide Consumed;
    var front, last := stream[..|stream| - 1], stream[|stream| - 1];
    assert (noise + stream)[..|noise + stream| - 1] == noise + front;
    if front == [] {
      NoiseIsIgnored(scopeOf, noise);
      assert noise + front == noise;
      WatchedNothing(scope.invocation, scope.bundleId);
    } else {
      DeferredSees(scopeOf, noise, front, scope);
      assert Consumed(Watched(scope.invocation, scope.bundleId, front), NotAnObject) ==
             Watched(scope.invocation, scope.bundleId, front) by {
        NotAnObjectIsIgnored(Watched(scope.invocation, scope.bundleId, front));
      }
    }
  }

  lemma NotAnObjectIsIgnored(m: Monitor)
    ensures Consumed(m, NotAnObject) == m
  {
  }

  /** Behind noise, the deferred observer reports every such exchange that begins with its thread. */
  lemma DeferredStoriesAreReported(scopeOf: string -> Option<Scope>, noise: seq<Event>, s: Story, scope: Scope)
    requires IsNoise(noise) && s.before == [] && s.threadId == scope.sessionId
    requires scopeOf(scope.sessionId) == Some(scope)
    requires Begins(s, scope.invocation, scope.bundleId) && Ends(s, scope.invocation)
    ensures var d := Deferring(scopeOf, noise + Told(s));
      var seen := Observed(scope.bundleId, s.threadId, s.retrieval.id, s.echo.id, s.response.output.value);
      && DeferredReady(d) == Some(seen)
      && DeferredResult(d) == if TurnCompleted in s.afterwards then Some(seen) else None
  {
    hide Deferring, DeliveryReady, TurnResult, Watched;
    StoriesAreReported(s, scope.invocation, scope.bundleId);
    ToldHasScope(s, scopeOf, scope);
    DeferredSees(scopeOf, noise, Told(s), scope);
  }

  lemma ToldHasScope(s: Story, scopeOf: string -> Option<Scope>, scope: Scope)
    requires s.before == [] && s.threadId == scope.sessionId && scopeOf(scope.sessionId) == Some(scope)
    requires Begins(s, scope.invocation, scope.bundleId) && Ends(s, scope.invocation)
    ensures HasScope(Told(s), scopeOf, scope)
  {
    hide Retrieves, Answers, Echoes, Repeats, OnlyGoodEnds, NoneEchoes, NoneStarts, NoneEnds;
    var rest := s.onThread + [ItemStarted(s.retrieval)] + s.retrieving + [ItemCompleted(s.response)] + s.answered
                + [ItemStarted(s.echo)] + s.echoing + [ItemCompleted(s.done)] + s.afterwards;
    assert Told(s) == [ThreadStarted(Some(s.threadId))] + rest;
    assert forall e :: e in s.before + s.onThread + s.retrieving <==>
                       e in s.before || e in s.onThread || e in s.retrieving;
    assert forall e :: e in s.answered + s.echoing <==> e in s.answered || e in s.echoing;
    forall e | e in rest ensures !e.ThreadStarted? {
    }
    forall i | 1 <= i < |Told(s)| ensures !Told(s)[i].ThreadStarted? {
      assert Told(s)[i] == rest[i - 1] && rest[i - 1] in rest;
    }
  }
}
