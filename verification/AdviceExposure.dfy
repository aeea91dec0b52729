/**
 * The monitor that watches a host's event stream for proof that advice was shown (src/advice/codex-exposure.ts). The
 * parse of a command's output comes with the output; the digest of a response is the response.
 */
module AdviceExposure {
  import opened Prelude

  datatype Response = Response(ready: bool, bundleIds: seq<string>, challenge: Option<string>)

  datatype Output = Output(text: string, bytes: nat, response: Option<Response>)

  datatype Item = Item(id: string, command: string, completed: bool, exitCode: Option<int>, output: Option<Output>)

  /** A thread start carries no id if the id is not a string. Every other object is unrelated. */
  datatype Event = ThreadStarted(threadId: Option<string>) | TurnCompleted | ItemStarted(item: Item)
      | ItemCompleted(item: Item)
                 | Unrelated | NotAnObject

  datatype Observed = Observed(bundleId: string, threadId: string, retrievalItemId: string, echoItemId: string,
                               response: Output)

  datatype Monitor = Monitor(invocation: string, bundleId: string, threadId: Option<string>,
                             retrievalItemId: Option<string>, echoItemId: Option<string>, marker: Option<string>,
                             response: Option<Output>, echoCompleted: bool, turnCompleted: bool, invalid: bool)

  const MAX_THREAD_ID := 160
  const MAX_OUTPUT_BYTES := 4096
  const CHALLENGE_PREFIX := "aap-challenge:"

  /** A present and non-empty string. */
  predicate IsSet(s: Option<string>) {
    s.Some? && s.value != ""
  }

  predicate Includes(s: string, part: string) {
    part <= s || (s != [] && Includes(s[1..], part))
  }

  predicate IsExactInvocation(command: string, invocation: string) {
    command == invocation || ('\'' !in invocation && command == "/bin/zsh -lc '" + invocation + "'")
  }

  predicate IsChallenge(s: string) {
    && CHALLENGE_PREFIX <= s && |s| == |CHALLENGE_PREFIX| + 32
    && forall i :: |CHALLENGE_PREFIX| <= i < |s| ==> '0' <= s[i] <= '9' || 'a' <= s[i] <= 'f'
  }

  /** The completed retrieval succeeded and carries the bundle and a challenge. */
  predicate IsGoodResponse(item: Item, bundleId: string) {
    && item.completed && item.exitCode == Some(0) && item.output.Some? && item.output.value.bytes <= MAX_OUTPUT_BYTES
    && item.output.value.response.Some?
    && var response := item.output.value.response.value;
      response.ready && bundleId in response.bundleIds && response.challenge.Some?
          && IsChallenge(response.challenge.value)
  }

  predicate IsGoodEcho(item: Item, marker: string) {
    item.completed && item.exitCode == Some(0) && Includes(item.command, marker)
  }

  function Initial(invocation: string, bundleId: string): Monitor {
    Monitor(invocation, bundleId, None, None, None, None, None, false, false, false)
  }

  predicate StartsRetrieval(m: Monitor, item: Item) {
    IsExactInvocation(item.command, m.invocation) && !IsSet(m.retrievalItemId) && IsSet(m.threadId) && m.marker.None?
  }

  predicate StartsEcho(m: Monitor, item: Item) {
    && m.marker.Some? && IsSet(m.retrievalItemId) && Some(item.id) != m.retrievalItemId
    && !IsExactInvocation(item.command, m.invocation) && Includes(item.command, m.marker.value) && !IsSet(m.echoItemId)
  }

  predicate EndsRetrieval(m: Monitor, item: Item) {
    Some(item.id) == m.retrievalItemId && IsExactInvocation(item.command, m.invocation) && m.marker.None?
  }

  function Consumed(m: Monitor, event: Event): Monitor {
    if m.invalid then m else
      match event
      case ThreadStarted(id) =>
        if IsSet(m.threadId) || id.None? || |id.value| > MAX_THREAD_ID then m.(invalid := true) else m.(threadId := id)
      case TurnCompleted => if m.echoCompleted then m.(turnCompleted := true) else m.(invalid := true)
      case ItemStarted(item) =>
        if StartsRetrieval(m, item) then m.(retrievalItemId := Some(item.id))
        else if StartsEcho(m, item) then m.(echoItemId := Some(item.id))
        else m
      case ItemCompleted(item) =>
        if EndsRetrieval(m, item) then
          if IsGoodResponse(item, m.bundleId)
          then m.(marker := item.output.value.response.value.challenge, response := item.output)
          else m.(invalid := true)
        else if Some(item.id) == m.echoItemId then
          if m.marker.Some? && IsGoodEcho(item, m.marker.value) then m.(echoCompleted := true) else m.(invalid := true)
        else m
      case Unrelated => m
      case NotAnObject => m
  }

  function DeliveryReady(m: Monitor): Option<Observed> {
    if m.invalid || !m.echoCompleted then None
    else if !IsSet(m.threadId) || !IsSet(m.retrievalItemId) || !IsSet(m.echoItemId) || m.response.None? then None
    else Some(Observed(m.bundleId, m.threadId.value, m.retrievalItemId.value, m.echoItemId.value, m.response.value))
  }

  function TurnResult(m: Monitor): Option<Observed> {
    if m.turnCompleted then DeliveryReady(m) else None
  }

  class CodexAdviceExposureObserver {
    const invocation: string
    const bundleId: string
    var threadId: Option<string>
    var retrievalItemId: Option<string>
    var echoItemId: Option<string>
    var marker: Option<string>
    var response: Option<Output>
    var echoCompleted: bool
    var turnCompleted: bool
    var invalid: bool

    constructor (invocation: string, bundleId: string)
      ensures Observation() == Initial(invocation, bundleId)
    {
      this.invocation, this.bundleId := invocation, bundleId;
      threadId, retrievalItemId, echoItemId, marker, response := None, None, None, None, None;
      echoCompleted, turnCompleted, invalid := false, false, false;
    }

    function Observation(): Monitor
      reads this
    {
      Monitor(invocation, bundleId, threadId, retrievalItemId, echoItemId, marker, response, echoCompleted,
              turnCompleted, invalid)
    }

    method Consume(event: Event)
      modifies this
      ensures Observation() == Consumed(old(Observation()), event)
    {
      if invalid {
        return;
      }
      match event
      case ThreadStarted(id) =>
        if IsSet(threadId) || id.None? || |id.value| > MAX_THREAD_ID {
          invalid := true;
        } else {
          threadId := id;
        }
      case TurnCompleted =>
        if !echoCompleted {
          invalid := true;
        } else {
          turnCompleted := true;
        }
      case ItemStarted(item) =>
        if IsExactInvocation(item.command, invocation) && !IsSet(retrievalItemId) && IsSet(threadId) && marker.None? {
          retrievalItemId := Some(item.id);
        } else if marker.Some? && IsSet(retrievalItemId) && Some(item.id) != retrievalItemId
                  && !IsExactInvocation(item.command, invocation) && Includes(item.command, marker.value)
                  && !IsSet(echoItemId) {
          echoItemId := Some(item.id);
        }
      case ItemCompleted(item) =>
        if Some(item.id) == retrievalItemId && IsExactInvocation(item.command, invocation) && marker.None? {
          if !IsGoodResponse(item, bundleId) {
            invalid := true;
            return;
          }
          marker := item.output.value.response.value.challenge;
          response := item.output;
        } else if Some(item.id) == echoItemId {
          if marker.None? || !IsGoodEcho(item, marker.value) {
            invalid := true;
          } else {
            echoCompleted := true;
          }
        }
      case Unrelated =>
      case NotAnObject =>
    }
  }

  // ---- the deferred observer, which learns its scope from the thread start ----

  datatype Scope = Scope(sessionId: string, bundleId: string, invocation: string)

  datatype Deferred = Deferred(scope: Option<Scope>, inner: Option<Monitor>, invalid: bool)

  /** `scopeOf` answers a thread start with its scope, or with nothing where it throws. */
  function DeferredConsumed(d: Deferred, event: Event, scopeOf: string -> Option<Scope>): Deferred {
    if d.invalid || event.NotAnObject? then d
    else if event.ThreadStarted? then
      if d.inner.Some? || !IsSet(event.threadId) || |event.threadId.value| > MAX_THREAD_ID then d.(invalid := true)
      else
        var scope := scopeOf(event.threadId.value);
        if scope.None? || scope.value.sessionId != event.threadId.value then d.(invalid := true)
        else Deferred(scope, Some(Consumed(Initial(scope.value.invocation, scope.value.bundleId), event)), d.invalid)
    else if d.inner.None? then d.(invalid := true)
    else d.(inner := Some(Consumed(d.inner.value, event)))
  }

  class DeferredCodexAdviceExposureObserver {
    const scopeOf: string -> Option<Scope>
    var scope: Option<Scope>
    var observer: CodexAdviceExposureObserver?
    var invalid: bool

    constructor (scopeOf: string -> Option<Scope>)
      ensures Observation() == Deferred(None, None, false) && this.scopeOf == scopeOf
      ensures observer == null
    {
      this.scopeOf := scopeOf;
      scope, observer, invalid := None, null, false;
    }

    function Observation(): Deferred
      reads this, observer
    {
      Deferred(scope, if observer == null then None else Some(observer.Observation()), invalid)
    }

    method Consume(event: Event)
      modifies this, observer
      ensures Observation() == DeferredConsumed(old(Observation()), event, scopeOf)
      ensures observer == old(observer) || fresh(observer)
    {
      if invalid || event.NotAnObject? {
        return;
      }
      if event.ThreadStarted? {
        if observer != null || !IsSet(event.threadId) || |event.threadId.value| > MAX_THREAD_ID {
          invalid := true;
          return;
        }
        var found := scopeOf(event.threadId.value);
        if found.None? || found.value.sessionId != event.threadId.value {
          invalid := true;
          return;
        }
        scope := found;
        observer := new CodexAdviceExposureObserver(found.value.invocation, found.value.bundleId);
        observer.Consume(event);
        return;
      }
      if observer == null {
        invalid := true;
        return;
      }
      observer.Consume(event);
    }
  }
}
