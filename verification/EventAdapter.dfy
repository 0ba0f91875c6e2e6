/**
 From sidecar events to AG-UI events (src/copilotkit/event-adapter.ts, 236-382).

 The adapter remembers, for every tool call that has started, the identifier it announced; the result
 of the call must carry the same one. Identifiers are fresh values, drawn from a counter; the run,
 thread and message identifiers that every event carries unchanged, and the serialisation of inputs
 and outputs to JSON, are not modelled.
 */
module EventAdapter {
  import opened Prelude

  /** An event of the sidecar; fields that are not strings read as None. */
  datatype UiEvent =
    | MessageDelta(text: string)
    | ToolStart(toolName: Option<string>, toolCallId: Option<string>, input: string)
    | ToolResult(toolName: Option<string>, toolCallId: Option<string>, result: string)
    | AgentToolStarted(toolName: Option<string>, toolCallId: Option<string>, inputPreview: Option<string>)
    | AgentToolCompleted(toolName: Option<string>, toolCallId: Option<string>, resultPreview: string, errorMessage: string)
    | ApprovalRequired(toolName: Option<string>, toolCallId: Option<string>, request: string)
    | Failure(message: string)
    | Done(answer: Option<string>)
    | Unknown

  datatype AguiEvent =
    | RunStarted
    | TextMessageStart
    | TextMessageContent(delta: string)
    | TextMessageEnd
    | ToolCallStart(toolCallId: nat, toolCallName: string)
    | ToolCallArgs(toolCallId: nat, delta: string)
    | ToolCallEnd(toolCallId: nat)
    | ToolCallResult(toolCallId: nat, messageId: nat, content: string)
    | RunFinished(result: Option<string>)
    | RunError(message: string)

  datatype Adapter = Adapter(toolCallIdByKey: map<string, nat>, nextId: nat)

  const NEW_ADAPTER := Adapter(map[], 0)

  function NameOf(toolName: Option<string>): string {
    if toolName.Some? then toolName.value else "unknown"
  }

  function KeyOf(toolCallId: Option<string>, toolName: Option<string>): string {
    if toolCallId.Some? then toolCallId.value else NameOf(toolName)
  }

  predicate Starts(event: UiEvent) {
    event.ToolStart? || event.AgentToolStarted? || event.ApprovalRequired?
  }

  predicate Completes(event: UiEvent) {
    event.ToolResult? || event.AgentToolCompleted?
  }

  /** The key under which a tool call is remembered. */
  function Key(event: UiEvent): string
    requires Starts(event) || Completes(event)
  {
    KeyOf(event.toolCallId, event.toolName)
  }

  function Announcement(event: UiEvent, id: nat): seq<AguiEvent>
    requires Starts(event)
  {
    var name := NameOf(event.toolName);
    match event
    case ToolStart(_, _, input) => [ToolCallStart(id, name), ToolCallArgs(id, input)]
    case AgentToolStarted(_, _, preview) =>
      [ToolCallStart(id, name), ToolCallArgs(id, if preview.Some? then preview.value else "{}")]
    case ApprovalRequired(_, _, request) => [ToolCallStart(id, "approve." + name), ToolCallArgs(id, request)]
  }

  function Outcome(event: UiEvent): string
    requires Completes(event)
  {
    match event
    case ToolResult(_, _, result) => result
    case AgentToolCompleted(_, _, result, error) => if result != "" then result else error
  }

  function GetOrCreate(a: Adapter, key: string): (Adapter, nat) {
    if key in a.toolCallIdByKey then (a, a.toolCallIdByKey[key])
    else (Adapter(a.toolCallIdByKey[key := a.nextId], a.nextId + 1), a.nextId)
  }

  /** Forgets the key; an unknown one gets a fresh identifier. */
  function Consume(a: Adapter, key: string): (Adapter, nat) {
    if key in a.toolCallIdByKey then (a.(toolCallIdByKey := a.toolCallIdByKey - {key}), a.toolCallIdByKey[key])
    else (a.(nextId := a.nextId + 1), a.nextId)
  }

  function Convert(a: Adapter, event: UiEvent): (Adapter, seq<AguiEvent>) {
    if Starts(event) then
      var (b, id) := GetOrCreate(a, Key(event));
      (b, Announcement(event, id))
    else if Completes(event) then
      var (b, id) := Consume(a, Key(event));
      (b.(nextId := b.nextId + 1), [ToolCallEnd(id), ToolCallResult(id, b.nextId, Outcome(event))])
    else
      match event
      case MessageDelta(text) => (a, if text != "" then [TextMessageContent(text)] else [])
      case Failure(message) => (a, [RunError(message)])
      case _ => (a, [])
  }

  function ConvertAll(a: Adapter, events: seq<UiEvent>): Adapter
    decreases events
  {
    if events == [] then a else ConvertAll(Convert(a, events[0]).0, events[1..])
  }

  // ---------------------------------------------------------------------------
  // Tool call identifiers
  // ---------------------------------------------------------------------------

  /** Identifiers come from the past, and different open keys have different ones. */
  ghost predicate Sound(a: Adapter) {
    && (forall k :: k in a.toolCallIdByKey ==> a.toolCallIdByKey[k] < a.nextId)
    && (forall j, k :: j in a.toolCallIdByKey && k in a.toolCallIdByKey && a.toolCallIdByKey[j] == a.toolCallIdByKey[k] ==> j == k)
  }

  lemma ConvertKeepsSound(a: Adapter, event: UiEvent)
    requires Sound(a)
    ensures Sound(Convert(a, event).0) && a.nextId <= Convert(a, event).0.nextId
  {
  }

  lemma {:induction false} ConvertAllKeepsSound(a: Adapter, events: seq<UiEvent>)
    requires Sound(a)
    ensures Sound(ConvertAll(a, events)) && a.nextId <= ConvertAll(a, events).nextId
    decreases events
  {
    if events != [] {
      ConvertKeepsSound(a, events[0]);
      ConvertAllKeepsSound(Convert(a, events[0]).0, events[1..]);
    }
  }

  lemma {:induction false} OpenKeyIsKept(a: Adapter, key: string, events: seq<UiEvent>)
    requires key in a.toolCallIdByKey
    requires forall i :: 0 <= i < |events| && Completes(events[i]) ==> Key(events[i]) != key
    ensures var b := ConvertAll(a, events); key in b.toolCallIdByKey && b.toolCallIdByKey[key] == a.toolCallIdByKey[key]
    decreases events
  {
    if events != [] {
      OpenKeyIsKept(Convert(a, events[0]).0, key, events[1..]);
    }
  }

  /** The result of a tool call carries the identifier its start announced, whatever comes in between,
      and that identifier is not the one of any other open call. */
  lemma ResultCarriesAnnouncedId(a: Adapter, start: UiEvent, between: seq<UiEvent>, completion: UiEvent)
    requires Sound(a) && Starts(start) && Completes(completion) && Key(start) == Key(completion)
    requires forall i :: 0 <= i < |between| && Completes(between[i]) ==> Key(between[i]) != Key(start)
    ensures var (b, started) := Convert(a, start);
            var c := ConvertAll(b, between);
            var completed := Convert(c, completion).1;
            && started[0].ToolCallStart? && completed[0].ToolCallEnd? && completed[1].ToolCallResult?
            && started[0].toolCallId == started[1].toolCallId == completed[0].toolCallId == completed[1].toolCallId
            && (forall k :: k in c.toolCallIdByKey && k != Key(start) ==> c.toolCallIdByKey[k] != started[0].toolCallId)
  {
    var b := Convert(a, start).0;
    ConvertKeepsSound(a, start);
    ConvertAllKeepsSound(b, between);
    OpenKeyIsKept(b, Key(start), between);
  }

  /** The identifiers of an emitted event were drawn before `n`. */
  predicate IdsBelow(event: AguiEvent, n: nat) {
    match event
    case ToolCallStart(id, _) => id < n
    case ToolCallArgs(id, _) => id < n
    case ToolCallEnd(id) => id < n
    case ToolCallResult(id, messageId, _) => id < n && messageId < n
    case _ => true
  }

  ghost predicate AllIdsBelow(output: seq<AguiEvent>, n: nat) {
    forall i :: 0 <= i < |output| ==> IdsBelow(output[i], n)
  }

  /** All that a list of events becomes. */
  function Emitted(a: Adapter, events: seq<UiEvent>): seq<AguiEvent>
    decreases events
  {
    if events == [] then [] else Convert(a, events[0]).1 + Emitted(Convert(a, events[0]).0, events[1..])
  }

  lemma ConvertIdsBelow(a: Adapter, event: UiEvent)
    requires Sound(a)
    ensures AllIdsBelow(Convert(a, event).1, Convert(a, event).0.nextId)
  {
  }

  /** Every identifier that has been emitted comes from the past. */
  lemma {:induction false} EmittedIdsBelow(a: Adapter, events: seq<UiEvent>)
    requires Sound(a)
    ensures AllIdsBelow(Emitted(a, events), ConvertAll(a, events).nextId)
    decreases events
  {
    if events != [] {
      var b := Convert(a, events[0]).0;
      ConvertKeepsSound(a, events[0]);
      ConvertIdsBelow(a, events[0]);
      EmittedIdsBelow(b, events[1..]);
      ConvertAllKeepsSound(b, events[1..]);
      var first, rest, n := Convert(a, events[0]).1, Emitted(b, events[1..]), ConvertAll(a, events).nextId;
      forall i | 0 <= i < |first + rest| ensures IdsBelow((first + rest)[i], n) {
        if i < |first| {
          assert IdsBelow(first[i], b.nextId);
        } else {
          assert (first + rest)[i] == rest[i - |first|];
        }
      }
    }
  }

  /** A call that is not open is announced with an identifier that was never emitted before. */
  lemma NewCallGetsUnusedId(a: Adapter, events: seq<UiEvent>, start: UiEvent)
    requires Sound(a) && Starts(start) && Key(start) !in ConvertAll(a, events).toolCallIdByKey
    ensures var started := Convert(ConvertAll(a, events), start).1;
            && started[0].ToolCallStart? && started[0].toolCallId == ConvertAll(a, events).nextId
            && AllIdsBelow(Emitted(a, events), started[0].toolCallId)
  {
    EmittedIdsBelow(a, events);
  }

  /** After its result a call is closed: starting it again announces an identifier that was never used, from
      the start of the run on. */
  lemma CompletedCallGetsNewId(a: Adapter, completion: UiEvent, between: seq<UiEvent>, start: UiEvent)
    requires Sound(a) && Starts(start) && Completes(completion) && Key(start) == Key(completion)
    requires forall i :: 0 <= i < |between| && Starts(between[i]) ==> Key(between[i]) != Key(start)
    ensures var events := [completion] + between;
            var started := Convert(ConvertAll(a, events), start).1;
            && started[0].ToolCallStart? && started[0].toolCallId >= a.nextId
            && AllIdsBelow(Emitted(a, events), started[0].toolCallId)
  {
    var events := [completion] + between;
    assert events[1..] == between;
    ConvertAllKeepsSound(a, events);
    ClosedKeyStaysClosed(Convert(a, completion).0, Key(start), between);
    NewCallGetsUnusedId(a, events, start);
  }

  lemma {:induction false} ClosedKeyStaysClosed(a: Adapter, key: string, events: seq<UiEvent>)
    requires key !in a.toolCallIdByKey
    requires forall i :: 0 <= i < |events| && Starts(events[i]) ==> Key(events[i]) != key
    ensures key !in ConvertAll(a, events).toolCallIdByKey
    decreases events
  {
    if events != [] {
      ClosedKeyStaysClosed(Convert(a, events[0]).0, key, events[1..]);
    }
  }

  // ---------------------------------------------------------------------------
  // The adapter object
  // ---------------------------------------------------------------------------

  class SidecarEventAdapter {
    var toolCallIdByKey: map<string, nat>
    var nextId: nat

    ghost function View(): Adapter
      reads this
    {
      Adapter(toolCallIdByKey, nextId)
    }

    constructor ()
      ensures View() == NEW_ADAPTER
    {
      toolCallIdByKey, nextId := map[], 0;
    }

    method GenerateId() returns (id: nat)
      modifies this
      ensures id == old(nextId) && View() == old(View()).(nextId := old(nextId) + 1)
    {
      id := nextId;
      nextId := nextId + 1;
    }

    method GetOrCreateToolCallId(key: string) returns (id: nat, isNew: bool)
      modifies this
      ensures (View(), id) == GetOrCreate(old(View()), key) && isNew == (key !in old(toolCallIdByKey))
    {
      if key in toolCallIdByKey {
        return toolCallIdByKey[key], false;
      }
      id := GenerateId();
      toolCallIdByKey := toolCallIdByKey[key := id];
      isNew := true;
    }

    method ConsumeToolCallId(key: string) returns (id: nat)
      modifies this
      ensures (View(), id) == Consume(old(View()), key)
    {
      if key in toolCallIdByKey {
        id := toolCallIdByKey[key];
        toolCallIdByKey := toolCallIdByKey - {key};
        return;
      }
      id := GenerateId();
    }

    method ConvertEvent(event: UiEvent) returns (events: seq<AguiEvent>)
      modifies this
      ensures (View(), events) == Convert(old(View()), event)
    {
      events := [];
      match event {
        case MessageDelta(text) =>
          if text != "" {
            events := [TextMessageContent(text)];
          }
        case ToolStart(_, _, _) =>
          var id, _ := GetOrCreateToolCallId(Key(event));
          events := Announcement(event, id);
        case AgentToolStarted(_, _, _) =>
          var id, _ := GetOrCreateToolCallId(Key(event));
          events := Announcement(event, id);
        case ApprovalRequired(_, _, _) =>
          var id, _ := GetOrCreateToolCallId(Key(event));
          events := Announcement(event, id);
        case ToolResult(_, _, _) =>
          events := Completion(event);
        case AgentToolCompleted(_, _, _, _) =>
          events := Completion(event);
        case Failure(message) =>
          events := [RunError(message)];
        case Done(_) =>
        case Unknown =>
      }
    }

    method Completion(event: UiEvent) returns (events: seq<AguiEvent>)
      requires Completes(event)
      modifies this
      ensures (View(), events) == Convert(old(View()), event)
    {
      var toolCallId := ConsumeToolCallId(Key(event));
      events := [ToolCallEnd(toolCallId)];
      var messageId := GenerateId();
      events := events + [ToolCallResult(toolCallId, messageId, Outcome(event))];
      assert events == [ToolCallEnd(toolCallId), ToolCallResult(toolCallId, messageId, Outcome(event))];
    }
  }
}
