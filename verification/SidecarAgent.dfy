/**
 One run of the sidecar agent (src/copilotkit/sidecar-agent.ts, 91-294).

 Stream payloads that arrive before the chat request has answered are kept, because the session they
 belong to is not known yet; the answer replays those of its own session, then the events in its own
 body, and later payloads are handled as they come. Every callback is one atomic step, and nothing is
 assumed about their order: a run of the machine is any sequence of events. A consumer that tears the
 run down from inside an emission is not part of this model.
 */
module SidecarAgent {
  import opened Prelude
  import opened EventAdapter

  datatype Payload = Payload(sessionId: string, event: UiEvent)

  datatype Event =
    | SubscriptionReady(ok: bool)
    | StreamPayload(payload: Payload)
    | ChatResponse(sessionId: string, events: seq<UiEvent>, answer: Option<string>)
    | ChatFailed(message: string)
    | Abort

  /** The chat request: not sent before the subscription has been attempted, answered at most once. */
  datatype Chat = NotSent | Waiting | Settled

  /** `output` and `completions` are what the subscriber has seen; `hasUnlisten` is the listener's handle
      and `unlistened` how often it was used. */
  datatype State = State(
    isActive: bool,
    finished: bool,
    activeSessionId: Option<string>,
    pendingStreamEvents: seq<Payload>,
    adapter: Adapter,
    chat: Chat,
    hasUnlisten: bool,
    unlistened: nat,
    output: seq<AguiEvent>,
    completions: nat)

  const HEADER: seq<AguiEvent> := [RunStarted, TextMessageStart]

  const INITIAL := State(true, false, None, [], NEW_ADAPTER, NotSent, false, 0, HEADER, 0)

  // ---------------------------------------------------------------------------
  // Steps
  // ---------------------------------------------------------------------------

  function Terminate(s: State, last: seq<AguiEvent>): State {
    if s.finished then s
    else s.(finished := true, isActive := false, output := s.output + last, completions := s.completions + 1)
  }

  function Finished(s: State, answer: Option<string>): State {
    Terminate(s, [TextMessageEnd, RunFinished(answer)])
  }

  function Failed(s: State, message: string): State {
    Terminate(s, [TextMessageEnd, RunError(message)])
  }

  /** Converts one event and emits what it becomes. */
  function Emit(s: State, event: UiEvent): State {
    var (adapter, events) := Convert(s.adapter, event);
    s.(adapter := adapter, output := s.output + events)
  }

  /** A payload of the run's own session. */
  function Process(s: State, event: UiEvent): State {
    match event
    case Done(answer) => Finished(Emit(s, event), answer)
    case Failure(message) => Failed(Emit(s, event), message)
    case _ => Emit(s, event)
  }

  function Handled(s: State, payload: Payload): State {
    if !s.isActive then s
    else if s.activeSessionId.None? then s.(pendingStreamEvents := s.pendingStreamEvents + [payload])
    else if payload.sessionId != s.activeSessionId.value then s
    else Process(s, payload.event)
  }

  function Replay(s: State, buffered: seq<Payload>): State
    decreases buffered
  {
    if buffered == [] || !s.isActive then s
    else Replay(if s.activeSessionId == Some(buffered[0].sessionId) then Handled(s, buffered[0]) else s, buffered[1..])
  }

  function EmitEmbedded(s: State, events: seq<UiEvent>): State
    decreases events
  {
    if events == [] || !s.isActive then s else EmitEmbedded(Emit(s, events[0]), events[1..])
  }

  function Respond(s: State, response: Event): State
    requires response.ChatResponse?
  {
    var known := s.(activeSessionId := Some(response.sessionId), pendingStreamEvents := []);
    var replayed := EmitEmbedded(Replay(known, s.pendingStreamEvents), response.events);
    if replayed.isActive && response.answer.Some? then Finished(replayed, response.answer) else replayed
  }

  function Cleanup(s: State): State {
    if !s.isActive && s.finished then s
    else if s.hasUnlisten then s.(isActive := false, hasUnlisten := false, unlistened := s.unlistened + 1)
    else s.(isActive := false)
  }

  function Ready(s: State, ok: bool): State {
    var sent := s.(chat := if s.isActive then Waiting else Settled);
    if !ok then sent
    else if !s.isActive then sent.(unlistened := s.unlistened + 1)
    else sent.(hasUnlisten := true)
  }

  /** An event that cannot happen now (a second answer, an answer before the request) changes nothing. */
  function Step(s: State, event: Event): State {
    match event
    case SubscriptionReady(ok) => if s.chat.NotSent? then Ready(s, ok) else s
    case StreamPayload(payload) => Handled(s, payload)
    case ChatResponse(_, _, _) =>
      if !s.chat.Waiting? then s
      else if !s.isActive then s.(chat := Settled) else Respond(s.(chat := Settled), event)
    case ChatFailed(message) =>
      if !s.chat.Waiting? then s
      else if !s.isActive then s.(chat := Settled) else Failed(s.(chat := Settled), message)
    case Abort => Cleanup(s)
  }

  function Play(s: State, events: seq<Event>): State
    decreases events
  {
    if events == [] then s else Play(Step(s, events[0]), events[1..])
  }

  lemma {:induction false} PlayConcat(s: State, a: seq<Event>, b: seq<Event>)
    ensures Play(s, a + b) == Play(Play(s, a), b)
    decreases a
  {
    if a == [] {
      assert a + b == b;
    } else {
      assert (a + b)[1..] == a[1..] + b;
      PlayConcat(Step(s, a[0]), a[1..], b);
    }
  }

  lemma PlayAround(s: State, before: seq<Event>, event: Event, after: seq<Event>)
    ensures Play(s, before + [event] + after) == Play(Step(Play(s, before), event), after)
  {
    PlayConcat(s, before + [event], after);
    PlayConcat(s, before, [event]);
    assert [event][1..] == [];
  }

  // ---------------------------------------------------------------------------
  // The reference: a run without a buffer
  // ---------------------------------------------------------------------------

  /** What a run has to deal with once its session is known. */
  datatype Item = Streamed(event: UiEvent) | Embedded(event: UiEvent) | Answer(answer: string) | Fault(message: string)

  predicate IsLast(item: Item) {
    item.Answer? || item.Fault? || (item.Streamed? && (item.event.Done? || item.event.Failure?))
  }

  /** One of the items ends the run. */
  ghost predicate Ends(items: seq<Item>) {
    exists i :: 0 <= i < |items| && IsLast(items[i])
  }

  lemma EndsCons(items: seq<Item>)
    requires items != []
    ensures Ends(items) == (IsLast(items[0]) || Ends(items[1..]))
  {
    if i :| 0 <= i < |items| && IsLast(items[i]) {
      assert i > 0 ==> items[1..][i - 1] == items[i];
    }
    if i :| 0 <= i < |items[1..]| && IsLast(items[1..][i]) {
      assert items[i + 1] == items[1..][i];
    }
  }

  /** What is emitted for the items, one after the other, up to the first that ends the run. */
  function Emission(a: Adapter, items: seq<Item>): seq<AguiEvent>
    decreases items
  {
    if items == [] then []
    else
      match items[0]
      case Answer(answer) => [TextMessageEnd, RunFinished(Some(answer))]
      case Fault(message) => [TextMessageEnd, RunError(message)]
      case Embedded(event) => Convert(a, event).1 + Emission(Convert(a, event).0, items[1..])
      case Streamed(event) =>
        Convert(a, event).1
        + match event
          case Done(answer) => [TextMessageEnd, RunFinished(answer)]
          case Failure(message) => [TextMessageEnd, RunError(message)]
          case _ => Emission(Convert(a, event).0, items[1..])
  }

  /** The payloads of one session, in the order of arrival. */
  function OwnPayloads(payloads: seq<Payload>, sessionId: string): seq<Item> {
    if payloads == [] then []
    else (if payloads[0].sessionId == sessionId then [Streamed(payloads[0].event)] else []) + OwnPayloads(payloads[1..], sessionId)
  }

  function PayloadsOf(events: seq<Event>): seq<Payload> {
    if events == [] then []
    else (if events[0].StreamPayload? then [events[0].payload] else []) + PayloadsOf(events[1..])
  }

  function EmbeddedItems(events: seq<UiEvent>): seq<Item> {
    seq(|events|, i requires 0 <= i < |events| => Embedded(events[i]))
  }

  function ResponseItems(response: Event): seq<Item>
    requires response.ChatResponse?
  {
    EmbeddedItems(response.events) + if response.answer.Some? then [Answer(response.answer.value)] else []
  }

  function ProcessItem(s: State, item: Item): State {
    match item
    case Streamed(event) => Process(s, event)
    case Embedded(event) => Emit(s, event)
    case Answer(answer) => Finished(s, Some(answer))
    case Fault(message) => Failed(s, message)
  }

  function ProcessAll(s: State, items: seq<Item>): State
    decreases items
  {
    if items == [] || !s.isActive then s else ProcessAll(ProcessItem(s, items[0]), items[1..])
  }

  lemma {:induction false} ProcessConcat(s: State, a: seq<Item>, b: seq<Item>)
    ensures ProcessAll(s, a + b) == ProcessAll(ProcessAll(s, a), b)
    decreases a
  {
    if a == [] {
      assert a + b == b;
    } else if s.isActive {
      assert (a + b)[1..] == a[1..] + b;
      ProcessConcat(ProcessItem(s, a[0]), a[1..], b);
    }
  }

  /** A run that is going on: not finished, its session known. */
  predicate Running(s: State, sessionId: string) {
    s.activeSessionId == Some(sessionId) && s.isActive == !s.finished
  }

  lemma ItemKeepsRunning(s: State, item: Item, sessionId: string)
    requires Running(s, sessionId)
    ensures Running(ProcessItem(s, item), sessionId) && ProcessItem(s, item).chat == s.chat
  {
  }

  lemma {:induction false} ItemsKeepRunning(s: State, items: seq<Item>, sessionId: string)
    requires Running(s, sessionId)
    ensures Running(ProcessAll(s, items), sessionId) && ProcessAll(s, items).chat == s.chat
    decreases items
  {
    if items != [] && s.isActive {
      ItemKeepsRunning(s, items[0], sessionId);
      ItemsKeepRunning(ProcessItem(s, items[0]), items[1..], sessionId);
    }
  }

  lemma {:induction false} ReplayIsProcessing(s: State, buffered: seq<Payload>, sessionId: string)
    requires Running(s, sessionId)
    ensures Replay(s, buffered) == ProcessAll(s, OwnPayloads(buffered, sessionId))
    decreases buffered
  {
    if buffered != [] && s.isActive {
      var rest := OwnPayloads(buffered[1..], sessionId);
      if buffered[0].sessionId == sessionId {
        var item := Streamed(buffered[0].event);
        assert ([item] + rest)[1..] == rest;
        ItemKeepsRunning(s, item, sessionId);
        ReplayIsProcessing(Process(s, buffered[0].event), buffered[1..], sessionId);
      } else {
        assert [] + rest == rest;
        ReplayIsProcessing(s, buffered[1..], sessionId);
      }
    }
  }

  lemma {:induction false} EmbeddedIsProcessing(s: State, events: seq<UiEvent>)
    ensures EmitEmbedded(s, events) == ProcessAll(s, EmbeddedItems(events))
    decreases events
  {
    if events != [] && s.isActive {
      assert EmbeddedItems(events)[1..] == EmbeddedItems(events[1..]);
      EmbeddedIsProcessing(Emit(s, events[0]), events[1..]);
    }
  }

  lemma RespondIsProcessing(s: State, response: Event)
    requires response.ChatResponse? && s.isActive && !s.finished
    ensures Respond(s, response)
         == ProcessAll(s.(activeSessionId := Some(response.sessionId), pendingStreamEvents := []),
                       OwnPayloads(s.pendingStreamEvents, response.sessionId) + ResponseItems(response))
  {
    var known := s.(activeSessionId := Some(response.sessionId), pendingStreamEvents := []);
    var own, body := OwnPayloads(s.pendingStreamEvents, response.sessionId), EmbeddedItems(response.events);
    var answer := if response.answer.Some? then [Answer(response.answer.value)] else [];
    ReplayIsProcessing(known, s.pendingStreamEvents, response.sessionId);
    EmbeddedIsProcessing(ProcessAll(known, own), response.events);
    ProcessConcat(known, own, body + answer);
    ProcessConcat(ProcessAll(known, own), body, answer);
  }

  /** While the run is active, processing emits what the reference says. */
  lemma {:induction false} ProcessEmits(s: State, items: seq<Item>)
    requires s.isActive && !s.finished
    ensures ProcessAll(s, items).output == s.output + Emission(s.adapter, items)
    ensures ProcessAll(s, items).completions == s.completions + if Ends(items) then 1 else 0
    decreases items
  {
    if items == [] {
      assert s.output + [] == s.output;
    } else {
      EndsCons(items);
      assert items == [items[0]] + items[1..];
      if IsLast(items[0]) {
        EndingItem(s, items[0], items[1..]);
      } else {
        PassingItem(s, items[0], items[1..]);
        ProcessEmits(ProcessItem(s, items[0]), items[1..]);
      }
    }
  }

  lemma PassingItem(s: State, item: Item, rest: seq<Item>)
    requires s.isActive && !s.finished && !IsLast(item)
    ensures var next := ProcessItem(s, item);
            && next.isActive && !next.finished && next.completions == s.completions
            && ProcessAll(s, [item] + rest) == ProcessAll(next, rest)
            && next.output + Emission(next.adapter, rest) == s.output + Emission(s.adapter, [item] + rest)
  {
    var items := [item] + rest;
    assert items[1..] == rest;
    var (adapter, out) := Convert(s.adapter, item.event);
    assert Emission(s.adapter, items) == out + Emission(adapter, rest);
    assert (s.output + out) + Emission(adapter, rest) == s.output + (out + Emission(adapter, rest));
  }

  lemma EndingItem(s: State, item: Item, rest: seq<Item>)
    requires s.isActive && !s.finished && IsLast(item)
    ensures ProcessAll(s, [item] + rest) == ProcessItem(s, item)
    ensures ProcessItem(s, item).output == s.output + Emission(s.adapter, [item] + rest)
    ensures ProcessItem(s, item).completions == s.completions + 1
  {
  }

  // ---------------------------------------------------------------------------
  // Buffering is transparent
  // ---------------------------------------------------------------------------

  ghost predicate NoAbort(events: seq<Event>) {
    forall i :: 0 <= i < |events| ==> !events[i].Abort?
  }

  predicate IsAnswer(event: Event) {
    event.ChatResponse? || event.ChatFailed?
  }

  /** The subscription has been attempted, so that the request has been sent. */
  predicate Requested(events: seq<Event>) {
    events != [] && (events[0].SubscriptionReady? || Requested(events[1..]))
  }

  /** The place of the answer: the first one after the request. */
  function AnswerAt(events: seq<Event>, requested: bool): (at: Option<nat>)
    ensures at.Some? ==> at.value < |events| && IsAnswer(events[at.value])
    decreases events
  {
    if events == [] then None
    else if requested && IsAnswer(events[0]) then Some(0)
    else
      match AnswerAt(events[1..], requested || events[0].SubscriptionReady?)
      case Some(i) => Some(i + 1)
      case None => None
  }

  /** Until the answer everything is kept and nothing is emitted. */
  lemma {:induction false} EarlyPayloadsAreKept(s: State, early: seq<Event>)
    requires s.isActive && !s.finished && s.activeSessionId.None? && !s.chat.Settled?
    requires NoAbort(early) && AnswerAt(early, s.chat.Waiting?).None?
    ensures Play(s, early) == KeptSince(s, early, Play(s, early))
    ensures Play(s, early).chat == if s.chat.Waiting? || Requested(early) then Waiting else NotSent
    decreases early
  {
    if early == [] {
      assert s.pendingStreamEvents + [] == s.pendingStreamEvents;
    } else {
      var next := Step(s, early[0]);
      EarlyStep(s, early[0]);
      EarlyPayloadsAreKept(next, early[1..]);
      if early[0].StreamPayload? {
        ConcatAssociates(s.pendingStreamEvents, [early[0].payload], PayloadsOf(early[1..]));
      } else {
        assert [] + PayloadsOf(early[1..]) == PayloadsOf(early[1..]);
      }
    }
  }

  /** `t` is `s` with the payloads of the events kept, but for the request and the listener. */
  function KeptSince(s: State, early: seq<Event>, t: State): State {
    s.(pendingStreamEvents := s.pendingStreamEvents + PayloadsOf(early), chat := t.chat, hasUnlisten := t.hasUnlisten)
  }

  lemma EarlyStep(s: State, event: Event)
    requires s.isActive && !s.finished && s.activeSessionId.None? && !s.chat.Settled?
    requires !event.Abort? && (IsAnswer(event) ==> !s.chat.Waiting?)
    ensures var next := Step(s, event);
            && next == s.(pendingStreamEvents := next.pendingStreamEvents, chat := next.chat, hasUnlisten := next.hasUnlisten)
            && next.pendingStreamEvents == s.pendingStreamEvents + (if event.StreamPayload? then [event.payload] else [])
            && next.chat == if s.chat.Waiting? || event.SubscriptionReady? then Waiting else NotSent
  {
    assert s.pendingStreamEvents + [] == s.pendingStreamEvents;
  }

  /** After the answer every payload is handled as it comes. */
  lemma {:induction false} LateIsProcessing(s: State, late: seq<Event>, sessionId: string)
    requires Running(s, sessionId) && s.chat.Settled? && NoAbort(late)
    ensures Play(s, late) == ProcessAll(s, OwnPayloads(PayloadsOf(late), sessionId))
    decreases late
  {
    if late != [] {
      var next := Step(s, late[0]);
      var rest := OwnPayloads(PayloadsOf(late[1..]), sessionId);
      if late[0].StreamPayload? {
        var payload := late[0].payload;
        assert ([payload] + PayloadsOf(late[1..]))[1..] == PayloadsOf(late[1..]);
        LateStep(s, payload, rest, sessionId);
      } else {
        assert [] + PayloadsOf(late[1..]) == PayloadsOf(late[1..]);
      }
      LateIsProcessing(next, late[1..], sessionId);
    }
  }

  lemma LateStep(s: State, payload: Payload, rest: seq<Item>, sessionId: string)
    requires Running(s, sessionId)
    ensures var next := Handled(s, payload);
            && Running(next, sessionId) && next.chat == s.chat
            && ProcessAll(next, rest)
            == ProcessAll(s, (if payload.sessionId == sessionId then [Streamed(payload.event)] else []) + rest)
  {
    if payload.sessionId == sessionId {
      var item := Streamed(payload.event);
      assert ([item] + rest)[1..] == rest;
      if s.isActive {
        ItemKeepsRunning(s, item, sessionId);
      }
    } else {
      assert [] + rest == rest;
    }
  }

  /** All that a run with this answer has to deal with: its own early payloads, the body of the answer, its
      own late payloads. */
  function ItemsOf(early: seq<Event>, response: Event, late: seq<Event>): seq<Item>
    requires response.ChatResponse?
  {
    OwnPayloads(PayloadsOf(early), response.sessionId) + ResponseItems(response)
    + OwnPayloads(PayloadsOf(late), response.sessionId)
  }

  /** Buffering cannot be seen: whatever arrives before and after the answer, and from whatever session, a
      run emits what its own items become, in order, up to the first that ends it; and it completes
      exactly if there is one that ends it. */
  lemma BufferingIsTransparent(early: seq<Event>, response: Event, late: seq<Event>)
    requires AnswerAt(early, false).None? && Requested(early) && NoAbort(early)
    requires response.ChatResponse? && NoAbort(late)
    ensures var t := Play(INITIAL, early + [response] + late);
            var items := ItemsOf(early, response, late);
            && t.output == HEADER + Emission(NEW_ADAPTER, items)
            && t.completions == if Ends(items) then 1 else 0
  {
    EarlyPayloadsAreKept(INITIAL, early);
    assert Play(INITIAL, early).pendingStreamEvents == PayloadsOf(early);
    PlayAround(INITIAL, early, response, late);
    AnswerIsProcessed(Play(INITIAL, early), response, late);
  }

  lemma AnswerIsProcessed(s: State, response: Event, late: seq<Event>)
    requires s.isActive && !s.finished && s.chat.Waiting? && response.ChatResponse? && NoAbort(late)
    ensures var t := Play(Step(s, response), late);
            var items := OwnPayloads(s.pendingStreamEvents, response.sessionId) + ResponseItems(response)
                         + OwnPayloads(PayloadsOf(late), response.sessionId);
            && t.output == s.output + Emission(s.adapter, items)
            && t.completions == s.completions + if Ends(items) then 1 else 0
  {
    var asked := s.(chat := Settled);
    RespondIsProcessing(asked, response);
    var known := asked.(activeSessionId := Some(response.sessionId), pendingStreamEvents := []);
    var first, second := OwnPayloads(s.pendingStreamEvents, response.sessionId) + ResponseItems(response),
                         OwnPayloads(PayloadsOf(late), response.sessionId);
    ItemsKeepRunning(known, first, response.sessionId);
    LateIsProcessing(ProcessAll(known, first), late, response.sessionId);
    ProcessConcat(known, first, second);
    ProcessEmits(known, first + second);
  }

  // ---------------------------------------------------------------------------
  // Every sequence of events
  // ---------------------------------------------------------------------------

  function Occurrences(output: seq<AguiEvent>, event: AguiEvent): nat {
    if output == [] then 0 else Occurrences(output[..|output| - 1], event) + if output[|output| - 1] == event then 1 else 0
  }

  lemma {:induction false} OccurrencesConcat(a: seq<AguiEvent>, b: seq<AguiEvent>, event: AguiEvent)
    ensures Occurrences(a + b, event) == Occurrences(a, event) + Occurrences(b, event)
  {
    if b == [] {
      assert a + b == a;
    } else {
      assert (a + b)[..|a + b| - 1] == a + b[..|b| - 1];
      OccurrencesConcat(a, b[..|b| - 1], event);
    }
  }

  lemma {:induction false} NoOccurrence(output: seq<AguiEvent>, event: AguiEvent)
    requires event !in output
    ensures Occurrences(output, event) == 0
  {
    if output != [] {
      NoOccurrence(output[..|output| - 1], event);
    }
  }

  /** The frame of a run: the text message is closed exactly when the run is finished, once; the observable
      has completed exactly then, once; the last event is then a verdict; the listener is dropped exactly
      for runs that were torn down unfinished. */
  ghost predicate Framed(s: State) {
    && HEADER <= s.output
    && Occurrences(s.output, TextMessageEnd) == s.completions == (if s.finished then 1 else 0)
    && (s.finished ==> !s.isActive && VerdictLast(s.output))
    && (s.isActive || s.finished ==> s.unlistened == 0)
    && (!s.isActive && !s.finished ==> !s.hasUnlisten)
    && (s.activeSessionId.Some? || s.finished ==> s.chat.Settled?)
  }

  ghost predicate VerdictLast(output: seq<AguiEvent>) {
    |output| >= 2 && output[|output| - 2] == TextMessageEnd && (output[|output| - 1].RunFinished? || output[|output| - 1].RunError?)
  }

  lemma ConvertNeverCloses(a: Adapter, event: UiEvent)
    ensures TextMessageEnd !in Convert(a, event).1
  {
  }

  lemma EmitFramed(s: State, event: UiEvent)
    requires Framed(s) && s.isActive
    ensures Framed(Emit(s, event)) && Emit(s, event).isActive && !Emit(s, event).finished
  {
    var events := Convert(s.adapter, event).1;
    ConvertNeverCloses(s.adapter, event);
    NoOccurrence(events, TextMessageEnd);
    OccurrencesConcat(s.output, events, TextMessageEnd);
  }

  lemma TerminateFramed(s: State, verdict: AguiEvent)
    requires Framed(s) && s.isActive && s.chat.Settled? && (verdict.RunFinished? || verdict.RunError?)
    ensures Framed(Terminate(s, [TextMessageEnd, verdict]))
  {
    OccurrencesConcat(s.output, [TextMessageEnd, verdict], TextMessageEnd);
    assert [TextMessageEnd, verdict][..1] == [TextMessageEnd];
    assert Occurrences([TextMessageEnd], TextMessageEnd) == 1 by {
      assert [TextMessageEnd][..0] == [];
    }
  }

  lemma ItemFramed(s: State, item: Item)
    requires Framed(s) && s.isActive && s.chat.Settled?
    ensures Framed(ProcessItem(s, item))
  {
    match item
    case Answer(answer) => TerminateFramed(s, RunFinished(Some(answer)));
    case Fault(message) => TerminateFramed(s, RunError(message));
    case Embedded(event) => EmitFramed(s, event);
    case Streamed(event) =>
      EmitFramed(s, event);
      match event
      case Done(answer) => TerminateFramed(Emit(s, event), RunFinished(answer));
      case Failure(message) => TerminateFramed(Emit(s, event), RunError(message));
      case _ =>
  }

  lemma {:induction false} ItemsFramed(s: State, items: seq<Item>)
    requires Framed(s) && s.chat.Settled?
    ensures Framed(ProcessAll(s, items))
    decreases items
  {
    if items != [] && s.isActive {
      ItemFramed(s, items[0]);
      ItemsFramed(ProcessItem(s, items[0]), items[1..]);
    }
  }

  lemma StepFramed(s: State, event: Event)
    requires Framed(s)
    ensures Framed(Step(s, event))
  {
    match event
    case StreamPayload(payload) =>
      if s.isActive && s.activeSessionId == Some(payload.sessionId) {
        ItemFramed(s, Streamed(payload.event));
      }
    case ChatResponse(sessionId, events, answer) =>
      if s.chat.Waiting? && s.isActive {
        var asked := s.(chat := Settled);
        RespondIsProcessing(asked, event);
        ItemsFramed(asked.(activeSessionId := Some(sessionId), pendingStreamEvents := []),
                    OwnPayloads(s.pendingStreamEvents, sessionId) + ResponseItems(event));
      }
    case ChatFailed(message) =>
      if s.chat.Waiting? && s.isActive {
        TerminateFramed(s.(chat := Settled), RunError(message));
      }
    case _ =>
  }

  lemma {:induction false} AlwaysFramed(s: State, events: seq<Event>)
    requires Framed(s)
    ensures Framed(Play(s, events))
    decreases events
  {
    if events != [] {
      StepFramed(s, events[0]);
      AlwaysFramed(Step(s, events[0]), events[1..]);
    }
  }

  lemma InitiallyFramed()
    ensures Framed(INITIAL)
  {
    NoOccurrence(HEADER, TextMessageEnd);
  }

  /** Nothing follows the end of a run, nor its abortion: neither an event nor a completion. */
  lemma {:induction false} NothingFollowsTheEnd(s: State, events: seq<Event>)
    requires !s.isActive
    ensures var t := Play(s, events); !t.isActive && t.output == s.output && t.completions == s.completions && t.finished == s.finished
    decreases events
  {
    if events != [] {
      NothingFollowsTheEnd(Step(s, events[0]), events[1..]);
    }
  }

  /** The header says that the observable always terminates, abortion included. An aborted run never does:
      a run completes if and only if it was finished before it was torn down. */
  lemma AbortedRunNeverCompletes(before: seq<Event>, after: seq<Event>)
    ensures Play(INITIAL, before + [Abort] + after).completions == Play(INITIAL, before).completions
    ensures Play(INITIAL, before).completions == if Play(INITIAL, before).finished then 1 else 0
  {
    var s := Play(INITIAL, before);
    InitiallyFramed();
    AlwaysFramed(INITIAL, before);
    PlayAround(INITIAL, before, Abort, after);
    NothingFollowsTheEnd(Cleanup(s), after);
  }

  /** A run that finishes keeps its stream listener for good: completion tears the run down, and the
      tear-down does nothing for a finished run. */
  lemma {:induction false} FinishedRunKeepsListening(s: State, events: seq<Event>)
    requires s.finished && !s.isActive && s.hasUnlisten && !s.chat.NotSent?
    ensures Play(s, events).hasUnlisten && Play(s, events).unlistened == s.unlistened
    decreases events
  {
    if events != [] {
      FinishedRunKeepsListening(Step(s, events[0]), events[1..]);
    }
  }

  // ---------------------------------------------------------------------------
  // The run object
  // ---------------------------------------------------------------------------

  /** The per-run context, with what its subscriber has seen. */
  class SidecarRun {
    var isActive: bool
    var finished: bool
    var activeSessionId: Option<string>
    var pendingStreamEvents: seq<Payload>
    const adapter: SidecarEventAdapter
    var chat: Chat
    var hasUnlisten: bool
    var unlistened: nat
    var output: seq<AguiEvent>
    var completions: nat

    ghost function View(): State
      reads this, adapter
    {
      State(isActive, finished, activeSessionId, pendingStreamEvents, adapter.View(), chat, hasUnlisten, unlistened,
            output, completions)
    }

    constructor ()
      ensures View() == INITIAL && fresh(adapter)
    {
      isActive, finished, activeSessionId, pendingStreamEvents := true, false, None, [];
      adapter := new SidecarEventAdapter();
      chat, hasUnlisten, unlistened := NotSent, false, 0;
      output, completions := [RunStarted, TextMessageStart], 0;
    }

    method FinishRun(answer: Option<string>)
      modifies this
      ensures View() == Finished(old(View()), answer)
    {
      if finished {
        return;
      }
      finished, isActive := true, false;
      output := output + [TextMessageEnd, RunFinished(answer)];
      completions := completions + 1;
    }

    method FailRun(message: string)
      modifies this
      ensures View() == Failed(old(View()), message)
    {
      if finished {
        return;
      }
      finished, isActive := true, false;
      output := output + [TextMessageEnd, RunError(message)];
      completions := completions + 1;
    }

    method EmitConverted(event: UiEvent)
      modifies this, adapter
      ensures View() == Emit(old(View()), event)
    {
      var events := adapter.ConvertEvent(event);
      output := output + events;
    }

    method HandleStreamPayload(payload: Payload)
      modifies this, adapter
      ensures View() == Handled(old(View()), payload)
    {
      if !isActive {
        return;
      }
      if activeSessionId.None? {
        pendingStreamEvents := pendingStreamEvents + [payload];
        return;
      }
      if payload.sessionId != activeSessionId.value {
        return;
      }
      EmitConverted(payload.event);
      match payload.event {
        case Done(answer) => FinishRun(answer);
        case Failure(message) => FailRun(message);
        case _ =>
      }
    }

    method OnSubscriptionReady(ok: bool)
      requires chat.NotSent?
      modifies this
      ensures View() == Step(old(View()), SubscriptionReady(ok))
    {
      if ok {
        if !isActive {
          unlistened := unlistened + 1;
        } else {
          hasUnlisten := true;
        }
      }
      chat := if isActive then Waiting else Settled;
    }

    method ReplayBuffered(buffered: seq<Payload>)
      modifies this, adapter
      ensures View() == Replay(old(View()), buffered)
    {
      var i := 0;
      while i < |buffered|
        invariant 0 <= i <= |buffered|
        invariant Replay(View(), buffered[i..]) == Replay(old(View()), buffered)
      {
        if !isActive {
          break;
        }
        assert buffered[i..][1..] == buffered[i + 1..];
        if activeSessionId == Some(buffered[i].sessionId) {
          HandleStreamPayload(buffered[i]);
        }
        i := i + 1;
      }
    }

    method EmitBody(events: seq<UiEvent>)
      modifies this, adapter
      ensures View() == EmitEmbedded(old(View()), events)
    {
      var i := 0;
      while i < |events|
        invariant 0 <= i <= |events|
        invariant EmitEmbedded(View(), events[i..]) == EmitEmbedded(old(View()), events)
      {
        if !isActive {
          break;
        }
        assert events[i..][1..] == events[i + 1..];
        EmitConverted(events[i]);
        i := i + 1;
      }
    }

    method OnChatResponse(sessionId: string, events: seq<UiEvent>, answer: Option<string>)
      requires chat.Waiting?
      modifies this, adapter
      ensures View() == Step(old(View()), ChatResponse(sessionId, events, answer))
    {
      chat := Settled;
      if !isActive {
        return;
      }
      activeSessionId := Some(sessionId);
      var buffered := pendingStreamEvents;
      pendingStreamEvents := [];
      ReplayBuffered(buffered);
      EmitBody(events);
      if isActive && answer.Some? {
        FinishRun(answer);
      }
    }

    method OnChatFailed(message: string)
      requires chat.Waiting?
      modifies this
      ensures View() == Step(old(View()), ChatFailed(message))
    {
      chat := Settled;
      if !isActive {
        return;
      }
      FailRun(message);
    }

    /** What aborting the run, or unsubscribing from it, does. */
    method OnAbort()
      modifies this
      ensures View() == Step(old(View()), Abort)
    {
      if !isActive && finished {
        return;
      }
      isActive := false;
      if hasUnlisten {
        unlistened := unlistened + 1;
        hasUnlisten := false;
      }
    }
  }
}
