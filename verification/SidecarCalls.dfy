/**
 Tool calls in the output of a whole run of the sidecar agent (src/copilotkit/sidecar-agent.ts, 129-262, and
 src/copilotkit/event-adapter.ts, 236-382): replayed payloads, the events in the answer's body and later payloads
 all go through one adapter, so what it promises about identifiers holds from the first event to the last.
 */
module SidecarCalls {
  import opened Prelude
  import opened EventAdapter
  import opened SidecarAgent
  import opened SidecarOutput

  // ---------------------------------------------------------------------------
  // The events a run converts
  // ---------------------------------------------------------------------------

  /** The events of the items, up to the item that ends the run. */
  function Converted(items: seq<Item>): seq<UiEvent> {
    if items == [] then []
    else
      match items[0]
      case Answer(_) => []
      case Fault(_) => []
      case Embedded(event) => [event] + Converted(items[1..])
      case Streamed(event) => [event] + if event.Done? || event.Failure? then [] else Converted(items[1..])
  }

  /** What the end of the run adds. */
  function LastWords(ending: Option<Item>): seq<AguiEvent> {
    match ending
    case None => []
    case Some(item) =>
      match item
      case Answer(answer) => [TextMessageEnd, RunFinished(Some(answer))]
      case Fault(message) => [TextMessageEnd, RunError(message)]
      case Embedded(_) => []
      case Streamed(event) =>
        if event.Done? then [TextMessageEnd, RunFinished(event.answer)]
        else if event.Failure? then [TextMessageEnd, RunError(event.message)]
        else []
  }

  lemma EmittedCons(a: Adapter, event: UiEvent, rest: seq<UiEvent>)
    ensures Emitted(a, [event] + rest) == Convert(a, event).1 + Emitted(Convert(a, event).0, rest)
  {
    assert ([event] + rest)[1..] == rest;
  }

  lemma {:induction false} EmissionSplits(a: Adapter, items: seq<Item>)
    ensures Emission(a, items) == Emitted(a, Converted(items)) + LastWords(EndingOf(items))
    decreases items
  {
    if items != [] {
      if IsLast(items[0]) {
        LastEmission(a, items);
      } else {
        var event := items[0].event;
        var b := Convert(a, event).0;
        EmissionSplits(b, items[1..]);
        EmittedCons(a, event, Converted(items[1..]));
        ConcatAssociates(Convert(a, event).1, Emitted(b, Converted(items[1..])), LastWords(EndingOf(items[1..])));
      }
    }
  }

  lemma LastEmission(a: Adapter, items: seq<Item>)
    requires items != [] && IsLast(items[0])
    ensures Emission(a, items) == Emitted(a, Converted(items)) + LastWords(EndingOf(items))
  {
    if items[0].Streamed? {
      var event := items[0].event;
      assert [event] + [] == [event];
      EmittedCons(a, event, []);
      assert Convert(a, event).1 + [] == Convert(a, event).1;
    }
  }

  /** All the events a run converts, in order. */
  function Calls(events: seq<Event>): seq<UiEvent> {
    Converted(RunItems(events))
  }

  /** A run's output: its header, what the adapter makes of its events, and the end. */
  lemma OutputSplits(events: seq<Event>)
    ensures Play(INITIAL, events).output
         == HEADER + (Emitted(NEW_ADAPTER, Calls(events)) + LastWords(EndingOf(RunItems(events))))
  {
    EveryRunEmits(events);
    EmissionSplits(NEW_ADAPTER, RunItems(events));
  }

  // ---------------------------------------------------------------------------
  // A call whose result is there is over
  // ---------------------------------------------------------------------------

  /** The tool call an emitted event is about. */
  function CallOf(event: AguiEvent): Option<nat> {
    match event
    case ToolCallStart(id, _) => Some(id)
    case ToolCallArgs(id, _) => Some(id)
    case ToolCallEnd(id) => Some(id)
    case ToolCallResult(id, _, _) => Some(id)
    case _ => None
  }

  ghost predicate Mentions(output: seq<AguiEvent>, id: nat) {
    exists i :: 0 <= i < |output| && CallOf(output[i]) == Some(id)
  }

  /** Nothing is emitted for a call after its result. */
  ghost predicate ResultsAreLast(output: seq<AguiEvent>) {
    forall i, j :: 0 <= i < j < |output| && output[i].ToolCallResult? ==> CallOf(output[j]) != Some(output[i].toolCallId)
  }

  lemma MentionsConcat(a: seq<AguiEvent>, b: seq<AguiEvent>, id: nat)
    requires Mentions(a + b, id)
    ensures Mentions(a, id) || Mentions(b, id)
  {
    var i :| 0 <= i < |a + b| && CallOf((a + b)[i]) == Some(id);
    if i < |a| {
      assert CallOf(a[i]) == Some(id);
    } else {
      assert CallOf(b[i - |a|]) == Some(id);
    }
  }

  lemma ResultsConcat(a: seq<AguiEvent>, b: seq<AguiEvent>)
    requires ResultsAreLast(a) && ResultsAreLast(b)
    requires forall i :: 0 <= i < |a| && a[i].ToolCallResult? ==> !Mentions(b, a[i].toolCallId)
    ensures ResultsAreLast(a + b)
  {
    var all := a + b;
    forall i, j | 0 <= i < j < |all| && all[i].ToolCallResult? ensures CallOf(all[j]) != Some(all[i].toolCallId) {
      if i < |a| <= j {
        assert CallOf(b[j - |a|]) != Some(a[i].toolCallId);
      }
    }
  }

  ghost predicate IsOpen(a: Adapter, id: nat) {
    exists key :: key in a.toolCallIdByKey && a.toolCallIdByKey[key] == id
  }

  lemma ConvertMentions(a: Adapter, event: UiEvent, id: nat)
    requires Sound(a) && Mentions(Convert(a, event).1, id)
    ensures IsOpen(a, id) || a.nextId <= id
  {}

  lemma OpenBefore(a: Adapter, event: UiEvent, id: nat)
    requires Sound(a) && (IsOpen(Convert(a, event).0, id) || Convert(a, event).0.nextId <= id)
    ensures IsOpen(a, id) || a.nextId <= id
  {
    ConvertKeepsSound(a, event);
    if key :| key in Convert(a, event).0.toolCallIdByKey && Convert(a, event).0.toolCallIdByKey[key] == id {
      assert key in a.toolCallIdByKey ==> a.toolCallIdByKey[key] == id;
    }
  }

  /** Only calls that are open, and new ones, are mentioned. */
  lemma {:induction false} EmittedMentions(a: Adapter, events: seq<UiEvent>, id: nat)
    requires Sound(a) && Mentions(Emitted(a, events), id)
    ensures IsOpen(a, id) || a.nextId <= id
    decreases events
  {
    if events != [] {
      var b := Convert(a, events[0]).0;
      MentionsConcat(Convert(a, events[0]).1, Emitted(b, events[1..]), id);
      if Mentions(Convert(a, events[0]).1, id) {
        ConvertMentions(a, events[0], id);
      } else {
        ConvertKeepsSound(a, events[0]);
        EmittedMentions(b, events[1..], id);
        OpenBefore(a, events[0], id);
      }
    }
  }

  lemma CompletedIsOver(a: Adapter, event: UiEvent)
    requires Sound(a) && Completes(event)
    ensures var (b, out) := Convert(a, event);
            out[1].ToolCallResult? && !IsOpen(b, out[1].toolCallId) && out[1].toolCallId < b.nextId
  {}

  lemma {:induction false} EmittedResultsAreLast(a: Adapter, events: seq<UiEvent>)
    requires Sound(a)
    ensures ResultsAreLast(Emitted(a, events))
    decreases events
  {
    if events != [] {
      var (b, out) := Convert(a, events[0]);
      var rest := Emitted(b, events[1..]);
      ConvertKeepsSound(a, events[0]);
      EmittedResultsAreLast(b, events[1..]);
      forall i | 0 <= i < |out| && out[i].ToolCallResult? ensures !Mentions(rest, out[i].toolCallId) {
        CompletedIsOver(a, events[0]);
        if Mentions(rest, out[i].toolCallId) {
          EmittedMentions(b, events[1..], out[i].toolCallId);
          assert false;
        }
      }
      ResultsConcat(out, rest);
    }
  }

  lemma LastWordsMentionNothing(ending: Option<Item>, id: nat)
    ensures !Mentions(LastWords(ending), id) && ResultsAreLast(LastWords(ending))
  {}

  /** In the output of every run, nothing follows for a call after its result: in particular, no two results are for
      the same call. */
  lemma RunResultsAreLast(events: seq<Event>)
    ensures ResultsAreLast(Play(INITIAL, events).output)
  {
    var emitted, last := Emitted(NEW_ADAPTER, Calls(events)), LastWords(EndingOf(RunItems(events)));
    OutputSplits(events);
    EmittedResultsAreLast(NEW_ADAPTER, Calls(events));
    forall id: nat ensures !Mentions(last, id) && ResultsAreLast(last) {
      LastWordsMentionNothing(EndingOf(RunItems(events)), id);
    }
    LastWordsMentionNothing(EndingOf(RunItems(events)), 0);
    ResultsConcat(emitted, last);
    ResultsConcat(HEADER, emitted + last);
  }

  // ---------------------------------------------------------------------------
  // A result carries the identifier of its call
  // ---------------------------------------------------------------------------

  /** What tells one call from another: its identifier, or its name where it has none. */
  function CallKey(event: UiEvent): string
    requires Starts(event) || Completes(event)
  {
    match event.toolCallId
    case Some(id) => id
    case None => match event.toolName case Some(name) => name case None => "unknown"
  }

  lemma {:induction false} EmittedConcat(a: Adapter, before: seq<UiEvent>, after: seq<UiEvent>)
    ensures Emitted(a, before + after) == Emitted(a, before) + Emitted(ConvertAll(a, before), after)
    ensures ConvertAll(a, before + after) == ConvertAll(ConvertAll(a, before), after)
    decreases before
  {
    if before == [] {
      assert before + after == after;
    } else {
      var b := Convert(a, before[0]).0;
      assert (before + after)[1..] == before[1..] + after;
      EmittedConcat(b, before[1..], after);
      ConcatAssociates(Convert(a, before[0]).1, Emitted(b, before[1..]), Emitted(ConvertAll(b, before[1..]), after));
    }
  }

  lemma EmittedAround(b: Adapter, middle: seq<UiEvent>, event: UiEvent, rest: seq<UiEvent>)
    ensures var c := ConvertAll(b, middle);
            Emitted(b, middle + ([event] + rest))
            == Emitted(b, middle) + (Convert(c, event).1 + Emitted(Convert(c, event).0, rest))
  {
    EmittedConcat(b, middle, [event] + rest);
    EmittedCons(ConvertAll(b, middle), event, rest);
  }

  lemma AnnouncedAndCompleted(a: Adapter, start: UiEvent, middle: seq<UiEvent>, completion: UiEvent)
    returns (id: nat, messageId: nat)
    requires Sound(a) && Starts(start) && Completes(completion) && Key(start) == Key(completion)
    requires forall i :: 0 <= i < |middle| && Completes(middle[i]) ==> Key(middle[i]) != Key(start)
    ensures var (b, started) := Convert(a, start);
            && started == Announcement(start, id)
            && Convert(ConvertAll(b, middle), completion).1
               == [ToolCallEnd(id), ToolCallResult(id, messageId, Outcome(completion))]
  {
    ResultCarriesAnnouncedId(a, start, middle, completion);
    id := GetOrCreate(a, Key(start)).1;
    var c := ConvertAll(Convert(a, start).0, middle);
    messageId := Consume(c, Key(completion)).0.nextId;
  }

  /** Emitted events of a list in which a call starts and completes. */
  lemma EmittedCarriesId(calls: seq<UiEvent>, i: nat, j: nat)
    returns (before: seq<AguiEvent>, id: nat, between: seq<AguiEvent>, messageId: nat, after: seq<AguiEvent>)
    requires i < j < |calls| && Starts(calls[i]) && Completes(calls[j]) && Key(calls[i]) == Key(calls[j])
    requires forall k :: i < k < j && Completes(calls[k]) ==> Key(calls[k]) != Key(calls[i])
    ensures Emitted(NEW_ADAPTER, calls)
         == before + (Announcement(calls[i], id)
                      + (between + ([ToolCallEnd(id), ToolCallResult(id, messageId, Outcome(calls[j]))] + after)))
  {
    var front, middle, rest := calls[..i], calls[i + 1..j], calls[j + 1..];
    var a := ConvertAll(NEW_ADAPTER, front);
    var b := Convert(a, calls[i]).0;
    ConvertAllKeepsSound(NEW_ADAPTER, front);
    assert calls == front + ([calls[i]] + (middle + ([calls[j]] + rest)));
    EmittedAround(NEW_ADAPTER, front, calls[i], middle + ([calls[j]] + rest));
    EmittedAround(b, middle, calls[j], rest);
    id, messageId := AnnouncedAndCompleted(a, calls[i], middle, calls[j]);
    before, between := Emitted(NEW_ADAPTER, front), Emitted(b, middle);
    after := Emitted(Convert(ConvertAll(b, middle), calls[j]).0, rest);
  }

  /** In the output of every run: the result of a call carries the identifier its start announced, whatever comes in
      between and wherever the two come from. */
  lemma RunResultCarriesAnnouncedId(events: seq<Event>, i: nat, j: nat)
    returns (before: seq<AguiEvent>, id: nat, between: seq<AguiEvent>, messageId: nat, after: seq<AguiEvent>)
    requires i < j < |Calls(events)| && Starts(Calls(events)[i]) && Completes(Calls(events)[j])
    requires CallKey(Calls(events)[i]) == CallKey(Calls(events)[j])
    requires forall k :: i < k < j && Completes(Calls(events)[k]) ==> CallKey(Calls(events)[k]) != CallKey(Calls(events)[i])
    ensures Play(INITIAL, events).output
         == before + Announcement(Calls(events)[i], id) + between
            + [ToolCallEnd(id), ToolCallResult(id, messageId, Outcome(Calls(events)[j]))] + after
  {
    var front, rest;
    front, id, between, messageId, rest := EmittedCarriesId(Calls(events), i, j);
    OutputSplits(events);
    before, after := HEADER + front, rest + LastWords(EndingOf(RunItems(events)));
    InPlace(HEADER, front, Announcement(Calls(events)[i], id), between,
            [ToolCallEnd(id), ToolCallResult(id, messageId, Outcome(Calls(events)[j]))], rest, LastWords(EndingOf(RunItems(events))));
  }

  lemma InPlace<T>(header: seq<T>, front: seq<T>, first: seq<T>, between: seq<T>, second: seq<T>, rest: seq<T>, last: seq<T>)
    ensures header + ((front + (first + (between + (second + rest)))) + last)
         == (header + front) + first + between + second + (rest + last)
  {}

  /** An open key has been started since it was last completed. */
  predicate OpenSince(events: seq<UiEvent>, key: string, k: nat) {
    && k < |events| && Starts(events[k]) && CallKey(events[k]) == key
    && forall m :: k < m < |events| && Completes(events[m]) ==> CallKey(events[m]) != key
  }

  lemma {:induction false} OpenHasStart(events: seq<UiEvent>, key: string) returns (k: nat)
    requires key in ConvertAll(NEW_ADAPTER, events).toolCallIdByKey
    ensures OpenSince(events, key, k)
  {
    k := 0;
    if events != [] {
      var n := |events| - 1;
      var before, event := events[..n], events[n];
      assert events == before + [event] && [event][1..] == [];
      EmittedConcat(NEW_ADAPTER, before, [event]);
      var a := ConvertAll(NEW_ADAPTER, before);
      assert ConvertAll(a, [event]) == ConvertAll(Convert(a, event).0, []);
      if Starts(event) && Key(event) == key {
        k := n;
      } else {
        k := OpenHasStart(before, key);
      }
    }
  }

  /** And a call that is started when none of its key is open announces an identifier that is nowhere in the run's
      output before. */
  lemma RunNewCallIsUnused(events: seq<Event>, i: nat) returns (before: seq<AguiEvent>, id: nat, after: seq<AguiEvent>)
    requires i < |Calls(events)| && Starts(Calls(events)[i])
    requires forall k :: !OpenSince(Calls(events)[..i], CallKey(Calls(events)[i]), k)
    ensures Play(INITIAL, events).output == before + Announcement(Calls(events)[i], id) + after
    ensures !Mentions(before, id)
  {
    var calls, last := Calls(events), LastWords(EndingOf(RunItems(events)));
    var front, rest;
    front, id, rest := EmittedNewCall(calls, i);
    OutputSplits(events);
    before, after := HEADER + front, rest + last;
    ThreePlaces(HEADER, front, Announcement(calls[i], id), rest, last);
    if Mentions(before, id) {
      MentionsConcat(HEADER, front, id);
      assert false;
    }
  }

  lemma ThreePlaces<T>(header: seq<T>, front: seq<T>, middle: seq<T>, rest: seq<T>, last: seq<T>)
    ensures header + ((front + (middle + rest)) + last) == (header + front) + middle + (rest + last)
  {}

  lemma EmittedNewCall(calls: seq<UiEvent>, i: nat) returns (before: seq<AguiEvent>, id: nat, after: seq<AguiEvent>)
    requires i < |calls| && Starts(calls[i]) && forall k :: !OpenSince(calls[..i], CallKey(calls[i]), k)
    ensures Emitted(NEW_ADAPTER, calls) == before + (Announcement(calls[i], id) + after)
    ensures !Mentions(before, id)
  {
    var front, rest := calls[..i], calls[i + 1..];
    var a := ConvertAll(NEW_ADAPTER, front);
    assert Key(calls[i]) == CallKey(calls[i]);
    if Key(calls[i]) in a.toolCallIdByKey {
      var k := OpenHasStart(front, Key(calls[i]));
      assert false;
    }
    assert calls == front + ([calls[i]] + rest);
    EmittedAround(NEW_ADAPTER, front, calls[i], rest);
    NewCallGetsUnusedId(NEW_ADAPTER, front, calls[i]);
    id := a.nextId;
    BelowIsUnmentioned(Emitted(NEW_ADAPTER, front), id);
    before, after := Emitted(NEW_ADAPTER, front), Emitted(Convert(a, calls[i]).0, rest);
  }

  lemma BelowIsUnmentioned(output: seq<AguiEvent>, n: nat)
    requires AllIdsBelow(output, n)
    ensures !Mentions(output, n)
  {
    forall i | 0 <= i < |output| ensures CallOf(output[i]) != Some(n) {
      assert IdsBelow(output[i], n);
    }
  }
}
