/**
 What a run of the sidecar agent emits, for every sequence of events (src/copilotkit/sidecar-agent.ts,
 129-294): its items, and the errors it reports.
 */
module SidecarOutput {
  import opened Prelude
  import opened EventAdapter
  import opened SidecarAgent

  // ---------------------------------------------------------------------------
  // The items of a run
  // ---------------------------------------------------------------------------

  /** What happens before the run is aborted. */
  function Live(events: seq<Event>): seq<Event> {
    if events == [] || events[0].Abort? then [] else [events[0]] + Live(events[1..])
  }

  /** What a run has to deal with: nothing before its answer; the failure of the request; or its early
      payloads, the body of the answer and its late payloads. */
  function RunItems(events: seq<Event>): seq<Item> {
    var live := Live(events);
    match AnswerAt(live, false)
    case None => []
    case Some(at) =>
      if live[at].ChatFailed? then [Fault(live[at].message)] else ItemsOf(live[..at], live[at], live[at + 1..])
  }

  lemma {:induction false} LiveSplits(events: seq<Event>) returns (rest: seq<Event>)
    ensures events == Live(events) + rest && NoAbort(Live(events)) && (rest != [] ==> rest[0].Abort?)
  {
    if events == [] || events[0].Abort? {
      rest := events;
    } else {
      rest := LiveSplits(events[1..]);
      assert events == [events[0]] + events[1..];
      ConcatAssociates([events[0]], Live(events[1..]), rest);
    }
  }

  lemma {:induction false} BeforeTheAnswer(events: seq<Event>, requested: bool)
    requires AnswerAt(events, requested).Some?
    ensures var at := AnswerAt(events, requested).value;
            AnswerAt(events[..at], requested).None? && (requested || Requested(events[..at]))
    decreases events
  {
    var at := AnswerAt(events, requested).value;
    if at > 0 {
      BeforeTheAnswer(events[1..], requested || events[0].SubscriptionReady?);
      assert events[..at][1..] == events[1..][..at - 1];
    }
  }

  lemma NoAnswerEmitsNothing(live: seq<Event>)
    requires NoAbort(live) && AnswerAt(live, false).None?
    ensures Play(INITIAL, live).output == HEADER + [] && Play(INITIAL, live).completions == 0
  {
    EarlyPayloadsAreKept(INITIAL, live);
  }

  lemma FailedRequestEmits(early: seq<Event>, failure: Event, late: seq<Event>)
    requires AnswerAt(early, false).None? && Requested(early) && NoAbort(early) && failure.ChatFailed?
    ensures var t := Play(INITIAL, early + [failure] + late);
            && t.output == HEADER + [TextMessageEnd, RunError(failure.message)] && t.completions == 1
  {
    var s := Play(INITIAL, early);
    EarlyPayloadsAreKept(INITIAL, early);
    PlayAround(INITIAL, early, failure, late);
    NothingFollowsTheEnd(Step(s, failure), late);
  }

  /** The run emits what the items become, and completes exactly if they end. */
  ghost predicate Deals(t: State, items: seq<Item>) {
    && t.output == HEADER + Emission(NEW_ADAPTER, items)
    && t.completions == if Ends(items) then 1 else 0
  }

  lemma AnsweredRunEmits(live: seq<Event>, at: nat)
    requires NoAbort(live) && AnswerAt(live, false) == Some(at)
    ensures Deals(Play(INITIAL, live),
                  if live[at].ChatFailed? then [Fault(live[at].message)] else ItemsOf(live[..at], live[at], live[at + 1..]))
  {
    BeforeTheAnswer(live, false);
    assert live == live[..at] + [live[at]] + live[at + 1..];
    if live[at].ChatFailed? {
      FailedRequestEmits(live[..at], live[at], live[at + 1..]);
      assert IsLast([Fault(live[at].message)][0]);
    } else {
      BufferingIsTransparent(live[..at], live[at], live[at + 1..]);
    }
  }

  /** A run that is not aborted. */
  lemma LiveRunEmits(live: seq<Event>)
    requires NoAbort(live) && Live(live) == live
    ensures Deals(Play(INITIAL, live), RunItems(live))
  {
    match AnswerAt(live, false)
    case None => NoAnswerEmitsNothing(live);
    case Some(at) => AnsweredRunEmits(live, at);
  }

  lemma {:induction false} LiveOfLive(events: seq<Event>)
    ensures Live(Live(events)) == Live(events)
  {
    if events != [] && !events[0].Abort? {
      LiveOfLive(events[1..]);
      assert Live(events)[1..] == Live(events[1..]);
    }
  }

  /** Every run, whatever happens to it: it emits what its items become, up to the first that ends it, and
      completes, once, exactly if one ends it. */
  lemma EveryRunEmits(events: seq<Event>)
    ensures Deals(Play(INITIAL, events), RunItems(events))
  {
    var live := Live(events);
    var rest := LiveSplits(events);
    LiveOfLive(events);
    LiveRunEmits(live);
    PlayConcat(INITIAL, live, rest);
    if rest != [] {
      NothingFollowsTheEnd(Step(Play(INITIAL, live), rest[0]), rest[1..]);
    }
  }

  // ---------------------------------------------------------------------------
  // Errors
  // ---------------------------------------------------------------------------

  /** How many errors are reported. */
  function Errors(output: seq<AguiEvent>): nat {
    if output == [] then 0 else (if output[0].RunError? then 1 else 0) + Errors(output[1..])
  }

  lemma {:induction false} ErrorsConcat(a: seq<AguiEvent>, b: seq<AguiEvent>)
    ensures Errors(a + b) == Errors(a) + Errors(b)
  {
    if a == [] {
      assert a + b == b;
    } else {
      assert (a + b)[1..] == a[1..] + b;
      ErrorsConcat(a[1..], b);
    }
  }

  lemma ErrorsOfOne(event: AguiEvent)
    ensures Errors([event]) == if event.RunError? then 1 else 0
  {
    assert [event][1..] == [];
  }

  lemma ErrorsOfTwo(a: AguiEvent, b: AguiEvent)
    ensures Errors([a, b]) == (if a.RunError? then 1 else 0) + (if b.RunError? then 1 else 0)
  {
    assert [a, b] == [a] + [b];
    ErrorsConcat([a], [b]);
    ErrorsOfOne(a);
    ErrorsOfOne(b);
  }

  lemma ConvertErrors(a: Adapter, event: UiEvent)
    ensures Errors(Convert(a, event).1) == if event.Failure? then 1 else 0
  {
    var out := Convert(a, event).1;
    if |out| == 2 {
      ErrorsOfTwo(out[0], out[1]);
    } else if |out| == 1 {
      ErrorsOfOne(out[0]);
    }
  }

  /** The item that ends the run. */
  function EndingOf(items: seq<Item>): Option<Item> {
    if items == [] then None else if IsLast(items[0]) then Some(items[0]) else EndingOf(items[1..])
  }

  /** Errors in the body of the answer, before the end. */
  function BodyErrors(items: seq<Item>): nat {
    if items == [] || IsLast(items[0]) then 0
    else (if items[0].event.Failure? then 1 else 0) + BodyErrors(items[1..])
  }

  /** How often the end of the run is reported as an error: an error in the stream twice. */
  function EndErrors(ending: Option<Item>): nat {
    match ending
    case Some(Streamed(Failure(_))) => 2
    case Some(Fault(_)) => 1
    case _ => 0
  }

  lemma EndingErrors(a: Adapter, items: seq<Item>)
    requires items != [] && IsLast(items[0])
    ensures Errors(Emission(a, items)) == EndErrors(Some(items[0]))
  {
    match items[0]
    case Answer(answer) => ErrorsOfTwo(TextMessageEnd, RunFinished(Some(answer)));
    case Fault(message) => ErrorsOfTwo(TextMessageEnd, RunError(message));
    case Streamed(event) =>
      ConvertErrors(a, event);
      var last := if event.Done? then [TextMessageEnd, RunFinished(event.answer)] else [TextMessageEnd, RunError(event.message)];
      ErrorsConcat(Convert(a, event).1, last);
      ErrorsOfTwo(last[0], last[1]);
  }

  lemma {:induction false} EmissionErrors(a: Adapter, items: seq<Item>)
    ensures Errors(Emission(a, items)) == BodyErrors(items) + EndErrors(EndingOf(items))
    decreases items
  {
    if items != [] {
      if IsLast(items[0]) {
        EndingErrors(a, items);
      } else {
        var event := items[0].event;
        ConvertErrors(a, event);
        EmissionErrors(Convert(a, event).0, items[1..]);
        ErrorsConcat(Convert(a, event).1, Emission(Convert(a, event).0, items[1..]));
      }
    }
  }

  /** For every run, how many errors it reports: one for each error in the body of its answer before the end;
      and two more if an error in the stream ends it, one more if the request fails. So an error that ends
      a run is reported twice exactly if it came in the stream. */
  lemma RunErrorsExactly(events: seq<Event>)
    ensures Errors(Play(INITIAL, events).output) == BodyErrors(RunItems(events)) + EndErrors(EndingOf(RunItems(events)))
  {
    EveryRunEmits(events);
    EmissionErrors(NEW_ADAPTER, RunItems(events));
    ErrorsConcat(HEADER, Emission(NEW_ADAPTER, RunItems(events)));
    ErrorsOfTwo(RunStarted, TextMessageStart);
  }

  lemma PlayTwo(a: Event, b: Event)
    ensures Play(INITIAL, [a, b]) == Step(Step(INITIAL, a), b)
  {
    assert [a, b][1..] == [b] && [b][1..] == [];
    assert Play(Step(INITIAL, a), [b]) == Play(Step(Step(INITIAL, a), b), []);
  }

  lemma StreamErrorTwiceHappens(message: string)
    ensures var error := RunError(message);
            Play(INITIAL, [SubscriptionReady(true), ChatResponse("s", [], None), StreamPayload(Payload("s", Failure(message)))]).output
            == HEADER + [error, TextMessageEnd, error]
  {
    var events := [SubscriptionReady(true), ChatResponse("s", [], None), StreamPayload(Payload("s", Failure(message)))];
    var error := RunError(message);
    assert events == [events[0], events[1]] + [events[2]];
    PlayConcat(INITIAL, [events[0], events[1]], [events[2]]);
    PlayTwo(events[0], events[1]);
    var s := Play(INITIAL, [events[0], events[1]]);
    assert s.isActive && !s.finished && s.activeSessionId == Some("s") && s.output == HEADER;
    assert [events[2]][1..] == [];
    assert Play(s, [events[2]]) == Step(s, events[2]);
    assert (HEADER + [error]) + [TextMessageEnd, error] == HEADER + [error, TextMessageEnd, error];
  }

  /** An error in the body of the answer is reported, and the run goes on and finishes. */
  lemma BodyErrorGoesOn(message: string, answer: string)
    ensures Play(INITIAL, [SubscriptionReady(true), ChatResponse("s", [Failure(message)], Some(answer))]).output
         == HEADER + [RunError(message), TextMessageEnd, RunFinished(Some(answer))]
  {
    var response := ChatResponse("s", [Failure(message)], Some(answer));
    PlayTwo(SubscriptionReady(true), response);
    var known := Step(INITIAL, SubscriptionReady(true)).(chat := Settled, activeSessionId := Some("s"));
    assert [Failure(message)][1..] == [];
    assert EmitEmbedded(known, [Failure(message)]) == EmitEmbedded(Emit(known, Failure(message)), []);
    assert (HEADER + [RunError(message)]) + [TextMessageEnd, RunFinished(Some(answer))]
        == HEADER + [RunError(message), TextMessageEnd, RunFinished(Some(answer))];
  }
}
