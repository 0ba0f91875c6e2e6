/**
 What a run of the sidecar agent says (src/copilotkit/event-adapter.ts, 273-371, and
 src/copilotkit/sidecar-agent.ts, 129-294): every event of the run becomes what it says, in order, and the
 assistant's text comes out whole.
 */
module SidecarTexts {
  import opened Prelude
  import opened EventAdapter
  import opened SidecarAgent
  import opened SidecarOutput
  import opened SidecarCalls

  // ---------------------------------------------------------------------------
  // Every event
  // ---------------------------------------------------------------------------

  /** What is emitted for an event: a text that is not empty; for a call its name, "approve." in front of it where
      approval is asked for, and its input; for a result the end of the call and the result, or the error message where
      there is none; and an error. Nothing is emitted for the rest. */
  ghost predicate Becomes(event: UiEvent, out: seq<AguiEvent>) {
    match event
    case MessageDelta(text) => out == if text == "" then [] else [TextMessageContent(text)]
    case ToolStart(toolName, _, input) => Announces(out, Name(toolName), input)
    case AgentToolStarted(toolName, _, preview) =>
      Announces(out, Name(toolName), if preview == None then "{}" else preview.value)
    case ApprovalRequired(toolName, _, request) => Announces(out, "approve." + Name(toolName), request)
    case ToolResult(_, _, result) => Concludes(out, result)
    case AgentToolCompleted(_, _, result, error) => Concludes(out, if result == "" then error else result)
    case Failure(message) => out == [RunError(message)]
    case Done(_) => out == []
    case Unknown => out == []
  }

  function Name(toolName: Option<string>): string {
    match toolName case Some(name) => name case None => "unknown"
  }

  ghost predicate Announces(out: seq<AguiEvent>, name: string, input: string) {
    && |out| == 2 && out[0].ToolCallStart? && out[0].toolCallName == name
    && out[1] == ToolCallArgs(out[0].toolCallId, input)
  }

  ghost predicate Concludes(out: seq<AguiEvent>, result: string) {
    && |out| == 2 && out[0].ToolCallEnd? && out[1].ToolCallResult?
    && out[1].toolCallId == out[0].toolCallId && out[1].messageId != out[1].toolCallId && out[1].content == result
  }

  lemma ConvertBecomes(a: Adapter, event: UiEvent)
    requires Sound(a)
    ensures Becomes(event, Convert(a, event).1)
  {}

  function Concat(outs: seq<seq<AguiEvent>>): seq<AguiEvent> {
    if outs == [] then [] else outs[0] + Concat(outs[1..])
  }

  lemma {:induction false} EmittedBecomes(a: Adapter, calls: seq<UiEvent>) returns (outs: seq<seq<AguiEvent>>)
    requires Sound(a)
    ensures Emitted(a, calls) == Concat(outs) && |outs| == |calls|
    ensures forall k :: 0 <= k < |calls| ==> Becomes(calls[k], outs[k])
    decreases calls
  {
    if calls == [] {
      outs := [];
    } else {
      var (b, out) := Convert(a, calls[0]);
      ConvertKeepsSound(a, calls[0]);
      var rest := EmittedBecomes(b, calls[1..]);
      ConvertBecomes(a, calls[0]);
      outs := [out] + rest;
      assert outs[1..] == rest;
      forall k | 0 <= k < |calls| ensures Becomes(calls[k], outs[k]) {
        assert k > 0 ==> calls[k] == calls[1..][k - 1] && outs[k] == rest[k - 1];
      }
    }
  }

  /** Every run: its header, what its events become, one after the other, and the end. */
  lemma EveryEventBecomes(events: seq<Event>) returns (outs: seq<seq<AguiEvent>>)
    ensures Play(INITIAL, events).output
         == [RunStarted, TextMessageStart] + (Concat(outs) + LastWords(EndingOf(RunItems(events))))
    ensures |outs| == |Calls(events)| && forall k :: 0 <= k < |outs| ==> Becomes(Calls(events)[k], outs[k])
  {
    outs := EmittedBecomes(NEW_ADAPTER, Calls(events));
    OutputSplits(events);
  }

  // ---------------------------------------------------------------------------
  // The text
  // ---------------------------------------------------------------------------

  /** The assistant's text, as the subscriber puts it together. */
  function TextIn(output: seq<AguiEvent>): string {
    if output == [] then ""
    else (if output[0].TextMessageContent? then output[0].delta else "") + TextIn(output[1..])
  }

  /** The text the sidecar sent. */
  function TextSent(calls: seq<UiEvent>): string {
    if calls == [] then "" else (if calls[0].MessageDelta? then calls[0].text else "") + TextSent(calls[1..])
  }

  ghost predicate NoEmptyDelta(output: seq<AguiEvent>) {
    forall i :: 0 <= i < |output| && output[i].TextMessageContent? ==> output[i].delta != ""
  }

  lemma {:induction false} TextInConcat(a: seq<AguiEvent>, b: seq<AguiEvent>)
    ensures TextIn(a + b) == TextIn(a) + TextIn(b)
  {
    if a == [] {
      assert a + b == b;
    } else {
      assert (a + b)[1..] == a[1..] + b;
      TextInConcat(a[1..], b);
      ConcatAssociates(if a[0].TextMessageContent? then a[0].delta else "", TextIn(a[1..]), TextIn(b));
    }
  }

  lemma BecomesText(event: UiEvent, out: seq<AguiEvent>)
    requires Becomes(event, out)
    ensures TextIn(out) == (if event.MessageDelta? then event.text else "") && NoEmptyDelta(out)
  {
    if |out| == 1 {
      assert out[1..] == [];
    } else if |out| == 2 {
      assert out[1..][1..] == [] && !out[1].TextMessageContent? && out[1..][0] == out[1];
      assert TextIn(out[1..]) == "" + TextIn(out[1..][1..]);
    }
  }

  lemma {:induction false} TextOfAll(calls: seq<UiEvent>, outs: seq<seq<AguiEvent>>)
    requires |outs| == |calls| && forall k :: 0 <= k < |calls| ==> Becomes(calls[k], outs[k])
    ensures TextIn(Concat(outs)) == TextSent(calls) && NoEmptyDelta(Concat(outs))
    decreases calls
  {
    if calls != [] {
      BecomesText(calls[0], outs[0]);
      forall k | 0 <= k < |calls[1..]| ensures Becomes(calls[1..][k], outs[1..][k]) {
        assert Becomes(calls[k + 1], outs[k + 1]);
      }
      TextOfAll(calls[1..], outs[1..]);
      TextInConcat(outs[0], Concat(outs[1..]));
      assert Concat(outs) == outs[0] + Concat(outs[1..]);
    }
  }

  lemma LastWordsHaveNoText(ending: Option<Item>)
    ensures TextIn(LastWords(ending)) == "" && NoEmptyDelta(LastWords(ending))
  {
    var last := LastWords(ending);
    if last != [] {
      assert last[1..][1..] == [];
      assert TextIn(last[1..]) == "" + TextIn(last[1..][1..]);
    }
  }

  lemma HeaderHasNoText()
    ensures TextIn([RunStarted, TextMessageStart]) == ""
  {
    var header: seq<AguiEvent> := [RunStarted, TextMessageStart];
    assert header[1..] == [TextMessageStart] && header[1..][1..] == [];
    assert TextIn(header[1..]) == "" + TextIn(header[1..][1..]);
  }

  /** In every run the assistant's text comes out whole and in order: the deltas emitted, put together, are the texts
      sent, put together; and no delta is empty. */
  lemma TextComesOutWhole(events: seq<Event>)
    ensures TextIn(Play(INITIAL, events).output) == TextSent(Calls(events))
    ensures NoEmptyDelta(Play(INITIAL, events).output)
  {
    var header, last := [RunStarted, TextMessageStart], LastWords(EndingOf(RunItems(events)));
    var outs := EveryEventBecomes(events);
    TextOfAll(Calls(events), outs);
    LastWordsHaveNoText(EndingOf(RunItems(events)));
    HeaderHasNoText();
    TextInConcat(Concat(outs), last);
    TextInConcat(header, Concat(outs) + last);
    assert TextSent(Calls(events)) + "" == TextSent(Calls(events));
  }
}
