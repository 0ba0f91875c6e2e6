/**
 The request and the stream listener of a run of the sidecar agent (src/copilotkit/sidecar-agent.ts, 99-137 and
 180-219): when the request is sent, and whether the listener is released, over every run.
 */
module SidecarListener {
  import opened Prelude
  import opened EventAdapter
  import opened SidecarAgent

  /** The outcome of the first attempt to subscribe; there is none after it. */
  function Subscribed(events: seq<Event>): Option<bool> {
    if events == [] then None
    else if events[0].SubscriptionReady? then Some(events[0].ok)
    else Subscribed(events[1..])
  }

  /** The handles there have been: one, if the subscription came about. */
  function Handles(subscribed: Option<bool>): nat {
    if subscribed == Some(true) then 1 else 0
  }

  /** A handle is held or was used, once; and a run that was torn down unfinished holds none. */
  ghost predicate Balanced(s: State, subscribed: Option<bool>) {
    && (s.chat == NotSent <==> subscribed == None)
    && (if s.hasUnlisten then 1 else 0) + s.unlistened == Handles(subscribed)
    && (!s.isActive && !s.finished ==> !s.hasUnlisten)
    && (s.isActive ==> s.unlistened == 0)
    && (s.finished ==> !s.isActive)
  }

  /** A step that is neither the subscription nor the tear-down. */
  ghost predicate KeepsListener(s: State, t: State) {
    && t.hasUnlisten == s.hasUnlisten && t.unlistened == s.unlistened
    && ((t.isActive == s.isActive && t.finished == s.finished) || (t.finished && !t.isActive && s.isActive))
  }

  lemma ProcessKeepsListener(s: State, event: UiEvent)
    requires s.isActive && !s.finished
    ensures KeepsListener(s, Process(s, event))
  {}

  lemma {:induction false} ReplayKeepsListener(s: State, buffered: seq<Payload>)
    requires s.isActive && !s.finished
    ensures KeepsListener(s, Replay(s, buffered)) && Replay(s, buffered).chat == s.chat
    decreases buffered
  {
    if buffered != [] {
      var t := if s.activeSessionId == Some(buffered[0].sessionId) then Handled(s, buffered[0]) else s;
      if t.isActive {
        ReplayKeepsListener(t, buffered[1..]);
      }
    }
  }

  lemma {:induction false} BodyKeepsListener(s: State, events: seq<UiEvent>)
    requires s.isActive ==> !s.finished
    ensures KeepsListener(s, EmitEmbedded(s, events)) && EmitEmbedded(s, events).chat == s.chat
    decreases events
  {
    if events != [] && s.isActive {
      BodyKeepsListener(Emit(s, events[0]), events[1..]);
    }
  }

  lemma RespondKeepsListener(s: State, response: Event)
    requires response.ChatResponse? && s.isActive && !s.finished
    ensures KeepsListener(s, Respond(s, response)) && Respond(s, response).chat == s.chat
  {
    var known := s.(activeSessionId := Some(response.sessionId), pendingStreamEvents := []);
    ReplayKeepsListener(known, s.pendingStreamEvents);
    BodyKeepsListener(Replay(known, s.pendingStreamEvents), response.events);
  }

  lemma StepIsBalanced(s: State, event: Event, subscribed: Option<bool>)
    requires Balanced(s, subscribed)
    ensures Balanced(Step(s, event), if subscribed == None && event.SubscriptionReady? then Some(event.ok) else subscribed)
  {
    if event.ChatResponse? && s.chat.Waiting? && s.isActive {
      RespondKeepsListener(s.(chat := Settled), event);
    }
  }

  lemma {:induction false} AlwaysBalanced(s: State, events: seq<Event>, subscribed: Option<bool>)
    requires Balanced(s, subscribed)
    ensures Balanced(Play(s, events), if subscribed == None then Subscribed(events) else subscribed)
    decreases events
  {
    if events != [] {
      StepIsBalanced(s, events[0], subscribed);
      AlwaysBalanced(Step(s, events[0]), events[1..],
                     if subscribed == None && events[0].SubscriptionReady? then Some(events[0].ok) else subscribed);
    }
  }

  /** Over every run, a listener that was installed is held or has been released, never both and never twice; a run that
      was torn down before it finished has released it, whether the subscription came before the tear-down or after;
      and a run that is going on holds it. */
  lemma ListenerIsReleasedExactly(events: seq<Event>)
    ensures var s, installed := Play(INITIAL, events), Subscribed(events) == Some(true);
            && s.unlistened <= 1
            && (s.hasUnlisten || s.unlistened == 1 <==> installed)
            && (installed && !s.isActive && !s.finished ==> !s.hasUnlisten && s.unlistened == 1)
            && (installed && s.isActive ==> s.hasUnlisten && s.unlistened == 0)
  {
    AlwaysBalanced(INITIAL, events, None);
  }

  /** The request is sent once the subscription has been attempted, whether it came about or not, unless the run has been
      torn down by then. */
  lemma RequestIsSentExactly(s: State, ok: bool)
    requires s.chat == NotSent
    ensures Step(s, SubscriptionReady(ok)).chat == if s.isActive then Waiting else Settled
    ensures Step(s, SubscriptionReady(ok)).output == s.output && Step(s, SubscriptionReady(ok)).isActive == s.isActive
  {}
}
