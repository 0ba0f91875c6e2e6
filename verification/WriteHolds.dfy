/**
 When nothing is written (src/terminal/session.ts, 1043-1068 and 1207-1280): while the window is being resized
 nothing is passed to a terminal, so that output that streams in does not repaint it, and while the panel is
 hidden nothing is either. Both are told from the terminal's text over every run.
 */
module WriteHolds {
  import opened Prelude
  import opened WritePipeline

  /** Hidden, or in the middle of a resize. */
  predicate Held<T>(p: Pipe<T>) {
    !p.visible || p.resizing
  }

  /** Nothing is passed to the terminal, and no write is begun. */
  ghost predicate NothingWritten<T>(p: Pipe<T>, q: Pipe<T>) {
    q.terminal == p.terminal && q.outstanding <= p.outstanding && (q.inFlight ==> p.inFlight)
  }

  lemma HeldStepWritesNothing<T>(p: Pipe<T>, step: Step<T>)
    requires Held(p)
    ensures NothingWritten(p, Take(p, step))
  {}

  lemma {:induction false} HeldRunWritesNothing<T>(p: Pipe<T>, steps: seq<Step<T>>)
    requires forall i :: 0 <= i < |steps| ==> Held(Play(p, steps[..i]))
    ensures NothingWritten(p, Play(p, steps))
    decreases steps
  {
    if steps != [] {
      var q, rest := Take(p, steps[0]), steps[1..];
      assert steps[..0] == [] && Held(p);
      HeldStepWritesNothing(p, steps[0]);
      forall i | 0 <= i < |rest| ensures Held(Play(q, rest[..i])) {
        assert steps[..i + 1][1..] == rest[..i] && steps[..i + 1][0] == steps[0];
        assert Play(p, steps[..i + 1]) == Play(q, rest[..i]);
      }
      HeldRunWritesNothing(q, rest);
    }
  }

  /** From the start of a resize until it settles the terminal receives nothing, whatever is queued and flushed,
      whatever writes complete and whether the panel is hidden or shown meanwhile. */
  lemma {:induction false} ResizeHoldsWrites<T>(p: Pipe<T>, steps: seq<Step<T>>)
    requires p.resizing && forall i :: 0 <= i < |steps| ==> !steps[i].ResizeSettled?
    ensures NothingWritten(p, Play(p, steps)) && Play(p, steps).resizing
    decreases steps
  {
    if steps != [] {
      assert !steps[0].ResizeSettled?;
      Rest(steps);
      HeldStepWritesNothing(p, steps[0]);
      StepChangesPanelExactly(p, steps[0]);
      ResizeHoldsWrites(Take(p, steps[0]), steps[1..]);
    }
  }

  lemma Rest<T>(steps: seq<T>)
    requires steps != []
    ensures forall i :: 0 <= i < |steps[1..]| ==> steps[1..][i] == steps[i + 1]
  {}

  /** While it is hidden, the terminal receives nothing. */
  lemma {:induction false} HiddenReceivesNothing<T>(p: Pipe<T>, steps: seq<Step<T>>)
    requires !p.visible && forall i :: 0 <= i < |steps| ==> steps[i] != SetVisible(true)
    ensures NothingWritten(p, Play(p, steps)) && !Play(p, steps).visible
    decreases steps
  {
    if steps != [] {
      assert steps[0] != SetVisible(true);
      Rest(steps);
      HeldStepWritesNothing(p, steps[0]);
      StepChangesPanelExactly(p, steps[0]);
      HiddenReceivesNothing(Take(p, steps[0]), steps[1..]);
    }
  }

  // ---------------------------------------------------------------------------
  // When something is
  // ---------------------------------------------------------------------------

  /** The step asks for a flush. */
  predicate Flushes<T>(p: Pipe<T>, step: Step<T>) {
    match step
    case Flush(_) => true
    case FrameFires => p.frameArmed
    case TimeoutFires => p.timeoutArmed
    case BecomeVisible => p.hidden != []
    case WriteDone => p.outstanding > 0 && p.buffered != []
    case _ => false
  }

  /** No write is under way, or the step is its completion. */
  predicate Free<T>(p: Pipe<T>, step: Step<T>) {
    !p.inFlight || step.WriteDone?
  }

  predicate Writes<T>(p: Pipe<T>, step: Step<T>) {
    Flushes(p, step) && p.attached && !Held(p) && Free(p, step) && (p.hidden != [] || p.buffered != [])
  }

  /** A step writes exactly then, and all there is. */
  lemma StepWritesExactly<T>(p: Pipe<T>, step: Step<T>)
    requires Valid(p)
    ensures Take(p, step).terminal == if Writes(p, step) then p.terminal + p.hidden + p.buffered else p.terminal
    ensures Take(p, step).inFlight <==> Writes(p, step) || (p.inFlight && !step.WriteDone?)
  {
    assert p.hidden + p.buffered == [] <==> p.hidden == [] && p.buffered == [];
  }

  /** A flush finds nothing to write and nothing to wait for, or a write has completed and nothing is buffered. */
  predicate RunsCallbacks<T>(p: Pipe<T>, step: Step<T>) {
    || (Flushes(p, step) && Free(p, step) && !p.attached)
    || (Flushes(p, step) && Free(p, step) && !Held(p) && p.hidden == [] && p.buffered == [])
    || (step.WriteDone? && p.outstanding > 0 && p.buffered == [])
  }

  /** The callbacks run exactly then, all of them, the one that is registered by the step included. */
  lemma StepRunsCallbacksExactly<T>(p: Pipe<T>, step: Step<T>)
    requires Valid(p)
    ensures var waiting := p.callbacks + if step.Flush? && step.afterWrite.Some? then [step.afterWrite.value] else [];
            && Take(p, step).ran == (if RunsCallbacks(p, step) then p.ran + waiting else p.ran)
            && Take(p, step).callbacks == (if RunsCallbacks(p, step) then [] else waiting)
  {
    assert p.callbacks + [] == p.callbacks;
    assert p.hidden + p.buffered == [] <==> p.hidden == [] && p.buffered == [];
  }

  /** Where the text waits: what is queued waits on the side the panel is on, a write takes it all, and a flush of a
      hidden panel moves what is buffered behind the backlog. */
  lemma StepMovesTextExactly<T>(p: Pipe<T>, step: Step<T>)
    requires Valid(p)
    ensures var q := Take(p, step);
            if Writes(p, step) then q.hidden == [] && q.buffered == []
            else if step.Queue? then
              if p.visible then q.hidden == p.hidden && q.buffered == p.buffered + step.text
              else q.hidden == p.hidden + step.text && q.buffered == p.buffered
            else if Flushes(p, step) && p.attached && !p.visible then q.hidden == p.hidden + p.buffered && q.buffered == []
            else q.hidden == p.hidden && q.buffered == p.buffered
  {}

  /** Text that is queued for a shown panel, and the end of a resize over something that waits. */
  predicate Sets<T>(p: Pipe<T>, step: Step<T>) {
    match step
    case Queue(text) => text != [] && p.visible && !p.resizing
    case ResizeSettled => p.visible && (p.buffered != [] || p.callbacks != [])
    case _ => false
  }

  /** What a flush leaves alone, and the timers it cancels. */
  lemma FlushKeepsPanel<T>(p: Pipe<T>, afterWrite: Option<nat>)
    ensures var q := FlushNow(p, afterWrite);
            && q.attached == p.attached && q.visible == p.visible && q.resizing == p.resizing
            && !q.frameArmed && !q.timeoutArmed
  {}

  /** The timers, and the panel's own state, change as the steps say: the timers are cancelled by a flush and by a
      resize. */
  ghost predicate PanelFollows<T>(p: Pipe<T>, step: Step<T>, q: Pipe<T>) {
    var cancels := Flushes(p, step) || step.ResizeStart?;
    && q.frameArmed == (Sets(p, step) || (p.frameArmed && !cancels))
    && q.timeoutArmed == (Sets(p, step) || (p.timeoutArmed && !cancels))
    && (q.attached <==> p.attached || step.Attach?)
    && (q.visible <==> if step.SetVisible? then step.visible else p.visible)
    && (q.resizing <==> step.ResizeStart? || (p.resizing && !step.ResizeSettled?))
  }

  lemma FlushingStepFollows<T>(p: Pipe<T>, step: Step<T>)
    requires Flushes(p, step)
    ensures PanelFollows(p, step, Take(p, step))
  {
    match step
    case Flush(afterWrite) => FlushKeepsPanel(p, afterWrite);
    case FrameFires => FlushKeepsPanel(p.(frameArmed := false), None);
    case TimeoutFires => FlushKeepsPanel(p.(timeoutArmed := false), None);
    case BecomeVisible => FlushKeepsPanel(p, None);
    case WriteDone => FlushKeepsPanel(p.(inFlight := false, outstanding := p.outstanding - 1), None);
  }

  lemma StepChangesPanelExactly<T>(p: Pipe<T>, step: Step<T>)
    ensures PanelFollows(p, step, Take(p, step))
  {
    if Flushes(p, step) {
      FlushingStepFollows(p, step);
    }
  }
}
