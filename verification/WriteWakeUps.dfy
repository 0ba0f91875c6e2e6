/**
 Whether a write ever comes (src/terminal/session.ts, 481-511, 1038-1068 and 1198-1310).

 Text in the two buffers and callbacks that wait need something that will flush them: a timer, a write
 that is still to complete, or the end of a resize. The pipeline does not guarantee it. A panel is
 stranded if it is shown and idle, nothing is going to flush it, and something waits. The steps that
 strand a panel, and those that help a stranded one, are told exactly, and with them every run that ends
 with a stranded panel.
 */
module WriteWakeUps {
  import opened Prelude
  import opened WritePipeline

  predicate Waiting<T>(p: Pipe<T>) {
    p.hidden != [] || p.buffered != [] || p.callbacks != []
  }

  /** Shown, with a terminal, and nothing under way that would flush it. */
  predicate Idle<T>(p: Pipe<T>) {
    p.attached && p.visible && !p.resizing && !p.inFlight && !p.frameArmed && !p.timeoutArmed
  }

  predicate Stranded<T>(p: Pipe<T>) {
    Idle(p) && Waiting(p)
  }

  /** The step leaves something waiting on an idle panel: a write completes over an empty buffer and a
      backlog; the panel is shown, gets its terminal, or stops being resized, and nothing is scheduled. */
  predicate Strands<T>(p: Pipe<T>, step: Step<T>) {
    match step
    case WriteDone =>
      p.outstanding > 0 && Idle(p.(inFlight := false)) && p.buffered == [] && p.hidden != []
    case SetVisible(visible) => visible && !p.visible && Idle(p.(visible := true)) && Waiting(p)
    case Attach => !p.attached && Idle(p.(attached := true)) && Waiting(p)
    case ResizeSettled =>
      p.resizing && Idle(p.(resizing := false)) && p.hidden != [] && p.buffered == [] && p.callbacks == []
    case _ => false
  }

  /** The step gets a stranded panel going, or takes it out of sight. */
  predicate Helps<T>(p: Pipe<T>, step: Step<T>) {
    match step
    case Queue(text) => text != []
    case Flush(_) => true
    case BecomeVisible => p.hidden != []
    case ResizeSettled => p.buffered != [] || p.callbacks != []
    case ResizeStart => true
    case SetVisible(visible) => !visible
    case _ => false
  }

  lemma FlushNeverStrands<T>(p: Pipe<T>, afterWrite: Option<nat>)
    requires Valid(p)
    ensures !Stranded(FlushNow(p, afterWrite))
  {
    var q := p.(callbacks := p.callbacks + Requested(afterWrite), frameArmed := false, timeoutArmed := false);
    assert p.hidden + p.buffered == [] ==> p.hidden == [] && p.buffered == [];
  }

  lemma CompletionStrandsExactly<T>(p: Pipe<T>)
    requires Valid(p) && p.outstanding > 0
    ensures Stranded(Completed(p)) <==> Strands(p, WriteDone)
  {
    var q := p.(inFlight := false, outstanding := p.outstanding - 1);
    if q.buffered != [] {
      FlushNeverStrands(q, None);
    }
  }

  /** One step strands a panel that was not stranded exactly so. */
  lemma StepStrandsExactly<T>(p: Pipe<T>, step: Step<T>)
    requires Valid(p) && !Stranded(p)
    ensures Stranded(Take(p, step)) <==> Strands(p, step)
  {
    match step
    case Flush(afterWrite) => FlushNeverStrands(p, afterWrite);
    case FrameFires =>
      if p.frameArmed {
        FlushNeverStrands(p.(frameArmed := false), None);
      }
    case TimeoutFires =>
      if p.timeoutArmed {
        FlushNeverStrands(p.(timeoutArmed := false), None);
      }
    case BecomeVisible =>
      if p.hidden != [] {
        FlushNeverStrands(p, None);
      }
    case WriteDone =>
      if p.outstanding > 0 {
        CompletionStrandsExactly(p);
      }
    case _ =>
  }

  /** One step helps a stranded panel exactly so. */
  lemma StepHelpsExactly<T>(p: Pipe<T>, step: Step<T>)
    requires Valid(p) && Stranded(p)
    ensures !Stranded(Take(p, step)) <==> Helps(p, step)
  {
    match step
    case Flush(afterWrite) => FlushNeverStrands(p, afterWrite);
    case BecomeVisible =>
      if p.hidden != [] {
        FlushNeverStrands(p, None);
      }
    case _ =>
  }

  // ---------------------------------------------------------------------------
  // Every run
  // ---------------------------------------------------------------------------

  lemma {:induction false} PlaySnoc<T>(p: Pipe<T>, steps: seq<Step<T>>, step: Step<T>)
    ensures Play(p, steps + [step]) == Take(Play(p, steps), step)
    decreases steps
  {
    if steps == [] {
      assert [step][1..] == [] && [] + [step] == [step];
    } else {
      assert (steps + [step])[1..] == steps[1..] + [step];
      PlaySnoc(Take(p, steps[0]), steps[1..], step);
    }
  }

  lemma {:induction false} PlayValid<T>(p: Pipe<T>, steps: seq<Step<T>>)
    requires Valid(p)
    ensures Valid(Play(p, steps))
    decreases steps
  {
    if steps != [] {
      CallbacksStep(p, steps[0]);
      PlayValid(Take(p, steps[0]), steps[1..]);
    }
  }

  /** The state before step i of a run. */
  function At<T>(p: Pipe<T>, steps: seq<Step<T>>, i: nat): Pipe<T>
    requires i <= |steps|
  {
    Play(p, steps[..i])
  }

  /** Step i strands the panel and nothing after it helps. */
  ghost predicate StrandedFrom<T>(p: Pipe<T>, steps: seq<Step<T>>, i: nat) {
    && i < |steps| && Strands(At(p, steps, i), steps[i])
    && forall j :: i < j < |steps| ==> !Helps(At(p, steps, j), steps[j])
  }

  lemma StrandedFromSnoc<T>(p: Pipe<T>, steps: seq<Step<T>>, last: Step<T>, i: nat)
    requires i < |steps|
    ensures StrandedFrom(p, steps + [last], i) <==> StrandedFrom(p, steps, i) && !Helps(Play(p, steps), last)
  {
    var all := steps + [last];
    assert all[..|steps|] == steps;
    forall j | 0 <= j < |steps| ensures all[j] == steps[j] && At(p, all, j) == At(p, steps, j) {
      assert all[..j] == steps[..j];
    }
    assert At(p, all, |steps|) == Play(p, steps) && all[|steps|] == last;
  }

  lemma StrandedFromLast<T>(p: Pipe<T>, steps: seq<Step<T>>, last: Step<T>)
    ensures StrandedFrom(p, steps + [last], |steps|) <==> Strands(Play(p, steps), last)
  {
    assert (steps + [last])[..|steps|] == steps;
  }

  /** A run ends with a stranded panel exactly if one of its steps strands it and no later step helps. */
  lemma {:induction false} EndsStrandedExactly<T>(p: Pipe<T>, steps: seq<Step<T>>)
    requires Valid(p) && !Stranded(p)
    ensures Stranded(Play(p, steps)) <==> exists i :: StrandedFrom(p, steps, i)
  {
    if steps != [] {
      var n := |steps| - 1;
      var front, last := steps[..n], steps[n];
      assert steps == front + [last];
      EndsStrandedExactly(p, front);
      PlaySnoc(p, front, last);
      PlayValid(p, front);
      StrandedFromLast(p, front, last);
      StrandedStep(p, front, last);
    }
  }

  lemma StrandedStep<T>(p: Pipe<T>, front: seq<Step<T>>, last: Step<T>)
    requires Valid(Play(p, front)) && (Stranded(Play(p, front)) <==> exists i :: StrandedFrom(p, front, i))
    ensures Stranded(Take(Play(p, front), last)) <==> exists i :: StrandedFrom(p, front + [last], i)
  {
    var q, all := Play(p, front), front + [last];
    StrandedFromLast(p, front, last);
    forall i | 0 <= i < |front| ensures StrandedFrom(p, all, i) <==> StrandedFrom(p, front, i) && !Helps(q, last) {
      StrandedFromSnoc(p, front, last, i);
    }
    if Stranded(q) {
      StepHelpsExactly(q, last);
      var i :| StrandedFrom(p, front, i);
      assert StrandedFrom(p, all, i) <==> !Helps(q, last);
      assert !StrandedFrom(p, all, |front|);
    } else {
      StepStrandsExactly(q, last);
      assert Strands(q, last) ==> StrandedFrom(p, all, |front|);
    }
  }

  // ---------------------------------------------------------------------------
  // Hiding and showing
  // ---------------------------------------------------------------------------

  /** Showing a panel, as the panel's component does it. */
  function Shown<T>(p: Pipe<T>): Pipe<T> {
    Take(Take(p, SetVisible(true)), BecomeVisible)
  }

  /** Showing a hidden panel leaves it stranded exactly if nothing is under way, there is no backlog, and
      something waits all the same: only a backlog makes showing it flush. */
  lemma ShowingStrandsExactly<T>(p: Pipe<T>)
    requires Valid(p) && !p.visible
    ensures Stranded(Shown(p)) <==> Idle(p.(visible := true)) && p.hidden == [] && (p.buffered != [] || p.callbacks != [])
  {
    if p.hidden != [] {
      FlushNeverStrands(p.(visible := true), None);
    }
  }

  // ---------------------------------------------------------------------------
  // A panel that stays shown
  // ---------------------------------------------------------------------------

  predicate VisibilityKept<T>(steps: seq<Step<T>>) {
    forall i :: 0 <= i < |steps| ==> !steps[i].SetVisible?
  }

  predicate ShownWithoutBacklog<T>(p: Pipe<T>) {
    p.attached && p.visible && p.hidden == []
  }

  lemma KeptTail<T>(steps: seq<Step<T>>)
    requires VisibilityKept(steps) && steps != []
    ensures !steps[0].SetVisible? && VisibilityKept(steps[1..])
  {
    forall i | 0 <= i < |steps[1..]| ensures !steps[1..][i].SetVisible? {
      assert steps[1..][i] == steps[i + 1];
    }
  }

  lemma ShownStep<T>(p: Pipe<T>, step: Step<T>)
    requires ShownWithoutBacklog(p) && !step.SetVisible?
    ensures ShownWithoutBacklog(Take(p, step))
  {}

  lemma {:induction false} ShownStaysShown<T>(p: Pipe<T>, steps: seq<Step<T>>)
    requires ShownWithoutBacklog(p) && VisibilityKept(steps)
    ensures ShownWithoutBacklog(Play(p, steps))
    decreases steps
  {
    if steps != [] {
      KeptTail(steps);
      ShownStep(p, steps[0]);
      ShownStaysShown(Take(p, steps[0]), steps[1..]);
    }
  }

  /** It takes hiding to strand a panel: one that stays shown, and has no backlog, never is. */
  lemma StayingShownNeverStrands<T>(p: Pipe<T>, steps: seq<Step<T>>)
    requires Valid(p) && !Stranded(p) && ShownWithoutBacklog(p) && VisibilityKept(steps)
    ensures !Stranded(Play(p, steps))
  {
    EndsStrandedExactly(p, steps);
    forall i | 0 <= i < |steps| ensures !Strands(At(p, steps, i), steps[i]) {
      ShownStaysShown(p, steps[..i]);
      assert !steps[i].SetVisible?;
    }
  }

  lemma {:induction false} ShownIsInOrder<T>(p: Pipe<T>, steps: seq<Step<T>>)
    requires ShownWithoutBacklog(p) && VisibilityKept(steps)
    ensures NothingOvertakes(p, steps)
    decreases steps
  {
    if steps != [] {
      KeptTail(steps);
      ShownStep(p, steps[0]);
      ShownIsInOrder(Take(p, steps[0]), steps[1..]);
    }
  }

  /** What is under way on a shown panel comes to pass: a resize settles, the timers fire, the writes complete. */
  function Settling<T>(p: Pipe<T>): seq<Step<T>> {
    (if p.resizing then [ResizeSettled] else []) + [FrameFires, TimeoutFires, WriteDone, WriteDone]
  }

  lemma PlayOne<T>(p: Pipe<T>, step: Step<T>)
    ensures Play(p, [step]) == Take(p, step)
  {
    assert [step][1..] == [];
  }

  lemma PlayThree<T>(p: Pipe<T>, a: Step<T>, b: Step<T>, c: Step<T>)
    ensures Play(p, [a, b, c]) == Take(Take(Take(p, a), b), c)
  {
    assert [a, b, c][1..] == [b, c] && [b, c][1..] == [c] && [c][1..] == [];
    assert Play(Take(p, a), [b, c]) == Play(Take(Take(p, a), b), [c]) == Play(Take(Take(Take(p, a), b), c), []);
  }

  lemma PlayFour<T>(p: Pipe<T>, a: Step<T>, b: Step<T>, c: Step<T>, d: Step<T>)
    ensures Play(p, [a, b, c, d]) == Take(Take(Take(Take(p, a), b), c), d)
  {
    assert [a, b, c, d] == [a, b, c] + [d];
    PlayConcat(p, [a, b, c], [d]);
    PlayThree(p, a, b, c);
    PlayOne(Take(Take(Take(p, a), b), c), d);
  }

  lemma TimersRunOut<T>(p: Pipe<T>)
    requires Valid(p) && p.attached && p.visible && !p.resizing
    ensures var q := Take(Take(p, FrameFires), TimeoutFires);
            Valid(q) && q.attached && q.visible && !q.resizing && !q.frameArmed && !q.timeoutArmed
  {
    CallbacksStep(p, FrameFires);
    CallbacksStep(Take(p, FrameFires), TimeoutFires);
  }

  lemma WritesRunOut<T>(p: Pipe<T>)
    requires Valid(p) && p.attached && p.visible && !p.resizing && !p.frameArmed && !p.timeoutArmed
    ensures Idle(Take(Take(p, WriteDone), WriteDone))
  {
  }

  /** After that the panel is idle. */
  lemma SettlingIsIdle<T>(p: Pipe<T>)
    requires Valid(p) && p.attached && p.visible
    ensures Idle(Play(p, Settling(p)))
  {
    var settled := if p.resizing then Take(p, ResizeSettled) else p;
    var last: seq<Step<T>> := [FrameFires, TimeoutFires, WriteDone, WriteDone];
    if p.resizing {
      PlayConcat(p, [ResizeSettled], last);
      PlayOne<T>(p, ResizeSettled);
    } else {
      assert Settling(p) == last;
    }
    PlayFour<T>(settled, FrameFires, TimeoutFires, WriteDone, WriteDone);
    TimersRunOut(settled);
    WritesRunOut(Take(Take(settled, FrameFires), TimeoutFires));
  }

  lemma SettlingAddsNothing<T>(p: Pipe<T>)
    ensures VisibilityKept(Settling(p)) && Queued(Settling(p)) == [] && Registered(Settling(p)) == []
  {
    NothingNew(Settling(p));
  }

  lemma {:induction false} NothingNew<T>(steps: seq<Step<T>>)
    requires forall i :: 0 <= i < |steps| ==> !steps[i].Queue? && !steps[i].Flush?
    ensures Queued(steps) == [] && Registered(steps) == []
  {
    if steps != [] {
      assert !steps[0].Queue? && !steps[0].Flush?;
      forall i | 0 <= i < |steps[1..]| ensures !steps[1..][i].Queue? && !steps[1..][i].Flush? {
        assert steps[1..][i] == steps[i + 1];
      }
      NothingNew(steps[1..]);
    }
  }

  /** A panel that stays shown delivers: after any steps, once what is under way has come to pass, the terminal
      has received everything that waited and everything queued since, in order, and every callback has run. */
  lemma StayingShownDelivers<T>(p: Pipe<T>, steps: seq<Step<T>>)
    requires Valid(p) && !Stranded(p) && ShownWithoutBacklog(p) && VisibilityKept(steps)
    ensures var mid := Play(p, steps);
            var q := Play(mid, Settling(mid));
            && q.terminal == Line(p) + Queued(steps)
            && q.ran == p.ran + p.callbacks + Registered(steps)
            && !Waiting(q)
  {
    var mid := Play(p, steps);
    var q := Play(mid, Settling(mid));
    ShownStaysShown(p, steps);
    StayingShownNeverStrands(p, steps);
    ShownIsInOrder(p, steps);
    OrderIsKept(p, steps);
    OneWriteAndEveryCallbackOnce(p, steps);
    SettlingDelivers(mid);
  }

  lemma SettlingDelivers<T>(p: Pipe<T>)
    requires Valid(p) && !Stranded(p) && ShownWithoutBacklog(p)
    ensures var q := Play(p, Settling(p));
            q.terminal == Line(p) && q.ran == p.ran + p.callbacks && !Waiting(q)
  {
    var q := Play(p, Settling(p));
    SettlingAddsNothing(p);
    SettlingIsIdle(p);
    StayingShownNeverStrands(p, Settling(p));
    ShownIsInOrder(p, Settling(p));
    OrderIsKept(p, Settling(p));
    OneWriteAndEveryCallbackOnce(p, Settling(p));
    assert Line(q) == Line(p) + [] == Line(p) && q.terminal + [] + [] == q.terminal;
    assert q.ran + q.callbacks == p.ran + p.callbacks + [] == p.ran + p.callbacks;
    assert q.ran + [] == q.ran;
  }

  // ---------------------------------------------------------------------------
  // It happens
  // ---------------------------------------------------------------------------

  lemma PlaySix<T>(p: Pipe<T>, a: Step<T>, b: Step<T>, c: Step<T>, d: Step<T>, e: Step<T>, f: Step<T>)
    ensures Play(p, [a, b, c, d, e, f]) == Take(Take(Take(Take(Take(Take(p, a), b), c), d), e), f)
  {
    assert [a, b, c, d, e, f] == [a, b, c] + [d, e, f];
    PlayConcat(p, [a, b, c], [d, e, f]);
    PlayThree(p, a, b, c);
    PlayThree(Take(Take(Take(p, a), b), c), d, e, f);
  }

  /** Text held back by a resize that ends while the panel is hidden stays in the visible buffer when the
      panel is shown again. */
  lemma HeldTextIsForgotten()
    ensures var p := Play(SHOWN, [Queue("a"), ResizeStart, SetVisible(false), ResizeSettled, SetVisible(true), BecomeVisible]);
            Stranded(p) && p.buffered == "a" && p.terminal == ""
  {
    PlaySix<char>(SHOWN, Queue("a"), ResizeStart, SetVisible(false), ResizeSettled, SetVisible(true), BecomeVisible);
  }

  /** A callback registered while the panel is hidden over an empty backlog is not run when it is shown. */
  lemma CallbackIsForgotten()
    ensures var p := Take(Play(SHOWN, [SetVisible(false), Flush(Some(7)), SetVisible(true)]), BecomeVisible);
            Stranded(p) && p.callbacks == [7] && p.ran == []
  {
    PlayThree<char>(SHOWN, SetVisible(false), Flush(Some(7)), SetVisible(true));
  }

  /** A backlog stays behind when the panel is shown during a write: the flush has to wait, and the
      completion looks at the visible buffer only. */
  lemma BacklogIsForgotten()
    ensures var shown := Play(SHOWN, [Queue("a"), Flush(None), SetVisible(false), Queue("b"), SetVisible(true), BecomeVisible]);
            && shown.inFlight && shown.buffered == "" && shown.hidden == "b"
            && Stranded(Take(shown, WriteDone)) && Take(shown, WriteDone).terminal == "a"
  {
    PlaySix<char>(SHOWN, Queue("a"), Flush(None), SetVisible(false), Queue("b"), SetVisible(true), BecomeVisible);
    assert "" + "a" == "a";
  }
}
