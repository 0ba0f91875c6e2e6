/**
 The write pipeline of a terminal session (src/terminal/session.ts, 495-509, 1043-1068, 1196-1310),
 on values.

 Text for the terminal waits in the visible buffer, or in the hidden backlog while the panel is
 hidden. A flush hands everything to the terminal in one write; the terminal calls back when it is
 done, and until then no further write is started. While the window is being resized, a visible
 panel writes nothing. The text is generic, so that single characters can be told apart.
 */
module WritePipeline {
  import opened Prelude

  datatype Pipe<T> = Pipe(
    attached: bool,          // a terminal exists
    visible: bool,
    resizing: bool,
    buffered: seq<T>,
    hidden: seq<T>,
    inFlight: bool,          // the session's own flag
    terminal: seq<T>,        // everything passed to the terminal so far
    outstanding: nat,        // writes the terminal has not called back for
    frameArmed: bool,
    timeoutArmed: bool,
    callbacks: seq<nat>,     // after-write callbacks still to run
    ran: seq<nat>)           // after-write callbacks that have run

  datatype Step<T> =
    | Queue(text: seq<T>)
    | Flush(afterWrite: Option<nat>)
    | FrameFires
    | TimeoutFires
    | WriteDone
    | SetVisible(visible: bool)
    | BecomeVisible
    | ResizeStart
    | ResizeSettled
    | Attach

  function RunCallbacks<T>(p: Pipe<T>): Pipe<T> {
    p.(ran := p.ran + p.callbacks, callbacks := [])
  }

  function Schedule<T>(p: Pipe<T>): Pipe<T> {
    if p.resizing && p.visible then p else p.(frameArmed := true, timeoutArmed := true)
  }

  /** `_flushTerminalWriteBufferNow`. */
  function FlushNow<T>(p: Pipe<T>, afterWrite: Option<nat>): Pipe<T> {
    Deliver(p.(callbacks := p.callbacks + Requested(afterWrite), frameArmed := false, timeoutArmed := false))
  }

  function Requested(afterWrite: Option<nat>): seq<nat> {
    match afterWrite case Some(c) => [c] case None => []
  }

  function Deliver<T>(p: Pipe<T>): Pipe<T> {
    if !p.attached then
      if p.inFlight then p else RunCallbacks(p)
    else if p.resizing && p.visible then p
    else if !p.visible then p.(hidden := p.hidden + p.buffered, buffered := [])
    else if p.inFlight then p
    else if p.hidden + p.buffered == [] then RunCallbacks(p)
    else p.(terminal := Line(p), hidden := [], buffered := [],
            inFlight := true, outstanding := p.outstanding + 1)
  }

  /** All text, in the order in which the terminal has received or would receive it. */
  function Line<T>(p: Pipe<T>): seq<T> {
    p.terminal + p.hidden + p.buffered
  }

  function QueueText<T>(p: Pipe<T>, text: seq<T>): Pipe<T> {
    if text == [] then p
    else if !p.visible then p.(hidden := p.hidden + text)
    else Schedule(p.(buffered := p.buffered + text))
  }

  /** The terminal's callback for a write. */
  function Completed<T>(p: Pipe<T>): Pipe<T>
    requires p.outstanding > 0
  {
    var q := p.(inFlight := false, outstanding := p.outstanding - 1);
    if q.buffered != [] then FlushNow(q, None) else RunCallbacks(q)
  }

  /** Timers fire and writes complete only when there is one; otherwise nothing happens. */
  function Take<T>(p: Pipe<T>, step: Step<T>): Pipe<T> {
    match step
    case Queue(text) => QueueText(p, text)
    case Flush(afterWrite) => FlushNow(p, afterWrite)
    case FrameFires => if p.frameArmed then FlushNow(p.(frameArmed := false), None) else p
    case TimeoutFires => if p.timeoutArmed then FlushNow(p.(timeoutArmed := false), None) else p
    case WriteDone => if p.outstanding > 0 then Completed(p) else p
    case SetVisible(visible) => p.(visible := visible)
    case BecomeVisible => if p.hidden != [] then FlushNow(p, None) else p
    case ResizeStart => p.(resizing := true, frameArmed := false, timeoutArmed := false)
    case ResizeSettled =>
      var q := p.(resizing := false);
      if q.visible && (q.buffered != [] || q.callbacks != []) then Schedule(q) else q
    case Attach => p.(attached := true)
  }

  function Play<T>(p: Pipe<T>, steps: seq<Step<T>>): Pipe<T>
    decreases steps
  {
    if steps == [] then p else Play(Take(p, steps[0]), steps[1..])
  }

  lemma {:induction false} PlayConcat<T>(p: Pipe<T>, a: seq<Step<T>>, b: seq<Step<T>>)
    ensures Play(p, a + b) == Play(Play(p, a), b)
    decreases a
  {
    if a == [] {
      assert a + b == b;
    } else {
      assert (a + b)[1..] == a[1..] + b;
      PlayConcat(Take(p, a[0]), a[1..], b);
    }
  }

  // ---------------------------------------------------------------------------
  // One write at a time, every callback once
  // ---------------------------------------------------------------------------

  ghost predicate Valid<T>(p: Pipe<T>) {
    p.outstanding == (if p.inFlight then 1 else 0) && (p.inFlight ==> p.attached)
  }

  function Registered<T>(steps: seq<Step<T>>): seq<nat> {
    if steps == [] then []
    else
      (if steps[0].Flush? then Requested(steps[0].afterWrite) else []) + Registered(steps[1..])
  }

  /** What a step leaves alone: the text as a whole and the callbacks as a whole. */
  ghost predicate Keeps<T>(p: Pipe<T>, q: Pipe<T>) {
    && (Valid(p) ==> Valid(q))
    && Line(q) == Line(p) && p.terminal <= q.terminal
    && q.ran + q.callbacks == p.ran + p.callbacks && p.ran <= q.ran
    && (q.ran != p.ran ==> q.callbacks == [] && !q.inFlight && (q.attached ==> q.buffered == []))
  }

  lemma DeliverKeeps<T>(p: Pipe<T>)
    ensures Keeps(p, Deliver(p))
  {
    var q := Deliver(p);
    assert q.ran + q.callbacks == p.ran + p.callbacks;
    assert Line(q) == Line(p);
  }

  /** The same for a flush, which registers a callback. */
  lemma FlushKeeps<T>(p: Pipe<T>, afterWrite: Option<nat>)
    ensures Keeps(p.(callbacks := p.callbacks + Requested(afterWrite)), FlushNow(p, afterWrite))
  {
    DeliverKeeps(p.(callbacks := p.callbacks + Requested(afterWrite), frameArmed := false, timeoutArmed := false));
  }

  lemma PlainFlushKeeps<T>(p: Pipe<T>)
    ensures Keeps(p, FlushNow(p, None))
  {
    FlushKeeps(p, None);
    assert p.callbacks + [] == p.callbacks;
  }

  lemma CompletedKeeps<T>(p: Pipe<T>)
    requires p.outstanding > 0
    ensures Keeps(p, Completed(p))
  {
    var q := p.(inFlight := false, outstanding := p.outstanding - 1);
    assert Line(q) == Line(p);
    if q.buffered != [] {
      PlainFlushKeeps(q);
    } else {
      RunKeeps(q);
    }
  }

  lemma RunKeeps<T>(p: Pipe<T>)
    requires p.buffered == [] && !p.inFlight
    ensures Keeps(p, RunCallbacks(p))
  {
    assert p.ran + p.callbacks + [] == p.ran + p.callbacks;
  }

  /** Two states that differ in nothing but flags and timers. */
  ghost predicate SameTexts<T>(p: Pipe<T>, q: Pipe<T>) {
    && q.terminal == p.terminal && q.hidden == p.hidden && q.buffered == p.buffered
    && q.callbacks == p.callbacks && q.ran == p.ran
    && q.outstanding == p.outstanding && q.inFlight == p.inFlight && (p.attached ==> q.attached)
  }

  lemma SameTextsKeep<T>(p: Pipe<T>, q: Pipe<T>)
    requires SameTexts(p, q)
    ensures Keeps(p, q)
  {}

  lemma KeepsFromSame<T>(p: Pipe<T>, q: Pipe<T>, r: Pipe<T>)
    requires SameTexts(p, q) && p.attached == q.attached && Keeps(q, r)
    ensures Keeps(p, r)
  {
    assert Line(p) == Line(q);
  }

  lemma TimerKeeps<T>(p: Pipe<T>, fired: Pipe<T>)
    requires SameTexts(p, fired) && p.attached == fired.attached
    ensures Keeps(p, FlushNow(fired, None))
  {
    PlainFlushKeeps(fired);
    KeepsFromSame(p, fired, FlushNow(fired, None));
  }

  lemma TimerStepKeeps<T>(p: Pipe<T>, step: Step<T>)
    requires (step.FrameFires? && p.frameArmed) || (step.TimeoutFires? && p.timeoutArmed)
    ensures Keeps(p, Take(p, step))
  {
    TimerKeeps(p, if step.FrameFires? then p.(frameArmed := false) else p.(timeoutArmed := false));
  }

  /** Every step but a request to queue or flush. */
  lemma StepKeeps<T>(p: Pipe<T>, step: Step<T>)
    requires !step.Queue? && !step.Flush?
    ensures Keeps(p, Take(p, step))
  {
    if (step.FrameFires? && p.frameArmed) || (step.TimeoutFires? && p.timeoutArmed) {
      TimerStepKeeps(p, step);
    } else if step.BecomeVisible? && p.hidden != [] {
      PlainFlushKeeps(p);
    } else if step.WriteDone? && p.outstanding > 0 {
      CompletedKeeps(p);
    } else {
      SameTextsKeep(p, Take(p, step));
    }
  }

  /** What a step does to the callbacks. */
  ghost predicate RunsInOrder<T>(p: Pipe<T>, q: Pipe<T>, registered: seq<nat>) {
    && Valid(q) && q.ran + q.callbacks == p.ran + p.callbacks + registered && p.ran <= q.ran
    && (q.ran != p.ran ==> q.callbacks == [] && !q.inFlight && (q.attached ==> q.buffered == []))
  }

  lemma FlushRunsInOrder<T>(p: Pipe<T>, afterWrite: Option<nat>)
    requires Valid(p)
    ensures RunsInOrder(p, FlushNow(p, afterWrite), Requested(afterWrite))
  {
    FlushKeeps(p, afterWrite);
    ConcatAssociates(p.ran, p.callbacks, Requested(afterWrite));
  }

  lemma KeepsRunsInOrder<T>(p: Pipe<T>, q: Pipe<T>)
    requires Valid(p) && Keeps(p, q)
    ensures RunsInOrder(p, q, [])
  {
    assert p.ran + p.callbacks + [] == p.ran + p.callbacks;
  }

  lemma QueueRunsInOrder<T>(p: Pipe<T>, text: seq<T>)
    requires Valid(p)
    ensures RunsInOrder(p, QueueText(p, text), [])
  {
    assert p.ran + p.callbacks + [] == p.ran + p.callbacks;
  }

  lemma CallbacksStep<T>(p: Pipe<T>, step: Step<T>)
    requires Valid(p)
    ensures var q := Take(p, step);
            && Valid(q)
            && q.ran + q.callbacks == p.ran + p.callbacks + Registered([step])
            && p.ran <= q.ran
            && (q.ran != p.ran ==> q.callbacks == [] && !q.inFlight && (q.attached ==> q.buffered == []))
  {
    assert Registered([step]) == (if step.Flush? then Requested(step.afterWrite) else []) by {
      assert Registered([step][1..]) == [];
    }
    if step.Flush? {
      FlushRunsInOrder(p, step.afterWrite);
    } else if step.Queue? {
      QueueRunsInOrder(p, step.text);
    } else {
      StepKeeps(p, step);
      KeepsRunsInOrder(p, Take(p, step));
    }
  }

  /** At most one write is ever outstanding, and every after-write callback is kept until it runs,
      once, in the order of registration. */
  lemma {:induction false} OneWriteAndEveryCallbackOnce<T>(p: Pipe<T>, steps: seq<Step<T>>)
    requires Valid(p)
    ensures var q := Play(p, steps);
            && Valid(q) && q.outstanding <= 1
            && q.ran + q.callbacks == p.ran + p.callbacks + Registered(steps)
    decreases steps
  {
    if steps != [] {
      CallbacksStep(p, steps[0]);
      OneWriteAndEveryCallbackOnce(Take(p, steps[0]), steps[1..]);
      assert Registered([steps[0]][1..]) == [];
      assert p.ran + p.callbacks + Registered([steps[0]]) + Registered(steps[1..])
          == p.ran + p.callbacks + (Registered([steps[0]]) + Registered(steps[1..]));
    }
  }

  /** A callback never runs over a write: when one runs, no write is in flight, and a terminal that
      exists has been given everything that was in the visible buffer. */
  lemma CallbacksRunWhenIdle<T>(p: Pipe<T>, step: Step<T>)
    requires Valid(p) && Take(p, step).ran != p.ran
    ensures var q := Take(p, step);
            q.callbacks == [] && !q.inFlight && (q.attached ==> q.buffered == []) && p.ran < q.ran
  {
    CallbacksStep(p, step);
  }

  // ---------------------------------------------------------------------------
  // Conservation and order
  // ---------------------------------------------------------------------------

  function Queued<T>(steps: seq<Step<T>>): seq<T> {
    if steps == [] then []
    else (if steps[0].Queue? then steps[0].text else []) + Queued(steps[1..])
  }

  /** Text queued while hidden goes in front of whatever still sits in the visible buffer. */
  predicate Overtakes<T>(p: Pipe<T>, step: Step<T>) {
    step.Queue? && step.text != [] && !p.visible && p.buffered != []
  }

  lemma LineStep<T>(p: Pipe<T>, step: Step<T>)
    ensures var q := Take(p, step);
            Line(q) ==
              if !step.Queue? then Line(p)
              else if p.visible then Line(p) + step.text
              else p.terminal + p.hidden + step.text + p.buffered
    ensures p.terminal <= Take(p, step).terminal
  {
    match step
    case Queue(text) =>
      assert Line(Take(p, step)) == if p.visible then Line(p) + text
                                    else p.terminal + p.hidden + text + p.buffered;
    case Flush(afterWrite) => FlushKeeps(p, afterWrite);
    case _ => StepKeeps(p, step);
  }

  lemma MultisetInsert<T>(a: seq<T>, inserted: seq<T>, b: seq<T>)
    ensures multiset(a + inserted + b) == multiset(a + b) + multiset(inserted)
  {}

  /** Nothing is lost or duplicated: at any time the queued text is, as a whole, what the terminal has
      received plus the hidden backlog plus the visible buffer; and the terminal's text only grows. */
  lemma {:induction false} TextIsConserved<T>(p: Pipe<T>, steps: seq<Step<T>>)
    ensures multiset(Line(Play(p, steps))) == multiset(Line(p)) + multiset(Queued(steps))
    ensures p.terminal <= Play(p, steps).terminal
    decreases steps
  {
    if steps != [] {
      LineStep(p, steps[0]);
      TextIsConserved(Take(p, steps[0]), steps[1..]);
      if steps[0].Queue? {
        MultisetInsert(p.terminal + p.hidden, steps[0].text, p.buffered);
      }
      assert Queued(steps) == (if steps[0].Queue? then steps[0].text else []) + Queued(steps[1..]);
    }
  }

  predicate NothingOvertakes<T>(p: Pipe<T>, steps: seq<Step<T>>)
    decreases steps
  {
    steps == [] || (!Overtakes(p, steps[0]) && NothingOvertakes(Take(p, steps[0]), steps[1..]))
  }

  /** If no text is queued while hidden over a non-empty visible buffer, the order is kept. */
  lemma {:induction false} OrderIsKept<T>(p: Pipe<T>, steps: seq<Step<T>>)
    requires NothingOvertakes(p, steps)
    ensures Line(Play(p, steps)) == Line(p) + Queued(steps)
    decreases steps
  {
    if steps != [] {
      LineStep(p, steps[0]);
      OrderIsKept(Take(p, steps[0]), steps[1..]);
      if steps[0].Queue? && steps[0].text != [] && !p.visible {
        assert p.terminal + p.hidden + steps[0].text + p.buffered == Line(p) + steps[0].text;
      }
      assert Line(Take(p, steps[0])) == Line(p) + if steps[0].Queue? then steps[0].text else [];
    }
  }

  ghost predicate Before<T>(text: seq<T>, x: T, y: T) {
    exists i, j :: 0 <= i < j < |text| && text[i] == x && text[j] == y
  }

  lemma BeforeInsert<T>(a: seq<T>, inserted: seq<T>, b: seq<T>, x: T, y: T)
    requires Before(a + b, x, y)
    ensures Before(a + inserted + b, x, y)
  {
    var i, j :| 0 <= i < j < |a + b| && (a + b)[i] == x && (a + b)[j] == y;
    var c := a + inserted + b;
    var i' := if i < |a| then i else i + |inserted|;
    var j' := if j < |a| then j else j + |inserted|;
    assert c[i'] == x && c[j'] == y;
  }

  lemma {:induction false} BeforePersists<T>(p: Pipe<T>, steps: seq<Step<T>>, x: T, y: T)
    requires Before(Line(p), x, y)
    ensures Before(Line(Play(p, steps)), x, y)
    decreases steps
  {
    if steps != [] {
      var q := Take(p, steps[0]);
      LineStep(p, steps[0]);
      if steps[0].Queue? {
        var text := steps[0].text;
        if p.visible {
          assert Line(p) == Line(p) + [];
          BeforeInsert(Line(p), text, [], x, y);
          assert Line(p) + text + [] == Line(q);
        } else {
          assert Line(p) == (p.terminal + p.hidden) + p.buffered;
          BeforeInsert(p.terminal + p.hidden, text, p.buffered, x, y);
        }
      }
      BeforePersists(q, steps[1..], x, y);
    }
  }

  lemma OvertakingReorders<T>(p: Pipe<T>, steps: seq<Step<T>>)
    requires steps != [] && Overtakes(p, steps[0])
    requires Distinct(Line(p) + Queued(steps))
    ensures Line(Play(p, steps)) != Line(p) + Queued(steps)
  {
    var text := steps[0].text;
    var q := Take(p, steps[0]);
    var x, y := text[0], p.buffered[0];
    LineStep(p, steps[0]);
    var at := |p.terminal + p.hidden|;
    assert Line(q)[at] == x && Line(q)[at + |text|] == y;
    assert Before(Line(q), x, y);
    BeforePersists(q, steps[1..], x, y);
    var want := Line(p) + Queued(steps);
    assert want[at] == y;
    assert want[|Line(p)|] == x;
    assert forall i :: 0 <= i < |want| && want[i] == x ==> i == |Line(p)|;
    assert forall j :: 0 <= j < |want| && want[j] == y ==> j == at;
  }

  lemma InOrderStep<T>(p: Pipe<T>, steps: seq<Step<T>>)
    requires steps != [] && !Overtakes(p, steps[0])
    ensures Line(Take(p, steps[0])) + Queued(steps[1..]) == Line(p) + Queued(steps)
  {
    var text := if steps[0].Queue? then steps[0].text else [];
    LineStep(p, steps[0]);
    assert Line(Take(p, steps[0])) == Line(p) + text;
    ConcatAssociates(Line(p), text, Queued(steps[1..]));
  }

  /** Exactly when the order is kept, for texts whose characters can be told apart. */
  lemma {:induction false} OrderIsKeptExactly<T>(p: Pipe<T>, steps: seq<Step<T>>)
    requires Distinct(Line(p) + Queued(steps))
    ensures Line(Play(p, steps)) == Line(p) + Queued(steps) <==> NothingOvertakes(p, steps)
    decreases steps
  {
    if steps != [] {
      if Overtakes(p, steps[0]) {
        OvertakingReorders(p, steps);
      } else {
        InOrderStep(p, steps);
        OrderIsKeptExactly(Take(p, steps[0]), steps[1..]);
      }
    }
  }

  const SHOWN: Pipe<char> := Pipe(true, true, false, [], [], false, [], 0, false, false, [], [])

  /** It can happen: "a" is queued, the panel is hidden before the flush, "b" is queued, and the
      terminal is given "ba". */
  lemma OvertakingHappens()
    ensures Play(SHOWN, [Queue("a"), SetVisible(false), Queue("b"), SetVisible(true), BecomeVisible]).terminal == "ba"
  {
    var p1 := Take(SHOWN, Queue("a"));
    var p3 := Take(Take(p1, SetVisible(false)), Queue("b"));
    var p5 := Take(Take(p3, SetVisible(true)), BecomeVisible);
    assert p5.terminal == "ba";
    var s := [Queue("a"), SetVisible(false), Queue("b"), SetVisible(true), BecomeVisible];
    assert Play(SHOWN, s) == Play(p1, s[1..]);
    assert s[1..][1..] == s[2..] && s[2..][1..] == s[3..] && s[3..][1..] == s[4..] && s[4..][1..] == [];
    assert Play(p1, s[1..]) == Play(Take(p1, SetVisible(false)), s[2..]) == Play(p3, s[3..]);
    assert Play(p3, s[3..]) == Play(Take(p3, SetVisible(true)), s[4..]) == Play(p5, []);
  }

  // ---------------------------------------------------------------------------
  // A flush, seen through
  // ---------------------------------------------------------------------------

  /** A flush request and the completion of all writes, with nothing else happening. */
  function FlushAndComplete<T>(p: Pipe<T>): Pipe<T> {
    Take(Take(FlushNow(p, None), WriteDone), WriteDone)
  }

  /** Flushing a visible panel delivers everything, in order, exactly unless a write is in flight, the
      visible buffer is empty and there is a backlog: then the completion does not look at the backlog,
      which stays behind until more text is queued. */
  lemma FlushDeliversExactly<T>(p: Pipe<T>)
    requires Valid(p) && p.attached && p.visible && !p.resizing
    ensures var q := FlushAndComplete(p);
            var strands := p.inFlight && p.buffered == [] && p.hidden != [];
            && Line(q) == Line(p) && q.outstanding == 0
            && (q.terminal == Line(p) <==> !strands)
            && (strands ==> q.hidden == p.hidden && !q.frameArmed && !q.timeoutArmed)
  {
    var a := FlushNow(p, None);
    var b := Take(a, WriteDone);
    LineStep(p, Flush(None));
    LineStep(a, WriteDone);
    LineStep(b, WriteDone);
  }
}
