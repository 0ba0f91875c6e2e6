/**
 What a script run leaves behind (src/composables/useTerminalRun.ts, 101-241, 292-388 and 444-574): however it
 ends, it is announced once with the verdict of its ending, the composable is free for the next script, and the
 output in the store is what the ending says it is.
 */
module TerminalEndings {
  import opened Prelude
  import opened TerminalRun

  // ---------------------------------------------------------------------------
  // Every ending
  // ---------------------------------------------------------------------------

  /** The run completes, the terminal exits, the dispatch is rejected, or the timeout fires. */
  predicate IsEnding(e: Event, runId: string) {
    match e
    case Completed(sessionId, forRun, _) => sessionId == "main-terminal" && IsFor(forRun, runId)
    case Exited(sessionId, _) => sessionId == "main-terminal"
    case DispatchRejected(r, _) => r == runId
    case TimeoutFires(r) => r == runId
    case _ => false
  }

  /** An exit code of 0 is success, and no other ending is. */
  function Verdict(e: Event): Ending {
    if e.TimeoutFires? then TimedOut
    else if (e.Completed? || e.Exited?) && e.exitCode == Some(0) then Succeeded
    else Failed
  }

  /** The composable after an ending: no run is current, nothing waits, and the next script can be started and primed. */
  ghost predicate FreeForNext(w: World) {
    && w.life.current == None && !w.life.isRunning && w.life.buffered == ""
    && (var started := Happen(w, Start(true));
        started.life == w.life.(isRunning := true) && started.starting == w.starting + 1 && started.primed == w.primed)
  }

  /** What is announced of the run's output, and what the store holds: all of it after an exit code; the message after a
      rejection; after a timeout what the batch timer has brought there. */
  ghost predicate OutputAfter(e: Event, chunks: string, announced: string, stored: string) {
    match e
    case DispatchRejected(_, message) => announced == "" && stored == message
    case TimeoutFires(_) => announced == "" && stored <= chunks
    case _ => announced == chunks && stored == chunks
  }

  lemma EndingStep(s: Lifecycle, e: Event, runId: string, chunks: string)
    requires s.current == Some(runId) && !s.isDisposed && s.stored + s.buffered == chunks && IsEnding(e, runId)
    ensures var t := Step(s, e);
            && t == s.(current := None, isRunning := false, buffered := "", stored := t.stored, announced := t.announced)
            && |t.announced| == |s.announced| + 1
            && (var last := t.announced[|s.announced|];
                && t.announced == s.announced + [last] && last.runId == Some(runId) && last.ending == Verdict(e)
                && OutputAfter(e, chunks, last.output, t.stored))
  {}

  lemma PrimedAndFed(before: seq<Event>, runId: string, feed: seq<Event>)
    requires Dispose !in before && Undisturbed(feed, runId)
    ensures UnderWay(StepAll(INITIAL.life, before + [Prime(runId)] + feed), runId, StepAll(INITIAL.life, before).announced,
                     ChunksFor(feed, runId))
  {
    NotDisposed(INITIAL.life, before);
    StepAllConcat(INITIAL.life, before + [Prime(runId)], feed);
    StepAllSnoc(INITIAL.life, before, Prime(runId));
    var primed := Step(StepAll(INITIAL.life, before), Prime(runId));
    FeedKeepsAll(primed, feed, runId);
    assert "" + "" + ChunksFor(feed, runId) == ChunksFor(feed, runId);
  }

  /** In every run of the composable from its initial state: a script that is primed, fed and ended, in whatever way, is
      announced last, once, with the verdict of its ending and with its output if it has an exit code; and the
      composable is free for the next one. */
  lemma EveryEndingEnds(before: seq<Event>, runId: string, feed: seq<Event>, ending: Event)
    requires Possible(INITIAL, before + [Prime(runId)] + feed + [ending]) && Dispose !in before
    requires Undisturbed(feed, runId) && IsEnding(ending, runId)
    ensures var w := Run(INITIAL, before + [Prime(runId)] + feed + [ending]);
            var earlier := StepAll(INITIAL.life, before).announced;
            && |w.life.announced| == |earlier| + 1
            && (var last := w.life.announced[|earlier|];
                && w.life.announced == earlier + [last] && last.runId == Some(runId) && last.ending == Verdict(ending)
                && OutputAfter(ending, ChunksFor(feed, runId), last.output, w.life.stored))
            && FreeForNext(w)
  {
    var all := before + [Prime(runId)] + feed + [ending];
    RunIsStepAll(INITIAL, all);
    PrimedAndFed(before, runId, feed);
    StepAllSnoc(INITIAL.life, before + [Prime(runId)] + feed, ending);
    EndingStep(StepAll(INITIAL.life, before + [Prime(runId)] + feed), ending, runId, ChunksFor(feed, runId));
  }

  /** A start that is accepted and then fails is announced as failed, for no run, with its message as the output; and the
      composable is free for the next one. */
  lemma FailedStartEnds(before: seq<Event>, message: string)
    requires Possible(INITIAL, before + [StartFailed(message)]) && Dispose !in before
    ensures var w := Run(INITIAL, before + [StartFailed(message)]);
            && w.life.announced == StepAll(INITIAL.life, before).announced + [Outcome(None, Failed, "")]
            && w.life.stored == message && FreeForNext(w)
  {
    PossibleFront(INITIAL, before, StartFailed(message));
    assert Sound(INITIAL);
    RunKeepsSound(INITIAL, before);
    RunIsStepAll(INITIAL, before);
    NotDisposed(INITIAL.life, before);
  }

  lemma {:induction false} PossibleFront(w: World, events: seq<Event>, e: Event)
    requires Possible(w, events + [e])
    ensures Possible(w, events) && Enabled(Run(w, events), e)
    ensures Run(w, events + [e]) == Happen(Run(w, events), e)
    decreases events
  {
    if events == [] {
      assert [] + [e] == [e] && [e][1..] == [];
    } else {
      assert (events + [e])[1..] == events[1..] + [e];
      PossibleFront(Happen(w, events[0]), events[1..], e);
    }
  }

  // ---------------------------------------------------------------------------
  // Before the end
  // ---------------------------------------------------------------------------

  /** A start is accepted if and only if it is allowed and nothing is running. */
  lemma StartIsAcceptedExactly(w: World, allowed: bool)
    ensures var t := Happen(w, Start(allowed));
            if allowed && !w.life.isRunning then t == w.(life := w.life.(isRunning := true), starting := w.starting + 1)
            else t == w
  {}

  /** A script that is primed is the current one, with no output; once it is fed and the batch timer fires, the store holds
      exactly its chunks, in order, and nothing waits. */
  lemma OutputReachesStore(before: seq<Event>, runId: string, feed: seq<Event>)
    requires Possible(INITIAL, before + [Prime(runId)] + feed + [BatchTimerFires]) && Dispose !in before
    requires Undisturbed(feed, runId)
    ensures var primed := StepAll(INITIAL.life, before + [Prime(runId)]);
            primed.current == Some(runId) && primed.stored == "" && primed.buffered == ""
    ensures var life := Run(INITIAL, before + [Prime(runId)] + feed + [BatchTimerFires]).life;
            && life.stored == ChunksFor(feed, runId) && life.buffered == ""
            && life.current == Some(runId) && life.isRunning
            && life.announced == StepAll(INITIAL.life, before).announced
  {
    var all := before + [Prime(runId)] + feed + [BatchTimerFires];
    RunIsStepAll(INITIAL, all);
    StepAllSnoc(INITIAL.life, before, Prime(runId));
    PrimedAndFed(before, runId, feed);
    StepAllSnoc(INITIAL.life, before + [Prime(runId)] + feed, BatchTimerFires);
    assert Sound(INITIAL);
    RunKeepsSound(INITIAL, all);
  }

  /** Clearing the logs clears the stored output and nothing else: the run goes on, and what waits for the batch timer
      still comes. */
  lemma ClearingOnlyClears(s: Lifecycle)
    ensures Step(s, ClearLogs) == s.(stored := "")
  {}

  /** It happens: a script is started, primed and fed, its output is stored, and it succeeds. */
  lemma WholeRunHappens()
    ensures var events := [Start(true), Prime("r"), Chunk("main-terminal", Some("r"), "hi"), Completed("main-terminal", Some("r"), Some(0))];
            && Possible(INITIAL, events)
            && Run(INITIAL, events).life == Lifecycle(None, false, false, "hi", "", [Outcome(Some("r"), Succeeded, "hi")])
  {
    var start, prime, chunk := Start(true), Prime("r"), Chunk("main-terminal", Some("r"), "hi");
    var end := Completed("main-terminal", Some("r"), Some(0));
    InkIsTrimmed();
    OneMore([], start);
    OneMore([] + [start], prime);
    OneMore([] + [start] + [prime], chunk);
    OneMore([] + [start] + [prime] + [chunk], end);
    assert [] + [start] + [prime] + [chunk] + [end] == [start, prime, chunk, end];
    assert "" + "hi" == "hi";
  }

  lemma OneMore(events: seq<Event>, e: Event)
    requires Possible(INITIAL, events) && Enabled(Run(INITIAL, events), e)
    ensures Possible(INITIAL, events + [e]) && Run(INITIAL, events + [e]) == Happen(Run(INITIAL, events), e)
  {
    OneMoreFrom(INITIAL, events, e);
  }

  lemma {:induction false} OneMoreFrom(w: World, events: seq<Event>, e: Event)
    requires Possible(w, events) && Enabled(Run(w, events), e)
    ensures Possible(w, events + [e]) && Run(w, events + [e]) == Happen(Run(w, events), e)
    decreases events
  {
    if events == [] {
      assert [] + [e] == [e] && [e][1..] == [];
      assert Possible(Happen(w, e), []);
    } else {
      assert (events + [e])[1..] == events[1..] + [e];
      OneMoreFrom(Happen(w, events[0]), events[1..], e);
    }
  }

  lemma InkIsTrimmed()
    ensures Trim("r") == "r" && IsRunId("r")
  {
    InRangesExists('r', WHITE_SPACE);
    assert "r"[1..] == "" && "r"[..0] == "";
    assert !IsSpace('r');
    assert TrimStart("r") == "r" && TrimEnd("r") == "r";
  }

  // ---------------------------------------------------------------------------
  // After disposal
  // ---------------------------------------------------------------------------

  /** Late news, for a composable that has been disposed. */
  predicate IsNews(e: Event) {
    !e.Start? && !e.StartFailed? && !e.Prime? && !e.ClearLogs?
  }

  /** Disposal ends the current run without announcing it, keeps what is stored, and makes the composable deaf: no
      completion, exit, rejection, timeout, chunk or timer that still comes changes anything. */
  lemma {:induction false} DisposedIsDeaf(s: Lifecycle, late: seq<Event>)
    requires forall i :: 0 <= i < |late| ==> IsNews(late[i])
    ensures StepAll(s, [Dispose] + late)
         == s.(current := None, isRunning := false, isDisposed := true, buffered := "")
    decreases |late|
  {
    if late == [] {
      assert [Dispose] + [] == [Dispose];
      StepAllSnoc(s, [], Dispose);
      assert [] + [Dispose] == [Dispose];
    } else {
      var n := |late| - 1;
      assert [Dispose] + late == ([Dispose] + late[..n]) + [late[n]];
      DisposedIsDeaf(s, late[..n]);
      StepAllSnoc(s, [Dispose] + late[..n], late[n]);
      assert IsNews(late[n]);
    }
  }
}
