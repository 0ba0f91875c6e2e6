/**
 The life of a script run in the integrated terminal (src/composables/useTerminalRun.ts).

 A run is primed, dispatched, fed with output chunks, and ends by completion, terminal exit, dispatch
 failure or timeout; all of these race. The code keeps the current run id in three places, batches the
 output behind a timer, and guards its endings with a bounded log. Class `TerminalRun` has those
 fields; it is proved to behave like the small machine `Lifecycle`, whose one rule is that an ending
 clears the current run. Everything the log is meant to prevent follows from that rule.
 */
module TerminalRun {
  import opened Prelude

  const DEFAULT_TERMINAL_SESSION_ID := "main-terminal"
  const MAX_RUN_LOG_ENTRIES := 500

  datatype Ending = Succeeded | Failed | TimedOut

  /** A final outcome as the user is told of it; the run id is missing if no run had been primed. */
  datatype Outcome = Outcome(runId: Option<string>, ending: Ending, output: string)

  // ---------------------------------------------------------------------------
  // The machine
  // ---------------------------------------------------------------------------

  datatype Lifecycle = Lifecycle(
    current: Option<string>,
    isRunning: bool,
    isDisposed: bool,
    stored: string,      // output in the editor store
    buffered: string,    // output waiting for the batch timer
    announced: seq<Outcome>)

  datatype Event =
    | Start(allowed: bool)
    | StartFailed(message: string)
    | Prime(runId: string)
    | DispatchResolved(runId: string)
    | DispatchRejected(runId: string, message: string)
    | Completed(sessionId: string, forRun: Option<string>, exitCode: Option<int>)
    | Exited(sessionId: string, exitCode: Option<int>)
    | TimeoutFires(runId: string)
    | Chunk(sessionId: string, forRun: Option<string>, data: string)
    | BatchTimerFires
    | OtherLog
    | ClearLogs
    | Dispose

  /** An event without a run id concerns whatever run is current. */
  predicate Concerns(current: Option<string>, runId: Option<string>) {
    current.Some? && (runId.None? || Trim(runId.value) == "" || Trim(runId.value) == current.value)
  }

  function Finish(s: Lifecycle, exitCode: Option<int>): Lifecycle {
    var output := s.stored + s.buffered;
    s.(current := None, isRunning := false, stored := output, buffered := "",
       announced := s.announced
         + [Outcome(s.current, if exitCode == Some(0) then Succeeded else Failed, output)])
  }

  function Fail(s: Lifecycle, ending: Ending): Lifecycle {
    s.(current := None, isRunning := false, buffered := "",
       announced := s.announced + [Outcome(s.current, ending, "")])
  }

  function Step(s: Lifecycle, e: Event): Lifecycle {
    match e
    case Start(allowed) => if s.isRunning || !allowed then s else s.(isRunning := true)
    case StartFailed(message) => Fail(s, Failed).(stored := message)
    case Prime(runId) => s.(current := Some(runId), stored := "", buffered := "")
    case DispatchResolved(_) => s
    case DispatchRejected(runId, message) =>
      if s.isDisposed || s.current != Some(runId) then s else Fail(s, Failed).(stored := message)
    case Completed(sessionId, runId, exitCode) =>
      if s.isDisposed || sessionId != DEFAULT_TERMINAL_SESSION_ID || !Concerns(s.current, runId) then s
      else Finish(s, exitCode)
    case Exited(sessionId, exitCode) =>
      if s.isDisposed || sessionId != DEFAULT_TERMINAL_SESSION_ID || s.current.None? then s
      else Finish(s, exitCode)
    case TimeoutFires(runId) =>
      if s.isDisposed || s.current != Some(runId) then s else Fail(s, TimedOut)
    case Chunk(sessionId, runId, data) =>
      if s.isDisposed || sessionId != DEFAULT_TERMINAL_SESSION_ID || !Concerns(s.current, runId) then s
      else s.(buffered := s.buffered + data)
    case BatchTimerFires =>
      s.(stored := if s.isDisposed then s.stored else s.stored + s.buffered, buffered := "")
    case OtherLog => s
    case ClearLogs => s.(stored := "")
    case Dispose => s.(current := None, isRunning := false, isDisposed := true, buffered := "")
  }

  // ---------------------------------------------------------------------------
  // All interleavings
  // ---------------------------------------------------------------------------

  /** The machine with its surroundings: how many accepted starts still wait for the terminal, and
      every run id handed out so far. */
  datatype World = World(life: Lifecycle, starting: nat, primed: seq<string>)

  const INITIAL := World(Lifecycle(None, false, false, "", "", []), 0, [])

  predicate IsRunId(runId: string) {
    runId != "" && Trim(runId) == runId
  }

  /** A start that was accepted goes on to prime a fresh run or to fail; nothing else does. */
  predicate Enabled(w: World, e: Event) {
    match e
    case Prime(runId) => w.starting > 0 && runId !in w.primed && IsRunId(runId)
    case StartFailed(_) => w.starting > 0
    case _ => true
  }

  function Happen(w: World, e: Event): World
    requires Enabled(w, e)
  {
    var life := Step(w.life, e);
    match e
    case Start(allowed) => World(life, if w.life.isRunning || !allowed then w.starting else w.starting + 1, w.primed)
    case StartFailed(_) => World(life, w.starting - 1, w.primed)
    case Prime(runId) => World(life, w.starting - 1, w.primed + [runId])
    case _ => w.(life := life)
  }

  predicate Possible(w: World, events: seq<Event>)
    decreases events
  {
    events == [] || (Enabled(w, events[0]) && Possible(Happen(w, events[0]), events[1..]))
  }

  function Run(w: World, events: seq<Event>): World
    requires Possible(w, events)
    decreases events
  {
    if events == [] then w else Run(Happen(w, events[0]), events[1..])
  }

  function EndedRuns(announced: seq<Outcome>): seq<string> {
    if announced == [] then []
    else (match announced[0].runId case Some(r) => [r] case None => []) + EndedRuns(announced[1..])
  }

  lemma {:induction false} EndedRunsConcat(a: seq<Outcome>, b: seq<Outcome>)
    ensures EndedRuns(a + b) == EndedRuns(a) + EndedRuns(b)
  {
    if a == [] {
      assert a + b == b;
    } else {
      assert (a + b)[1..] == a[1..] + b;
      EndedRunsConcat(a[1..], b);
    }
  }

  function Listed(current: Option<string>): seq<string> {
    match current case Some(r) => [r] case None => []
  }

  /** What holds in every world, disposed or not. */
  ghost predicate Sound(w: World) {
    && Distinct(EndedRuns(w.life.announced) + Listed(w.life.current))
    && (forall r :: r in EndedRuns(w.life.announced) + Listed(w.life.current) ==> r in w.primed && IsRunId(r))
    && (!w.life.isDisposed ==>
          && EndedRuns(w.life.announced) + Listed(w.life.current) == w.primed
          && w.starting <= 1
          && (w.starting == 1 ==> w.life.isRunning && w.life.current.None?)
          && (w.life.current.Some? ==> w.life.isRunning))
  }

  lemma EndingMovesCurrent(s: Lifecycle, o: Outcome)
    requires o.runId == s.current
    ensures EndedRuns(s.announced + [o]) + [] == EndedRuns(s.announced) + Listed(s.current)
  {
    EndedRunsConcat(s.announced, [o]);
    assert EndedRuns([o][1..]) == [];
  }

  /** A step that announces an outcome, announces the current run's. */
  lemma EndingKeepsSound(w: World, e: Event)
    requires Sound(w) && Enabled(w, e) && Step(w.life, e).announced != w.life.announced
    ensures Sound(Happen(w, e))
  {
    var s, s' := w.life, Step(w.life, e);
    var o := s'.announced[|s.announced|];
    EndingMovesCurrent(s, o);
    assert s'.announced == s.announced + [o];
    assert EndedRuns(s'.announced) + Listed(s'.current) == EndedRuns(s.announced) + Listed(s.current);
  }

  lemma DistinctPrefix(ids: seq<string>, more: seq<string>)
    requires Distinct(ids + more)
    ensures Distinct(ids) && forall r :: r in ids ==> r in ids + more
  {
    forall i | 0 <= i < |ids| ensures ids[i] == (ids + more)[i] {
    }
  }

  lemma DistinctSnoc(ids: seq<string>, id: string)
    requires Distinct(ids) && id !in ids
    ensures Distinct(ids + [id])
  {
  }

  lemma PrimeKeepsSound(w: World, runId: string)
    requires Sound(w) && Enabled(w, Prime(runId))
    ensures Sound(Happen(w, Prime(runId)))
  {
    var before := EndedRuns(w.life.announced);
    DistinctPrefix(before, Listed(w.life.current));
    assert before + [] == before;
    DistinctSnoc(before, runId);
  }

  lemma DisposeKeepsSound(w: World)
    requires Sound(w)
    ensures Sound(Happen(w, Dispose))
  {
    var before := EndedRuns(w.life.announced);
    DistinctPrefix(before, Listed(w.life.current));
    assert before + [] == before;
  }

  lemma HappenKeepsSound(w: World, e: Event)
    requires Sound(w) && Enabled(w, e)
    ensures Sound(Happen(w, e))
  {
    if Step(w.life, e).announced != w.life.announced {
      EndingKeepsSound(w, e);
    } else if e.Prime? {
      PrimeKeepsSound(w, e.runId);
    } else if e.Dispose? {
      DisposeKeepsSound(w);
    }
  }

  lemma {:induction false} RunKeepsSound(w: World, events: seq<Event>)
    requires Sound(w) && Possible(w, events)
    ensures Sound(Run(w, events))
    decreases events
  {
    if events != [] {
      HappenKeepsSound(w, events[0]);
      RunKeepsSound(Happen(w, events[0]), events[1..]);
    }
  }

  /** No run is announced twice; and until the component is disposed, the runs announced so far plus
      the current one are exactly the runs primed, in that order: every run but the last has had its
      one outcome. Clearing the logs in between makes no difference. */
  lemma EveryRunEndsOnce(events: seq<Event>)
    requires Possible(INITIAL, events)
    ensures var w := Run(INITIAL, events);
            var ended := EndedRuns(w.life.announced);
            && (forall i, j :: 0 <= i < j < |ended| ==> ended[i] != ended[j])
            && (!w.life.isDisposed ==> ended + Listed(w.life.current) == w.primed)
  {
    assert Sound(INITIAL);
    RunKeepsSound(INITIAL, events);
    var w := Run(INITIAL, events);
    var ended := EndedRuns(w.life.announced);
    forall i, j | 0 <= i < j < |ended| ensures ended[i] != ended[j] {
      assert (ended + Listed(w.life.current))[i] == ended[i];
      assert (ended + Listed(w.life.current))[j] == ended[j];
    }
  }

  /** The events that carry a run's own id. */
  predicate Names(e: Event, runId: string) {
    match e
    case DispatchResolved(r) => r == runId
    case DispatchRejected(r, _) => r == runId
    case Completed(_, r, _) => r.Some? && Trim(r.value) == runId
    case TimeoutFires(r) => r == runId
    case Chunk(_, r, _) => r.Some? && Trim(r.value) == runId
    case _ => false
  }

  /** A run that has ended is never revived: whatever still arrives for it changes nothing, also when
      another run is under way by then. */
  lemma EndedRunStaysEnded(events: seq<Event>, runId: string, late: Event)
    requires Possible(INITIAL, events)
    requires runId in EndedRuns(Run(INITIAL, events).life.announced) && Names(late, runId)
    ensures Step(Run(INITIAL, events).life, late) == Run(INITIAL, events).life
  {
    assert Sound(INITIAL);
    RunKeepsSound(INITIAL, events);
    var w := Run(INITIAL, events);
    var ended := EndedRuns(w.life.announced);
    var i :| 0 <= i < |ended| && ended[i] == runId;
    var all := ended + Listed(w.life.current);
    assert all[i] == runId && IsRunId(runId);
    if w.life.current.Some? {
      assert all[|ended|] == w.life.current.value;
    }
  }

  // ---------------------------------------------------------------------------
  // Output
  // ---------------------------------------------------------------------------

  /** An event is meant for a run if it carries its id, up to white space, or none. */
  predicate IsFor(forRun: Option<string>, runId: string) {
    forRun.None? || Trim(forRun.value) in ["", runId]
  }

  /** Ends, replaces or wipes the current run. Events that name other runs do not, nor do other sessions. */
  predicate Disturbs(e: Event, runId: string) {
    match e
    case StartFailed(_) => true
    case Prime(_) => true
    case ClearLogs => true
    case Dispose => true
    case DispatchRejected(r, _) => r == runId
    case TimeoutFires(r) => r == runId
    case Completed(sessionId, r, _) => sessionId == "main-terminal" && IsFor(r, runId)
    case Exited(sessionId, _) => sessionId == "main-terminal"
    case _ => false
  }

  predicate Undisturbed(events: seq<Event>, runId: string) {
    forall e :: e in events ==> !Disturbs(e, runId)
  }

  /** A completion with the run's id or with none, or an exit of the terminal. */
  predicate EndsWithCode(e: Event, runId: string, exitCode: Option<int>) {
    || (e.Completed? && e.sessionId == "main-terminal" && IsFor(e.forRun, runId) && e.exitCode == exitCode)
    || e == Exited("main-terminal", exitCode)
  }

  /** What an event adds to the output of a run. */
  function OwnChunk(e: Event, runId: string): string {
    if e.Chunk? && e.sessionId == "main-terminal" && IsFor(e.forRun, runId) then e.data else ""
  }

  function ChunksFor(events: seq<Event>, runId: string): string {
    if events == [] then "" else OwnChunk(events[0], runId) + ChunksFor(events[1..], runId)
  }

  function StepAll(s: Lifecycle, events: seq<Event>): Lifecycle
    decreases events
  {
    if events == [] then s else StepAll(Step(s, events[0]), events[1..])
  }

  /** The run is under way, and its output so far. */
  ghost predicate UnderWay(s: Lifecycle, runId: string, announced: seq<Outcome>, output: string) {
    s.current == Some(runId) && !s.isDisposed && s.announced == announced && s.stored + s.buffered == output
  }

  lemma FeedStep(s: Lifecycle, e: Event, runId: string)
    requires s.current == Some(runId) && !s.isDisposed && !Disturbs(e, runId)
    ensures UnderWay(Step(s, e), runId, s.announced, s.stored + s.buffered + OwnChunk(e, runId))
  {
    ConcatAssociates(s.stored, s.buffered, OwnChunk(e, runId));
    assert s.stored + s.buffered + "" == s.stored + s.buffered;
  }

  lemma {:induction false} FeedKeepsAll(s: Lifecycle, events: seq<Event>, runId: string)
    requires s.current == Some(runId) && !s.isDisposed && Undisturbed(events, runId)
    ensures UnderWay(StepAll(s, events), runId, s.announced, s.stored + s.buffered + ChunksFor(events, runId))
    decreases events
  {
    if events == [] {
      assert s.stored + s.buffered + "" == s.stored + s.buffered;
    } else {
      var e, rest := events[0], events[1..];
      assert e in events;
      forall r | r in rest ensures r in events {
      }
      FeedStep(s, e, runId);
      FeedKeepsAll(Step(s, e), rest, runId);
      ConcatAssociates(s.stored + s.buffered, OwnChunk(e, runId), ChunksFor(rest, runId));
    }
  }

  /** Batching neither loses nor reorders output: when a run ends with an exit code, its outcome carries
      exactly the chunks that arrived for it, in order, those still waiting for the batch timer included;
      whatever else arrives meanwhile for other runs and other sessions. */
  lemma OutcomeCarriesAllChunks(s: Lifecycle, events: seq<Event>, runId: string, ending: Event, exitCode: Option<int>)
    requires s.current == Some(runId) && !s.isDisposed && Undisturbed(events, runId) && EndsWithCode(ending, runId, exitCode)
    ensures Step(StepAll(s, events), ending).announced
         == s.announced + [Outcome(Some(runId), if exitCode == Some(0) then Succeeded else Failed,
                                   s.stored + s.buffered + ChunksFor(events, runId))]
  {
    FeedKeepsAll(s, events, runId);
  }

  lemma {:induction false} StepAllConcat(s: Lifecycle, a: seq<Event>, b: seq<Event>)
    ensures StepAll(s, a + b) == StepAll(StepAll(s, a), b)
    decreases a
  {
    if a == [] {
      assert a + b == b;
    } else {
      assert (a + b)[1..] == a[1..] + b;
      StepAllConcat(Step(s, a[0]), a[1..], b);
    }
  }

  lemma StepAllSnoc(s: Lifecycle, events: seq<Event>, e: Event)
    ensures StepAll(s, events + [e]) == Step(StepAll(s, events), e)
  {
    StepAllConcat(s, events, [e]);
    assert [e][1..] == [];
  }

  lemma {:induction false} RunIsStepAll(w: World, events: seq<Event>)
    requires Possible(w, events)
    ensures Run(w, events).life == StepAll(w.life, events)
    decreases events
  {
    if events != [] {
      RunIsStepAll(Happen(w, events[0]), events[1..]);
    }
  }

  lemma {:induction false} NotDisposed(s: Lifecycle, events: seq<Event>)
    requires !s.isDisposed && Dispose !in events
    ensures !StepAll(s, events).isDisposed
    decreases events
  {
    if events != [] {
      assert events[0] in events;
      forall r | r in events[1..] ensures r in events {
      }
      NotDisposed(Step(s, events[0]), events[1..]);
    }
  }

  /** For every run of the composable: a script that is primed, fed and ended with an exit code is announced
      with exactly the chunks that arrived for it in between, whatever happened before. */
  lemma AnnouncedOutputIsComplete(before: seq<Event>, runId: string, feed: seq<Event>, ending: Event, exitCode: Option<int>)
    requires Possible(INITIAL, before + [Prime(runId)] + feed + [ending]) && Dispose !in before
    requires Undisturbed(feed, runId) && EndsWithCode(ending, runId, exitCode)
    ensures Run(INITIAL, before + [Prime(runId)] + feed + [ending]).life.announced
         == StepAll(INITIAL.life, before).announced
            + [Outcome(Some(runId), if exitCode == Some(0) then Succeeded else Failed, ChunksFor(feed, runId))]
  {
    var all := before + [Prime(runId)] + feed + [ending];
    RunIsStepAll(INITIAL, all);
    NotDisposed(INITIAL.life, before);
    StepAllSnoc(INITIAL.life, before + [Prime(runId)] + feed, ending);
    StepAllConcat(INITIAL.life, before + [Prime(runId)], feed);
    StepAllSnoc(INITIAL.life, before, Prime(runId));
    var primed := Step(StepAll(INITIAL.life, before), Prime(runId));
    OutcomeCarriesAllChunks(primed, feed, runId, ending, exitCode);
    assert "" + "" + ChunksFor(feed, runId) == ChunksFor(feed, runId);
  }

  // ---------------------------------------------------------------------------
  // The code
  // ---------------------------------------------------------------------------

  datatype LogKind = StartLog | DispatchedLog | CompletedLog | FailedLog | TimeoutLog | OtherLogKind

  predicate IsFinal(kind: LogKind) {
    kind == CompletedLog || kind == FailedLog || kind == TimeoutLog
  }

  datatype LogEntry = LogEntry(runId: Option<string>, kind: LogKind)

  class TerminalRun {
    // the editor store
    var isRunning: bool
    var pendingTerminalRunId: Option<string>
    var activeRunSummary: Option<string>      // its run id
    var lastRunResult: Option<Option<string>> // its run id
    var runLogs: seq<LogEntry>
    var terminalOutput: string
    // the composable
    var bufferedTerminalOutput: string
    var batchTimerArmed: bool
    var completionTimeoutFor: Option<string>
    var activeTerminalRunMeta: Option<string> // its run id
    var isDisposed: bool
    // outcomes the user has been notified of
    var announced: seq<Outcome>

    ghost predicate Valid()
      reads this
    {
      && pendingTerminalRunId == activeRunSummary == activeTerminalRunMeta
      && (activeTerminalRunMeta.Some? ==>
            IsRunId(activeTerminalRunMeta.value) && !HasEnded(activeTerminalRunMeta.value))
      && RecordsSound()
      && (bufferedTerminalOutput != "" ==> batchTimerArmed)
    }

    /** A stored result and a final log entry are of a run that has ended. */
    ghost predicate RecordsSound()
      reads `lastRunResult, `runLogs, `announced
    {
      && (lastRunResult.Some? && lastRunResult.value.Some? ==> HasEnded(lastRunResult.value.value))
      && forall i :: 0 <= i < |runLogs| && IsFinal(runLogs[i].kind) && runLogs[i].runId.Some? ==>
           HasEnded(runLogs[i].runId.value)
    }

    /** An outcome of the run has been announced. */
    ghost predicate HasEnded(runId: string)
      reads `announced
    {
      exists o :: o in announced && o.runId == Some(runId)
    }

    function View(): Lifecycle
      reads this
    {
      Lifecycle(activeTerminalRunMeta, isRunning, isDisposed, terminalOutput, bufferedTerminalOutput, announced)
    }

    constructor ()
      ensures Valid() && View() == INITIAL.life
    {
      isRunning, pendingTerminalRunId, activeRunSummary, lastRunResult := false, None, None, None;
      runLogs, terminalOutput, bufferedTerminalOutput, batchTimerArmed := [], "", "", false;
      completionTimeoutFor, activeTerminalRunMeta, isDisposed, announced := None, None, false, [];
    }

    method ClearActiveTerminalRunState()
      requires Valid()
      modifies `pendingTerminalRunId, `activeRunSummary, `isRunning, `activeTerminalRunMeta
      ensures Valid()
      ensures View() == old(View()).(current := None, isRunning := false)
    {
      pendingTerminalRunId := None;
      activeRunSummary := None;
      isRunning := false;
      activeTerminalRunMeta := None;
    }

    method ResetBufferedTerminalOutput()
      requires Valid()
      modifies `batchTimerArmed, `bufferedTerminalOutput
      ensures Valid()
      ensures View() == old(View()).(buffered := "")
    {
      batchTimerArmed := false;
      bufferedTerminalOutput := "";
    }

    method FlushBufferedTerminalOutput()
      requires Valid()
      modifies `batchTimerArmed, `bufferedTerminalOutput, `terminalOutput
      ensures Valid()
      ensures View() == Step(old(View()), BatchTimerFires)
    {
      batchTimerArmed := false;
      if bufferedTerminalOutput == "" {
        assert terminalOutput + "" == terminalOutput;
        return;
      }
      if isDisposed {
        bufferedTerminalOutput := "";
        return;
      }
      terminalOutput := terminalOutput + bufferedTerminalOutput;
      bufferedTerminalOutput := "";
    }

    /** A log entry; a final one for a run comes with the announcement of its outcome. */
    method AppendRunLifecycleLog(entry: LogEntry)
      requires Valid()
      requires IsFinal(entry.kind) && entry.runId.Some? ==> HasEnded(entry.runId.value)
      modifies `runLogs
      ensures Valid()
    {
      var logs := [entry] + runLogs;
      runLogs := if |logs| > MAX_RUN_LOG_ENTRIES then logs[..MAX_RUN_LOG_ENTRIES] else logs;
    }

    function GetCurrentTerminalRunId(): (r: Option<string>)
      reads this
      ensures Valid() ==> r == activeTerminalRunMeta
    {
      if activeTerminalRunMeta.Some? then activeTerminalRunMeta
      else if pendingTerminalRunId.Some? then pendingTerminalRunId
      else activeRunSummary
    }

    function ResolveTerminalRunId(runId: Option<string>): (r: Option<string>)
      reads this
      ensures Valid() ==> r == if Concerns(activeTerminalRunMeta, runId) then activeTerminalRunMeta else None
    {
      var normalizedRunId := if runId.Some? then Trim(runId.value) else "";
      if normalizedRunId != ""
         && (pendingTerminalRunId == Some(normalizedRunId) || activeTerminalRunMeta == Some(normalizedRunId)
             || activeRunSummary == Some(normalizedRunId))
      then Some(normalizedRunId)
      else if normalizedRunId == "" then GetCurrentTerminalRunId()
      else None
    }

    predicate HasFinalizedTerminalRun(runId: Option<string>)
      reads this
    {
      && runId.Some? && runId.value != ""
      && (lastRunResult == Some(runId)
          || exists i :: 0 <= i < |runLogs| && runLogs[i].runId == runId && IsFinal(runLogs[i].kind))
    }

    /** The guard in front of every ending never stops one: the current run has not ended. */
    lemma CurrentRunNotFinalized()
      requires Valid()
      ensures !HasFinalizedTerminalRun(activeTerminalRunMeta)
    {}

    method FailTerminalRun(ending: Ending, message: string, writeMessageToTerminalOutput: bool)
      requires Valid() && ending != Succeeded
      modifies this
      ensures Valid()
      ensures isDisposed == old(isDisposed)
      ensures var s := Fail(old(View()), ending);
              View() == if writeMessageToTerminalOutput then s.(stored := message) else s
    {
      var failedRunId := GetCurrentTerminalRunId();
      CurrentRunNotFinalized();
      if HasFinalizedTerminalRun(failedRunId) {
        assert false; // the code gives up here
      }
      ResetBufferedTerminalOutput();
      completionTimeoutFor := None;
      ClearActiveTerminalRunState();
      if writeMessageToTerminalOutput {
        terminalOutput := message;
      }
      Announce(Outcome(failedRunId, ending, ""), if ending == TimedOut then TimeoutLog else FailedLog, false);
    }

    /** The notification of an ending with its final log entry, and the stored result if it has one. */
    method Announce(outcome: Outcome, kind: LogKind, withResult: bool)
      requires Valid() && activeTerminalRunMeta == None && IsFinal(kind)
      modifies `announced, `runLogs, `lastRunResult
      ensures Valid()
      ensures View() == old(View()).(announced := old(announced) + [outcome])
    {
      announced := announced + [outcome];
      assert forall o :: o in old(announced) ==> o in announced;
      assert outcome in announced;
      if withResult {
        lastRunResult := Some(outcome.runId);
      }
      AppendRunLifecycleLog(LogEntry(outcome.runId, kind));
    }

    method RunScript(canRun: bool, hasEnvironment: bool) returns (started: bool)
      requires Valid()
      modifies `isRunning
      ensures Valid()
      ensures View() == Step(old(View()), Start(canRun && hasEnvironment))
      ensures started == (!old(isRunning) && canRun && hasEnvironment)
    {
      started := false;
      if isRunning {
        return;
      }
      if !canRun {
        return;
      }
      if !hasEnvironment {
        return;
      }
      isRunning := true;
      started := true;
    }

    /** The terminal could not be prepared for an accepted start. */
    method OnStartFailed(message: string)
      requires Valid()
      modifies this
      ensures Valid()
      ensures View() == Step(old(View()), StartFailed(message))
    {
      FailTerminalRun(Failed, message, true);
    }

    method PrimeTerminalRun(runId: string)
      requires Valid() && IsRunId(runId) && !HasEnded(runId)
      modifies this
      ensures Valid()
      ensures View() == Step(old(View()), Prime(runId))
      ensures completionTimeoutFor == Some(runId)
    {
      SetActiveTerminalRun(runId);
      AppendRunLifecycleLog(LogEntry(Some(runId), StartLog));
      completionTimeoutFor := Some(runId);
    }

    /** The run becomes the current one, with no output yet. */
    method SetActiveTerminalRun(runId: string)
      requires Valid() && IsRunId(runId) && !HasEnded(runId)
      modifies `pendingTerminalRunId, `activeRunSummary, `activeTerminalRunMeta, `lastRunResult
      modifies `batchTimerArmed, `bufferedTerminalOutput, `terminalOutput
      ensures Valid()
      ensures View() == Step(old(View()), Prime(runId))
    {
      pendingTerminalRunId := Some(runId);
      activeRunSummary := Some(runId);
      batchTimerArmed := false;
      bufferedTerminalOutput := "";
      lastRunResult := None;
      terminalOutput := "";
      activeTerminalRunMeta := Some(runId);
    }

    method OnDispatchResolved(runId: string)
      requires Valid() && IsRunId(runId)
      modifies this
      ensures Valid()
      ensures View() == Step(old(View()), DispatchResolved(runId))
    {
      if isDisposed || ResolveTerminalRunId(Some(runId)) == None {
        return;
      }
      activeTerminalRunMeta := Some(runId);
      activeRunSummary := Some(runId);
      AppendRunLifecycleLog(LogEntry(Some(runId), DispatchedLog));
    }

    method OnDispatchRejected(runId: string, message: string)
      requires Valid() && IsRunId(runId)
      modifies this
      ensures Valid()
      ensures View() == Step(old(View()), DispatchRejected(runId, message))
    {
      if isDisposed || ResolveTerminalRunId(Some(runId)) == None {
        return;
      }
      FailTerminalRun(Failed, message, true);
    }

    method OnCompletionTimeout(runId: string)
      requires Valid() && IsRunId(runId) && completionTimeoutFor == Some(runId)
      modifies this
      ensures Valid()
      ensures View() == Step(old(View()), TimeoutFires(runId))
    {
      completionTimeoutFor := None;
      if isDisposed || ResolveTerminalRunId(Some(runId)) == None {
        return;
      }
      FailTerminalRun(TimedOut, "", false);
    }

    method FinalizeTerminalRun(sessionId: string, runId: Option<string>, exitCode: Option<int>)
      requires Valid()
      modifies this
      ensures Valid()
      ensures View() == Step(old(View()), Completed(sessionId, runId, exitCode))
    {
      if sessionId != DEFAULT_TERMINAL_SESSION_ID {
        return;
      }
      var resolvedRunId := ResolveTerminalRunId(runId);
      if isDisposed || resolvedRunId == None {
        return;
      }
      CurrentRunNotFinalized();
      if HasFinalizedTerminalRun(resolvedRunId) {
        assert false; // the code drops the run here
      }
      FinishCurrentRun(exitCode);
    }

    /** The result of the current run is stored, the run is cleared, and its outcome is announced. */
    method FinishCurrentRun(exitCode: Option<int>)
      requires Valid() && !isDisposed && activeTerminalRunMeta.Some?
      modifies this
      ensures Valid()
      ensures View() == Finish(old(View()), exitCode)
    {
      completionTimeoutFor := None;
      FlushBufferedTerminalOutput();
      var resultRunId := if activeTerminalRunMeta.Some? then activeTerminalRunMeta else activeRunSummary;
      var outcome := Outcome(resultRunId, if exitCode == Some(0) then Succeeded else Failed, terminalOutput);
      ClearActiveTerminalRunState();
      Announce(outcome, if exitCode == Some(0) then CompletedLog else FailedLog, true);
    }

    method HandleIntegratedTerminalExit(sessionId: string, exitCode: Option<int>)
      requires Valid()
      modifies this
      ensures Valid()
      ensures View() == Step(old(View()), Exited(sessionId, exitCode))
    {
      if isDisposed || sessionId != DEFAULT_TERMINAL_SESSION_ID {
        return;
      }
      var activeRunId := GetCurrentTerminalRunId();
      if activeRunId == None {
        return;
      }
      FinalizeTerminalRun(sessionId, activeRunId, exitCode);
    }

    method AppendTerminalOutput(sessionId: string, runId: Option<string>, data: string)
      requires Valid()
      modifies `bufferedTerminalOutput, `batchTimerArmed
      ensures Valid()
      ensures View() == Step(old(View()), Chunk(sessionId, runId, data))
    {
      assert bufferedTerminalOutput + "" == bufferedTerminalOutput;
      if isDisposed || sessionId != DEFAULT_TERMINAL_SESSION_ID || data == ""
         || ResolveTerminalRunId(runId) == None {
        return;
      }
      bufferedTerminalOutput := bufferedTerminalOutput + data;
      if batchTimerArmed {
        return;
      }
      batchTimerArmed := true;
    }

    method OnClearLogs()
      requires Valid()
      modifies `runLogs, `terminalOutput, `lastRunResult
      ensures Valid()
      ensures View() == Step(old(View()), ClearLogs)
    {
      runLogs := [];
      terminalOutput := "";
      lastRunResult := None;
    }

    method OnScopeDispose()
      requires Valid()
      modifies this
      ensures Valid()
      ensures View() == Step(old(View()), Dispose)
    {
      isDisposed := true;
      ResetBufferedTerminalOutput();
      completionTimeoutFor := None;
      ClearActiveTerminalRunState();
    }
  }
}
