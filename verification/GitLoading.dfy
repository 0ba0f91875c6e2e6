/**
 When the history's loading flag is up (src/store/git.ts, 149-154, 230-263, 281-304 and 385-414), told
 from the events alone: a load is unanswered, or one was unanswered when a status dropped the history
 and nothing has taken the flag down since.
 */
module GitLoading {
  import opened Prelude
  import opened GitHistory

  lemma {:induction false} PossiblePrefix(b: Backend, w: World, events: seq<Event>, k: nat)
    requires Possible(b, w, events) && k <= |events|
    ensures Possible(b, w, events[..k])
    decreases events
  {
    if k > 0 {
      assert events[..k][1..] == events[1..][..k - 1];
      PossiblePrefix(b, Happen(b, w, events[0]), events[1..], k - 1);
    }
  }

  /** The world before event k. */
  ghost function At(b: Backend, events: seq<Event>, k: nat): World
    requires Possible(b, START, events) && k <= |events|
  {
    PossiblePrefix(b, START, events, k);
    Run(b, START, events[..k])
  }

  lemma {:induction false} RunSnoc(b: Backend, w: World, events: seq<Event>, e: Event)
    requires Possible(b, w, events + [e])
    ensures Possible(b, w, events) && Enabled(Run(b, w, events), e)
    ensures Run(b, w, events + [e]) == Happen(b, Run(b, w, events), e)
    decreases events
  {
    if events == [] {
      assert [] + [e] == [e] && [e][1..] == [];
    } else {
      assert (events + [e])[1..] == events[1..] + [e];
      RunSnoc(b, Happen(b, w, events[0]), events[1..], e);
    }
  }

  // ---------------------------------------------------------------------------
  // What an event does to the flag
  // ---------------------------------------------------------------------------

  /** A load that is not refused, a status refresh without a workspace, or a reset: the flag is set anew. */
  predicate Restarts(w: World, e: Event) {
    match e
    case StartLoad(append, _) => !(append && w.store.nextOffset.None?)
    case StartStatus(workspace) => !HasRoot(workspace)
    case ResetAll => true
    case _ => false
  }

  /** A load that sends a request. */
  predicate Issues(w: World, e: Event) {
    e.StartLoad? && Restarts(w, e) && HasRoot(w.store.status.root)
  }

  /** A status that is applied and drops the history. */
  predicate Drops(b: Backend, w: World, e: Event) {
    match e
    case Mutated(status) => Switches(b, w.store, status)
    case StatusArrives(token, status, accepted) =>
      token == w.store.statusRequestId && accepted && Switches(b, w.store, status)
    case _ => false
  }

  predicate Answers(e: Event, token: nat) {
    e == PageArrives(token) || e == LoadFails(token)
  }

  lemma AwaitedAfter(b: Backend, w: World, e: Event)
    requires Sound(b, w) && Enabled(w, e)
    ensures var w', token := Happen(b, w, e), w.store.historyRequestId;
            w'.store.historyRequestId in w'.loads
            <==> Issues(w, e) || (token in w.loads && !Restarts(w, e) && !Drops(b, w, e) && !Answers(e, token))
  {
  }

  lemma OvertakenAfter(b: Backend, w: World, e: Event)
    requires Enabled(w, e)
    ensures Happen(b, w, e).overtaken
       <==> (Drops(b, w, e) && w.store.historyRequestId in w.loads) || (w.overtaken && !Restarts(w, e))
  {
  }

  lemma TokenAfter(b: Backend, w: World, e: Event)
    requires Enabled(w, e)
    ensures Issues(w, e) ==> Happen(b, w, e).store.historyRequestId == w.store.historyRequestId + 1
    ensures !Restarts(w, e) && !Drops(b, w, e) ==> Happen(b, w, e).store.historyRequestId == w.store.historyRequestId
  {
  }

  // ---------------------------------------------------------------------------
  // Over a trace
  // ---------------------------------------------------------------------------

  /** Event k ends the wait for the load with this token. */
  ghost predicate EndsWait(b: Backend, events: seq<Event>, k: nat, token: nat)
    requires Possible(b, START, events) && k < |events|
  {
    Restarts(At(b, events, k), events[k]) || Drops(b, At(b, events, k), events[k]) || Answers(events[k], token)
  }

  /** The load issued at i is still the latest one and has not been answered. */
  ghost predicate Unanswered(b: Backend, events: seq<Event>, i: nat)
    requires Possible(b, START, events)
  {
    i < |events| && Issues(At(b, events, i), events[i])
    && StillAwaits(b, events, i, At(b, events, i).store.historyRequestId + 1)
  }

  /** Nothing after event i ends the wait for the token. */
  ghost predicate StillAwaits(b: Backend, events: seq<Event>, i: nat, token: nat)
    requires Possible(b, START, events)
  {
    forall k :: i < k < |events| ==> !EndsWait(b, events, k, token)
  }

  /** At j a status dropped the history while a load was unanswered; no load, refresh without a workspace or
      reset has come since. */
  ghost predicate OvertakenAt(b: Backend, events: seq<Event>, j: nat)
    requires Possible(b, START, events)
  {
    && j < |events| && Drops(b, At(b, events, j), events[j])
    && Awaits(b, events, j)
    && forall k :: j < k < |events| ==> !Restarts(At(b, events, k), events[k])
  }

  /** Some load was unanswered before event j. */
  ghost predicate Awaits(b: Backend, events: seq<Event>, j: nat)
    requires Possible(b, START, events) && j <= |events|
  {
    PossiblePrefix(b, START, events, j);
    exists i :: Unanswered(b, events[..j], i)
  }

  lemma SameWorlds(b: Backend, front: seq<Event>, e: Event, k: nat)
    requires Possible(b, START, front + [e]) && k <= |front|
    ensures Possible(b, START, front) && At(b, front + [e], k) == At(b, front, k)
    ensures k < |front| ==> (front + [e])[k] == front[k]
  {
    RunSnoc(b, START, front, e);
    assert (front + [e])[..k] == front[..k];
  }

  lemma LastWorld(b: Backend, front: seq<Event>, e: Event)
    requires Possible(b, START, front + [e])
    ensures Possible(b, START, front) && At(b, front + [e], |front|) == Run(b, START, front)
  {
    RunSnoc(b, START, front, e);
    assert (front + [e])[..|front|] == front;
  }

  lemma UnansweredSnoc(b: Backend, front: seq<Event>, e: Event, i: nat)
    requires Possible(b, START, front + [e]) && i < |front|
    ensures Possible(b, START, front)
    ensures var token := At(b, front, i).store.historyRequestId + 1;
            Unanswered(b, front + [e], i)
            <==> Unanswered(b, front, i) && !EndsWait(b, front + [e], |front|, token)
  {
    SameWorlds(b, front, e, i);
    StillAwaitsSnoc(b, front, e, i, At(b, front, i).store.historyRequestId + 1);
  }

  lemma StillAwaitsSnoc(b: Backend, front: seq<Event>, e: Event, i: nat, token: nat)
    requires Possible(b, START, front + [e]) && i < |front|
    ensures Possible(b, START, front)
    ensures StillAwaits(b, front + [e], i, token)
       <==> StillAwaits(b, front, i, token) && !EndsWait(b, front + [e], |front|, token)
  {
    var all := front + [e];
    SameWorlds(b, front, e, i);
    forall k | i < k < |front| ensures EndsWait(b, all, k, token) <==> EndsWait(b, front, k, token) {
      SameWorlds(b, front, e, k);
    }
  }

  lemma UnansweredLast(b: Backend, front: seq<Event>, e: Event)
    requires Possible(b, START, front + [e])
    ensures Possible(b, START, front)
    ensures Unanswered(b, front + [e], |front|) <==> Issues(Run(b, START, front), e)
  {
    LastWorld(b, front, e);
  }

  lemma OvertakenSnoc(b: Backend, front: seq<Event>, e: Event, j: nat)
    requires Possible(b, START, front + [e]) && j < |front|
    ensures Possible(b, START, front)
    ensures OvertakenAt(b, front + [e], j) <==> OvertakenAt(b, front, j) && !Restarts(Run(b, START, front), e)
  {
    var all := front + [e];
    SameWorlds(b, front, e, j);
    LastWorld(b, front, e);
    assert all[..j] == front[..j];
    forall k | j < k < |front| ensures Restarts(At(b, all, k), all[k]) <==> Restarts(At(b, front, k), front[k]) {
      SameWorlds(b, front, e, k);
    }
  }

  /** A load is on its way for the current token exactly if one was issued and nothing has ended the wait;
      and it carries that token. */
  lemma {:induction false} AwaitedExactly(b: Backend, events: seq<Event>)
    requires Possible(b, START, events)
    ensures var w := Run(b, START, events);
            && (w.store.historyRequestId in w.loads <==> exists i :: Unanswered(b, events, i))
            && forall i :: Unanswered(b, events, i) ==> At(b, events, i).store.historyRequestId + 1 == w.store.historyRequestId
  {
    if events != [] {
      var front, e := events[..|events| - 1], events[|events| - 1];
      assert events == front + [e];
      RunSnoc(b, START, front, e);
      AwaitedExactly(b, front);
      AwaitedStep(b, front, e);
    }
  }

  lemma AwaitedStep(b: Backend, front: seq<Event>, e: Event)
    requires Possible(b, START, front + [e]) && Possible(b, START, front) && Enabled(Run(b, START, front), e)
    requires var w := Run(b, START, front);
             && (w.store.historyRequestId in w.loads <==> exists i :: Unanswered(b, front, i))
             && forall i :: Unanswered(b, front, i) ==> At(b, front, i).store.historyRequestId + 1 == w.store.historyRequestId
    ensures var w := Happen(b, Run(b, START, front), e);
            var all := front + [e];
            && (w.store.historyRequestId in w.loads <==> exists i :: Unanswered(b, all, i))
            && forall i :: Unanswered(b, all, i) ==> At(b, all, i).store.historyRequestId + 1 == w.store.historyRequestId
  {
    var w, all, n := Run(b, START, front), front + [e], |front|;
    assert IsPrefix(INITIAL, b.log(RootKey(b, None)));
    AlwaysSound(b, START, front);
    AwaitedAfter(b, w, e);
    TokenAfter(b, w, e);
    LastWorld(b, front, e);
    UnansweredLast(b, front, e);
    forall i | 0 <= i < n
      ensures Unanswered(b, all, i) <==> Unanswered(b, front, i) && !Restarts(w, e) && !Drops(b, w, e)
                                         && !Answers(e, w.store.historyRequestId)
      ensures At(b, all, i) == At(b, front, i)
    {
      SameWorlds(b, front, e, i);
      UnansweredSnoc(b, front, e, i);
    }
    if exists i :: Unanswered(b, front, i) {
      var i :| Unanswered(b, front, i);
      assert Unanswered(b, all, i) <==> !Restarts(w, e) && !Drops(b, w, e) && !Answers(e, w.store.historyRequestId);
    }
  }

  lemma {:induction false} OvertakenExactly(b: Backend, events: seq<Event>)
    requires Possible(b, START, events)
    ensures Run(b, START, events).overtaken <==> exists j :: OvertakenAt(b, events, j)
  {
    if events != [] {
      var front, e := events[..|events| - 1], events[|events| - 1];
      assert events == front + [e];
      RunSnoc(b, START, front, e);
      OvertakenExactly(b, front);
      OvertakenStep(b, front, e);
    }
  }

  lemma OvertakenStep(b: Backend, front: seq<Event>, e: Event)
    requires Possible(b, START, front + [e]) && Possible(b, START, front) && Enabled(Run(b, START, front), e)
    requires Run(b, START, front).overtaken <==> exists j :: OvertakenAt(b, front, j)
    ensures Happen(b, Run(b, START, front), e).overtaken <==> exists j :: OvertakenAt(b, front + [e], j)
  {
    var w, all, n := Run(b, START, front), front + [e], |front|;
    OvertakenAfter(b, w, e);
    LastWorld(b, front, e);
    AwaitedExactly(b, front);
    assert all[..n] == front;
    assert OvertakenAt(b, all, n) <==> Drops(b, w, e) && w.store.historyRequestId in w.loads;
    forall j | 0 <= j < n ensures OvertakenAt(b, all, j) <==> OvertakenAt(b, front, j) && !Restarts(w, e) {
      OvertakenSnoc(b, front, e, j);
    }
    if exists j :: OvertakenAt(b, front, j) {
      var j :| OvertakenAt(b, front, j);
      assert OvertakenAt(b, all, j) <==> !Restarts(w, e);
    }
  }

  /** The flag, exactly: a load is unanswered; or one was when a status dropped the history, and since then
      there has been no load, no status refresh without a workspace and no reset. */
  lemma HistoryFlagExactly(b: Backend, events: seq<Event>)
    requires Possible(b, START, events)
    ensures Run(b, START, events).store.isHistoryLoading
       <==> (exists i :: Unanswered(b, events, i)) || (exists j :: OvertakenAt(b, events, j))
  {
    LoadingFlagsExactly(b, events);
    AwaitedExactly(b, events);
    OvertakenExactly(b, events);
  }
}
