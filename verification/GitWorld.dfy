/**
 The git store as one machine (src/store/git.ts, 144-414): the baseline cache of `GitBaseline` and the
 status and history of `GitHistory`, side by side. A status that names another repository, and a reset,
 clear the cache in the same step. What is proved of the two parts holds of the whole, and no baseline
 outlives its repository.
 */
module GitWorld {
  import opened Prelude
  import B = GitBaseline
  import H = GitHistory
  import L = GitLoading

  datatype Event = Files(file: B.Event) | Repository(event: H.Event)

  datatype World = World(files: B.World, repository: H.World)

  const START := World(B.World(B.EMPTY, map[]), H.START)

  predicate Enabled(w: World, e: Event) {
    match e
    case Files(event) => B.Enabled(w.files, event)
    case Repository(event) => H.Enabled(w.repository, event)
  }

  /** `clearBaselineCache` is part of the step. */
  predicate Clears(b: H.Backend, w: H.World, e: H.Event) {
    L.Drops(b, w, e) || e.ResetAll? || (e.StartStatus? && !H.HasRoot(e.workspace))
  }

  /** What the step is for the cache. An empty key is ignored. */
  function ForFiles(b: H.Backend, w: World, e: Event): B.Event {
    match e
    case Files(event) => event
    case Repository(event) => if Clears(b, w.repository, event) then B.ClearAll else B.InvalidateFile("")
  }

  function ForRepository(e: Event): seq<H.Event> {
    match e case Files(_) => [] case Repository(event) => [event]
  }

  ghost predicate Follows(b: H.Backend, w: World, e: Event, now: nat, next: World) {
    && Enabled(w, e)
    && next.files == B.Happen(w.files, ForFiles(b, w, e), now)
    && next.repository == match e
                          case Files(_) => w.repository
                          case Repository(event) => H.Happen(b, w.repository, event)
  }

  /** A run: the world before every event, and the one after the last. */
  ghost predicate IsRun(b: H.Backend, events: seq<Event>, worlds: seq<World>) {
    && |worlds| == |events| + 1 && worlds[0] == START
    && forall i :: 0 <= i < |events| ==> Follows(b, worlds[i], events[i], i, worlds[i + 1])
  }

  lemma StepAt(b: H.Backend, events: seq<Event>, worlds: seq<World>, i: nat)
    requires IsRun(b, events, worlds) && i < |events|
    ensures Follows(b, worlds[i], events[i], i, worlds[i + 1])
  {}

  // ---------------------------------------------------------------------------
  // The two parts
  // ---------------------------------------------------------------------------

  /** The first n events, as the cache sees them. */
  ghost function FilesTrace(b: H.Backend, events: seq<Event>, worlds: seq<World>, n: nat): (trace: seq<B.Event>)
    requires IsRun(b, events, worlds) && n <= |events|
    ensures |trace| == n && forall i :: 0 <= i < n ==> trace[i] == ForFiles(b, worlds[i], events[i])
  {
    seq(n, i requires 0 <= i < n => ForFiles(b, worlds[i], events[i]))
  }

  function RepositoryTrace(events: seq<Event>): seq<H.Event> {
    if events == [] then []
    else RepositoryTrace(events[..|events| - 1]) + ForRepository(events[|events| - 1])
  }

  lemma CacheSnoc(trace: seq<B.Event>, e: B.Event)
    requires B.Possible(trace) && B.Enabled(B.After(trace), e)
    ensures B.Possible(trace + [e]) && B.After(trace + [e]) == B.Happen(B.After(trace), e, |trace|)
  {
    assert (trace + [e])[..|trace|] == trace;
  }

  /** The cache runs as it would alone. */
  lemma {:induction false} FilesRunAlone(b: H.Backend, events: seq<Event>, worlds: seq<World>, n: nat)
    requires IsRun(b, events, worlds) && n <= |events|
    ensures B.Possible(FilesTrace(b, events, worlds, n))
    ensures B.After(FilesTrace(b, events, worlds, n)) == worlds[n].files
    decreases n
  {
    if n > 0 {
      var before, e := FilesTrace(b, events, worlds, n - 1), ForFiles(b, worlds[n - 1], events[n - 1]);
      FilesRunAlone(b, events, worlds, n - 1);
      StepAt(b, events, worlds, n - 1);
      assert FilesTrace(b, events, worlds, n) == before + [e];
      CacheSnoc(before, e);
    } else {
      assert FilesTrace(b, events, worlds, 0) == [];
    }
  }

  lemma {:induction false} PossibleSnoc(b: H.Backend, w: H.World, events: seq<H.Event>, e: H.Event)
    requires H.Possible(b, w, events) && H.Enabled(H.Run(b, w, events), e)
    ensures H.Possible(b, w, events + [e])
    decreases events
  {
    if events == [] {
      assert [] + [e] == [e] && [e][1..] == [];
      assert H.Possible(b, H.Happen(b, w, e), []);
    } else {
      assert (events + [e])[1..] == events[1..] + [e];
      PossibleSnoc(b, H.Happen(b, w, events[0]), events[1..], e);
    }
  }

  /** Status and history run as they would alone. */
  lemma {:induction false} RepositoryRunsAlone(b: H.Backend, events: seq<Event>, worlds: seq<World>, n: nat)
    requires IsRun(b, events, worlds) && n <= |events|
    ensures H.Possible(b, H.START, RepositoryTrace(events[..n]))
    ensures H.Run(b, H.START, RepositoryTrace(events[..n])) == worlds[n].repository
    decreases n
  {
    if n > 0 {
      var before, e := RepositoryTrace(events[..n - 1]), events[n - 1];
      RepositoryRunsAlone(b, events, worlds, n - 1);
      StepAt(b, events, worlds, n - 1);
      assert events[..n][..n - 1] == events[..n - 1];
      assert RepositoryTrace(events[..n]) == before + ForRepository(e);
      if e.Repository? {
        PossibleSnoc(b, H.START, before, e.event);
        L.RunSnoc(b, H.START, before, e.event);
      } else {
        assert before + [] == before;
      }
    }
  }

  // ---------------------------------------------------------------------------
  // What holds of the whole
  // ---------------------------------------------------------------------------

  /** The history is the log's prefix at any time. */
  lemma HistoryIsPrefixOfLog(b: H.Backend, events: seq<Event>, worlds: seq<World>, n: nat)
    requires IsRun(b, events, worlds) && n <= |events|
    ensures var s := worlds[n].repository.store; H.IsPrefix(s, b.log(H.RootKey(b, s.status.root)))
  {
    RepositoryRunsAlone(b, events, worlds, n);
    H.HistoryIsPrefixOfLog(b, RepositoryTrace(events[..n]));
  }

  /** The step makes what is cached for the file out of date. */
  predicate Outdates(b: H.Backend, w: World, e: Event, key: string) {
    match e
    case Files(event) => B.Outdates(event, key)
    case Repository(event) => Clears(b, w.repository, event)
  }

  /** What is cached was fetched by a request since which its file was not invalidated, the cache not cleared and
      the repository not switched. */
  lemma CachedIsFresh(b: H.Backend, events: seq<Event>, worlds: seq<World>, n: nat, key: string)
    requires IsRun(b, events, worlds) && n <= |events| && key in worlds[n].files.cache.entries
    ensures var r := worlds[n].files.cache.entries[key].request;
            && r < n && events[r] == Files(B.Ask(key))
            && forall j :: r < j < n ==> !Outdates(b, worlds[j], events[j], key)
  {
    var trace, r := FilesTrace(b, events, worlds, n), worlds[n].files.cache.entries[key].request;
    FilesRunAlone(b, events, worlds, n);
    B.CachedIsFresh(trace, key);
    assert trace[r] == ForFiles(b, worlds[r], events[r]);
    forall j | r < j < n ensures !Outdates(b, worlds[j], events[j], key) {
      assert !B.Outdates(trace[j], key);
    }
  }

  /** The repository the store shows. */
  function Shown(b: H.Backend, w: World): string {
    H.RootKey(b, w.repository.store.status.root)
  }

  lemma SwitchClears(b: H.Backend, w: H.World, e: H.Event)
    requires H.Enabled(w, e)
    requires H.RootKey(b, H.Happen(b, w, e).store.status.root) != H.RootKey(b, w.store.status.root)
    ensures Clears(b, w, e)
  {}

  lemma ClearingForgetsHistory(b: H.Backend, w: H.World, e: H.Event)
    requires H.Enabled(w, e) && Clears(b, w, e)
    ensures var s := H.Happen(b, w, e).store; s.commits == [] && s.nextOffset == Some(0)
  {}

  /** The repository changes only in a step that clears the cache and the history. */
  lemma SwitchForgetsBoth(b: H.Backend, w: World, e: Event, now: nat, next: World)
    requires Follows(b, w, e, now, next) && Shown(b, next) != Shown(b, w)
    ensures e.Repository? && Clears(b, w.repository, e.event)
    ensures next.files.cache.entries == map[] && next.files.cache.epoch == w.files.cache.epoch + 1
    ensures next.repository.store.commits == [] && next.repository.store.nextOffset == Some(0)
  {
    SwitchClears(b, w.repository, e.event);
    ClearingForgetsHistory(b, w.repository, e.event);
  }

  lemma {:induction false} SameRepository(b: H.Backend, events: seq<Event>, worlds: seq<World>, from: nat, n: nat)
    requires IsRun(b, events, worlds) && from <= n <= |events|
    requires forall j :: from <= j < n && events[j].Repository? ==> !Clears(b, worlds[j].repository, events[j].event)
    ensures Shown(b, worlds[from]) == Shown(b, worlds[n])
    decreases n
  {
    if from < n {
      SameRepository(b, events, worlds, from, n - 1);
      StepAt(b, events, worlds, n - 1);
      if Shown(b, worlds[n]) != Shown(b, worlds[n - 1]) {
        SwitchForgetsBoth(b, worlds[n - 1], events[n - 1], n - 1, worlds[n]);
        assert false;
      }
    }
  }

  /** No baseline outlives its repository: what is cached was asked for while the store showed the repository it
      shows now. */
  lemma CachedIsOfShownRepository(b: H.Backend, events: seq<Event>, worlds: seq<World>, n: nat, key: string)
    requires IsRun(b, events, worlds) && n <= |events| && key in worlds[n].files.cache.entries
    ensures var r := worlds[n].files.cache.entries[key].request;
            r < n && events[r] == Files(B.Ask(key)) && Shown(b, worlds[r]) == Shown(b, worlds[n])
  {
    CachedIsFresh(b, events, worlds, n, key);
    var r := worlds[n].files.cache.entries[key].request;
    forall j | r <= j < n && events[j].Repository? ensures !Clears(b, worlds[j].repository, events[j].event) {
      assert j > r ==> !Outdates(b, worlds[j], events[j], key);
    }
    SameRepository(b, events, worlds, r, n);
  }
}
