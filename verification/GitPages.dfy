/**
 What a page, a load and a status do to the history that is shown (src/store/git.ts, 149-154, 228-304 and
 385-414, and src-tauri/src/commands/git/history.rs, 23-72), told from the backend's log.
 */
module GitPages {
  import opened Prelude
  import opened GitHistory

  /** How many commits a load asks for: 20 if it does not say, at least 1 and at most 200. */
  function Asked(limit: Option<nat>): nat {
    if limit.None? then 20 else Max(1, Min(200, limit.value))
  }

  function LogOf(b: Backend, w: World): seq<string> {
    b.log(RootKey(b, w.store.status.root))
  }

  /** The first n commits of the log are shown, and whether and where it goes on is told. */
  ghost predicate Shows(s: Store, log: seq<string>, n: nat) {
    && s.commits == log[..Min(|log|, n)]
    && (s.hasMore <==> n < |log|)
    && s.nextOffset == if n < |log| then Some(n) else None
  }

  // ---------------------------------------------------------------------------
  // Pages
  // ---------------------------------------------------------------------------

  lemma ReachableIsSound(b: Backend, events: seq<Event>)
    requires Possible(b, START, events)
    ensures Sound(b, Run(b, START, events))
  {
    assert IsPrefix(INITIAL, b.log(RootKey(b, None)));
    AlwaysSound(b, START, events);
  }

  lemma PageOfLog(log: seq<string>, offset: nat, limit: Option<nat>)
    requires offset <= |log|
    ensures var p, n := ListCommitHistory(log, offset, limit), offset + Asked(limit);
            && log[..offset] + p.entries == log[..Min(|log|, n)]
            && (p.hasMore <==> n < |log|) && p.nextOffset == if n < |log| then Some(n) else None
  {
    var n := Asked(limit);
    assert EffectiveLimit(limit) == n;
    assert log[..offset] + log[offset..] == log;
    if |log[offset..]| > n {
      assert log[offset..][..n] == log[offset..offset + n];
      assert log[..offset] + log[offset..offset + n] == log[..offset + n];
    }
  }

  lemma WantedPage(b: Backend, w: World, token: nat)
    requires Sound(b, w) && token in w.loads && token == w.store.historyRequestId
    ensures var load, s := w.loads[token], Happen(b, w, PageArrives(token)).store;
            Shows(s, LogOf(b, w), (if load.append then load.offset else 0) + Asked(load.limit)) && !s.isHistoryLoading
    ensures Happen(b, w, PageArrives(token)).store.status == w.store.status
  {
    var load, log := w.loads[token], LogOf(b, w);
    PageOfLog(log, load.offset, load.limit);
    assert log[..0] == [] && [] + ListCommitHistory(log, 0, load.limit).entries == ListCommitHistory(log, 0, load.limit).entries;
  }

  /** In every run: the page of a first load or a reload that is still wanted is shown, as many commits from the start
      of the current repository's log as it asked for. */
  lemma ReloadShowsFirstPage(b: Backend, events: seq<Event>, token: nat)
    requires Possible(b, START, events)
    requires var w := Run(b, START, events);
             token in w.loads && token == w.store.historyRequestId && !w.loads[token].append
    ensures var w := Run(b, START, events);
            var s := Happen(b, w, PageArrives(token)).store;
            Shows(s, LogOf(b, w), Asked(w.loads[token].limit)) && !s.isHistoryLoading
  {
    ReachableIsSound(b, events);
    WantedPage(b, Run(b, START, events), token);
  }

  /** In every run: the page of an append that is still wanted adds as many commits as it asked for. */
  lemma AppendShowsNextPage(b: Backend, events: seq<Event>, token: nat)
    requires Possible(b, START, events)
    requires var w := Run(b, START, events);
             token in w.loads && token == w.store.historyRequestId && w.loads[token].append
    ensures var w := Run(b, START, events);
            var s := Happen(b, w, PageArrives(token)).store;
            && w.store.nextOffset.Some?
            && Shows(s, LogOf(b, w), w.store.nextOffset.value + Asked(w.loads[token].limit)) && !s.isHistoryLoading
  {
    ReachableIsSound(b, events);
    WantedPage(b, Run(b, START, events), token);
  }

  /** A page that is not wanted any more changes nothing in the store, and neither does the failure of its load. */
  lemma StalePageChangesNothing(b: Backend, w: World, token: nat)
    requires token in w.loads && token != w.store.historyRequestId
    ensures Happen(b, w, PageArrives(token)) == w.(loads := w.loads - {token})
    ensures Happen(b, w, LoadFails(token)) == w.(loads := w.loads - {token})
  {}

  /** The failure of a wanted load takes the flag down, and leaves the history alone. */
  lemma FailureKeepsHistory(b: Backend, w: World)
    requires w.store.historyRequestId in w.loads
    ensures Happen(b, w, LoadFails(w.store.historyRequestId))
         == w.(loads := w.loads - {w.store.historyRequestId}, store := w.store.(isHistoryLoading := false))
  {}

  // ---------------------------------------------------------------------------
  // Loads
  // ---------------------------------------------------------------------------

  /** A load asks for a page of the current repository, from the start or from where the history ends, under a new
      token, and leaves the history alone meanwhile; without a repository it asks for nothing, and an append at the
      end of the log is nothing at all. */
  lemma LoadAsksExactly(b: Backend, w: World, append: bool, limit: Option<nat>)
    ensures var v := Happen(b, w, StartLoad(append, limit));
            var token, root := w.store.historyRequestId + 1, w.store.status.root;
            if append && w.store.nextOffset.None? then v == w
            else
              && v.store == w.store.(historyRequestId := token, isHistoryLoading := root.Some? && root.value != "")
              && v.loads == (if root.Some? && root.value != "" then
                               w.loads[token := Load(append, if append then w.store.nextOffset.value else 0, limit, root.value)]
                             else w.loads)
              && v.statuses == w.statuses
  {}

  /** A load and its answer. */
  function Loaded(b: Backend, w: World, append: bool, limit: Option<nat>): World {
    var v := Happen(b, w, StartLoad(append, limit));
    if v.store.historyRequestId in v.loads then Happen(b, v, PageArrives(v.store.historyRequestId)) else v
  }

  /** A first load and k appends. */
  function ReadOn(b: Backend, w: World, limit: Option<nat>, k: nat): World {
    if k == 0 then Loaded(b, w, false, limit) else Loaded(b, ReadOn(b, w, limit, k - 1), true, limit)
  }

  function Total(n: nat, k: nat): nat {
    if k == 0 then n else Total(n, k - 1) + n
  }

  /** The first t commits of the log, or all of it, are shown, and no load is on its way. */
  ghost predicate HasRead(b: Backend, w: World, v: World, t: nat) {
    && Sound(b, v) && v.store.status == w.store.status && Shows(v.store, LogOf(b, w), t)
    && v.store.historyRequestId !in v.loads
  }

  lemma LoadedShows(b: Backend, w: World, append: bool, limit: Option<nat>)
    requires Sound(b, w) && HasRoot(w.store.status.root) && (append ==> w.store.nextOffset.Some?)
    ensures HasRead(b, w, Loaded(b, w, append, limit), (if append then w.store.nextOffset.value else 0) + Asked(limit))
  {
    var v := Happen(b, w, StartLoad(append, limit));
    var token := v.store.historyRequestId;
    LoadAsksExactly(b, w, append, limit);
    StartKeepsSound(b, w, append, limit);
    WantedPage(b, v, token);
    PageKeepsSound(b, v, token);
  }

  lemma NothingMoreToLoad(b: Backend, w: World, v: World, t: nat, limit: Option<nat>)
    requires HasRead(b, w, v, t) && t >= |LogOf(b, w)|
    ensures HasRead(b, w, Loaded(b, v, true, limit), t + Asked(limit))
  {
    LoadAsksExactly(b, v, true, limit);
    assert Loaded(b, v, true, limit) == v;
  }

  /** Paging reads the log: after a first load and k appends exactly k + 1 pages of it are shown, or all of it. */
  lemma {:induction false} PagingReadsLog(b: Backend, w: World, limit: Option<nat>, k: nat)
    requires Sound(b, w) && HasRoot(w.store.status.root)
    ensures HasRead(b, w, ReadOn(b, w, limit, k), Total(Asked(limit), k))
  {
    if k == 0 {
      LoadedShows(b, w, false, limit);
    } else {
      var v, t := ReadOn(b, w, limit, k - 1), Total(Asked(limit), k - 1);
      PagingReadsLog(b, w, limit, k - 1);
      if t < |LogOf(b, w)| {
        LoadedShows(b, v, true, limit);
      } else {
        NothingMoreToLoad(b, w, v, t, limit);
      }
    }
  }

  // ---------------------------------------------------------------------------
  // Statuses
  // ---------------------------------------------------------------------------

  /** The store shows another repository, or none. */
  predicate IsElsewhere(b: Backend, s: Store, status: Status) {
    RootKey(b, status.root) != RootKey(b, s.status.root) || !status.available
  }

  /** What a status that is applied does: it is shown; the history of another repository is dropped, and that of the same
      one is kept, with its page on the way. */
  ghost predicate Applies(b: Backend, s: Store, status: Status, t: Store) {
    && t.status == status && t.statusRequestId == s.statusRequestId && t.isHistoryLoading == s.isHistoryLoading
    && if IsElsewhere(b, s, status) then
         t.commits == [] && !t.hasMore && t.nextOffset == Some(0) && t.historyRequestId == s.historyRequestId + 1
       else
         t.commits == s.commits && t.hasMore == s.hasMore && t.nextOffset == s.nextOffset
         && t.historyRequestId == s.historyRequestId
  }

  /** The answer to the latest status request is applied if it is accepted; in any case the status flag goes down. An
      answer that is not to the latest changes nothing in the store. */
  lemma StatusAppliesExactly(b: Backend, w: World, token: nat, status: Status, accepted: bool)
    requires token in w.statuses
    ensures var t := Happen(b, w, StatusArrives(token, status, accepted)).store;
            if token != w.store.statusRequestId then t == w.store
            else !t.isLoading && if accepted then Applies(b, w.store, status, t) else t == w.store.(isLoading := false)
  {}

  /** So does the status that a change of the repository comes with, at once. */
  lemma MutationApplies(b: Backend, w: World, status: Status)
    ensures var t := Happen(b, w, Mutated(status)).store; Applies(b, w.store, status, t) && t.isLoading == w.store.isLoading
  {}

  /** A status refresh asks under a new token; without a workspace the store is emptied instead, and everything on its way
      is obsolete. */
  lemma RefreshAsksExactly(b: Backend, w: World, workspace: Option<string>)
    ensures var v, token := Happen(b, w, StartStatus(workspace)), w.store.statusRequestId + 1;
            if workspace.Some? && workspace.value != "" then
              && v.store == w.store.(statusRequestId := token, isLoading := true)
              && v.statuses == w.statuses + {token} && v.loads == w.loads
            else IsEmptied(w.store, v.store) && v.statuses == w.statuses && v.loads == w.loads
  {}

  ghost predicate IsEmptied(s: Store, t: Store) {
    && t.status == Status(None, false) && t.commits == [] && !t.hasMore && t.nextOffset == Some(0)
    && !t.isLoading && !t.isHistoryLoading
    && t.statusRequestId > s.statusRequestId && t.historyRequestId > s.historyRequestId
  }

  lemma ResetEmpties(b: Backend, w: World)
    ensures var v := Happen(b, w, ResetAll); IsEmptied(w.store, v.store) && v.statuses == w.statuses && v.loads == w.loads
  {}

  /** Which repository is shown is told by its normalised root; no root is the same as an empty one. */
  lemma SwitchesExactly(b: Backend, s: Store, status: Status)
    ensures Switches(b, s, status)
       <==> || !status.available
            || (var was, now := s.status.root, status.root;
                if was in {None, Some("")} then now !in {None, Some("")} && b.normalize(now.value) != ""
                else if now in {None, Some("")} then b.normalize(was.value) != ""
                else b.normalize(was.value) != b.normalize(now.value))
  {
    assert s.status.root.Some? && s.status.root.value == "" ==> s.status.root == Some("");
    assert status.root.Some? && status.root.value == "" ==> status.root == Some("");
  }

  /** A status request that fails takes the flag down if it is the latest, and changes nothing else. */
  lemma FailedStatusKeepsStatus(b: Backend, w: World, token: nat)
    requires token in w.statuses
    ensures Happen(b, w, StatusFails(token))
         == w.(statuses := w.statuses - {token},
               store := if token == w.store.statusRequestId then w.store.(isLoading := false) else w.store)
  {}
}
