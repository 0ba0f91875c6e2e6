/**
 Repository status and paginated commit history of the git store (src/store/git.ts, 126-184, 228-296
 and 385-414), on values, with the backend's paging (src-tauri/src/commands/git/history.rs, 23-72).

 Every kind of request takes a token from its own counter, and an answer whose token is no longer the
 current one is dropped. A status that names another repository resets the history.
 */
module GitHistory {
  import opened Prelude

  const DEFAULT_GIT_HISTORY_LIMIT := 20
  const MAX_GIT_HISTORY_LIMIT := 200

  /** What the store cannot see: the log of each repository, and path normalisation. */
  datatype Backend = Backend(log: string -> seq<string>, normalize: string -> string)

  datatype Page = Page(entries: seq<string>, hasMore: bool, nextOffset: Option<nat>)

  function EffectiveLimit(limit: Option<nat>): (n: nat)
    ensures 1 <= n <= MAX_GIT_HISTORY_LIMIT
  {
    var n := if limit.Some? then limit.value else DEFAULT_GIT_HISTORY_LIMIT;
    if n < 1 then 1 else if n > MAX_GIT_HISTORY_LIMIT then MAX_GIT_HISTORY_LIMIT else n
  }

  /** `list_git_commit_history`: one entry more than asked for is read, to see whether there is more. */
  function ListCommitHistory(log: seq<string>, offset: nat, limit: Option<nat>): Page {
    var n := EffectiveLimit(limit);
    var rest := if offset <= |log| then log[offset..] else [];
    if |rest| > n then Page(rest[..n], true, Some(offset + n)) else Page(rest, false, None)
  }

  datatype Status = Status(root: Option<string>, available: bool)

  datatype Store = Store(
    status: Status,
    statusRequestId: nat,
    isLoading: bool,
    commits: seq<string>,
    hasMore: bool,
    nextOffset: Option<nat>,
    historyRequestId: nat,
    isHistoryLoading: bool)

  const INITIAL := Store(Status(None, false), 0, false, [], false, Some(0), 0, false)

  /** `normalizeFileSystemPath`, for which no path and the empty path are the same. */
  function RootKey(b: Backend, root: Option<string>): string {
    if root.None? || root.value == "" then "" else b.normalize(root.value)
  }

  function ResetHistory(s: Store): Store {
    s.(historyRequestId := s.historyRequestId + 1, commits := [], hasMore := false, nextOffset := Some(0))
  }

  function Reset(s: Store): Store {
    ResetHistory(s.(statusRequestId := s.statusRequestId + 1, historyRequestId := s.historyRequestId + 1,
                    isLoading := false, isHistoryLoading := false, status := Status(None, false)))
  }

  /** The repository changes, or is gone: what was loaded for the old one is dropped. */
  predicate Switches(b: Backend, s: Store, status: Status) {
    RootKey(b, s.status.root) != RootKey(b, status.root) || !status.available
  }

  function ApplyStatus(b: Backend, s: Store, status: Status): Store {
    if Switches(b, s, status) then ResetHistory(s.(status := status)) else s.(status := status)
  }

  // ---------------------------------------------------------------------------
  // All interleavings
  // ---------------------------------------------------------------------------

  datatype Load = Load(append: bool, offset: nat, limit: Option<nat>, root: string)

  datatype Event =
    | StartLoad(append: bool, limit: Option<nat>)
    | PageArrives(token: nat)
    | LoadFails(token: nat)
    | StartStatus(workspace: Option<string>)
    | StatusArrives(token: nat, status: Status, accepted: bool)
    | StatusFails(token: nat)
    | Mutated(status: Status)
    | ResetAll

  /** The store and its requests on their way. `overtaken`: a load was unanswered when a status change made
      it obsolete, and nothing has taken the loading flag down since. */
  datatype World = World(store: Store, loads: map<nat, Load>, statuses: set<nat>, overtaken: bool)

  predicate Enabled(w: World, e: Event) {
    match e
    case PageArrives(token) => token in w.loads
    case LoadFails(token) => token in w.loads
    case StatusArrives(token, _, _) => token in w.statuses
    case StatusFails(token) => token in w.statuses
    case _ => true
  }

  function HasRoot(root: Option<string>): bool {
    root.Some? && root.value != ""
  }

  /** The synchronous part of `loadCommitHistory`: None where nothing is requested. */
  function BeginLoad(s: Store, append: bool, limit: Option<nat>): (Store, Option<Load>) {
    if append && s.nextOffset.None? then (s, None)
    else
      var t := s.(historyRequestId := s.historyRequestId + 1, isHistoryLoading := true);
      if !HasRoot(s.status.root) then (t.(isHistoryLoading := false), None)
      else
        var offset := if append then s.nextOffset.value else 0;
        (t, Some(Load(append, offset, limit, s.status.root.value)))
  }

  function FinishLoad(s: Store, token: nat, append: bool, page: Page): Store {
    if token != s.historyRequestId then s
    else s.(commits := if append then s.commits + page.entries else page.entries,
            hasMore := page.hasMore, nextOffset := page.nextOffset, isHistoryLoading := false)
  }

  function AbandonLoad(s: Store, token: nat): Store {
    if token == s.historyRequestId then s.(isHistoryLoading := false) else s
  }

  function BeginStatus(s: Store, workspace: Option<string>): Store {
    if !HasRoot(workspace) then Reset(s)
    else s.(statusRequestId := s.statusRequestId + 1, isLoading := true)
  }

  function FinishStatus(b: Backend, s: Store, token: nat, status: Status, accepted: bool): Store {
    if token != s.statusRequestId then s
    else (if accepted then ApplyStatus(b, s, status) else s).(isLoading := false)
  }

  function AbandonStatus(s: Store, token: nat): Store {
    if token == s.statusRequestId then s.(isLoading := false) else s
  }

  function PageFor(b: Backend, load: Load): Page {
    ListCommitHistory(b.log(RootKey(b, Some(load.root))), load.offset, load.limit)
  }

  /** A status leads to store `t`: if that drops the history, a load that is still unanswered is overtaken. */
  predicate Overtaken(w: World, t: Store) {
    w.overtaken || (t.historyRequestId != w.store.historyRequestId && w.store.historyRequestId in w.loads)
  }

  function Happen(b: Backend, w: World, e: Event): World
    requires Enabled(w, e)
  {
    var s := w.store;
    match e
    case StartLoad(append, limit) =>
      var (t, load) := BeginLoad(s, append, limit);
      World(t, if load.Some? then w.loads[t.historyRequestId := load.value] else w.loads, w.statuses,
            if t == s then w.overtaken else false)
    case PageArrives(token) =>
      var load := w.loads[token];
      w.(store := FinishLoad(s, token, load.append, PageFor(b, load)), loads := w.loads - {token})
    case LoadFails(token) => w.(store := AbandonLoad(s, token), loads := w.loads - {token})
    case StartStatus(workspace) =>
      var t := BeginStatus(s, workspace);
      w.(store := t,
         statuses := if HasRoot(workspace) then w.statuses + {t.statusRequestId} else w.statuses,
         overtaken := w.overtaken && HasRoot(workspace))
    case StatusArrives(token, status, accepted) =>
      var t := FinishStatus(b, s, token, status, accepted);
      w.(store := t, statuses := w.statuses - {token},
         overtaken := Overtaken(w, t))
    case StatusFails(token) => w.(store := AbandonStatus(s, token), statuses := w.statuses - {token})
    case Mutated(status) =>
      var t := ApplyStatus(b, s, status);
      w.(store := t,
         overtaken := Overtaken(w, t))
    case ResetAll => w.(store := Reset(s), overtaken := false)
  }

  predicate Possible(b: Backend, w: World, events: seq<Event>)
    decreases events
  {
    events == [] || (Enabled(w, events[0]) && Possible(b, Happen(b, w, events[0]), events[1..]))
  }

  function Run(b: Backend, w: World, events: seq<Event>): World
    requires Possible(b, w, events)
    decreases events
  {
    if events == [] then w else Run(b, Happen(b, w, events[0]), events[1..])
  }

  const START := World(INITIAL, map[], {}, false)

  /** The history is the first `nextOffset` commits of the log, or all of them; and more are promised
      only if there are more. */
  ghost predicate IsPrefix(s: Store, log: seq<string>) {
    && (match s.nextOffset
        case Some(n) => n <= |log| && s.commits == log[..n]
        case None => s.commits == log)
    && (s.hasMore ==> s.nextOffset.Some? && s.nextOffset.value < |log|)
  }

  ghost predicate Sound(b: Backend, w: World) {
    var s := w.store;
    && IsPrefix(s, b.log(RootKey(b, s.status.root)))
    && (forall t :: t in w.loads ==> t <= s.historyRequestId)
    && (forall t :: t in w.statuses ==> t <= s.statusRequestId)
    && (s.historyRequestId in w.loads ==>
          var load := w.loads[s.historyRequestId];
          && RootKey(b, Some(load.root)) == RootKey(b, s.status.root)
          && (if load.append then s.nextOffset == Some(load.offset) else load.offset == 0))
    && (s.isLoading <==> s.statusRequestId in w.statuses)
    && (s.isHistoryLoading <==> s.historyRequestId in w.loads || w.overtaken)
    && (w.overtaken ==> s.historyRequestId !in w.loads)
  }

  lemma PagePrefix(log: seq<string>, offset: nat, limit: Option<nat>)
    requires offset <= |log|
    ensures var p := ListCommitHistory(log, offset, limit);
            && (match p.nextOffset
                case Some(n) => n < |log| && log[..offset] + p.entries == log[..n]
                case None => log[..offset] + p.entries == log)
            && (p.hasMore <==> p.nextOffset.Some?)
  {
    var n := EffectiveLimit(limit);
    assert log[..offset] + log[offset..] == log;
    if |log[offset..]| > n {
      assert log[offset..][..n] == log[offset..offset + n];
      assert log[..offset] + log[offset..offset + n] == log[..offset + n];
    }
  }

  lemma ResetIsPrefix(s: Store, log: seq<string>)
    ensures IsPrefix(ResetHistory(s), log)
  {}

  lemma PageKeepsSound(b: Backend, w: World, token: nat)
    requires Sound(b, w) && token in w.loads
    ensures Sound(b, Happen(b, w, PageArrives(token)))
  {
    var s := w.store;
    if token == s.historyRequestId {
      var load := w.loads[token];
      var log := b.log(RootKey(b, s.status.root));
      PagePrefix(log, load.offset, load.limit);
      assert log[..0] == [];
    }
  }

  lemma StatusKeepsSound(b: Backend, w: World, status: Status)
    requires Sound(b, w)
    ensures Sound(b, Happen(b, w, Mutated(status)))
  {
    if Switches(b, w.store, status) {
      ResetIsPrefix(w.store.(status := status), b.log(RootKey(b, status.root)));
    }
  }

  lemma ResetKeepsSound(b: Backend, w: World)
    requires Sound(b, w)
    ensures Sound(b, w.(store := Reset(w.store), overtaken := false))
  {
    var s := Reset(w.store);
    assert IsPrefix(s, b.log(RootKey(b, s.status.root)));
  }

  lemma StartKeepsSound(b: Backend, w: World, append: bool, limit: Option<nat>)
    requires Sound(b, w)
    ensures Sound(b, Happen(b, w, StartLoad(append, limit)))
  {
  }

  lemma AbandonedLoadKeepsSound(b: Backend, w: World, token: nat)
    requires Sound(b, w) && token in w.loads
    ensures Sound(b, Happen(b, w, LoadFails(token)))
  {
  }

  lemma AbandonedStatusKeepsSound(b: Backend, w: World, token: nat)
    requires Sound(b, w) && token in w.statuses
    ensures Sound(b, Happen(b, w, StatusFails(token)))
  {
  }

  lemma HappenKeepsSound(b: Backend, w: World, e: Event)
    requires Sound(b, w) && Enabled(w, e)
    ensures Sound(b, Happen(b, w, e))
  {
    match e
    case PageArrives(token) => PageKeepsSound(b, w, token);
    case Mutated(status) => StatusKeepsSound(b, w, status);
    case StatusArrives(token, status, accepted) => StatusKeepsSound(b, w, status);
    case StartStatus(_) => ResetKeepsSound(b, w);
    case ResetAll => ResetKeepsSound(b, w);
    case StartLoad(append, limit) => StartKeepsSound(b, w, append, limit);
    case LoadFails(token) => AbandonedLoadKeepsSound(b, w, token);
    case StatusFails(token) => AbandonedStatusKeepsSound(b, w, token);
  }

  lemma {:induction false} AlwaysSound(b: Backend, w: World, events: seq<Event>)
    requires Sound(b, w) && Possible(b, w, events)
    ensures Sound(b, Run(b, w, events))
    decreases events
  {
    if events != [] {
      HappenKeepsSound(b, w, events[0]);
      AlwaysSound(b, Happen(b, w, events[0]), events[1..]);
    }
  }

  /** Whatever appends, reloads, resets and repository switches overlap: the history shown is a prefix
      of the log of the current repository, of the length the next append starts from. */
  lemma HistoryIsPrefixOfLog(b: Backend, events: seq<Event>)
    requires Possible(b, START, events)
    ensures var s := Run(b, START, events).store;
            IsPrefix(s, b.log(RootKey(b, s.status.root)))
  {
    assert IsPrefix(INITIAL, b.log(RootKey(b, None)));
    AlwaysSound(b, START, events);
  }

  /** The page that an append waits for, if it is still wanted, continues the history without a gap and
      without repetition; and it brings at least one commit if more were promised. */
  lemma AppendContinues(b: Backend, events: seq<Event>, token: nat)
    requires Possible(b, START, events)
    requires var w := Run(b, START, events);
             token in w.loads && token == w.store.historyRequestId && w.loads[token].append
    ensures var w := Run(b, START, events);
            var log := b.log(RootKey(b, w.store.status.root));
            var after := Happen(b, w, PageArrives(token)).store;
            && w.store.commits <= after.commits && after.commits <= log
            && (w.store.hasMore ==> |after.commits| > |w.store.commits|)
            && (after.hasMore <==> after.commits != log)
  {
    assert IsPrefix(INITIAL, b.log(RootKey(b, None)));
    AlwaysSound(b, START, events);
    var w := Run(b, START, events);
    var load := w.loads[token];
    PagePrefix(b.log(RootKey(b, w.store.status.root)), load.offset, load.limit);
  }

  /** The status flag is exact; the history flag also stays up when a status change has overtaken the
      load that set it, until the next load or full reset. */
  lemma LoadingFlagsExactly(b: Backend, events: seq<Event>)
    requires Possible(b, START, events)
    ensures var w := Run(b, START, events);
            && (w.store.isLoading <==> w.store.statusRequestId in w.statuses)
            && (w.store.isHistoryLoading <==> w.store.historyRequestId in w.loads || w.overtaken)
  {
    assert IsPrefix(INITIAL, b.log(RootKey(b, None)));
    AlwaysSound(b, START, events);
  }

  /** It happens: a repository is open, a load starts, another repository is opened, the answer is
      dropped, and the flag stays up although nothing is on its way. */
  lemma HistoryFlagCanStayUp(b: Backend, first: string, second: string)
    requires first != "" && RootKey(b, Some(first)) != RootKey(b, Some(second)) && RootKey(b, Some(first)) != ""
    ensures var e := [Mutated(Status(Some(first), true)), StartLoad(false, None),
                      Mutated(Status(Some(second), true)), PageArrives(2)];
            && Possible(b, START, e)
            && Run(b, START, e).store.isHistoryLoading && Run(b, START, e).loads == map[]
  {
    var w1 := Happen(b, START, Mutated(Status(Some(first), true)));
    var w2 := Happen(b, w1, StartLoad(false, None));
    var w3 := Happen(b, w2, Mutated(Status(Some(second), true)));
    assert w2.loads == map[2 := Load(false, 0, None, first)];
    var w4 := Happen(b, w3, PageArrives(2));
    assert w4.loads == map[] && w4.store.isHistoryLoading;
    var e := [Mutated(Status(Some(first), true)), StartLoad(false, None),
              Mutated(Status(Some(second), true)), PageArrives(2)];
    assert e[1..][1..] == e[2..] && e[2..][1..] == e[3..] && e[3..][1..] == [];
    assert Possible(b, w3, e[3..]) && Run(b, w3, e[3..]) == Run(b, w4, []);
    assert Possible(b, w2, e[2..]) && Run(b, w2, e[2..]) == Run(b, w3, e[3..]);
    assert Possible(b, w1, e[1..]) && Run(b, w1, e[1..]) == Run(b, w2, e[2..]);
  }

  // ---------------------------------------------------------------------------
  // The latest status request wins
  // ---------------------------------------------------------------------------

  predicate Supersedes(e: Event) {
    e.StartStatus? || e.ResetAll?
  }

  lemma {:induction false} StatusTokenMoves(b: Backend, w: World, events: seq<Event>)
    requires Possible(b, w, events)
    ensures w.store.statusRequestId <= Run(b, w, events).store.statusRequestId
    ensures w.store.statusRequestId == Run(b, w, events).store.statusRequestId
       <==> forall e :: e in events ==> !Supersedes(e)
    decreases events
  {
    if events != [] {
      StatusTokenMoves(b, Happen(b, w, events[0]), events[1..]);
      assert events[0] in events;
      assert forall e :: e in events ==> e == events[0] || e in events[1..];
      assert forall e :: e in events[1..] ==> e in events;
    }
  }

  /** The answer to a status request is applied exactly if no other status request and no reset has
      begun since; otherwise it changes nothing. */
  lemma LatestStatusWins(b: Backend, w: World, workspace: string, events: seq<Event>, status: Status)
    requires workspace != ""
    requires var begun := Happen(b, w, StartStatus(Some(workspace)));
             Possible(b, begun, events)
    ensures var begun := Happen(b, w, StartStatus(Some(workspace)));
            var s := Run(b, begun, events).store;
            var answered := FinishStatus(b, s, begun.store.statusRequestId, status, true);
            if forall e :: e in events ==> !Supersedes(e)
            then answered == ApplyStatus(b, s, status).(isLoading := false)
            else answered == s
  {
    StatusTokenMoves(b, Happen(b, w, StartStatus(Some(workspace))), events);
  }
}
