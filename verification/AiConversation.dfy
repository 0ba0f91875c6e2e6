/**
 The conversation store (src/store/aiConversation.ts, 160-258, 263-404 and 455-494).

 At most 20 conversations with messages are kept; a new conversation is an empty thread. Every action
 writes its whole result through `replaceThreadsState`, which drops what does not belong in the list.
 The promise is an invariant of the list (`Invariant`) and that nobody's conversation is lost by
 writing to it. Titles, timestamps and scroll positions are not modelled: the actions that set them are
 `TouchThread`. Thread identifiers made by the store are fresh, and different from persisted ones.
 */
module AiConversation {
  import opened Prelude

  const HISTORY_LIMIT: nat := 20

  datatype Id = Created(n: nat) | Persisted(name: string)

  datatype StreamStatus = NoStream | Streaming | Completed | Cancelled

  datatype Message = Message(content: string, status: StreamStatus)

  datatype Thread = Thread(id: Id, messages: seq<Message>)

  datatype State = State(threads: seq<Thread>, activeThreadId: Option<Id>, nextId: nat)

  const INITIAL := State([Thread(Created(0), [])], Some(Created(0)), 1)

  // ---------------------------------------------------------------------------
  // Helpers of the store
  // ---------------------------------------------------------------------------

  predicate HasThread(threads: seq<Thread>, id: Id) {
    exists i :: 0 <= i < |threads| && threads[i].id == id
  }

  /** `threads.find((thread) => thread.id === id)`. */
  function FindThread(threads: seq<Thread>, id: Option<Id>): (found: Option<Thread>)
    ensures found.Some? ==> id == Some(found.value.id) && found.value in threads
    ensures found.Some? <==> id.Some? && HasThread(threads, id.value)
  {
    if threads == [] || id.None? then None
    else if threads[0].id == id.value then Some(threads[0])
    else
      assert forall i :: 0 < i < |threads| ==> threads[i] == threads[1..][i - 1];
      FindThread(threads[1..], id)
  }

  function NonEmpty(threads: seq<Thread>): seq<Thread> {
    if threads == [] then []
    else (if threads[0].messages != [] then [threads[0]] else []) + NonEmpty(threads[1..])
  }

  function Without(threads: seq<Thread>, id: Id): seq<Thread> {
    if threads == [] then [] else (if threads[0].id != id then [threads[0]] else []) + Without(threads[1..], id)
  }

  /** `threads.slice(-AI_CONVERSATION_HISTORY_LIMIT)`. */
  function Latest(threads: seq<Thread>): seq<Thread> {
    if |threads| <= HISTORY_LIMIT then threads else threads[|threads| - HISTORY_LIMIT..]
  }

  function TrimThreads(threads: seq<Thread>, activeThreadId: Option<Id>): seq<Thread> {
    var active := FindThread(threads, activeThreadId);
    Latest(NonEmpty(threads)) + if active.Some? && active.value.messages == [] then [active.value] else []
  }

  function EnsureActiveThread(activeThreadId: Option<Id>, threads: seq<Thread>, nextId: nat): State {
    if threads == [] then State([Thread(Created(nextId), [])], Some(Created(nextId)), nextId + 1)
    else if activeThreadId.Some? && HasThread(threads, activeThreadId.value) then State(threads, activeThreadId, nextId)
    else State(threads, Some(threads[|threads| - 1].id), nextId)
  }

  function ReplaceThreadsState(threads: seq<Thread>, activeThreadId: Option<Id>, nextId: nat): State {
    EnsureActiveThread(activeThreadId, TrimThreads(threads, activeThreadId), nextId)
  }

  type Update = seq<Message> -> seq<Message>

  function Appending(message: Message): Update {
    ms => ms + [message]
  }

  function ReplacingBy(messages: seq<Message>): Update {
    ms => messages
  }

  function Keeping(): Update {
    ms => ms
  }

  function Patched(threads: seq<Thread>, id: Id, update: Update): (patched: seq<Thread>)
    ensures |patched| == |threads|
    ensures forall i :: 0 <= i < |threads| ==> patched[i].id == threads[i].id
  {
    seq(|threads|, i requires 0 <= i < |threads| =>
      if threads[i].id == id then Thread(id, update(threads[i].messages)) else threads[i])
  }

  function PatchThread(s: State, id: Id, update: Update): State {
    if !HasThread(s.threads, id) then s
    else ReplaceThreadsState(Patched(s.threads, id, update), s.activeThreadId, s.nextId)
  }

  function StartedThread(s: State, remaining: seq<Thread>): State {
    ReplaceThreadsState(remaining + [Thread(Created(s.nextId), [])], Some(Created(s.nextId)), s.nextId + 1)
  }

  /** The state an active thread is patched in: one is started where there is none. */
  function WithActiveThread(s: State): State {
    if FindThread(s.threads, s.activeThreadId).Some? then s else StartedThread(s, s.threads)
  }

  function PatchCurrentThread(s: State, update: Update): State {
    var current := FindThread(s.threads, s.activeThreadId);
    if current.None? then s
    else ReplaceThreadsState(Patched(s.threads, current.value.id, update), Some(current.value.id), s.nextId)
  }

  function PatchActiveThread(s: State, update: Update): State {
    PatchCurrentThread(WithActiveThread(s), update)
  }

  function WithoutActive(s: State): seq<Thread> {
    var current := FindThread(s.threads, s.activeThreadId);
    if current.None? then s.threads else Without(s.threads, current.value.id)
  }

  /** The thread that becomes active when one is deleted. */
  function ActiveAfterDelete(s: State, id: Id, remaining: seq<Thread>): Option<Id> {
    if s.activeThreadId != Some(id) then s.activeThreadId
    else if remaining != [] then Some(remaining[|remaining| - 1].id) else None
  }

  function DeletedThread(s: State, id: Id): State {
    var remaining := Without(s.threads, id);
    ReplaceThreadsState(remaining, ActiveAfterDelete(s, id, remaining), s.nextId)
  }

  /** A message that was still streaming when it was saved will get no more. */
  function NormalizeMessage(message: Message): Message {
    if message.status.Streaming? then message.(status := Cancelled) else message
  }

  function NormalizeMessages(messages: seq<Message>): seq<Message> {
    seq(|messages|, i requires 0 <= i < |messages| => NormalizeMessage(messages[i]))
  }

  function NormalizeHydrated(threads: seq<Thread>): seq<Thread> {
    seq(|threads|, i requires 0 <= i < |threads| => threads[i].(messages := NormalizeMessages(threads[i].messages)))
  }

  // ---------------------------------------------------------------------------
  // Actions
  // ---------------------------------------------------------------------------

  datatype Action =
    | AppendMessage(message: Message)
    | ReplaceMessages(messages: seq<Message>)
    | ReplaceThreadMessages(threadId: Id, messages: seq<Message>)
    | SwitchThread(threadId: Id)
    | StartNewThread
    | ClearActiveThread
    | DeleteThread(threadId: Id)
    | TouchThread(threadId: Id)
    | Hydrate(threads: seq<Thread>, activeThreadId: Option<Id>)
    | HydrateLegacy(messages: seq<Message>)
    | HydrateNothing

  function Step(s: State, action: Action): State {
    match action
    case AppendMessage(message) => PatchActiveThread(s, Appending(message))
    case ReplaceMessages(messages) => PatchActiveThread(s, ReplacingBy(messages))
    case ReplaceThreadMessages(id, messages) => PatchThread(s, id, ReplacingBy(messages))
    case TouchThread(id) => PatchThread(s, id, Keeping())
    case SwitchThread(id) => if HasThread(s.threads, id) then s.(activeThreadId := Some(id)) else s
    case StartNewThread => StartedThread(s, s.threads)
    case ClearActiveThread => StartedThread(s, WithoutActive(s))
    case DeleteThread(id) =>
      if HasThread(s.threads, id) then DeletedThread(s, id) else s
    case Hydrate(threads, active) => ReplaceThreadsState(NormalizeHydrated(threads), active, s.nextId)
    case HydrateLegacy(messages) =>
      State([Thread(Created(s.nextId), NormalizeMessages(messages))], Some(Created(s.nextId)), s.nextId + 1)
    case HydrateNothing => EnsureActiveThread(None, [], s.nextId)
  }

  function Play(s: State, actions: seq<Action>): State
    decreases actions
  {
    if actions == [] then s else Play(Step(s, actions[0]), actions[1..])
  }

  // ---------------------------------------------------------------------------
  // The invariant
  // ---------------------------------------------------------------------------

  ghost predicate UniqueIds(threads: seq<Thread>) {
    forall i, j :: 0 <= i < j < |threads| ==> threads[i].id != threads[j].id
  }

  ghost predicate AllNonEmpty(threads: seq<Thread>) {
    forall i :: 0 <= i < |threads| ==> threads[i].messages != []
  }

  /** Identifiers the store has made so far. */
  ghost predicate IdsBelow(threads: seq<Thread>, nextId: nat) {
    forall i :: 0 <= i < |threads| && threads[i].id.Created? ==> threads[i].id.n < nextId
  }

  /** There is a list of different threads, one of them active; at most 20 have messages; only the last can
      be empty. */
  ghost predicate Invariant(s: State) {
    && s.threads != [] && UniqueIds(s.threads) && IdsBelow(s.threads, s.nextId)
    && s.activeThreadId.Some? && HasThread(s.threads, s.activeThreadId.value)
    && |NonEmpty(s.threads)| <= HISTORY_LIMIT
    && AllNonEmpty(s.threads[..|s.threads| - 1])
  }

  lemma {:induction false} NonEmptySubset(threads: seq<Thread>)
    ensures AllNonEmpty(NonEmpty(threads))
    ensures forall t :: t in NonEmpty(threads) <==> t in threads && t.messages != []
  {
    if threads != [] {
      NonEmptySubset(threads[1..]);
      assert threads == [threads[0]] + threads[1..];
    }
  }

  lemma {:induction false} WithoutSubset(threads: seq<Thread>, id: Id)
    ensures forall t :: t in Without(threads, id) <==> t in threads && t.id != id
  {
    if threads != [] {
      WithoutSubset(threads[1..], id);
      assert threads == [threads[0]] + threads[1..];
    }
  }

  lemma UniqueCons(t: Thread, rest: seq<Thread>)
    requires UniqueIds(rest) && forall r :: r in rest ==> r.id != t.id
    ensures UniqueIds([t] + rest)
  {
  }

  lemma UniqueTail(threads: seq<Thread>)
    requires UniqueIds(threads) && threads != []
    ensures UniqueIds(threads[1..]) && forall r :: r in threads[1..] ==> r.id != threads[0].id
  {
  }

  lemma {:induction false} NonEmptyUnique(threads: seq<Thread>)
    requires UniqueIds(threads)
    ensures UniqueIds(NonEmpty(threads))
  {
    if threads != [] {
      UniqueTail(threads);
      NonEmptyUnique(threads[1..]);
      NonEmptySubset(threads[1..]);
      if threads[0].messages != [] {
        UniqueCons(threads[0], NonEmpty(threads[1..]));
      } else {
        assert NonEmpty(threads) == NonEmpty(threads[1..]);
      }
    }
  }

  lemma {:induction false} WithoutUnique(threads: seq<Thread>, id: Id)
    requires UniqueIds(threads)
    ensures UniqueIds(Without(threads, id))
  {
    if threads != [] {
      UniqueTail(threads);
      WithoutUnique(threads[1..], id);
      WithoutSubset(threads[1..], id);
      if threads[0].id != id {
        UniqueCons(threads[0], Without(threads[1..], id));
      } else {
        assert Without(threads, id) == Without(threads[1..], id);
      }
    }
  }

  lemma {:induction false} NonEmptyConcat(a: seq<Thread>, b: seq<Thread>)
    ensures NonEmpty(a + b) == NonEmpty(a) + NonEmpty(b)
  {
    if a == [] {
      assert a + b == b;
    } else {
      assert (a + b)[1..] == a[1..] + b;
      NonEmptyConcat(a[1..], b);
    }
  }

  lemma {:induction false} NonEmptyIdentity(threads: seq<Thread>)
    requires AllNonEmpty(threads)
    ensures NonEmpty(threads) == threads
  {
    if threads != [] {
      NonEmptyIdentity(threads[1..]);
      assert threads == [threads[0]] + threads[1..];
    }
  }

  lemma NonEmptyOfLastEmpty(threads: seq<Thread>, last: Thread)
    requires AllNonEmpty(threads)
    ensures NonEmpty(threads + [last]) == threads + if last.messages != [] then [last] else []
  {
    NonEmptyConcat(threads, [last]);
    NonEmptyIdentity(threads);
    assert [last][1..] == [];
  }

  /** What a list must be for its trimmed form to satisfy the invariant: no identifier twice among the
      latest non-empty threads, and an empty active thread is not one of them. */
  ghost predicate Clean(threads: seq<Thread>, activeThreadId: Option<Id>) {
    var kept, active := Latest(NonEmpty(threads)), FindThread(threads, activeThreadId);
    && UniqueIds(kept)
    && (active.Some? && active.value.messages == [] ==> !HasThread(kept, active.value.id))
  }

  lemma TrimmedShape(threads: seq<Thread>, activeThreadId: Option<Id>)
    ensures var trimmed := TrimThreads(threads, activeThreadId);
            && (trimmed != [] ==> AllNonEmpty(trimmed[..|trimmed| - 1]))
            && |NonEmpty(trimmed)| <= HISTORY_LIMIT
            && (forall t :: t in trimmed ==> t in threads)
            && (UniqueIds(trimmed) <==> Clean(threads, activeThreadId))
  {
    var kept, active := Latest(NonEmpty(threads)), FindThread(threads, activeThreadId);
    NonEmptySubset(threads);
    assert AllNonEmpty(kept);
    if active.Some? && active.value.messages == [] {
      var trimmed := TrimThreads(threads, activeThreadId);
      assert trimmed == kept + [active.value];
      assert trimmed[..|trimmed| - 1] == kept;
      NonEmptyOfLastEmpty(kept, active.value);
      UniqueSnoc(kept, active.value);
    } else {
      assert TrimThreads(threads, activeThreadId) == kept;
      NonEmptyIdentity(kept);
    }
  }

  lemma UniqueSnoc(threads: seq<Thread>, last: Thread)
    ensures UniqueIds(threads + [last]) <==> UniqueIds(threads) && !HasThread(threads, last.id)
  {
    var all := threads + [last];
    if UniqueIds(all) {
      forall i, j | 0 <= i < j < |threads| ensures threads[i].id != threads[j].id {
        assert all[i] == threads[i] && all[j] == threads[j];
      }
      forall i | 0 <= i < |threads| ensures threads[i].id != last.id {
        assert all[i] == threads[i] && all[|threads|] == last;
      }
    }
  }

  lemma SingleThread(thread: Thread, nextId: nat)
    requires thread.id.Created? ==> thread.id.n < nextId
    ensures Invariant(State([thread], Some(thread.id), nextId))
  {
    var threads := [thread];
    assert threads[0].id == thread.id;
    assert threads[1..] == [];
  }

  lemma EnsuredInvariant(threads: seq<Thread>, activeThreadId: Option<Id>, nextId: nat)
    requires IdsBelow(threads, nextId) && |NonEmpty(threads)| <= HISTORY_LIMIT
    requires threads != [] ==> AllNonEmpty(threads[..|threads| - 1])
    ensures Invariant(EnsureActiveThread(activeThreadId, threads, nextId)) <==> UniqueIds(threads)
  {
    if threads == [] {
      SingleThread(Thread(Created(nextId), []), nextId + 1);
    } else {
      assert HasThread(threads, threads[|threads| - 1].id);
    }
  }

  /** The invariant holds after a write exactly when the list written was clean. */
  lemma ReplaceEstablishesInvariant(threads: seq<Thread>, activeThreadId: Option<Id>, nextId: nat)
    requires IdsBelow(threads, nextId)
    ensures Invariant(ReplaceThreadsState(threads, activeThreadId, nextId)) <==> Clean(threads, activeThreadId)
  {
    TrimmedShape(threads, activeThreadId);
    var trimmed := TrimThreads(threads, activeThreadId);
    forall i | 0 <= i < |trimmed| && trimmed[i].id.Created? ensures trimmed[i].id.n < nextId {
      assert trimmed[i] in threads;
    }
    EnsuredInvariant(trimmed, activeThreadId, nextId);
  }

  /** In a list of different threads, a thread is told by its identifier. */
  lemma EmptyIsNotKept(threads: seq<Thread>, active: Thread)
    requires UniqueIds(threads) && active in threads && active.messages == []
    ensures !HasThread(Latest(NonEmpty(threads)), active.id)
  {
    var kept := Latest(NonEmpty(threads));
    NonEmptySubset(threads);
    forall i | 0 <= i < |kept| ensures kept[i].id != active.id {
      var thread := kept[i];
      assert thread in NonEmpty(threads);
      DifferentThreads(threads, thread, active);
    }
  }

  lemma DifferentThreads(threads: seq<Thread>, a: Thread, b: Thread)
    requires UniqueIds(threads) && a in threads && b in threads && a != b
    ensures a.id != b.id
  {
    var i :| 0 <= i < |threads| && threads[i] == a;
    var j :| 0 <= j < |threads| && threads[j] == b;
    assert i < j || j < i;
  }

  lemma UniqueIsClean(threads: seq<Thread>, activeThreadId: Option<Id>)
    requires UniqueIds(threads)
    ensures Clean(threads, activeThreadId)
  {
    NonEmptyUnique(threads);
    var active := FindThread(threads, activeThreadId);
    if active.Some? && active.value.messages == [] {
      EmptyIsNotKept(threads, active.value);
    }
  }

  lemma SameIdSameThread(threads: seq<Thread>, a: Thread, b: Thread)
    requires UniqueIds(threads) && a in threads && b in threads && a.id == b.id
    ensures a == b
  {
  }

  lemma ReplaceKeepsInvariant(threads: seq<Thread>, activeThreadId: Option<Id>, nextId: nat)
    requires UniqueIds(threads) && IdsBelow(threads, nextId)
    ensures Invariant(ReplaceThreadsState(threads, activeThreadId, nextId))
  {
    UniqueIsClean(threads, activeThreadId);
    ReplaceEstablishesInvariant(threads, activeThreadId, nextId);
  }

  lemma FreshThread(threads: seq<Thread>, nextId: nat)
    requires UniqueIds(threads) && IdsBelow(threads, nextId)
    ensures var all := threads + [Thread(Created(nextId), [])]; UniqueIds(all) && IdsBelow(all, nextId + 1)
  {
    var added := Thread(Created(nextId), []);
    var all := threads + [added];
    UniqueSnoc(threads, added);
    forall i | 0 <= i < |all| && all[i].id.Created? ensures all[i].id.n < nextId + 1 {
      assert all[i] == if i < |threads| then threads[i] else added;
    }
  }

  lemma StartedKeepsInvariant(s: State, remaining: seq<Thread>)
    requires UniqueIds(remaining) && IdsBelow(remaining, s.nextId)
    ensures Invariant(StartedThread(s, remaining))
  {
    FreshThread(remaining, s.nextId);
    var all := remaining + [Thread(Created(s.nextId), [])];
    assert StartedThread(s, remaining) == ReplaceThreadsState(all, Some(Created(s.nextId)), s.nextId + 1);
    ReplaceKeepsInvariant(all, Some(Created(s.nextId)), s.nextId + 1);
  }

  lemma WithoutKeeps(s: State, id: Id)
    requires Invariant(s)
    ensures UniqueIds(Without(s.threads, id)) && IdsBelow(Without(s.threads, id), s.nextId)
  {
    WithoutUnique(s.threads, id);
    WithoutSubset(s.threads, id);
    var remaining := Without(s.threads, id);
    forall i | 0 <= i < |remaining| && remaining[i].id.Created? ensures remaining[i].id.n < s.nextId {
      assert remaining[i] in s.threads;
    }
  }

  /** A saved state the invariant can be rebuilt from; identifiers made in this session are not in it. */
  ghost predicate CanHydrate(action: Action, nextId: nat) {
    action.Hydrate? ==>
      Clean(NormalizeHydrated(action.threads), action.activeThreadId) && IdsBelow(action.threads, nextId)
  }

  lemma PatchKeepsInvariant(s: State, id: Id, update: Update)
    requires Invariant(s)
    ensures Invariant(PatchThread(s, id, update))
  {
    var patched := Patched(s.threads, id, update);
    PatchedKeepsIds(s, id, update);
    ReplaceKeepsInvariant(patched, s.activeThreadId, s.nextId);
  }

  lemma PatchedKeepsIds(s: State, id: Id, update: Update)
    requires Invariant(s)
    ensures UniqueIds(Patched(s.threads, id, update)) && IdsBelow(Patched(s.threads, id, update), s.nextId)
  {
  }

  lemma SwitchKeepsInvariant(s: State, id: Id)
    requires Invariant(s) && HasThread(s.threads, id)
    ensures Invariant(s.(activeThreadId := Some(id)))
  {
  }

  lemma DeleteKeepsInvariant(s: State, id: Id)
    requires Invariant(s)
    ensures Invariant(DeletedThread(s, id))
  {
    WithoutKeeps(s, id);
    var remaining := Without(s.threads, id);
    ReplaceKeepsInvariant(remaining, ActiveAfterDelete(s, id, remaining), s.nextId);
  }

  lemma ClearKeepsInvariant(s: State)
    requires Invariant(s)
    ensures Invariant(Step(s, ClearActiveThread))
  {
    WithoutKeeps(s, FindThread(s.threads, s.activeThreadId).value.id);
    StartedKeepsInvariant(s, WithoutActive(s));
  }

  predicate WritesMessages(action: Action) {
    action.AppendMessage? || action.ReplaceMessages? || action.ReplaceThreadMessages? || action.TouchThread?
  }

  predicate Hydrates(action: Action) {
    action.Hydrate? || action.HydrateLegacy? || action.HydrateNothing?
  }

  lemma WritingKeepsInvariant(s: State, action: Action)
    requires Invariant(s) && WritesMessages(action)
    ensures Invariant(Step(s, action))
  {
    match action
    case ReplaceThreadMessages(id, messages) => PatchKeepsInvariant(s, id, ReplacingBy(messages));
    case TouchThread(id) => PatchKeepsInvariant(s, id, Keeping());
    case AppendMessage(message) => PatchActiveKeepsInvariant(s, Appending(message));
    case ReplaceMessages(messages) => PatchActiveKeepsInvariant(s, ReplacingBy(messages));
  }

  lemma HydrateEstablishesInvariant(s: State, threads: seq<Thread>, active: Option<Id>)
    requires CanHydrate(Hydrate(threads, active), s.nextId)
    ensures Invariant(Step(s, Hydrate(threads, active)))
  {
    ReplaceEstablishesInvariant(NormalizeHydrated(threads), active, s.nextId);
  }

  lemma HydratingEstablishesInvariant(s: State, action: Action)
    requires Hydrates(action) && CanHydrate(action, s.nextId)
    ensures Invariant(Step(s, action))
  {
    match action
    case Hydrate(threads, active) => HydrateEstablishesInvariant(s, threads, active);
    case HydrateLegacy(messages) => SingleThread(Thread(Created(s.nextId), NormalizeMessages(messages)), s.nextId + 1);
    case HydrateNothing => SingleThread(Thread(Created(s.nextId), []), s.nextId + 1);
  }

  lemma ManagingKeepsInvariant(s: State, action: Action)
    requires Invariant(s) && !WritesMessages(action) && !Hydrates(action)
    ensures Invariant(Step(s, action))
  {
    match action
    case SwitchThread(id) =>
      if HasThread(s.threads, id) {
        SwitchKeepsInvariant(s, id);
      }
    case StartNewThread => StartedKeepsInvariant(s, s.threads);
    case ClearActiveThread => ClearKeepsInvariant(s);
    case DeleteThread(id) =>
      if HasThread(s.threads, id) {
        DeleteKeepsInvariant(s, id);
      }
  }

  lemma StepKeepsInvariant(s: State, action: Action)
    requires Invariant(s) && CanHydrate(action, s.nextId)
    ensures Invariant(Step(s, action))
  {
    if WritesMessages(action) {
      WritingKeepsInvariant(s, action);
    } else if Hydrates(action) {
      HydratingEstablishesInvariant(s, action);
    } else {
      ManagingKeepsInvariant(s, action);
    }
  }

  lemma PatchActiveKeepsInvariant(s: State, update: Update)
    requires Invariant(s)
    ensures Invariant(PatchActiveThread(s, update))
  {
    PatchedKeepsIds(s, s.activeThreadId.value, update);
    ReplaceKeepsInvariant(Patched(s.threads, s.activeThreadId.value, update), s.activeThreadId, s.nextId);
  }

  ghost predicate AllCanHydrate(s: State, actions: seq<Action>)
    decreases actions
  {
    actions != [] ==> CanHydrate(actions[0], s.nextId) && AllCanHydrate(Step(s, actions[0]), actions[1..])
  }

  /** In every reachable state. */
  lemma {:induction false} AlwaysInvariant(s: State, actions: seq<Action>)
    requires Invariant(s) && AllCanHydrate(s, actions)
    ensures Invariant(Play(s, actions))
    decreases actions
  {
    if actions != [] {
      StepKeepsInvariant(s, actions[0]);
      AlwaysInvariant(Step(s, actions[0]), actions[1..]);
    }
  }

  lemma InitialInvariant()
    ensures Invariant(INITIAL)
  {
    SingleThread(Thread(Created(0), []), 1);
  }

  /** So in every state the store can reach from its first one. */
  lemma ReachableInvariant(actions: seq<Action>)
    requires AllCanHydrate(INITIAL, actions)
    ensures Invariant(Play(INITIAL, actions))
  {
    InitialInvariant();
    AlwaysInvariant(INITIAL, actions);
  }

  // ---------------------------------------------------------------------------
  // What the actions keep
  // ---------------------------------------------------------------------------

  /** The thread at its place, and the one thread that may be empty. */
  lemma ListShape(s: State, id: Id) returns (front: seq<Thread>, last: Thread, k: nat)
    requires Invariant(s) && HasThread(s.threads, id)
    ensures s.threads == front + [last] && AllNonEmpty(front)
    ensures k < |s.threads| && s.threads[k].id == id && forall i :: 0 <= i < |s.threads| && s.threads[i].id == id ==> i == k
    ensures NonEmpty(s.threads) == front + if last.messages != [] then [last] else []
  {
    var n := |s.threads| - 1;
    front, last := s.threads[..n], s.threads[n];
    NonEmptyOfLastEmpty(front, last);
    k :| 0 <= k < |s.threads| && s.threads[k].id == id;
  }

  lemma PatchedUnique(threads: seq<Thread>, id: Id, update: Update, k: nat)
    requires k < |threads| && threads[k].id == id && forall i :: 0 <= i < |threads| && threads[i].id == id ==> i == k
    ensures Patched(threads, id, update) == threads[k := Thread(id, update(threads[k].messages))]
  {
  }

  lemma FindInUnique(threads: seq<Thread>, thread: Thread)
    requires UniqueIds(threads) && thread in threads
    ensures FindThread(threads, Some(thread.id)) == Some(thread)
  {
    SameIdSameThread(threads, FindThread(threads, Some(thread.id)).value, thread);
  }

  /** The threads that stay when the thread at k gets messages: all that had some, but for the oldest if
      that makes one too many. */
  lemma FilledThreads(s: State, id: Id, messages: seq<Message>, k: nat)
    requires Invariant(s) && messages != []
    requires k < |s.threads| && s.threads[k].id == id
    ensures var filled := s.threads[k := Thread(id, messages)];
            && Latest(NonEmpty(filled)) == (if s.threads[k].messages == [] && |NonEmpty(s.threads)| == HISTORY_LIMIT
                                            then NonEmpty(filled)[1..] else NonEmpty(filled))
            && |NonEmpty(filled)| == |NonEmpty(s.threads)| + (if s.threads[k].messages == [] then 1 else 0)
  {
    FilledCount(s.threads, k, Thread(id, messages));
  }

  lemma FilledCount(threads: seq<Thread>, k: nat, written: Thread)
    requires k < |threads| && written.messages != []
    ensures |NonEmpty(threads[k := written])| == |NonEmpty(threads)| + (if threads[k].messages == [] then 1 else 0)
  {
    var before, after := threads[..k], threads[k + 1..];
    assert threads == before + ([threads[k]] + after);
    assert threads[k := written] == before + ([written] + after);
    NonEmptyConcat(before, [threads[k]] + after);
    NonEmptyConcat(before, [written] + after);
    NonEmptyConcat([threads[k]], after);
    NonEmptyConcat([written], after);
    assert [threads[k]][1..] == [] && [written][1..] == [];
  }

  lemma StillUnique(threads: seq<Thread>, k: nat, messages: seq<Message>)
    requires UniqueIds(threads) && k < |threads|
    ensures UniqueIds(threads[k := Thread(threads[k].id, messages)])
  {
  }

  lemma LatestUnique(threads: seq<Thread>)
    requires UniqueIds(threads)
    ensures UniqueIds(Latest(threads))
  {
  }

  /** No active conversation is lost by writing to it: it stays active, with the new message at its end; of
      the others only the oldest can go, when an empty thread becomes the 21st conversation. */
  lemma AppendNeverEvictsActive(s: State, message: Message)
    requires Invariant(s)
    ensures var t := Step(s, AppendMessage(message));
            var active := FindThread(s.threads, s.activeThreadId).value;
            && t.activeThreadId == s.activeThreadId
            && FindThread(t.threads, t.activeThreadId) == Some(Thread(active.id, active.messages + [message]))
            && forall u :: u in s.threads && u.messages != [] && u.id != active.id && u !in t.threads ==>
                 u == s.threads[0] && active.messages == [] && |NonEmpty(s.threads)| == HISTORY_LIMIT
  {
    var id := s.activeThreadId.value;
    var front, last, k := ListShape(s, id);
    var active := s.threads[k];
    FindInUnique(s.threads, active);
    var written := Thread(id, active.messages + [message]);
    var filled := s.threads[k := written];
    PatchedUnique(s.threads, id, Appending(message), k);
    FilledThreads(s, id, written.messages, k);
    StillUnique(s.threads, k, written.messages);
    FindInUnique(filled, written);
    WrittenStays(s, filled, written, k);
  }

  /** The last part of the argument, on the list that was written. */
  lemma WrittenStays(s: State, filled: seq<Thread>, written: Thread, k: nat)
    requires Invariant(s) && k < |s.threads| && s.activeThreadId == Some(written.id) && s.threads[k].id == written.id
    requires written.messages != [] && filled == s.threads[k := written]
    requires UniqueIds(filled) && FindThread(filled, Some(written.id)) == Some(written)
    ensures var t := ReplaceThreadsState(filled, s.activeThreadId, s.nextId);
            && t.activeThreadId == s.activeThreadId
            && FindThread(t.threads, t.activeThreadId) == Some(written)
            && forall u :: u in s.threads && u.messages != [] && u.id != written.id && u !in t.threads ==>
                 u == s.threads[0] && s.threads[k].messages == [] && |NonEmpty(s.threads)| == HISTORY_LIMIT
  {
    NonEmptyUnique(filled);
    LatestUnique(NonEmpty(filled));
    WrittenIsLatest(s, written, k);
    forall u | u in s.threads && u.messages != [] && u.id != written.id && u !in Latest(NonEmpty(filled))
      ensures u == s.threads[0] && s.threads[k].messages == [] && |NonEmpty(s.threads)| == HISTORY_LIMIT
    {
      EvictedIsOldest(s, written, k, u);
    }
    KeptActiveIsResult(filled, written, s.nextId);
  }

  lemma KeptActiveIsResult(filled: seq<Thread>, written: Thread, nextId: nat)
    requires FindThread(filled, Some(written.id)) == Some(written) && written.messages != []
    requires written in Latest(NonEmpty(filled)) && UniqueIds(Latest(NonEmpty(filled)))
    ensures ReplaceThreadsState(filled, Some(written.id), nextId) == State(Latest(NonEmpty(filled)), Some(written.id), nextId)
    ensures FindThread(Latest(NonEmpty(filled)), Some(written.id)) == Some(written)
  {
    var kept := Latest(NonEmpty(filled));
    assert TrimThreads(filled, Some(written.id)) == kept + [] == kept;
    FindInUnique(kept, written);
  }

  /** An empty thread is the last; filled, it makes the whole list non-empty. */
  lemma FilledLast(s: State, written: Thread, k: nat)
    requires Invariant(s) && k < |s.threads| && s.threads[k].id == written.id && written.messages != []
    requires s.threads[k].messages == []
    ensures k == |s.threads| - 1 == |NonEmpty(s.threads)|
    ensures NonEmpty(s.threads[k := written]) == s.threads[k := written]
  {
    var front, last, _ := ListShape(s, written.id);
    assert k == |front|;
    assert s.threads[k := written] == front + [written];
    NonEmptyOfLastEmpty(front, written);
  }

  lemma WrittenIsLatest(s: State, written: Thread, k: nat)
    requires Invariant(s) && k < |s.threads| && s.threads[k].id == written.id && written.messages != []
    ensures written in Latest(NonEmpty(s.threads[k := written]))
  {
    var filled := s.threads[k := written];
    FilledThreads(s, written.id, written.messages, k);
    if s.threads[k].messages == [] {
      FilledLast(s, written, k);
      assert |filled| > HISTORY_LIMIT ==> filled[1..][k - 1] == written;
      assert filled[k] == written;
    } else {
      assert filled[k] == written;
      NonEmptySubset(filled);
    }
  }

  lemma InTail(threads: seq<Thread>, i: nat)
    requires 0 < i < |threads|
    ensures threads[i] in threads[1..]
  {
    assert threads[1..][i - 1] == threads[i];
  }

  lemma EvictedIsOldest(s: State, written: Thread, k: nat, u: Thread)
    requires Invariant(s) && k < |s.threads| && s.threads[k].id == written.id && written.messages != []
    requires u in s.threads && u.messages != [] && u.id != written.id && u !in Latest(NonEmpty(s.threads[k := written]))
    ensures u == s.threads[0] && s.threads[k].messages == [] && |NonEmpty(s.threads)| == HISTORY_LIMIT
  {
    var filled := s.threads[k := written];
    FilledThreads(s, written.id, written.messages, k);
    OtherIsKept(s.threads, k, written, u);
    if s.threads[k].messages == [] && |NonEmpty(s.threads)| == HISTORY_LIMIT {
      FilledLast(s, written, k);
      var i :| 0 <= i < |filled| && filled[i] == u;
      if i > 0 {
        InTail(filled, i);
      }
    }
  }

  lemma OtherIsKept(threads: seq<Thread>, k: nat, written: Thread, u: Thread)
    requires k < |threads| && threads[k].id == written.id && u in threads && u.messages != [] && u.id != written.id
    ensures u in NonEmpty(threads[k := written])
  {
    var i :| 0 <= i < |threads| && threads[i] == u;
    assert threads[k := written][i] == u;
    NonEmptySubset(threads[k := written]);
  }

  /** A new conversation costs nothing: every thread with messages is still there, in order. */
  lemma NewThreadKeepsHistory(s: State)
    requires Invariant(s)
    ensures var t := Step(s, StartNewThread);
            && t.threads == NonEmpty(s.threads) + [Thread(Created(s.nextId), [])]
            && t.activeThreadId == Some(Created(s.nextId))
  {
    var added := Thread(Created(s.nextId), []);
    var all := s.threads + [added];
    UniqueSnoc(s.threads, added);
    FindInUnique(all, added);
    NonEmptyConcat(s.threads, [added]);
    assert [added][1..] == [];
    assert NonEmpty(all) == NonEmpty(s.threads);
    var listed := NonEmpty(s.threads) + [added];
    assert listed[|listed| - 1].id == added.id;
    assert HasThread(listed, added.id);
  }

  /** Writing to another thread can take the active one away: exactly when an empty thread becomes the 21st
      conversation and the active one is the oldest. */
  lemma ReplaceOtherEvictsActiveExactly(s: State, id: Id, messages: seq<Message>)
    requires Invariant(s) && HasThread(s.threads, id) && s.activeThreadId != Some(id)
    ensures Step(s, ReplaceThreadMessages(id, messages)).activeThreadId != s.activeThreadId
       <==> && messages != [] && FindThread(s.threads, Some(id)).value.messages == []
            && |NonEmpty(s.threads)| == HISTORY_LIMIT && s.activeThreadId == Some(s.threads[0].id)
  {
    var filled, k := ReplacedThreads(s, id, messages);
    OtherStays(s, filled, k);
  }

  lemma ReplacedThreads(s: State, id: Id, messages: seq<Message>) returns (filled: seq<Thread>, k: nat)
    requires Invariant(s) && HasThread(s.threads, id)
    ensures filled == Patched(s.threads, id, ReplacingBy(messages)) && UniqueIds(filled) && |filled| == |s.threads|
    ensures k < |s.threads| && s.threads[k].id == id && FindThread(s.threads, Some(id)) == Some(s.threads[k])
    ensures filled[k] == Thread(id, messages) && filled == s.threads[k := filled[k]]
  {
    var front, last, at := ListShape(s, id);
    k := at;
    filled := s.threads[k := Thread(id, messages)];
    FindInUnique(s.threads, s.threads[k]);
    PatchedUnique(s.threads, id, ReplacingBy(messages), k);
    StillUnique(s.threads, k, messages);
  }

  /** The active thread is in the list that is written back, unless it was evicted from it. */
  lemma OtherStays(s: State, filled: seq<Thread>, k: nat)
    requires Invariant(s) && k < |s.threads| && s.activeThreadId != Some(s.threads[k].id)
    requires |filled| == |s.threads| && filled == s.threads[k := filled[k]] && filled[k].id == s.threads[k].id && UniqueIds(filled)
    ensures ReplaceThreadsState(filled, s.activeThreadId, s.nextId).activeThreadId != s.activeThreadId
       <==> && filled[k].messages != [] && s.threads[k].messages == []
            && |NonEmpty(s.threads)| == HISTORY_LIMIT && s.activeThreadId == Some(s.threads[0].id)
  {
    var j :| 0 <= j < |s.threads| && s.threads[j].id == s.activeThreadId.value;
    var active := s.threads[j];
    assert filled[j] == active;
    FindInUnique(filled, active);
    var kept := Latest(NonEmpty(filled));
    NonEmptySubset(filled);
    var trimmed := TrimThreads(filled, s.activeThreadId);
    if active.messages == [] {
      assert trimmed == kept + [active];
      assert trimmed[|trimmed| - 1] == active;
      assert HasThread(trimmed, active.id);
      EmptyActiveIsLast(s, j);
    } else {
      assert trimmed == kept;
      ActiveKeptExactly(s, filled, k, j);
      if active in kept {
        var i :| 0 <= i < |kept| && kept[i] == active;
        assert HasThread(kept, active.id);
      } else {
        KeptIdIsActive(filled, kept, active);
      }
    }
  }

  lemma EmptyActiveIsLast(s: State, j: nat)
    requires Invariant(s) && j < |s.threads| && s.threads[j].messages == []
    ensures j == |s.threads| - 1
    ensures forall i :: 0 <= i < |s.threads| && i != j ==> s.threads[i].messages != []
  {
    forall i | 0 <= i < |s.threads| - 1 ensures s.threads[i].messages != [] {
      assert s.threads[..|s.threads| - 1][i] == s.threads[i];
    }
  }

  lemma KeptIdIsActive(threads: seq<Thread>, kept: seq<Thread>, active: Thread)
    requires UniqueIds(threads) && active in threads && active !in kept && forall t :: t in kept ==> t in threads
    ensures !HasThread(kept, active.id)
  {
    if HasThread(kept, active.id) {
      var i :| 0 <= i < |kept| && kept[i].id == active.id;
      SameIdSameThread(threads, kept[i], active);
    }
  }

  lemma ActiveKeptExactly(s: State, filled: seq<Thread>, k: nat, j: nat)
    requires Invariant(s) && k < |s.threads| && j < |s.threads| && j != k && s.threads[j].messages != []
    requires |filled| == |s.threads| && filled == s.threads[k := filled[k]] && filled[k].id == s.threads[k].id && UniqueIds(filled)
    ensures s.threads[j] !in Latest(NonEmpty(filled))
       <==> filled[k].messages != [] && s.threads[k].messages == [] && |NonEmpty(s.threads)| == HISTORY_LIMIT && j == 0
  {
    assert filled[j] == s.threads[j];
    NonEmptySubset(filled);
    assert s.threads[j] in NonEmpty(filled);
    if filled[k].messages == [] {
      EmptiedIsShorter(s.threads, k, filled[k]);
    } else {
      FilledThreads(s, filled[k].id, filled[k].messages, k);
      if s.threads[k].messages == [] {
        FilledLast(s, filled[k], k);
        FirstIsDropped(filled, j);
      }
    }
  }

  /** Without its first thread, a list of different ones lacks exactly that one. */
  lemma FirstIsDropped(threads: seq<Thread>, j: nat)
    requires UniqueIds(threads) && j < |threads|
    ensures threads[j] !in threads[1..] <==> j == 0
  {
    if j > 0 {
      InTail(threads, j);
    } else {
      UniqueTail(threads);
    }
  }

  lemma EmptiedIsShorter(threads: seq<Thread>, k: nat, emptied: Thread)
    requires k < |threads| && emptied.messages == []
    ensures |NonEmpty(threads[k := emptied])| <= |NonEmpty(threads)|
  {
    var before, after := threads[..k], threads[k + 1..];
    assert threads == before + ([threads[k]] + after);
    assert threads[k := emptied] == before + ([emptied] + after);
    NonEmptyConcat(before, [threads[k]] + after);
    NonEmptyConcat(before, [emptied] + after);
    NonEmptyConcat([threads[k]], after);
    NonEmptyConcat([emptied], after);
  }

  // ---------------------------------------------------------------------------
  // It happens
  // ---------------------------------------------------------------------------

  const HELLO := Message("hello", NoStream)

  /** n conversations of one message, the oldest first. */
  function Conversations(n: nat): (threads: seq<Thread>)
    ensures |threads| == n && forall i :: 0 <= i < n ==> threads[i] == Thread(Created(i), [HELLO])
  {
    seq(n, i requires 0 <= i < n => Thread(Created(i), [HELLO]))
  }

  /** Writing to the empty thread and starting another, n times. */
  function Filling(n: nat): seq<Action> {
    if n == 0 then [] else Filling(n - 1) + [AppendMessage(HELLO), StartNewThread]
  }

  /** n conversations and an empty active thread. */
  function Filled(n: nat): State {
    State(Conversations(n) + [Thread(Created(n), [])], Some(Created(n)), n + 1)
  }

  lemma FilledInvariant(n: nat)
    requires n <= HISTORY_LIMIT
    ensures Invariant(Filled(n))
  {
    var threads := Filled(n).threads;
    assert threads[n].id == Created(n);
    assert threads[..n] == Conversations(n);
    NonEmptyOfLastEmpty(Conversations(n), Thread(Created(n), []));
  }

  lemma FillPatches(n: nat)
    ensures Patched(Filled(n).threads, Created(n), Appending(HELLO)) == Conversations(n + 1)
  {
    var threads := Filled(n).threads;
    var patched := Patched(threads, Created(n), Appending(HELLO));
    assert [] + [HELLO] == [HELLO];
    forall i | 0 <= i <= n ensures patched[i] == Thread(Created(i), [HELLO]) {
      assert threads[i] == if i < n then Thread(Created(i), [HELLO]) else Thread(Created(n), []);
    }
  }

  lemma AppendReplaces(s: State, message: Message, active: Thread)
    requires FindThread(s.threads, s.activeThreadId) == Some(active)
    ensures Step(s, AppendMessage(message))
         == ReplaceThreadsState(Patched(s.threads, active.id, Appending(message)), Some(active.id), s.nextId)
  {
    assert WithActiveThread(s) == s;
  }

  lemma FilledActive(n: nat)
    requires n <= HISTORY_LIMIT
    ensures FindThread(Filled(n).threads, Filled(n).activeThreadId) == Some(Thread(Created(n), []))
  {
    var threads := Filled(n).threads;
    FilledInvariant(n);
    assert threads[n] == Thread(Created(n), []);
    FindInUnique(threads, threads[n]);
  }

  lemma ConversationsWritten(n: nat)
    requires n < HISTORY_LIMIT
    ensures ReplaceThreadsState(Conversations(n + 1), Some(Created(n)), n + 1)
         == State(Conversations(n + 1), Some(Created(n)), n + 1)
  {
    var written, all := Thread(Created(n), [HELLO]), Conversations(n + 1);
    ConversationsInvariant(n + 1);
    NonEmptyIdentity(all);
    assert all[n] == written;
    FindInUnique(all, written);
    KeptActiveIsResult(all, written, n + 1);
  }

  lemma FillWrites(n: nat)
    requires n < HISTORY_LIMIT
    ensures Step(Filled(n), AppendMessage(HELLO)) == State(Conversations(n + 1), Some(Created(n)), n + 1)
  {
    FilledActive(n);
    AppendReplaces(Filled(n), HELLO, Thread(Created(n), []));
    FillPatches(n);
    ConversationsWritten(n);
  }

  lemma ConversationsInvariant(n: nat)
    requires 0 < n <= HISTORY_LIMIT
    ensures Invariant(State(Conversations(n), Some(Created(n - 1)), n))
  {
    var all := Conversations(n);
    assert all[n - 1].id == Created(n - 1);
    NonEmptyIdentity(all);
  }

  lemma FillOne(n: nat)
    requires n < HISTORY_LIMIT
    ensures Step(Step(Filled(n), AppendMessage(HELLO)), StartNewThread) == Filled(n + 1)
  {
    var t := State(Conversations(n + 1), Some(Created(n)), n + 1);
    FillWrites(n);
    ConversationsInvariant(n + 1);
    NewThreadKeepsHistory(t);
    NonEmptyIdentity(t.threads);
    StartedNextId(t);
  }

  lemma StartedNextId(s: State)
    requires Invariant(s)
    ensures Step(s, StartNewThread).nextId == s.nextId + 1
  {
    NewThreadKeepsHistory(s);
  }

  lemma {:induction false} PlayConcat(s: State, a: seq<Action>, b: seq<Action>)
    ensures Play(s, a + b) == Play(Play(s, a), b)
    decreases a
  {
    if a == [] {
      assert a + b == b;
    } else {
      assert (a + b)[1..] == a[1..] + b;
      PlayConcat(Step(s, a[0]), a[1..], b);
    }
  }

  lemma PlayTwo(s: State, a: Action, b: Action)
    ensures Play(s, [a, b]) == Step(Step(s, a), b)
  {
    assert [a, b][1..] == [b] && [b][1..] == [];
    assert Play(Step(s, a), [b]) == Play(Step(Step(s, a), b), []);
  }

  lemma {:induction false} FillingFills(n: nat)
    requires n <= HISTORY_LIMIT
    ensures Play(INITIAL, Filling(n)) == Filled(n)
  {
    if n == 0 {
      assert Conversations(0) + [Thread(Created(0), [])] == [Thread(Created(0), [])];
    } else {
      FillingFills(n - 1);
      PlayConcat(INITIAL, Filling(n - 1), [AppendMessage(HELLO), StartNewThread]);
      PlayTwo(Filled(n - 1), AppendMessage(HELLO), StartNewThread);
      FillOne(n - 1);
    }
  }

  /** 20 conversations, the oldest of which was opened again, and an empty thread. */
  function Reopened(): State {
    Filled(HISTORY_LIMIT).(activeThreadId := Some(Created(0)))
  }

  lemma ReopenedInvariant()
    ensures Invariant(Reopened())
  {
    var full := Filled(HISTORY_LIMIT);
    FilledInvariant(HISTORY_LIMIT);
    assert full.threads[0].id == Created(0);
    SwitchKeepsInvariant(full, Created(0));
  }

  lemma ReopenedIsFull()
    ensures var s := Reopened();
            |NonEmpty(s.threads)| == HISTORY_LIMIT && s.activeThreadId == Some(s.threads[0].id)
  {
    NonEmptyOfLastEmpty(Conversations(HISTORY_LIMIT), Thread(Created(HISTORY_LIMIT), []));
  }

  lemma ReopenedHasEmpty()
    ensures HasThread(Reopened().threads, Created(HISTORY_LIMIT))
    ensures FindThread(Reopened().threads, Some(Created(HISTORY_LIMIT))) == Some(Thread(Created(HISTORY_LIMIT), []))
  {
    ReopenedInvariant();
    var threads := Reopened().threads;
    assert threads[HISTORY_LIMIT] == Thread(Created(HISTORY_LIMIT), []);
    FindInUnique(threads, threads[HISTORY_LIMIT]);
  }

  lemma ReopenedIsReached()
    ensures Play(INITIAL, Filling(HISTORY_LIMIT) + [SwitchThread(Created(0))]) == Reopened()
  {
    var full := Filled(HISTORY_LIMIT);
    FillingFills(HISTORY_LIMIT);
    PlayConcat(INITIAL, Filling(HISTORY_LIMIT), [SwitchThread(Created(0))]);
    assert full.threads[0].id == Created(0);
    assert [SwitchThread(Created(0))][1..] == [];
    assert Play(Reopened(), []) == Reopened();
  }

  lemma ReopenedLosesActive()
    ensures Step(Reopened(), ReplaceThreadMessages(Created(HISTORY_LIMIT), [HELLO])).activeThreadId != Some(Created(0))
  {
    ReopenedInvariant();
    ReopenedIsFull();
    ReopenedHasEmpty();
    ReplaceOtherEvictsActiveExactly(Reopened(), Created(HISTORY_LIMIT), [HELLO]);
  }

  /** A run that loses the active conversation: 20 of them, the oldest is opened again, and the empty thread
      gets messages. */
  lemma ActiveIsEvictedHappens()
    ensures var opening := Filling(HISTORY_LIMIT) + [SwitchThread(Created(0))];
            && Play(INITIAL, opening).activeThreadId == Some(Created(0))
            && Play(INITIAL, opening + [ReplaceThreadMessages(Created(HISTORY_LIMIT), [HELLO])]).activeThreadId
               != Some(Created(0))
  {
    var opening, last := Filling(HISTORY_LIMIT) + [SwitchThread(Created(0))], ReplaceThreadMessages(Created(HISTORY_LIMIT), [HELLO]);
    ReopenedIsReached();
    ReopenedLosesActive();
    PlayConcat(INITIAL, opening, [last]);
    assert [last][1..] == [];
    assert Play(Step(Reopened(), last), []) == Step(Reopened(), last);
  }

  /** A saved state in which an identifier is repeated breaks the invariant. */
  lemma RepeatedIdBreaksInvariant()
    ensures var saved := [Thread(Persisted("t"), [HELLO]), Thread(Persisted("t"), [HELLO, HELLO])];
            !Invariant(Play(INITIAL, [Hydrate(saved, Some(Persisted("t")))]))
  {
    var saved := [Thread(Persisted("t"), [HELLO]), Thread(Persisted("t"), [HELLO, HELLO])];
    var threads, hydrate := NormalizeHydrated(saved), Hydrate(saved, Some(Persisted("t")));
    assert [hydrate][1..] == [];
    assert Play(INITIAL, [hydrate]) == ReplaceThreadsState(threads, Some(Persisted("t")), 1);
    NonEmptyIdentity(threads);
    assert threads[0].id == threads[1].id;
    ReplaceEstablishesInvariant(threads, Some(Persisted("t")), 1);
  }

  // ---------------------------------------------------------------------------
  // The store
  // ---------------------------------------------------------------------------

  class AiConversationStore {
    var threads: seq<Thread>
    var activeThreadId: Option<Id>
    var nextId: nat

    ghost function View(): State
      reads this
    {
      State(threads, activeThreadId, nextId)
    }

    constructor ()
      ensures View() == INITIAL
    {
      threads, activeThreadId, nextId := [Thread(Created(0), [])], Some(Created(0)), 1;
    }

    method CreateThread() returns (thread: Thread)
      modifies this
      ensures thread == Thread(Created(old(nextId)), []) && View() == old(View()).(nextId := old(nextId) + 1)
    {
      thread := Thread(Created(nextId), []);
      nextId := nextId + 1;
    }

    method SetThreads(nextThreads: seq<Thread>, nextActive: Option<Id>)
      modifies this
      ensures View() == ReplaceThreadsState(nextThreads, nextActive, old(nextId))
    {
      var state := ReplaceThreadsState(nextThreads, nextActive, nextId);
      threads, activeThreadId, nextId := state.threads, state.activeThreadId, state.nextId;
    }

    method PatchActive(update: Update)
      modifies this
      ensures View() == PatchActiveThread(old(View()), update)
    {
      if FindThread(threads, activeThreadId).None? {
        StartAfter(threads);
      }
      assert View() == WithActiveThread(old(View()));
      PatchCurrent(update);
    }

    method PatchCurrent(update: Update)
      modifies this
      ensures View() == PatchCurrentThread(old(View()), update)
    {
      var current := FindThread(threads, activeThreadId);
      if current.None? {
        return;
      }
      SetThreads(Patched(threads, current.value.id, update), Some(current.value.id));
    }

    method Patch(threadId: Id, update: Update)
      modifies this
      ensures View() == PatchThread(old(View()), threadId, update)
    {
      if !HasThread(threads, threadId) {
        return;
      }
      SetThreads(Patched(threads, threadId, update), activeThreadId);
    }

    /** A new empty thread after the ones that remain, and active. */
    method StartAfter(remaining: seq<Thread>)
      modifies this
      ensures View() == StartedThread(old(View()), remaining)
    {
      var nextThread := CreateThread();
      SetThreads(remaining + [nextThread], Some(nextThread.id));
    }

    method StartThread()
      modifies this
      ensures View() == Step(old(View()), StartNewThread)
    {
      StartAfter(threads);
    }

    method ClearActive()
      modifies this
      ensures View() == Step(old(View()), ClearActiveThread)
    {
      var remaining := Others();
      StartAfter(remaining);
    }

    /** The threads but for the active one. */
    method Others() returns (remaining: seq<Thread>)
      ensures remaining == WithoutActive(View())
    {
      var current := FindThread(threads, activeThreadId);
      remaining := if current.None? then threads else Without(threads, current.value.id);
    }

    method Switch(threadId: Id)
      modifies this
      ensures View() == Step(old(View()), SwitchThread(threadId))
    {
      if !HasThread(threads, threadId) {
        return;
      }
      activeThreadId := Some(threadId);
    }

    method Delete(threadId: Id) returns (deleted: bool)
      modifies this
      ensures View() == Step(old(View()), DeleteThread(threadId)) && deleted == HasThread(old(threads), threadId)
    {
      if !HasThread(threads, threadId) {
        return false;
      }
      var remaining := Without(threads, threadId);
      SetThreads(remaining, ActiveAfterDelete(State(threads, activeThreadId, nextId), threadId, remaining));
      deleted := true;
    }

    method Append(message: Message)
      modifies this
      ensures View() == Step(old(View()), AppendMessage(message))
    {
      PatchActive(Appending(message));
    }

    method Replace(messages: seq<Message>)
      modifies this
      ensures View() == Step(old(View()), ReplaceMessages(messages))
    {
      PatchActive(ReplacingBy(messages));
    }

    method ReplaceIn(threadId: Id, messages: seq<Message>)
      modifies this
      ensures View() == Step(old(View()), ReplaceThreadMessages(threadId, messages))
    {
      Patch(threadId, ReplacingBy(messages));
    }

    /** `afterHydrate` with a saved state of the current form. */
    method HydrateFrom(savedThreads: seq<Thread>, savedActive: Option<Id>)
      modifies this
      ensures View() == Step(old(View()), Hydrate(savedThreads, savedActive))
    {
      SetThreads(NormalizeHydrated(savedThreads), savedActive);
    }

    /** `afterHydrate` with a saved state of the old form, a single list of messages. */
    method HydrateFromLegacy(messages: seq<Message>)
      modifies this
      ensures View() == Step(old(View()), HydrateLegacy(messages))
    {
      var thread := CreateThread();
      threads := [thread.(messages := NormalizeMessages(messages))];
      activeThreadId := Some(thread.id);
    }
  }
}
