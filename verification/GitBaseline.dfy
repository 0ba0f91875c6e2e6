/**
 The file-baseline cache of the git store (src/store/git.ts, 144-147 and 186-226), on values.

 Concurrent fetches of one file share a request. A fetch remembers the cache epoch of the moment it
 was issued, and its answer is cached only if the epoch is still the same; clearing the cache, or
 invalidating a file that is cached or being fetched, moves the epoch on. A promise is two steps: the
 answer's `then`, and, later, the `finally` that forgets the request.
 */
module GitBaseline {
  import opened Prelude

  /** An answer of the backend, with the request that fetched it. */
  datatype Baseline = Baseline(request: nat, content: string)

  datatype Cache = Cache(entries: map<string, Baseline>, epoch: nat, pending: map<string, nat>)

  datatype Answer = Cached(baseline: Baseline) | Shared(request: nat) | Issued(request: nat)

  const EMPTY := Cache(map[], 0, map[])

  function Clear(c: Cache): Cache {
    c.(entries := map[], epoch := c.epoch + 1)
  }

  /** An empty key is ignored, as is a file that is neither cached nor being fetched. */
  function Invalidate(c: Cache, key: string): Cache {
    if key == "" || (key !in c.entries && key !in c.pending) then c
    else c.(entries := c.entries - {key}, epoch := c.epoch + 1)
  }

  /** `getFileBaseline`; a request it has to issue is numbered `number`. */
  function Get(c: Cache, key: string, number: nat): (Answer, Cache) {
    if key in c.entries then (Cached(c.entries[key]), c)
    else if key in c.pending then (Shared(c.pending[key]), c)
    else (Issued(number), c.(pending := c.pending[key := number]))
  }

  function Arrive(c: Cache, key: string, epochAtRequest: nat, baseline: Baseline): Cache {
    if epochAtRequest == c.epoch then c.(entries := c.entries[key := baseline]) else c
  }

  function Forget(c: Cache, key: string): Cache {
    c.(pending := c.pending - {key})
  }

  // ---------------------------------------------------------------------------
  // All interleavings
  // ---------------------------------------------------------------------------

  /** A request on its way: `landed` between its answer and its `finally`. */
  datatype Flight = Flight(key: string, epochAtRequest: nat, landed: bool)

  datatype World = World(cache: Cache, flights: map<nat, Flight>)

  datatype Event =
    | Ask(key: string)
    | Answered(request: nat, content: string)
    | Rejected(request: nat)
    | Settled(request: nat)
    | InvalidateFile(key: string)
    | ClearAll

  predicate Enabled(w: World, e: Event) {
    match e
    case Answered(r, _) => r in w.flights && !w.flights[r].landed
    case Rejected(r) => r in w.flights && !w.flights[r].landed
    case Settled(r) => r in w.flights && w.flights[r].landed
    case _ => true
  }

  /** The event at time `now`; a request is numbered by the time it is issued. */
  function Happen(w: World, e: Event, now: nat): World
    requires Enabled(w, e)
  {
    match e
    case Ask(key) =>
      var (answer, cache) := Get(w.cache, key, now);
      World(cache, if answer.Issued? then w.flights[now := Flight(key, w.cache.epoch, false)] else w.flights)
    case Answered(r, content) =>
      var f := w.flights[r];
      World(Arrive(w.cache, f.key, f.epochAtRequest, Baseline(r, content)), w.flights[r := f.(landed := true)])
    case Rejected(r) => w.(flights := w.flights[r := w.flights[r].(landed := true)])
    case Settled(r) => World(Forget(w.cache, w.flights[r].key), w.flights - {r})
    case InvalidateFile(key) => w.(cache := Invalidate(w.cache, key))
    case ClearAll => w.(cache := Clear(w.cache))
  }

  predicate Possible(trace: seq<Event>)
    decreases |trace|, 0
  {
    trace == [] ||
    var before := trace[..|trace| - 1];
    Possible(before) && Enabled(After(before), trace[|trace| - 1])
  }

  function After(trace: seq<Event>): World
    requires Possible(trace)
    decreases |trace|, 1
  {
    if trace == [] then World(EMPTY, map[])
    else
      var before := trace[..|trace| - 1];
      Happen(After(before), trace[|trace| - 1], |before|)
  }

  /** The event makes what was fetched before it for `key` out of date. */
  predicate Outdates(e: Event, key: string) {
    e.ClearAll? || (e == InvalidateFile(key) && key != "")
  }

  /** Issued at time `r`, and not out of date since. */
  ghost predicate FreshSince(trace: seq<Event>, r: nat, key: string) {
    && r < |trace| && trace[r] == Ask(key)
    && forall j :: r < j < |trace| ==> !Outdates(trace[j], key)
  }

  /** The requests on their way are exactly the pending ones, one for each key. */
  ghost predicate OnePerKey(w: World) {
    && (forall r :: r in w.flights ==> w.flights[r].key in w.cache.pending && w.cache.pending[w.flights[r].key] == r)
    && (forall k :: k in w.cache.pending ==> w.cache.pending[k] in w.flights && w.flights[w.cache.pending[k]].key == k)
  }

  ghost predicate Sound(trace: seq<Event>, w: World) {
    && OnePerKey(w)
    && (forall r :: r in w.flights ==>
          r < |trace| && trace[r] == Ask(w.flights[r].key) && w.flights[r].epochAtRequest <= w.cache.epoch)
    && (forall r :: r in w.flights && w.flights[r].epochAtRequest == w.cache.epoch ==>
          FreshSince(trace, r, w.flights[r].key))
    && (forall k :: k in w.cache.entries ==> FreshSince(trace, w.cache.entries[k].request, k))
  }

  lemma FreshStep(trace: seq<Event>, e: Event, r: nat, key: string)
    requires FreshSince(trace, r, key) && !Outdates(e, key)
    ensures FreshSince(trace + [e], r, key)
  {}

  lemma KeepsOnePerKey(trace: seq<Event>, w: World, e: Event)
    requires Sound(trace, w) && Enabled(w, e)
    ensures OnePerKey(Happen(w, e, |trace|))
  {
    match e
    case Settled(r) =>
      var key := w.flights[r].key;
      assert forall q :: q in w.flights && q != r ==> w.flights[q].key != key;
    case _ =>
  }

  lemma KeepsFlights(trace: seq<Event>, w: World, e: Event, r: nat)
    requires Sound(trace, w) && Enabled(w, e) && r in Happen(w, e, |trace|).flights
    ensures var w' := Happen(w, e, |trace|);
            var f := w'.flights[r];
            && r <= |trace| && (trace + [e])[r] == Ask(f.key) && f.epochAtRequest <= w'.cache.epoch
            && (f.epochAtRequest == w'.cache.epoch ==> FreshSince(trace + [e], r, f.key))
  {
    var w' := Happen(w, e, |trace|);
    if r in w.flights && w'.flights[r].epochAtRequest == w'.cache.epoch {
      FreshStep(trace, e, r, w.flights[r].key);
    }
  }

  lemma KeepsEntries(trace: seq<Event>, w: World, e: Event, k: string)
    requires Sound(trace, w) && Enabled(w, e) && k in Happen(w, e, |trace|).cache.entries
    ensures FreshSince(trace + [e], Happen(w, e, |trace|).cache.entries[k].request, k)
  {
    var w' := Happen(w, e, |trace|);
    if k in w.cache.entries && w'.cache.entries[k] == w.cache.entries[k] {
      FreshStep(trace, e, w.cache.entries[k].request, k);
    } else {
      NewEntry(w, e, |trace|, k);
      FreshStep(trace, e, e.request, k);
    }
  }

  /** Only an answer brings an entry, and only in the epoch of its request. */
  lemma NewEntry(w: World, e: Event, now: nat, k: string)
    requires Enabled(w, e) && k in Happen(w, e, now).cache.entries
    requires k in w.cache.entries ==> Happen(w, e, now).cache.entries[k] != w.cache.entries[k]
    ensures e.Answered? && w.flights[e.request].key == k && w.flights[e.request].epochAtRequest == w.cache.epoch
    ensures Happen(w, e, now).cache.entries[k].request == e.request
  {}

  lemma HappenKeepsSound(trace: seq<Event>, w: World, e: Event)
    requires Sound(trace, w) && Enabled(w, e)
    ensures Sound(trace + [e], Happen(w, e, |trace|))
  {
    KeepsOnePerKey(trace, w, e);
    var w' := Happen(w, e, |trace|);
    forall r | r in w'.flights
      ensures r <= |trace| && (trace + [e])[r] == Ask(w'.flights[r].key)
              && w'.flights[r].epochAtRequest <= w'.cache.epoch
      ensures w'.flights[r].epochAtRequest == w'.cache.epoch ==> FreshSince(trace + [e], r, w'.flights[r].key)
    {
      KeepsFlights(trace, w, e, r);
    }
    forall k | k in w'.cache.entries ensures FreshSince(trace + [e], w'.cache.entries[k].request, k) {
      KeepsEntries(trace, w, e, k);
    }
  }

  lemma {:induction false} AlwaysSound(trace: seq<Event>)
    requires Possible(trace)
    ensures Sound(trace, After(trace))
  {
    if trace != [] {
      var before := trace[..|trace| - 1];
      AlwaysSound(before);
      assert before + [trace[|trace| - 1]] == trace;
      HappenKeepsSound(before, After(before), trace[|trace| - 1]);
    }
  }

  /** Whatever the order of fetches, answers, invalidations and clears: what is cached for a file was
      fetched for that file by a request issued after its last invalidation and after the last clear. */
  lemma CachedIsFresh(trace: seq<Event>, key: string)
    requires Possible(trace) && key in After(trace).cache.entries
    ensures FreshSince(trace, After(trace).cache.entries[key].request, key)
  {
    AlwaysSound(trace);
  }

  lemma OneRequestPerFile(trace: seq<Event>, r1: nat, r2: nat)
    requires Possible(trace) && r1 in After(trace).flights && r2 in After(trace).flights
    requires After(trace).flights[r1].key == After(trace).flights[r2].key
    ensures r1 == r2
  {
    AlwaysSound(trace);
  }

  /** What the cache does not promise: a caller that asks during a fetch shares it, even if the cache
      has been cleared since it was issued. Its answer is then handed out but never cached. */
  lemma SharedFetchMayBeOutdated(key: string, content: string)
    ensures var trace := [Ask(key), ClearAll];
            && Possible(trace) && Get(After(trace).cache, key, 2).0 == Shared(0)
            && Possible(trace + [Answered(0, content)])
            && key !in After(trace + [Answered(0, content)]).cache.entries
  {
    var t1 := [Ask(key)];
    var t2 := [Ask(key), ClearAll];
    var t3 := t2 + [Answered(0, content)];
    assert t1[..0] == [] && t2[..1] == t1 && t3[..2] == t2;
    assert Possible(t1) && After(t1) == World(Cache(map[], 0, map[key := 0]), map[0 := Flight(key, 0, false)]);
    assert Possible(t2) && After(t2) == World(Cache(map[], 1, map[key := 0]), map[0 := Flight(key, 0, false)]);
    assert Possible(t3) && After(t3).cache == After(t2).cache;
  }
}
