/**
 * The cache of promised work with expiring entries, as a state machine over the calls of its clients, the
 * firing of its garbage collection timeouts and the settling of its promises
 * (common/lib/common-utils/src/promiseCache.ts).
 */
module PromiseCache {
  import opened EventLoop
  import opened Options

  type Key = string

  datatype Policy = Indefinite | Absolute(durationMs: int) | Sliding(durationMs: int)

  /** A timeout that will clean up a key. */
  datatype Armed = Armed(due: int, key: Key)

  /**
   * Promises are numbered in the order in which their work started; `keyOf` tells under which key.
   * `live` holds the timeouts that have been set and neither cleared nor fired.
   */
  datatype State = State(
    now: int, live: map<nat, Armed>, nextId: nat,
    cache: map<Key, nat>, gcTimeouts: map<Key, nat>, keyOf: seq<Key>)

  const EMPTY := State(0, map[], 0, map[], map[], [])

  // ---------- The garbage collector ----------

  function Scheduled(p: Policy, s: State, key: Key): State {
    if p.Indefinite? then s
    else s.(live := s.live[s.nextId := Armed(s.now + p.durationMs, key)], nextId := s.nextId + 1,
            gcTimeouts := s.gcTimeouts[key := s.nextId])
  }

  function Cancelled(s: State, key: Key): State {
    if key in s.gcTimeouts then s.(live := s.live - {s.gcTimeouts[key]}, gcTimeouts := s.gcTimeouts - {key}) else s
  }

  function Updated(p: Policy, s: State, key: Key): State {
    if p.Sliding? then Scheduled(p, Cancelled(s, key), key) else s
  }

  // ---------- The cache ----------

  function Gotten(p: Policy, s: State, key: Key): State {
    if key in s.cache then Updated(p, s, key) else s
  }

  function Removed(s: State, key: Key): State {
    var c := Cancelled(s, key);
    c.(cache := c.cache - {key})
  }

  /** The work starts only when the key is absent. */
  function AddedOrGotten(p: Policy, s: State, key: Key): State {
    var g := Gotten(p, s, key);
    if key in g.cache then g
    else Scheduled(p, g.(cache := g.cache[key := |g.keyOf|], keyOf := g.keyOf + [key]), key)
  }

  /** The callback cleans the key up, which cancels its timeout, and cancels it once more. */
  function Fired(s: State, id: nat): State
    requires id in s.live
  {
    var key := s.live[id].key;
    Cancelled(Removed(s.(live := s.live - {id}), key), key)
  }

  // ---------- Steps ----------

  datatype Event =
    | Get(key: Key)
    | AddOrGet(key: Key)
    | Remove(key: Key)
    | Tick(to: int)
    | Fire(timeout: nat)
    | Reject(promise: nat, removeOnError: bool)

  predicate Enabled(s: State, e: Event) {
    match e
    case Tick(to) => s.now <= to
    case Fire(id) => id in s.live && s.live[id].due <= s.now
    case Reject(promise, _) => promise < |s.keyOf|
    case _ => true
  }

  function Step(p: Policy, s: State, e: Event): State
    requires Enabled(s, e)
  {
    match e
    case Get(key) => Gotten(p, s, key)
    case AddOrGet(key) => AddedOrGotten(p, s, key)
    case Remove(key) => Removed(s, key)
    case Tick(to) => s.(now := to)
    case Fire(id) => Fired(s, id)
    case Reject(promise, removes) => if removes then Removed(s, s.keyOf[promise]) else s
  }

  // ---------- Residences ----------

  /** How long an entry has been in the cache: its promise, when it came and when it was last asked for. */
  datatype Residence = Residence(promise: nat, inserted: int, lastHit: int)

  type Residents = map<Key, Residence>

  function Deadline(p: Policy, r: Residence): int
    requires !p.Indefinite?
  {
    if p.Absolute? then r.inserted + p.durationMs else r.lastHit + p.durationMs
  }

  function Hit(h: Residents, key: Key, now: int): Residents {
    if key in h then h[key := h[key].(lastHit := now)] else h
  }

  function Follow(s: State, h: Residents, e: Event): Residents
    requires Enabled(s, e)
  {
    match e
    case Get(key) => Hit(h, key, s.now)
    case AddOrGet(key) => if key in h then Hit(h, key, s.now) else h[key := Residence(|s.keyOf|, s.now, s.now)]
    case Remove(key) => h - {key}
    case Tick(_) => h
    case Fire(id) => h - {s.live[id].key}
    case Reject(promise, removes) => if removes then h - {s.keyOf[promise]} else h
  }

  // ---------- The invariant ----------

  /** One live timeout for each cached key, due at the deadline of the key's present residence. */
  predicate OneTimeoutEach(p: Policy, s: State, h: Residents) {
    if p.Indefinite? then s.live == map[] && s.gcTimeouts == map[]
    else
      && s.gcTimeouts.Keys == h.Keys
      && (forall key :: key in s.gcTimeouts ==>
            s.gcTimeouts[key] in s.live && s.live[s.gcTimeouts[key]] == Armed(Deadline(p, h[key]), key))
      && (forall id :: id in s.live ==>
        id < s.nextId && s.live[id].key in s.gcTimeouts && s.gcTimeouts[s.live[id].key] == id)
  }

  /** The cache holds for each key the promise whose work started when the residence began. */
  predicate Holds(s: State, h: Residents) {
    && s.cache.Keys == h.Keys
    && forall key :: key in h ==>
      s.cache[key] == h[key].promise && h[key].promise < |s.keyOf| && s.keyOf[h[key].promise] == key
  }

  predicate Implements(p: Policy, s: State, h: Residents) {
    OneTimeoutEach(p, s, h) && Holds(s, h)
  }

  lemma EmptyImplements(p: Policy)
    ensures Implements(p, EMPTY, map[])
  {
  }

  lemma CancelKeeps(p: Policy, s: State, h: Residents, key: Key)
    requires OneTimeoutEach(p, s, h)
    ensures OneTimeoutEach(p, Cancelled(s, key), h - {key})
  {
  }

  lemma ScheduleKeeps(p: Policy, s: State, h: Residents, key: Key, r: Residence)
    requires OneTimeoutEach(p, s, h) && key !in h && (p.Absolute? ==> r.inserted == s.now) && r.lastHit == s.now
    ensures OneTimeoutEach(p, Scheduled(p, s, key), h[key := r])
  {
  }

  lemma GetImplements(p: Policy, s: State, h: Residents, key: Key)
    requires Implements(p, s, h)
    ensures Implements(p, Gotten(p, s, key), Hit(h, key, s.now))
  {
    hide Scheduled, Cancelled, OneTimeoutEach;
    SameCache(p, s, key);
    if key in h {
      if p.Sliding? {
        CancelKeeps(p, s, h, key);
        ScheduleKeeps(p, Cancelled(s, key), h - {key}, key, h[key].(lastHit := s.now));
        assert (h - {key})[key := h[key].(lastHit := s.now)] == Hit(h, key, s.now);
      } else {
        SameDeadlines(p, s, h, Hit(h, key, s.now));
      }
    }
  }

  /** The garbage collector touches neither the cache nor the clock. */
  lemma SameCache(p: Policy, s: State, key: Key)
    ensures var c := Cancelled(s, key); c.cache == s.cache && c.now == s.now && c.keyOf == s.keyOf
    ensures var c := Scheduled(p, s, key); c.cache == s.cache && c.now == s.now && c.keyOf == s.keyOf
    ensures var c := Scheduled(p, Cancelled(s, key), key); c.cache == s.cache && c.now == s.now && c.keyOf == s.keyOf
  {
  }

  lemma SameDeadlines(p: Policy, s: State, h: Residents, h': Residents)
    requires OneTimeoutEach(p, s, h) && h'.Keys == h.Keys
    requires !p.Indefinite? ==> forall key :: key in h ==> Deadline(p, h'[key]) == Deadline(p, h[key])
    ensures OneTimeoutEach(p, s, h')
  {
  }

  lemma RemoveImplements(p: Policy, s: State, h: Residents, key: Key)
    requires Implements(p, s, h)
    ensures Implements(p, Removed(s, key), h - {key})
  {
    hide Cancelled, OneTimeoutEach;
    CancelKeeps(p, s, h, key);
    SameCache(p, s, key);
    CacheLess(p, Cancelled(s, key), h - {key}, key);
  }

  /** The garbage collector does not look at the cache. */
  lemma CacheLess(p: Policy, s: State, h: Residents, key: Key)
    requires OneTimeoutEach(p, s, h)
    ensures OneTimeoutEach(p, s.(cache := s.cache - {key}), h)
  {
  }

  lemma CacheMore(p: Policy, s: State, h: Residents, key: Key)
    requires OneTimeoutEach(p, s, h)
    ensures OneTimeoutEach(p, s.(cache := s.cache[key := |s.keyOf|], keyOf := s.keyOf + [key]), h)
  {
  }

  lemma HoldsMore(s: State, h: Residents, key: Key)
    requires Holds(s, h) && key !in h
    ensures Holds(s.(cache := s.cache[key := |s.keyOf|], keyOf := s.keyOf + [key]),
        h[key := Residence(|s.keyOf|, s.now, s.now)])
  {
  }

  lemma SameHolds(s: State, s': State, h: Residents)
    requires Holds(s, h) && s'.cache == s.cache && s'.keyOf == s.keyOf
    ensures Holds(s', h)
  {
  }

  lemma AddImplements(p: Policy, s: State, h: Residents, key: Key)
    requires Implements(p, s, h)
    ensures Implements(p, AddedOrGotten(p, s, key), Follow(s, h, AddOrGet(key)))
  {
    if key in h {
      GetImplements(p, s, h, key);
    } else {
      hide Scheduled, OneTimeoutEach;
      var put := s.(cache := s.cache[key := |s.keyOf|], keyOf := s.keyOf + [key]);
      var h' := h[key := Residence(|s.keyOf|, s.now, s.now)];
      CacheMore(p, s, h, key);
      ScheduleKeeps(p, put, h, key, Residence(|s.keyOf|, s.now, s.now));
      HoldsMore(s, h, key);
      SameCache(p, put, key);
      SameHolds(put, Scheduled(p, put, key), h');
    }
  }

  /** A timeout fires for a cached key, at or after the deadline of its residence. */
  lemma FireFindsEntry(p: Policy, s: State, h: Residents, id: nat)
    requires Implements(p, s, h) && Enabled(s, Fire(id))
    ensures var key := s.live[id].key;
      !p.Indefinite? && key in h && key in s.cache && key in s.gcTimeouts && s.gcTimeouts[key] == id
        && Deadline(p, h[key]) <= s.now
  {
  }

  lemma FireImplements(p: Policy, s: State, h: Residents, id: nat)
    requires Implements(p, s, h) && Enabled(s, Fire(id))
    ensures Fired(s, id) == Removed(s, s.live[id].key) && Implements(p, Fired(s, id), Follow(s, h, Fire(id)))
  {
    hide Implements;
    var key := s.live[id].key;
    FireFindsEntry(p, s, h, id);
    RemoveImplements(p, s, h, key);
    assert (s.live - {id}) - {id} == s.live - {id};
  }

  /**
   * In every reachable state the cached keys are the keys with a live timeout, one each, armed for the present
   * residence.
   */
  lemma StepImplements(p: Policy, s: State, h: Residents, e: Event)
    requires Implements(p, s, h) && Enabled(s, e)
    ensures Implements(p, Step(p, s, e), Follow(s, h, e))
  {
    match e {
      case Get(key) => GetImplements(p, s, h, key);
      case AddOrGet(key) => AddImplements(p, s, h, key);
      case Remove(key) => RemoveImplements(p, s, h, key);
      case Tick(_) =>
      case Fire(id) => FireImplements(p, s, h, id);
      case Reject(promise, removes) =>
        if removes {
          RemoveImplements(p, s, h, s.keyOf[promise]);
        }
    }
  }

  // ---------- What ends a residence ----------

  /** The event takes the entry of `key` out of the cache. */
  predicate Ends(s: State, key: Key, e: Event)
    requires Enabled(s, e)
  {
    match e
    case Remove(k) => k == key
    case Fire(id) => s.live[id].key == key
    case Reject(promise, removes) => removes && s.keyOf[promise] == key
    case _ => false
  }

  /** What a step does to the cache and to the list of started work. */
  function CacheAfter(s: State, e: Event): map<Key, nat>
    requires Enabled(s, e)
  {
    match e
    case AddOrGet(key) => if key in s.cache then s.cache else s.cache[key := |s.keyOf|]
    case Remove(key) => s.cache - {key}
    case Fire(id) => s.cache - {s.live[id].key}
    case Reject(promise, removes) => if removes then s.cache - {s.keyOf[promise]} else s.cache
    case _ => s.cache
  }

  function StartedAfter(s: State, e: Event): seq<Key> {
    if e.AddOrGet? && e.key !in s.cache then s.keyOf + [e.key] else s.keyOf
  }

  lemma StepCache(p: Policy, s: State, e: Event)
    requires Enabled(s, e)
    ensures Step(p, s, e).cache == CacheAfter(s, e) && Step(p, s, e).keyOf == StartedAfter(s, e)
  {
    hide Cancelled, Scheduled;
    match e {
      case Get(key) => SameCache(p, s, key);
      case AddOrGet(key) =>
        SameCache(p, s, key);
        SameCache(p, s.(cache := s.cache[key := |s.keyOf|], keyOf := s.keyOf + [key]), key);
      case Remove(key) => SameCache(p, s, key);
      case Tick(_) =>
      case Fire(id) =>
        var key := s.live[id].key;
        var fired := s.(live := s.live - {id});
        SameCache(p, fired, key);
        SameCache(p, Removed(fired, key), key);
      case Reject(promise, removes) => SameCache(p, s, s.keyOf[promise]);
    }
  }

  /** Exactly these events do, and work starts for a key only when it is absent. */
  lemma EndsExactly(p: Policy, s: State, key: Key, e: Event)
    requires Enabled(s, e) && key in s.cache
    ensures key !in Step(p, s, e).cache <==> Ends(s, key, e)
    ensures key in Step(p, s, e).cache ==> Step(p, s, e).cache[key] == s.cache[key]
    ensures NoneStarted(s.keyOf, Step(p, s, e).keyOf, key)
    ensures Step(p, s, e).keyOf != s.keyOf ==> e.AddOrGet? && e.key !in s.cache
  {
    hide Step;
    StepCache(p, s, e);
  }

  function Run(p: Policy, s: State, h: Residents, events: seq<Event>): Option<(State, Residents)>
    decreases events
  {
    if events == [] then Some((s, h))
    else if !Enabled(s, events[0]) then None
    else Run(p, Step(p, s, events[0]), Follow(s, h, events[0]), events[1..])
  }

  lemma {:induction false} RunImplements(p: Policy, s: State, h: Residents, events: seq<Event>)
    requires Implements(p, s, h)
    ensures Run(p, s, h, events).Some? ==>
      Implements(p, Run(p, s, h, events).value.0, Run(p, s, h, events).value.1)
    decreases events
  {
    if events != [] && Enabled(s, events[0]) {
      hide Implements, Step, Follow;
      StepImplements(p, s, h, events[0]);
      RunImplements(p, Step(p, s, events[0]), Follow(s, h, events[0]), events[1..]);
    }
  }

  predicate NeverEnds(p: Policy, s: State, h: Residents, key: Key, events: seq<Event>)
    decreases events
  {
    events == []
    || (Enabled(s, events[0]) && !Ends(s, key, events[0])
        && NeverEnds(p, Step(p, s, events[0]), Follow(s, h, events[0]), key, events[1..]))
  }

  /**
   * Until its residence ends, a key keeps its promise and no other work is started for it, however often it is
   * added.
   */
  lemma {:induction false} WorkIsShared(p: Policy, s: State, h: Residents, key: Key, events: seq<Event>)
    requires Implements(p, s, h) && key in s.cache && NeverEnds(p, s, h, key, events)
    ensures Run(p, s, h, events).Some?
    ensures var end := Run(p, s, h, events).value.0;
      key in end.cache && end.cache[key] == s.cache[key] && NoneStarted(s.keyOf, end.keyOf, key)
    decreases events
  {
    if events != [] {
      hide Implements, Follow, Ends, Step, NoneStarted;
      var s' := Step(p, s, events[0]);
      EndsExactly(p, s, key, events[0]);
      StepImplements(p, s, h, events[0]);
      WorkIsShared(p, s', Follow(s, h, events[0]), key, events[1..]);
      NoneStartedTrans(s.keyOf, s'.keyOf, Run(p, s, h, events).value.0.keyOf, key);
    }
  }

  /** The work started since then is under other keys. */
  predicate NoneStarted(before: seq<Key>, after: seq<Key>, key: Key) {
    before <= after && forall i :: |before| <= i < |after| ==> after[i] != key
  }

  lemma NoneStartedTrans(a: seq<Key>, b: seq<Key>, c: seq<Key>, key: Key)
    requires NoneStarted(a, b, key) && NoneStarted(b, c, key)
    ensures NoneStarted(a, c, key)
  {
  }

  // ---------- When entries leave ----------

  /** Time does not pass the tick at which a live timeout is due. */
  predicate Punctual(p: Policy, s: State, e: Event) {
    && (p.Indefinite? || p.durationMs >= 0)
    && (e.Tick? ==> forall id :: id in s.live ==> e.to <= s.live[id].due)
  }

  /** No entry has outstayed its deadline. */
  ghost predicate Prompt(p: Policy, s: State, h: Residents) {
    p.Indefinite? || forall key :: key in h ==> s.now <= Deadline(p, h[key])
  }

  /**
   * With punctual timeouts an entry that expires leaves exactly at its deadline: the duration after its
   * insertion, or after its last hit. No entry stays longer, and without expiry none leaves this way.
   */
  lemma PunctualExpiry(p: Policy, s: State, h: Residents, e: Event)
    requires Implements(p, s, h) && Prompt(p, s, h) && Enabled(s, e) && Punctual(p, s, e)
    ensures Prompt(p, Step(p, s, e), Follow(s, h, e))
    ensures e.Fire? ==> !p.Indefinite? && s.live[e.timeout].key in h && Deadline(p, h[s.live[e.timeout].key]) == s.now
  {
    hide OneTimeoutEach, Holds, Step;
    match e {
      case Get(key) => SameClock(p, s, e);
      case AddOrGet(key) => SameClock(p, s, e);
      case Remove(key) => SameClock(p, s, e);
      case Tick(to) => TickPrompt(p, s, h, to);
      case Fire(id) =>
        FireFindsEntry(p, s, h, id);
        SameClock(p, s, e);
      case Reject(_, _) => SameClock(p, s, e);
    }
  }

  lemma SameClock(p: Policy, s: State, e: Event)
    requires Enabled(s, e) && !e.Tick?
    ensures Step(p, s, e).now == s.now
  {
  }

  lemma TickPrompt(p: Policy, s: State, h: Residents, to: int)
    requires Implements(p, s, h) && Prompt(p, s, h) && Enabled(s, Tick(to)) && Punctual(p, s, Tick(to))
    ensures Prompt(p, Step(p, s, Tick(to)), Follow(s, h, Tick(to)))
  {
    if !p.Indefinite? {
      forall key | key in h ensures to <= Deadline(p, h[key]) {
        assert s.gcTimeouts[key] in s.live;
      }
    }
  }

  predicate PunctualRun(p: Policy, s: State, h: Residents, events: seq<Event>)
    decreases events
  {
    events == []
    || (Enabled(s, events[0]) && Punctual(p, s, events[0])
        && PunctualRun(p, Step(p, s, events[0]), Follow(s, h, events[0]), events[1..]))
  }

  lemma {:induction false} PunctualRunsArePrompt(p: Policy, s: State, h: Residents, events: seq<Event>)
    requires Implements(p, s, h) && Prompt(p, s, h) && PunctualRun(p, s, h, events)
    ensures Run(p, s, h, events).Some? && Prompt(p, Run(p, s, h, events).value.0, Run(p, s, h, events).value.1)
    decreases events
  {
    if events != [] {
      hide Implements, Prompt, Step, Follow, Punctual;
      StepImplements(p, s, h, events[0]);
      PunctualExpiry(p, s, h, events[0]);
      PunctualRunsArePrompt(p, Step(p, s, events[0]), Follow(s, h, events[0]), events[1..]);
    }
  }

  // ---------- Rejections of promises that are gone ----------

  /** The promises that are no longer cached. */
  function Lost(before: map<Key, nat>, after: map<Key, nat>): set<nat> {
    before.Values - after.Values
  }

  lemma RemoveLoses(s: State, h: Residents, key: Key)
    requires Holds(s, h)
    ensures Lost(s.cache, s.cache - {key}) == if key in s.cache then {s.cache[key]} else {}
  {
    var after := s.cache - {key};
    if key in s.cache {
      ValueOf(s.cache, key);
      forall k | k in after ensures after[k] != s.cache[key] {
        assert s.keyOf[s.cache[k]] == k && s.keyOf[s.cache[key]] == key;
      }
    }
    forall q | q in Lost(s.cache, after) ensures key in s.cache && q == s.cache[key] {
      var k :| k in s.cache && s.cache[k] == q;
      if k != key {
        ValueOf(after, k);
      }
    }
  }

  /** A rejection takes out no promise but its own exactly when its key holds that promise or none. */
  lemma RejectionIsOwn(p: Policy, s: State, h: Residents, promise: nat)
    requires Implements(p, s, h) && promise < |s.keyOf|
    ensures
      var key := s.keyOf[promise];
      && (Lost(s.cache, Step(p, s, Reject(promise, true)).cache) <= {promise}
          <==> (key in s.cache ==> s.cache[key] == promise))
  {
    hide Step, Lost, Holds;
    StepCache(p, s, Reject(promise, true));
    RemoveLoses(s, h, s.keyOf[promise]);
  }

  lemma ValueOf(m: map<Key, nat>, k: Key)
    requires k in m
    ensures m[k] in m.Values
  {
  }

  /** Removed and added again, a key loses its new promise to the rejection of the old one. */
  lemma StaleRejection()
    ensures
      var end := Run(Indefinite, EMPTY, map[], [AddOrGet("a"), Remove("a"), AddOrGet("a"), Reject(0, true)]);
      end.Some? && end.value.0.keyOf == ["a", "a"] && "a" !in end.value.0.cache
  {
    var s1 := State(0, map[], 0, map["a" := 0], map[], ["a"]);
    var s2 := State(0, map[], 0, map[], map[], ["a"]);
    var s3 := State(0, map[], 0, map["a" := 1], map[], ["a", "a"]);
    var e0, e1, e2, e3 := AddOrGet("a"), Remove("a"), AddOrGet("a"), Reject(0, true);
    assert Step(Indefinite, EMPTY, e0) == s1;
    assert Step(Indefinite, s1, e1) == s2;
    assert Step(Indefinite, s2, e2) == s3;
    var events := [e0, e1, e2, e3];
    assert events[1..] == [e1, e2, e3] && [e1, e2, e3][1..] == [e2, e3] && [e2, e3][1..] == [e3] && [e3][1..] == [];
    hide Step, Follow;
    var h1 := Follow(EMPTY, map[], e0);
    var h2 := Follow(s1, h1, e1);
    var h3 := Follow(s2, h2, e2);
    assert Run(Indefinite, s3, h3, [e3]) == Run(Indefinite, Step(Indefinite, s3, e3), Follow(s3, h3, e3), []);
    assert Run(Indefinite, s2, h2, [e2, e3]) == Run(Indefinite, s3, h3, [e3]);
    assert Run(Indefinite, s1, h1, [e1, e2, e3]) == Run(Indefinite, s2, h2, [e2, e3]);
  }

  // ---------- The classes ----------

  class GarbageCollector {
    const expiry: Policy
    const loop: EventLoop<Armed>
    var gcTimeouts: map<Key, nat>

    constructor (expiry: Policy, loop: EventLoop<Armed>)
      ensures this.expiry == expiry && this.loop == loop && gcTimeouts == map[]
    {
      this.expiry, this.loop, gcTimeouts := expiry, loop, map[];
    }

    /** The state with the given cache. */
    ghost function With(cache: map<Key, nat>, keyOf: seq<Key>): State
      reads this, loop
    {
      State(loop.now, loop.live, loop.nextId, cache, gcTimeouts, keyOf)
    }

    method Schedule(key: Key)
      modifies this`gcTimeouts, loop`live, loop`nextId
      ensures forall c, k :: With(c, k) == Scheduled(expiry, old(With(c, k)), key)
    {
      if !expiry.Indefinite? {
        var timeout := loop.SetTimeout(Armed(loop.now + expiry.durationMs, key));
        gcTimeouts := gcTimeouts[key := timeout];
      }
    }

    method Cancel(key: Key)
      modifies this`gcTimeouts, loop`live
      ensures forall c, k :: With(c, k) == Cancelled(old(With(c, k)), key)
    {
      if key in gcTimeouts {
        loop.ClearTimeout(gcTimeouts[key]);
        gcTimeouts := gcTimeouts - {key};
      }
    }

    method Update(key: Key)
      modifies this`gcTimeouts, loop`live, loop`nextId
      ensures forall c, k :: With(c, k) == Updated(expiry, old(With(c, k)), key)
    {
      if expiry.Sliding? {
        Cancel(key);
        Schedule(key);
      }
    }
  }

  class PromiseCache {
    const gc: GarbageCollector
    var cache: map<Key, nat>
    /** The work started so far; its promises are its positions. */
    var keyOf: seq<Key>

    constructor (gc: GarbageCollector)
      ensures this.gc == gc && cache == map[] && keyOf == []
    {
      this.gc, cache, keyOf := gc, map[], [];
    }

    ghost function Abstract(): State
      reads this, gc, gc.loop
    {
      gc.With(cache, keyOf)
    }

    predicate Has(key: Key)
      reads this
    {
      key in cache
    }

    method Get(key: Key) returns (promise: Option<nat>)
      modifies gc`gcTimeouts, gc.loop`live, gc.loop`nextId
      ensures Abstract() == Step(gc.expiry, old(Abstract()), Event.Get(key))
      ensures promise == if key in cache then Some(cache[key]) else None
    {
      if Has(key) {
        gc.Update(key);
      }
      promise := if key in cache then Some(cache[key]) else None;
    }

    method Remove(key: Key) returns (found: bool)
      modifies this`cache, gc`gcTimeouts, gc.loop`live
      ensures Abstract() == Step(gc.expiry, old(Abstract()), Event.Remove(key)) && found == old(Has(key))
    {
      gc.Cancel(key);
      found := key in cache;
      cache := cache - {key};
    }

    /** The work of a new promise starts only when the key is absent. */
    method AddOrGet(key: Key) returns (promise: nat, started: bool)
      modifies this, gc`gcTimeouts, gc.loop`live, gc.loop`nextId
      ensures Abstract() == Step(gc.expiry, old(Abstract()), Event.AddOrGet(key))
      ensures key in cache && promise == cache[key] && started == !old(Has(key))
      ensures started ==> promise == |old(keyOf)| && keyOf == old(keyOf) + [key]
    {
      var existing := Get(key);
      if existing.Some? {
        return existing.value, false;
      }
      promise, started := |keyOf|, true;
      keyOf := keyOf + [key];
      cache := cache[key := promise];
      gc.Schedule(key);
    }

    method Add(key: Key) returns (added: bool)
      modifies this, gc`gcTimeouts, gc.loop`live, gc.loop`nextId
      ensures Abstract() == Step(gc.expiry, old(Abstract()), Event.AddOrGet(key)) && added == !old(Has(key))
    {
      var alreadyPresent := Has(key);
      var promise, started := AddOrGet(key);
      added := !alreadyPresent;
    }

    /** The callback of a timeout for a key; the event loop has taken the timeout out. */
    method OnTimeout(key: Key)
      modifies this`cache, gc`gcTimeouts, gc.loop`live
      ensures Abstract() == Cancelled(Removed(old(Abstract()), key), key)
    {
      var found := Remove(key);
      gc.Cancel(key);
    }

    method OnRejected(promise: nat, removeOnError: bool)
      requires promise < |keyOf|
      modifies this`cache, gc`gcTimeouts, gc.loop`live
      ensures Abstract() == Step(gc.expiry, old(Abstract()), Reject(promise, removeOnError))
    {
      if removeOnError {
        var found := Remove(keyOf[promise]);
      }
    }
  }
}
