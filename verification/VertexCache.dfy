/**
 * The single-flight, stale-while-revalidate call cache of internal/vertex/cache.go.
 *
 * Each mutex section is one atomic step. The class holds the fields the mutex
 * guards; its methods are the sections and are proved against the functions below,
 * over which all interleavings of callers and background refreshes are studied.
 */
module VertexCache {
  import opened Wrappers

  type Key = string
  type Value(==, !new)

  /** What a call of the wrapped function returned. */
  datatype Fetched = Fetched(value: Value, failed: bool)

  datatype Entry = Entry(value: Value, fetchedAt: int)

  /** A flight, its creator, how often its channel was closed, and the result it carries. */
  datatype Flight = Flight(key: Key, creator: nat, closes: nat, result: Option<Fetched>)

  datatype Config = Config(ttl: int, swr: int, validate: Value -> bool)

  /** Everything the mutex guards. A flight is known by a number, as the source knows it by a pointer. */
  datatype Guarded = Guarded(store: map<Key, Entry>, inflight: map<Key, nat>, flights: map<nat, Flight>,
                             hits: nat, misses: nat, refreshes: nat)

  // ---------------------------------------------------------------------------
  // The mutex sections as functions
  // ---------------------------------------------------------------------------

  /** Get answers from the store, or sends the caller on to fetchOnce. */
  datatype Lookup = Served(entry: Entry) | Absent

  ghost predicate FreshFlight(g: Guarded, f: nat) {
    f !in g.flights
  }

  /** The flight a background refresh runs for, when this Get starts one. */
  predicate StartsRefresh(cfg: Config, g: Guarded, key: Key, now: int) {
    key in g.store && cfg.ttl <= now - g.store[key].fetchedAt < cfg.swr && key !in g.inflight
  }

  function Launch(g: Guarded, key: Key, creator: nat, f: nat): Guarded {
    g.(inflight := g.inflight[key := f], flights := g.flights[f := Flight(key, creator, 0, None)])
  }

  function GetSection(cfg: Config, g: Guarded, key: Key, now: int, background: nat, f: nat): (Guarded, Lookup) {
    if key in g.store && (now - g.store[key].fetchedAt < cfg.ttl || now - g.store[key].fetchedAt < cfg.swr) then
      var g1 := g.(hits := g.hits + 1);
      (if StartsRefresh(cfg, g, key, now) then Launch(g1, key, background, f).(refreshes := g.refreshes + 1) else g1,
       Served(g.store[key]))
    else (g.(misses := g.misses + 1), Absent)
  }

  /** fetchOnce joins the running flight of the key or starts one. */
  function JoinSection(g: Guarded, key: Key, caller: nat, f: nat): (Guarded, bool) {
    if key in g.inflight then (g, true) else (Launch(g, key, caller, f), false)
  }

  /** A validated value is stored; the LRU may push out another key. */
  function StoreSection(g: Guarded, key: Key, value: Value, now: int, evicted: Option<Key>): Guarded {
    var kept := if evicted.Some? then g.store - {evicted.value} else g.store;
    g.(store := kept[key := Entry(value, now)])
  }

  /** The flight gets its result, leaves inflight, and its channel is closed. */
  function FinishSection(g: Guarded, key: Key, f: nat, result: Fetched): Guarded
    requires f in g.flights
  {
    var flight := g.flights[f];
    g.(inflight := g.inflight - {key},
       flights := g.flights[f := flight.(closes := flight.closes + 1, result := Some(result))])
  }

  // ---------------------------------------------------------------------------
  // The same sections as methods on the guarded fields
  // ---------------------------------------------------------------------------

  class CachedCall {
    const cfg: Config
    var store: map<Key, Entry>
    var inflight: map<Key, nat>
    var flights: map<nat, Flight>
    var hits: nat
    var misses: nat
    var refreshes: nat

    constructor (cfg: Config)
      ensures this.cfg == cfg && Fields() == Guarded(map[], map[], map[], 0, 0, 0)
    {
      this.cfg := cfg;
      store, inflight, flights, hits, misses, refreshes := map[], map[], map[], 0, 0, 0;
    }

    ghost function Fields(): Guarded
      reads this
    {
      Guarded(store, inflight, flights, hits, misses, refreshes)
    }

    method Get(key: Key, now: int, background: nat, f: nat) returns (found: Lookup)
      modifies this
      ensures (Fields(), found) == old(GetSection(cfg, Fields(), key, now, background, f))
    {
      if key in store {
        var entry := store[key];
        var age := now - entry.fetchedAt;
        if age < cfg.ttl {
          hits := hits + 1;
          return Served(entry);
        }
        if age < cfg.swr {
          hits := hits + 1;
          if key !in inflight {
            refreshes := refreshes + 1;
            flights := flights[f := Flight(key, background, 0, None)];
            inflight := inflight[key := f];
          }
          return Served(entry);
        }
      }
      misses := misses + 1;
      found := Absent;
    }

    method Refresh()
      modifies this`refreshes
      ensures Fields() == old(Fields()).(refreshes := old(refreshes) + 1)
    {
      refreshes := refreshes + 1;
    }

    method FetchOnce(key: Key, caller: nat, f: nat) returns (joined: bool)
      modifies this
      ensures (Fields(), joined) == old(JoinSection(Fields(), key, caller, f))
    {
      if key in inflight {
        return true;
      }
      flights := flights[f := Flight(key, caller, 0, None)];
      inflight := inflight[key := f];
      joined := false;
    }

    method AddToStore(key: Key, value: Value, now: int, evicted: Option<Key>)
      modifies this`store
      ensures Fields() == old(StoreSection(Fields(), key, value, now, evicted))
    {
      if evicted.Some? {
        store := store - {evicted.value};
      }
      store := store[key := Entry(value, now)];
    }

    method Finish(key: Key, f: nat, result: Fetched)
      requires f in flights
      modifies this
      ensures Fields() == old(FinishSection(Fields(), key, f, result))
    {
      var flight := flights[f];
      flight := flight.(result := Some(result));
      inflight := inflight - {key};
      flight := flight.(closes := flight.closes + 1);
      flights := flights[f := flight];
    }
  }

  // ---------------------------------------------------------------------------
  // All interleavings
  // ---------------------------------------------------------------------------

  /** Where one caller (or one background goroutine) is. */
  datatype Thread =
    | Missed(key: Key)                                // between Get or Refresh and fetchOnce
    | Waiting(key: Key, flight: nat)                  // on the channel of somebody's flight
    | Running(key: Key, flight: nat)                  // inside the wrapped function
    | Panicked(key: Key, flight: nat)                 // the wrapped function panicked, something above recovered
    | Returned(key: Key, flight: nat, result: Fetched, stored: bool)
    | DoneHit(entry: Entry, asked: int)
    | DoneOwn(flight: nat, result: Fetched)           // ran the flight itself
    | DoneJoined(flight: nat, result: Fetched)        // received the flight of another thread
    | DoneCancelled

  datatype System = System(g: Guarded, threads: map<nat, Thread>, gets: nat)

  datatype Action =
    | DoGet(t: nat, key: Key, now: int, background: nat, f: nat)
    | DoRefresh(t: nat, key: Key)
    | DoFetchOnce(t: nat, f: nat)
    | DoReturn(t: nat, result: Fetched)
    | DoPanic(t: nat)
    | DoStore(t: nat, now: int, evicted: Option<Key>)
    | DoFinish(t: nat)
    | DoWake(t: nat)
    | DoCancel(t: nat)

  ghost predicate Valid(cfg: Config, r: Fetched) {
    !r.failed && cfg.validate(r.value)
  }

  /** Which step a thread may take; thread and flight numbers are never reused. */
  ghost predicate Enabled(cfg: Config, s: System, a: Action) {
    match a
    case DoGet(t, key, now, background, f) =>
      t !in s.threads && background !in s.threads && t != background && FreshFlight(s.g, f)
    case DoRefresh(t, key) => t !in s.threads
    case DoFetchOnce(t, f) => t in s.threads && s.threads[t].Missed? && FreshFlight(s.g, f)
    case DoReturn(t, result) => t in s.threads && s.threads[t].Running?
    case DoPanic(t) => t in s.threads && s.threads[t].Running?
    case DoStore(t, now, evicted) =>
      t in s.threads && s.threads[t].Returned? && !s.threads[t].stored && Valid(cfg, s.threads[t].result)
    case DoFinish(t) =>
      t in s.threads && s.threads[t].Returned? && s.threads[t].flight in s.g.flights
      && (s.threads[t].stored || !Valid(cfg, s.threads[t].result))
    case DoWake(t) =>
      t in s.threads && s.threads[t].Waiting? && s.threads[t].flight in s.g.flights
      && s.g.flights[s.threads[t].flight].closes > 0 && s.g.flights[s.threads[t].flight].result.Some?
    case DoCancel(t) => t in s.threads && s.threads[t].Waiting?
  }

  ghost function Step(cfg: Config, s: System, a: Action): System
    requires Enabled(cfg, s, a)
  {
    match a
    case DoGet(t, key, now, background, f) =>
      var (g, found) := GetSection(cfg, s.g, key, now, background, f);
      var threads := s.threads[t := if found.Served? then DoneHit(found.entry, now) else Missed(key)];
      System(g, if StartsRefresh(cfg, s.g, key, now) && found.Served? then threads[background := Running(key, f)]
                else threads, s.gets + 1)
    case DoRefresh(t, key) =>
      s.(g := s.g.(refreshes := s.g.refreshes + 1), threads := s.threads[t := Missed(key)])
    case DoFetchOnce(t, f) =>
      var key := s.threads[t].key;
      var (g, joined) := JoinSection(s.g, key, t, f);
      s.(g := g, threads := s.threads[t := if joined then Waiting(key, s.g.inflight[key]) else Running(key, f)])
    case DoReturn(t, result) =>
      s.(threads := s.threads[t := Returned(s.threads[t].key, s.threads[t].flight, result, false)])
    case DoPanic(t) =>
      s.(threads := s.threads[t := Panicked(s.threads[t].key, s.threads[t].flight)])
    case DoStore(t, now, evicted) =>
      var me := s.threads[t];
      s.(g := StoreSection(s.g, me.key, me.result.value, now, evicted), threads := s.threads[t := me.(stored := true)])
    case DoFinish(t) =>
      var me := s.threads[t];
      s.(g := FinishSection(s.g, me.key, me.flight, me.result),
         threads := s.threads[t := DoneOwn(me.flight, me.result)])
    case DoWake(t) =>
      var me := s.threads[t];
      s.(threads := s.threads[t := DoneJoined(me.flight, s.g.flights[me.flight].result.value)])
    case DoCancel(t) => s.(threads := s.threads[t := DoneCancelled])
  }

  const INITIAL: System := System(Guarded(map[], map[], map[], 0, 0, 0), map[], 0)

  /** The states some interleaving reaches, with the number of steps it took. */
  ghost predicate Reachable(cfg: Config, s: System, steps: nat)
    decreases steps
  {
    if steps == 0 then s == INITIAL
    else exists p, a :: Reachable(cfg, p, steps - 1) && Enabled(cfg, p, a) && s == Step(cfg, p, a)
  }

  /** Thread t is fetching: between the start and the end of the flight f for the key. */
  ghost predicate Fetching(s: System, t: nat, key: Key, f: nat) {
    && t in s.threads
    && (s.threads[t].Running? || s.threads[t].Returned?)
    && s.threads[t].key == key && s.threads[t].flight == f
  }

  /** The thread has opened a flight that it has not finished: it is fetching, or panicked. */
  predicate Holds(thread: Thread) {
    thread.Running? || thread.Returned? || thread.Panicked?
  }

  /** inflight, open flights and the threads that hold them are three views of the same thing. */
  ghost predicate OneFlightPerKey(s: System) {
    && (forall key :: key in s.g.inflight ==>
          var f := s.g.inflight[key];
          f in s.g.flights && s.g.flights[f].key == key && s.g.flights[f].closes == 0
          && s.g.flights[f].creator in s.threads && Holds(s.threads[s.g.flights[f].creator])
          && s.threads[s.g.flights[f].creator].key == key && s.threads[s.g.flights[f].creator].flight == f)
    && (forall t :: t in s.threads && Holds(s.threads[t]) ==>
          var key := s.threads[t].key;
          key in s.g.inflight && s.g.inflight[key] == s.threads[t].flight
          && s.threads[t].flight in s.g.flights && s.g.flights[s.threads[t].flight].creator == t)
  }

  /** A flight is open and in inflight, or closed once by its creator with the result the creator got. */
  ghost predicate FlightsCloseOnce(s: System) {
    forall f :: f in s.g.flights ==>
      var flight := s.g.flights[f];
      if flight.closes == 0 then flight.result.None? && flight.key in s.g.inflight && s.g.inflight[flight.key] == f
      else flight.closes == 1 && flight.result.Some? && flight.creator in s.threads
           && s.threads[flight.creator] == DoneOwn(f, flight.result.value)
  }

  /** Whoever waits waits on a known flight; whoever was woken holds exactly that flight's result. */
  ghost predicate WaitersGetTheirFlight(s: System) {
    forall t :: t in s.threads ==>
      && (s.threads[t].Waiting? ==>
            s.threads[t].flight in s.g.flights && s.g.flights[s.threads[t].flight].key == s.threads[t].key)
      && (s.threads[t].DoneJoined? ==>
            s.threads[t].flight in s.g.flights && s.g.flights[s.threads[t].flight].closes == 1
            && s.g.flights[s.threads[t].flight].result == Some(s.threads[t].result))
  }

  /** Only validated values are stored, and only stored values are served. */
  ghost predicate OnlyValidated(cfg: Config, s: System) {
    && (forall key :: key in s.g.store ==> cfg.validate(s.g.store[key].value))
    && (forall t :: t in s.threads && s.threads[t].DoneHit? ==>
          cfg.validate(s.threads[t].entry.value)
          && (s.threads[t].asked - s.threads[t].entry.fetchedAt < cfg.ttl
               || s.threads[t].asked - s.threads[t].entry.fetchedAt < cfg.swr))
  }

  /** Every Get is counted once, as a hit or as a miss. */
  ghost predicate GetsAreCounted(s: System) {
    s.g.hits + s.g.misses == s.gets
  }

  ghost predicate Inv(cfg: Config, s: System) {
    OneFlightPerKey(s) && FlightsCloseOnce(s) && WaitersGetTheirFlight(s) && OnlyValidated(cfg, s) && GetsAreCounted(s)
  }

  ghost predicate FlightsInv(s: System) {
    OneFlightPerKey(s) && FlightsCloseOnce(s)
  }

  /** A thread that has nothing to do with a flight may become another such thread. */
  lemma BystanderKeepsFlights(s: System, t: nat, thread: Thread, s': System)
    requires FlightsInv(s) && !Holds(thread)
    requires t in s.threads ==> !Holds(s.threads[t]) && !s.threads[t].DoneOwn?
    requires s'.g.inflight == s.g.inflight && s'.g.flights == s.g.flights && s'.threads == s.threads[t := thread]
    ensures FlightsInv(s')
  {
  }

  /** A caller that is served (or misses) becomes a thread of its own. */
  lemma AskingKeepsInv(cfg: Config, s: System, t: nat, thread: Thread, g: Guarded)
    requires Inv(cfg, s) && t !in s.threads
    requires thread.Missed? || (thread.DoneHit? && cfg.validate(thread.entry.value)
      && (thread.asked - thread.entry.fetchedAt < cfg.ttl || thread.asked - thread.entry.fetchedAt < cfg.swr))
    requires g == s.g.(hits := g.hits, misses := g.misses, refreshes := g.refreshes)
    requires g.hits + g.misses == s.gets + 1
    ensures Inv(cfg, System(g, s.threads[t := thread], s.gets + 1))
  {
    BystanderKeepsFlights(s, t, thread, System(g, s.threads[t := thread], s.gets + 1));
  }

  /** A thread that has not started yet, or has found nothing and is about to fetch. */
  ghost predicate MayCreate(s: System, t: nat) {
    t !in s.threads || s.threads[t].Missed?
  }

  /** A new flight for a key without one. */
  lemma LaunchKeepsInv(cfg: Config, s: System, key: Key, creator: nat, f: nat)
    requires Inv(cfg, s) && key !in s.g.inflight && f !in s.g.flights && MayCreate(s, creator)
    ensures Inv(cfg, s.(g := Launch(s.g, key, creator, f), threads := s.threads[creator := Running(key, f)]))
  {
    LaunchKeepsFlights(s, key, creator, f);
  }

  lemma LaunchKeepsFlights(s: System, key: Key, creator: nat, f: nat)
    requires FlightsInv(s) && key !in s.g.inflight && f !in s.g.flights && MayCreate(s, creator)
    ensures FlightsInv(s.(g := Launch(s.g, key, creator, f), threads := s.threads[creator := Running(key, f)]))
  {
    LaunchKeepsOneFlight(s, key, creator, f);
  }

  lemma LaunchKeepsOneFlight(s: System, key: Key, creator: nat, f: nat)
    requires OneFlightPerKey(s) && key !in s.g.inflight && f !in s.g.flights && MayCreate(s, creator)
    ensures OneFlightPerKey(s.(g := Launch(s.g, key, creator, f), threads := s.threads[creator := Running(key, f)]))
  {
  }

  lemma GetKeepsInv(cfg: Config, s: System, a: Action)
    requires Inv(cfg, s) && Enabled(cfg, s, a) && a.DoGet?
    ensures Inv(cfg, Step(cfg, s, a))
  {
    var (g, found) := GetSection(cfg, s.g, a.key, a.now, a.background, a.f);
    var thread := if found.Served? then DoneHit(found.entry, a.now) else Missed(a.key);
    var counted := s.g.(hits := g.hits, misses := g.misses, refreshes := g.refreshes);
    AskingKeepsInv(cfg, s, a.t, thread, counted);
    if StartsRefresh(cfg, s.g, a.key, a.now) {
      LaunchKeepsInv(cfg, System(counted, s.threads[a.t := thread], s.gets + 1), a.key, a.background, a.f);
    }
  }

  lemma FetchOnceKeepsInv(cfg: Config, s: System, a: Action)
    requires Inv(cfg, s) && Enabled(cfg, s, a) && a.DoFetchOnce?
    ensures Inv(cfg, Step(cfg, s, a))
  {
    if s.threads[a.t].key in s.g.inflight {
      JoinKeepsInv(cfg, s, a.t, s.threads[a.t].key);
    } else {
      LaunchKeepsInv(cfg, s, s.threads[a.t].key, a.t, a.f);
    }
  }

  lemma JoinKeepsInv(cfg: Config, s: System, t: nat, key: Key)
    requires Inv(cfg, s) && t in s.threads && s.threads[t] == Missed(key) && key in s.g.inflight
    ensures Inv(cfg, s.(threads := s.threads[t := Waiting(key, s.g.inflight[key])]))
  {
    var thread := Waiting(key, s.g.inflight[key]);
    BystanderKeepsFlights(s, t, thread, s.(threads := s.threads[t := thread]));
  }

  lemma FinishKeepsInv(cfg: Config, s: System, a: Action)
    requires Inv(cfg, s) && Enabled(cfg, s, a) && a.DoFinish?
    ensures Inv(cfg, Step(cfg, s, a))
  {
    FinishKeepsFlights(cfg, s, a);
  }

  lemma FinishKeepsFlights(cfg: Config, s: System, a: Action)
    requires FlightsInv(s) && Enabled(cfg, s, a) && a.DoFinish?
    ensures FlightsInv(Step(cfg, s, a))
  {
  }

  lemma StoreKeepsInv(cfg: Config, s: System, a: Action)
    requires Inv(cfg, s) && Enabled(cfg, s, a) && a.DoStore?
    ensures Inv(cfg, Step(cfg, s, a))
  {
  }

  /** A thread that holds a flight goes on holding it. */
  lemma HolderKeepsFlights(s: System, t: nat, thread: Thread)
    requires FlightsInv(s) && t in s.threads && Holds(s.threads[t]) && Holds(thread)
    requires thread.key == s.threads[t].key && thread.flight == s.threads[t].flight
    ensures FlightsInv(s.(threads := s.threads[t := thread]))
  {
  }

  lemma ReturnKeepsInv(cfg: Config, s: System, a: Action)
    requires Inv(cfg, s) && Enabled(cfg, s, a) && (a.DoReturn? || a.DoPanic?)
    ensures Inv(cfg, Step(cfg, s, a))
  {
    HolderKeepsFlights(s, a.t, Step(cfg, s, a).threads[a.t]);
  }

  lemma OtherStepsKeepInv(cfg: Config, s: System, a: Action)
    requires Inv(cfg, s) && Enabled(cfg, s, a) && (a.DoRefresh? || a.DoWake? || a.DoCancel?)
    ensures Inv(cfg, Step(cfg, s, a))
  {
    BystanderKeepsFlights(s, a.t, Step(cfg, s, a).threads[a.t], Step(cfg, s, a));
  }

  lemma StepKeepsInv(cfg: Config, s: System, a: Action)
    requires Inv(cfg, s) && Enabled(cfg, s, a)
    ensures Inv(cfg, Step(cfg, s, a))
  {
    match a
    case DoGet(_, _, _, _, _) => GetKeepsInv(cfg, s, a);
    case DoFetchOnce(_, _) => FetchOnceKeepsInv(cfg, s, a);
    case DoReturn(_, _) => ReturnKeepsInv(cfg, s, a);
    case DoPanic(_) => ReturnKeepsInv(cfg, s, a);
    case DoStore(_, _, _) => StoreKeepsInv(cfg, s, a);
    case DoFinish(_) => FinishKeepsInv(cfg, s, a);
    case _ => OtherStepsKeepInv(cfg, s, a);
  }

  lemma LastStep(cfg: Config, s: System, steps: nat) returns (p: System, a: Action)
    requires steps > 0 && Reachable(cfg, s, steps)
    ensures Reachable(cfg, p, steps - 1) && Enabled(cfg, p, a) && s == Step(cfg, p, a)
  {
    p, a :| Reachable(cfg, p, steps - 1) && Enabled(cfg, p, a) && s == Step(cfg, p, a);
  }

  /** What holds in every reachable state. */
  ghost predicate Sound(cfg: Config, s: System) {
    Inv(cfg, s) && StoredWereFetched(s)
  }

  lemma StepKeepsSound(cfg: Config, s: System, a: Action)
    requires Sound(cfg, s) && Enabled(cfg, s, a)
    ensures Sound(cfg, Step(cfg, s, a))
  {
    StepKeepsInv(cfg, s, a);
    StepKeepsStoredFetched(cfg, s, a);
  }

  lemma {:induction false} EveryStateIsSound(cfg: Config, steps: nat)
    ensures forall s :: Reachable(cfg, s, steps) ==> Sound(cfg, s)
    decreases steps
  {
    if steps > 0 {
      EveryStateIsSound(cfg, steps - 1);
      forall s | Reachable(cfg, s, steps) ensures Sound(cfg, s) {
        var p, a := LastStep(cfg, s, steps);
        StepKeepsSound(cfg, p, a);
      }
    }
  }

  /** In every interleaving at most one thread fetches a key. */
  lemma AtMostOneFetchPerKey(cfg: Config, s: System, steps: nat, key: Key, t: nat, u: nat, f: nat, h: nat)
    requires Reachable(cfg, s, steps) && Fetching(s, t, key, f) && Fetching(s, u, key, h)
    ensures t == u && f == h
  {
    EveryStateIsSound(cfg, steps);
  }

  /** The states some interleaving reaches from p. */
  ghost predicate ReachableFrom(cfg: Config, p: System, s: System, steps: nat)
    decreases steps
  {
    if steps == 0 then s == p
    else exists q, a :: ReachableFrom(cfg, p, q, steps - 1) && Enabled(cfg, q, a) && s == Step(cfg, q, a)
  }

  lemma PanickedTakesNoStep(cfg: Config, s: System, a: Action, t: nat)
    requires Enabled(cfg, s, a) && t in s.threads && s.threads[t].Panicked?
    ensures t in Step(cfg, s, a).threads && Step(cfg, s, a).threads[t] == s.threads[t]
  {
  }

  lemma {:induction false} PanickedStays(cfg: Config, p: System, steps: nat, t: nat)
    requires Inv(cfg, p) && t in p.threads && p.threads[t].Panicked?
    ensures forall s :: ReachableFrom(cfg, p, s, steps) ==>
      Inv(cfg, s) && t in s.threads && s.threads[t] == p.threads[t]
    decreases steps
  {
    if steps > 0 {
      PanickedStays(cfg, p, steps - 1, t);
      forall s | ReachableFrom(cfg, p, s, steps) ensures Inv(cfg, s) && t in s.threads && s.threads[t] == p.threads[t] {
        var q, a :| ReachableFrom(cfg, p, q, steps - 1) && Enabled(cfg, q, a) && s == Step(cfg, q, a);
        StepKeepsInv(cfg, q, a);
        PanickedTakesNoStep(cfg, q, a, t);
      }
    }
  }

  /** The key's flight is f, open for good: nobody fetches the key, and nobody is woken from f. */
  ghost predicate Blocked(s: System, key: Key, f: nat) {
    && key in s.g.inflight && s.g.inflight[key] == f && f in s.g.flights && s.g.flights[f].closes == 0
    && (forall u: nat, h: nat :: !Fetching(s, u, key, h))
    && (forall u :: u in s.threads && s.threads[u].DoneJoined? ==> s.threads[u].flight != f)
  }

  /** After a panic in the wrapped function its key is never fetched again, whatever runs later. */
  lemma PanicBlocksKey(cfg: Config, p: System, before: nat, s: System, steps: nat, t: nat)
    requires Reachable(cfg, p, before) && t in p.threads && p.threads[t].Panicked?
    requires ReachableFrom(cfg, p, s, steps)
    ensures Blocked(s, p.threads[t].key, p.threads[t].flight)
  {
    EveryStateIsSound(cfg, before);
    PanickedStays(cfg, p, steps, t);
  }

  /** A flight is never closed twice; closing and leaving inflight are one step. */
  lemma ClosedExactlyOnce(cfg: Config, s: System, steps: nat, f: nat)
    requires Reachable(cfg, s, steps) && f in s.g.flights
    ensures s.g.flights[f].closes <= 1
    ensures s.g.flights[f].closes == 0 <==> s.g.flights[f].key in s.g.inflight && s.g.inflight[s.g.flights[f].key] == f
    ensures s.g.flights[f].closes == 1 <==>
      s.g.flights[f].creator in s.threads && s.threads[s.g.flights[f].creator].DoneOwn?
        && s.threads[s.g.flights[f].creator].flight == f
  {
    EveryStateIsSound(cfg, steps);
  }

  /** A woken waiter holds the very result its flight's creator returned. */
  lemma WaitersShareTheResult(cfg: Config, s: System, steps: nat, t: nat)
    requires Reachable(cfg, s, steps) && t in s.threads && s.threads[t].DoneJoined?
    ensures var f := s.threads[t].flight;
      f in s.g.flights && s.g.flights[f].creator in s.threads
      && s.threads[s.g.flights[f].creator] == DoneOwn(f, s.threads[t].result)
  {
    EveryStateIsSound(cfg, steps);
  }

  /** Whatever is served was validated, and is younger than the longer of ttl and swr. */
  lemma ServedIsValidAndYoung(cfg: Config, s: System, steps: nat, t: nat)
    requires Reachable(cfg, s, steps) && t in s.threads && s.threads[t].DoneHit?
    ensures cfg.validate(s.threads[t].entry.value)
    ensures s.threads[t].asked - s.threads[t].entry.fetchedAt < (if cfg.ttl > cfg.swr then cfg.ttl else cfg.swr)
  {
    EveryStateIsSound(cfg, steps);
  }

  /** Every value served so far was younger than swr. */
  ghost predicate BelowSwr(cfg: Config, s: System) {
    forall t :: t in s.threads && s.threads[t].DoneHit? ==> s.threads[t].asked - s.threads[t].entry.fetchedAt < cfg.swr
  }

  ghost predicate ServesOnlyBelowSwr(cfg: Config) {
    forall s: System, steps: nat :: Reachable(cfg, s, steps) ==> BelowSwr(cfg, s)
  }

  lemma OneStepFurther(cfg: Config, s: System, steps: nat, a: Action) returns (s': System)
    requires Reachable(cfg, s, steps) && Enabled(cfg, s, a)
    ensures s' == Step(cfg, s, a) && Reachable(cfg, s', steps + 1)
  {
    s' := Step(cfg, s, a);
  }

  /** A refresh of "k" that is running its flight. */
  lemma RefreshRunning(cfg: Config) returns (s: System)
    ensures Reachable(cfg, s, 2)
    ensures s.threads == map[0 := Running("k", 0)] && s.g.store == map[] && s.g.flights.Keys == {0}
  {
    var asked := OneStepFurther(cfg, INITIAL, 0, DoRefresh(0, "k"));
    s := OneStepFurther(cfg, asked, 1, DoFetchOnce(0, 0));
  }

  lemma PanicLeaves(cfg: Config, s: System, key: Key, f: nat)
    requires s.threads == map[0 := Running(key, f)]
    ensures Enabled(cfg, s, DoPanic(0)) && Step(cfg, s, DoPanic(0)).threads == map[0 := Panicked(key, f)]
  {
  }

  /** A panic can happen: the refresh of "k" may panic in its flight. */
  lemma PanicHappens(cfg: Config) returns (s: System)
    ensures Reachable(cfg, s, 3) && s.threads == map[0 := Panicked("k", 0)]
  {
    var running := RefreshRunning(cfg);
    PanicLeaves(cfg, running, "k", 0);
    s := OneStepFurther(cfg, running, 2, DoPanic(0));
  }

  lemma RefreshStored(cfg: Config, v: Value) returns (s: System)
    requires cfg.validate(v)
    ensures Reachable(cfg, s, 4)
    ensures s.threads.Keys == {0} && s.g.store == map["k" := Entry(v, 0)] && s.g.flights.Keys == {0}
  {
    var running := RefreshRunning(cfg);
    var returned := OneStepFurther(cfg, running, 2, DoReturn(0, Fetched(v, false)));
    s := OneStepFurther(cfg, returned, 3, DoStore(0, 0, None));
  }

  lemma ServesStored(cfg: Config, s: System, a: Action)
    requires a.DoGet? && Enabled(cfg, s, a) && a.key in s.g.store && a.now - s.g.store[a.key].fetchedAt < cfg.ttl
    ensures a.t in Step(cfg, s, a).threads && Step(cfg, s, a).threads[a.t] == DoneHit(s.g.store[a.key], a.now)
  {
  }

  /** One refresh that stores a valid value at time 0, and one Get of it at the age swr. */
  lemma OldHit(cfg: Config, v: Value) returns (s: System)
    requires cfg.swr < cfg.ttl && cfg.validate(v)
    ensures Reachable(cfg, s, 5) && !BelowSwr(cfg, s)
  {
    var stored := RefreshStored(cfg, v);
    var a := DoGet(1, "k", cfg.swr, 2, 1);
    s := OneStepFurther(cfg, stored, 4, a);
    assert s.threads[1] == DoneHit(Entry(v, 0), cfg.swr) by {
      ServesStored(cfg, stored, a);
    }
  }

  /**
   * In every reachable state everything served was younger than swr, if and only if
   * the fresh window is not the longer one (or no value is ever valid).
   */
  lemma StalenessBoundedBySwrIff(cfg: Config)
    ensures ServesOnlyBelowSwr(cfg) <==> cfg.ttl <= cfg.swr || forall v :: !cfg.validate(v)
  {
    forall s: System, steps: nat | Reachable(cfg, s, steps) && (cfg.ttl <= cfg.swr || forall v :: !cfg.validate(v))
      ensures BelowSwr(cfg, s)
    {
      EveryStateIsSound(cfg, steps);
    }
    if cfg.swr < cfg.ttl {
      if v :| cfg.validate(v) {
        var s := OldHit(cfg, v);
      }
    }
  }

  /** Every Get of every interleaving is counted exactly once. */
  lemma HitsAndMissesCountGets(cfg: Config, s: System, steps: nat)
    requires Reachable(cfg, s, steps)
    ensures s.g.hits + s.g.misses == s.gets
  {
    EveryStateIsSound(cfg, steps);
  }

  /** The flight f fetched `value` for the key. */
  ghost predicate Obtained(s: System, f: nat, key: Key, value: Value) {
    && f in s.g.flights && s.g.flights[f].key == key
    && (|| s.g.flights[f].result == Some(Fetched(value, false))
        || (s.g.flights[f].creator in s.threads
            && s.threads[s.g.flights[f].creator] == Returned(key, f, Fetched(value, false), true)))
  }

  lemma ObtainedStays(cfg: Config, s: System, a: Action, f: nat, key: Key, value: Value)
    requires Inv(cfg, s) && Enabled(cfg, s, a) && Obtained(s, f, key, value)
    ensures Obtained(Step(cfg, s, a), f, key, value)
  {
    FlightStays(cfg, s, a, f);
  }

  /** A step of somebody else leaves a flight, and its creator too once it has returned; the creator finishes it. */
  lemma FlightStays(cfg: Config, s: System, a: Action, f: nat)
    requires FlightsInv(s) && Enabled(cfg, s, a) && f in s.g.flights
    ensures var s', flight := Step(cfg, s, a), s.g.flights[f];
      f in s'.g.flights && s'.g.flights[f] ==
        if a.DoFinish? && s.threads[a.t].flight == f then
          flight.(closes := flight.closes + 1, result := Some(s.threads[a.t].result))
        else flight
  {
  }

  /** Only a StoreSection for the key itself changes what the store has for it. */
  lemma StoreChanges(cfg: Config, s: System, a: Action, key: Key)
    requires Inv(cfg, s) && Enabled(cfg, s, a) && key in Step(cfg, s, a).g.store
    ensures var s' := Step(cfg, s, a);
      if a.DoStore? && s.threads[a.t].key == key then Obtained(s', s.threads[a.t].flight, key, s'.g.store[key].value)
      else key in s.g.store && s'.g.store[key] == s.g.store[key]
  {
  }

  /** Every stored value was fetched, by some flight, for the key it is stored under. */
  ghost predicate StoredWereFetched(s: System) {
    forall key :: key in s.g.store ==> exists f :: Obtained(s, f, key, s.g.store[key].value)
  }

  lemma StepKeepsStoredFetched(cfg: Config, s: System, a: Action)
    requires Inv(cfg, s) && Enabled(cfg, s, a) && StoredWereFetched(s)
    ensures StoredWereFetched(Step(cfg, s, a))
  {
    var s' := Step(cfg, s, a);
    forall key | key in s'.g.store ensures exists f :: Obtained(s', f, key, s'.g.store[key].value) {
      StoreChanges(cfg, s, a, key);
      if !(a.DoStore? && s.threads[a.t].key == key) {
        var f :| Obtained(s, f, key, s.g.store[key].value);
        ObtainedStays(cfg, s, a, f, key, s.g.store[key].value);
      }
    }
  }

  /** What a Get serves for a key was fetched for that key, in every interleaving. */
  lemma StoredWasFetchedForItsKey(cfg: Config, s: System, steps: nat, key: Key)
    requires Reachable(cfg, s, steps) && key in s.g.store
    ensures exists f :: Obtained(s, f, key, s.g.store[key].value)
  {
    EveryStateIsSound(cfg, steps);
  }
}
