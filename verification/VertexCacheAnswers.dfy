/**
 * What the callers of the single-flight cache get: when a Get is answered from the
 * store, when it starts a refresh, and what becomes of a fetched value.
 */
module VertexCacheAnswers {
  import opened Wrappers
  import opened VertexCache

  /** A value younger than ttl is served, and nothing else happens. */
  lemma FreshIsServed(cfg: Config, s: System, a: Action)
    requires a.DoGet? && Enabled(cfg, s, a) && a.key in s.g.store && a.now - s.g.store[a.key].fetchedAt < cfg.ttl
    ensures Step(cfg, s, a) == s.(g := s.g.(hits := s.g.hits + 1), gets := s.gets + 1,
                                  threads := s.threads[a.t := DoneHit(s.g.store[a.key], a.now)])
  {
  }

  /** A value between ttl and swr is served too; and a refresh is running for its key, a new one if there was none. */
  lemma StaleIsServedAndRefreshed(cfg: Config, s: System, a: Action)
    requires a.DoGet? && Enabled(cfg, s, a) && a.key in s.g.store
    requires cfg.ttl <= a.now - s.g.store[a.key].fetchedAt < cfg.swr
    ensures var s' := Step(cfg, s, a);
      && a.t in s'.threads && s'.threads[a.t] == DoneHit(s.g.store[a.key], a.now)
      && s'.g.hits == s.g.hits + 1 && s'.g.misses == s.g.misses && a.key in s'.g.inflight
      && if a.key in s.g.inflight then s'.g.inflight == s.g.inflight && s'.g.refreshes == s.g.refreshes
         else
           && s'.g.inflight[a.key] == a.f && Fetching(s', a.background, a.key, a.f)
           && s'.g.refreshes == s.g.refreshes + 1
  {
  }

  /** Without a value, or with one older than both, the caller goes on to fetch. */
  lemma OldIsMissed(cfg: Config, s: System, a: Action)
    requires a.DoGet? && Enabled(cfg, s, a)
    requires a.key in s.g.store ==>
      a.now - s.g.store[a.key].fetchedAt >= cfg.ttl && a.now - s.g.store[a.key].fetchedAt >= cfg.swr
    ensures Step(cfg, s, a) == s.(g := s.g.(misses := s.g.misses + 1), gets := s.gets + 1,
                                  threads := s.threads[a.t := Missed(a.key)])
  {
  }

  /** A caller that fetches waits on the running flight of the key, and runs one itself only if there is none. */
  lemma FetchesOrWaits(cfg: Config, s: System, a: Action)
    requires a.DoFetchOnce? && Enabled(cfg, s, a)
    ensures var s', key := Step(cfg, s, a), s.threads[a.t].key;
      if key in s.g.inflight then s' == s.(threads := s.threads[a.t := Waiting(key, s.g.inflight[key])])
      else Fetching(s', a.t, key, a.f) && key in s'.g.inflight && s'.g.inflight[key] == a.f
           && a.f in s'.g.flights && s'.g.flights[a.f] == Flight(key, a.t, 0, None)
  {
  }

  /** A refresh is counted, and goes on to fetch whatever is stored. */
  lemma RefreshFetches(cfg: Config, s: System, a: Action)
    requires a.DoRefresh? && Enabled(cfg, s, a)
    ensures Step(cfg, s, a) == s.(g := s.g.(refreshes := s.g.refreshes + 1), threads := s.threads[a.t := Missed(a.key)])
  {
  }

  /** A value that was fetched and stored answers a Get of its key that comes less than ttl later. */
  lemma StoredIsServed(cfg: Config, s: System, store: Action, get: Action)
    requires store.DoStore? && Enabled(cfg, s, store) && store.evicted != Some(s.threads[store.t].key)
    requires get.DoGet? && get.key == s.threads[store.t].key && get.now - store.now < cfg.ttl
    requires Enabled(cfg, Step(cfg, s, store), get)
    ensures var after := Step(cfg, Step(cfg, s, store), get);
      get.t in after.threads && after.threads[get.t]
        == DoneHit(Entry(s.threads[store.t].result.value, store.now), get.now)
  {
    FreshIsServed(cfg, Step(cfg, s, store), get);
  }

  /** Storing one key's value keeps the others, but for the one the cache pushes out. */
  lemma OthersStayStored(cfg: Config, s: System, store: Action, key: Key)
    requires store.DoStore? && Enabled(cfg, s, store) && key != s.threads[store.t].key
    ensures key in Step(cfg, s, store).g.store <==> key in s.g.store && store.evicted != Some(key)
    ensures key in Step(cfg, s, store).g.store ==> Step(cfg, s, store).g.store[key] == s.g.store[key]
  {
  }

  /** Whoever waits on a flight that finishes is woken with what its fetch returned. */
  lemma WaiterIsAnswered(cfg: Config, s: System, finish: Action, wake: Action)
    requires finish.DoFinish? && Enabled(cfg, s, finish)
    requires wake.DoWake? && wake.t in s.threads && wake.t != finish.t
    requires s.threads[wake.t] == Waiting(s.threads[finish.t].key, s.threads[finish.t].flight)
    ensures var me, done := s.threads[finish.t], Step(cfg, s, finish);
      && done.threads[finish.t] == DoneOwn(me.flight, me.result) && me.key !in done.g.inflight
      && Enabled(cfg, done, wake) && Step(cfg, done, wake).threads[wake.t] == DoneJoined(me.flight, me.result)
  {
  }
}
