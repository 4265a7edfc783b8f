/**
 * What requests to the response cache get: when they are answered from the cache,
 * when a revalidation is started, and what becomes of a computed response.
 */
module ResponseCacheAnswers {
  import opened Wrappers
  import opened ResponseCache

  // ---------------------------------------------------------------------------
  // The bytes of an envelope
  // ---------------------------------------------------------------------------

  /** What four bytes amount to, the first one counting most. */
  function Number(a: int, b: int, c: int, d: int): int {
    0x100_0000 * a + 0x1_0000 * b + 0x100 * c + d
  }

  /** Version 1, then eight bytes that name the second with the most significant first, then the body. */
  lemma EnvelopeBytes(seconds: int, body: seq<Byte>)
    requires 0 <= seconds < 0x8000_0000_0000_0000
    ensures var raw := Envelope(seconds, body);
      && |raw| == 9 + |body| && raw[0] == 1 && raw[9..] == body
      && seconds == 0x1_0000_0000 * Number(raw[1], raw[2], raw[3], raw[4]) + Number(raw[5], raw[6], raw[7], raw[8])
  {
    var raw := Envelope(seconds, body);
    var stamp := BigEndian(seconds, 8);
    assert raw == [1] + stamp + body && raw[1..9] == stamp;
    EightBytes();
    BigEndianReads(seconds, 8);
    EightDigits(stamp);
  }

  lemma EightDigits(b: seq<Byte>)
    requires |b| == 8
    ensures FromBigEndian(b) == 0x1_0000_0000 * Number(b[0], b[1], b[2], b[3]) + Number(b[4], b[5], b[6], b[7])
  {
    FourDigits(b[..4]);
    assert b[..8] == b && b[..8][..7] == b[..7] && b[..7][..6] == b[..6];
    assert b[..6][..5] == b[..5] && b[..5][..4] == b[..4];
    assert FromBigEndian(b[..5]) == 256 * FromBigEndian(b[..4]) + b[4];
    assert FromBigEndian(b[..6]) == 256 * FromBigEndian(b[..5]) + b[5];
    assert FromBigEndian(b[..7]) == 256 * FromBigEndian(b[..6]) + b[6];
  }

  lemma FourDigits(b: seq<Byte>)
    requires |b| == 4
    ensures FromBigEndian(b) == Number(b[0], b[1], b[2], b[3])
  {
    assert b[..4] == b && b[..4][..3] == b[..3] && b[..3][..2] == b[..2] && b[..2][..1] == b[..1] && b[..1][..0] == [];
    assert FromBigEndian(b[..1]) == 256 * FromBigEndian(b[..0]) + b[0];
    assert FromBigEndian(b[..2]) == 256 * FromBigEndian(b[..1]) + b[1];
    assert FromBigEndian(b[..3]) == 256 * FromBigEndian(b[..2]) + b[2];
  }

  /** A second before 1970 is written as the two's complement of its distance. */
  lemma EnvelopeBefore1970(seconds: int, body: seq<Byte>)
    requires -0x8000_0000_0000_0000 <= seconds < 0
    ensures Envelope(seconds, body)[1..9] == BigEndian(seconds + 0x1_0000_0000_0000_0000, 8)
  {
  }

  // ---------------------------------------------------------------------------
  // Requests
  // ---------------------------------------------------------------------------

  /** The backend answers the lookup with an envelope of the body, stored at the second. */
  ghost predicate Finds(cfg: Config, s: System, a: Action, seconds: int, body: seq<Byte>) {
    && a.Lookup? && Enabled(cfg, s, a) && a.answers && IsInt64(seconds)
    && s.threads[a.t].key in s.cache && s.cache[s.threads[a.t].key] == Envelope(seconds, body)
  }

  /** An entry within the fresh window answers at once, and starts nothing. */
  lemma FreshIsHit(cfg: Config, s: System, a: Action, seconds: int, body: seq<Byte>)
    requires Finds(cfg, s, a, seconds, body)
    requires !s.threads[a.t].refresh && s.threads[a.t].now - seconds * 1_000_000_000 <= cfg.freshTTL(s.threads[a.t].key)
    ensures var me := s.threads[a.t];
      Step(cfg, s, a) == s.(threads := s.threads[a.t := Served(me.key, false, me.now, a.got, false, body)])
  {
    DecodeInvertsEncode(seconds, body);
  }

  /** With a stale window, an older entry, or a refresh, is answered stale, and a revalidation of the key is set off. */
  lemma StaleIsRevalidated(cfg: Config, s: System, a: Action, seconds: int, body: seq<Byte>)
    requires Finds(cfg, s, a, seconds, body) && cfg.staleFor(s.threads[a.t].key) > 0 && a.t != a.worker
    requires s.threads[a.t].refresh || s.threads[a.t].now - seconds * 1_000_000_000 > cfg.freshTTL(s.threads[a.t].key)
    ensures var me := s.threads[a.t];
      Step(cfg, s, a) == s.(threads :=
        s.threads[a.t := Served(me.key, me.refresh, me.now, a.got, true, body)][a.worker := Joining(me.key, true,
          me.since)])
  {
    DecodeInvertsEncode(seconds, body);
  }

  /** Without a stale window such a request computes. */
  lemma ExpiredIsComputed(cfg: Config, s: System, a: Action, seconds: int, body: seq<Byte>)
    requires Finds(cfg, s, a, seconds, body) && cfg.staleFor(s.threads[a.t].key) <= 0
    requires s.threads[a.t].refresh || s.threads[a.t].now - seconds * 1_000_000_000 > cfg.freshTTL(s.threads[a.t].key)
    ensures Step(cfg, s, a) == s.(threads := s.threads[a.t := Joining(s.threads[a.t].key, false, s.threads[a.t].since)])
  {
    DecodeInvertsEncode(seconds, body);
  }

  /** So does one for which the backend has nothing, does not answer, or has bytes of another version. */
  lemma NothingIsComputed(cfg: Config, s: System, a: Action)
    requires a.Lookup? && Enabled(cfg, s, a)
    requires !a.answers || s.threads[a.t].key !in s.cache
      || |s.cache[s.threads[a.t].key]| < 9 || s.cache[s.threads[a.t].key][0] != 1
    ensures Step(cfg, s, a) == s.(threads := s.threads[a.t := Joining(s.threads[a.t].key, false, s.threads[a.t].since)])
  {
  }

  /** A cacheable response that the backend takes is there for the fresh and the stale window together. */
  lemma StoredIsKept(cfg: Config, s: System, store: Action)
    requires store.Store? && Enabled(cfg, s, store) && store.kept
    requires var key := s.threads[store.t].key; cfg.freshTTL(key) + cfg.staleFor(key) > 0
    ensures var key, s' := s.threads[store.t].key, Step(cfg, s, store);
      && key in s'.cache && key in s'.expires
      && s'.cache[key] == Envelope(store.at / 1_000_000_000, s.computes[s.threads[store.t].compute].response.body)
      && s'.expires[key] == store.put + cfg.freshTTL(key) + cfg.staleFor(key)
  {
  }

  /** And a later request within the fresh window, less the second the stamp loses, gets its body. */
  lemma StoredIsHit(cfg: Config, s: System, store: Action, ask: Action)
    requires store.Store? && Enabled(cfg, s, store) && store.kept && cfg.HardTTL(s.threads[store.t].key) > 0
    requires ask.Lookup? && ask.answers && Enabled(cfg, Step(cfg, s, store), ask) && ask.t in s.threads
      && ask.t != store.t
    requires s.threads[ask.t].key == s.threads[store.t].key && !s.threads[ask.t].refresh
    requires s.threads[ask.t].now - store.at <= cfg.freshTTL(s.threads[ask.t].key) - 1_000_000_000
    ensures var me := s.threads[ask.t];
      Step(cfg, Step(cfg, s, store), ask).threads[ask.t]
        == Served(me.key, false, me.now, ask.got, false, s.computes[s.threads[store.t].compute].response.body)
  {
    StoredIsKept(cfg, s, store);
    FreshIsHit(cfg, Step(cfg, s, store), ask, Unix(store.at), s.computes[s.threads[store.t].compute].response.body);
  }

  /** A request that has to compute waits on the running flight of its kind, and runs one only if there is none. */
  lemma ComputesOrWaits(cfg: Config, s: System, a: Action)
    requires a.Join? && Enabled(cfg, s, a)
    ensures var me, s' := s.threads[a.t], Step(cfg, s, a);
      var name := if me.background then "revalidate:" + me.key else me.key;
      if name in s.group then s' == s.(threads := s.threads[a.t := Waiting(me.key, me.background, s.group[name],
        me.since)])
      else
        && s'.threads == s.threads[a.t := Computing(me.key, me.background, a.f, me.since)]
        && s'.group == s.group[name := a.f]
  {
  }

  /** Whoever waits on a flight that finishes is answered with its compute; a revalidation answers nobody. */
  lemma WaiterIsAnswered(cfg: Config, s: System, finish: Action, wake: Action)
    requires finish.Finish? && Enabled(cfg, s, finish)
    requires wake.Wake? && wake.t in s.threads && wake.t != finish.t && s.threads[wake.t].Waiting?
    requires s.threads[wake.t].flight == s.threads[finish.t].flight
      && s.threads[wake.t].background == s.threads[finish.t].background
    ensures var me, w, done := s.threads[finish.t], s.threads[wake.t], Step(cfg, s, finish);
      && Enabled(cfg, done, wake)
      && (if me.background then done.threads[finish.t] == Step(cfg, done, wake).threads[wake.t] == Ended
          else
            && done.threads[finish.t] == Answered(me.key, me.flight, me.compute, me.since)
            && Step(cfg, done, wake).threads[wake.t] == Answered(w.key, w.flight, me.compute, w.since))
  {
  }

  /** After a panic nobody who waits on the flight is answered, and the next request of the key computes anew. */
  lemma PanicAnswersNobody(cfg: Config, s: System, panic: Action, wake: Action)
    requires panic.Panic? && Enabled(cfg, s, panic)
    requires wake.Wake? && wake.t in s.threads && wake.t != panic.t && s.threads[wake.t].Waiting?
    requires s.threads[wake.t].flight == s.threads[panic.t].flight
    ensures var me, done := s.threads[panic.t], Step(cfg, s, panic);
      && (if me.background then "revalidate:" + me.key else me.key) !in done.group
      && Enabled(cfg, done, wake) && Step(cfg, done, wake).threads[wake.t] == Ended
  {
  }
}
