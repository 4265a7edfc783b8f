/**
 * The stale-while-revalidate response cache: the envelope codec and serveSWR in
 * internal/cache/middleware.go, with the cache backend as a map whose entries may
 * vanish and whose answers and writes may fail.
 */
module ResponseCache {
  import opened Wrappers

  // ---------------------------------------------------------------------------
  // The envelope
  // ---------------------------------------------------------------------------

  type Byte = x: int | 0 <= x < 256

  const TWO_TO_THE_64: nat := 0x1_0000_0000_0000_0000
  const SECOND := 1_000_000_000

  predicate IsInt64(n: int) {
    -0x8000_0000_0000_0000 <= n < 0x8000_0000_0000_0000
  }

  function Unsigned(n: int): nat
    requires IsInt64(n)
  {
    if n < 0 then n + TWO_TO_THE_64 else n
  }

  function Signed(u: nat): int {
    if u >= 0x8000_0000_0000_0000 then u - TWO_TO_THE_64 else u
  }

  function Power256(k: nat): nat {
    if k == 0 then 1 else 256 * Power256(k - 1)
  }

  function BigEndian(n: nat, width: nat): (r: seq<Byte>)
    ensures |r| == width
  {
    if width == 0 then [] else BigEndian(n / 256, width - 1) + [n % 256]
  }

  function FromBigEndian(b: seq<Byte>): nat {
    if b == [] then 0 else 256 * FromBigEndian(b[..|b| - 1]) + b[|b| - 1]
  }

  lemma {:induction false} BigEndianReads(n: nat, width: nat)
    requires n < Power256(width)
    ensures FromBigEndian(BigEndian(n, width)) == n
  {
    if width > 0 {
      var b := BigEndian(n, width);
      assert b[..width - 1] == BigEndian(n / 256, width - 1);
      BigEndianReads(n / 256, width - 1);
    }
  }

  lemma {:induction false} BigEndianWrites(b: seq<Byte>)
    ensures FromBigEndian(b) < Power256(|b|) && BigEndian(FromBigEndian(b), |b|) == b
    decreases |b|
  {
    if b != [] {
      var front, last := b[..|b| - 1], b[|b| - 1];
      BigEndianWrites(front);
      var n := FromBigEndian(b);
      assert n / 256 == FromBigEndian(front) && n % 256 == last;
      assert b == front + [last];
    }
  }

  lemma EightBytes()
    ensures Power256(8) == TWO_TO_THE_64
  {
    assert Power256(4) == 0x1_0000_0000;
  }

  /** Seconds since the epoch, rounded down, of a time in nanoseconds. */
  function Unix(time: int): int {
    time / SECOND
  }

  function Envelope(seconds: int, body: seq<Byte>): seq<Byte>
    requires IsInt64(seconds)
  {
    [1] + BigEndian(Unsigned(seconds), 8) + body
  }

  /** The time (in nanoseconds) and body an envelope carries. */
  function DecodeEnvelope(raw: seq<Byte>): Option<(int, seq<Byte>)> {
    if |raw| < 9 || raw[0] != 1 then None
    else Some((Signed(FromBigEndian(raw[1..9])) * SECOND, raw[9..]))
  }

  /** Write the number big-endian into positions 1 to 8. */
  method PutUint64(out: array<Byte>, n: nat)
    requires out.Length >= 9
    modifies out
    ensures out[1..9] == BigEndian(n, 8) && out[0] == old(out[0]) && out[9..] == old(out[9..])
  {
    var rest, i := n, 9;
    while i > 1
      invariant 1 <= i <= 9 && out[0] == old(out[0]) && out[9..] == old(out[9..])
      invariant BigEndian(n, 8) == BigEndian(rest, i - 1) + out[i..9]
    {
      i := i - 1;
      assert BigEndian(rest, i) == BigEndian(rest / 256, i - 1) + [rest % 256];
      ghost var later := out[i + 1..9];
      out[i] := rest % 256;
      assert out[i..9] == [rest % 256] + later;
      rest := rest / 256;
    }
  }

  /** Encoding fills a buffer: version, big-endian timestamp, body. */
  method EncodeEnvelope(now: int, body: seq<Byte>) returns (out: array<Byte>)
    requires IsInt64(Unix(now))
    ensures fresh(out) && out[..] == Envelope(Unix(now), body)
  {
    out := new Byte[9 + |body|];
    out[0] := 1;
    PutUint64(out, Unsigned(Unix(now)));
    var i := 0;
    while i < |body|
      invariant 0 <= i <= |body| && out[0] == 1
      invariant out[1..9] == BigEndian(Unsigned(Unix(now)), 8)
      invariant out[9..9 + i] == body[..i]
    {
      out[9 + i] := body[i];
      i := i + 1;
    }
    Pieces(out[..], body);
  }

  lemma Pieces(raw: seq<Byte>, body: seq<Byte>)
    requires |raw| == 9 + |body| && raw[9..9 + |body|] == body
    ensures raw == [raw[0]] + raw[1..9] + body
  {
  }

  /** Decoding inverts encoding, for every time and body. */
  lemma DecodeInvertsEncode(seconds: int, body: seq<Byte>)
    requires IsInt64(seconds)
    ensures DecodeEnvelope(Envelope(seconds, body)) == Some((seconds * SECOND, body))
  {
    var raw := Envelope(seconds, body);
    assert raw[1..9] == BigEndian(Unsigned(seconds), 8) && raw[9..] == body;
    EightBytes();
    BigEndianReads(Unsigned(seconds), 8);
  }

  /** Whatever decodes is the envelope of what it decodes to. */
  lemma EncodeInvertsDecode(raw: seq<Byte>)
    ensures DecodeEnvelope(raw).Some? <==> |raw| >= 9 && raw[0] == 1
    ensures DecodeEnvelope(raw).Some? ==>
      var (time, body) := DecodeEnvelope(raw).value; IsInt64(Unix(time)) && Envelope(Unix(time), body) == raw
  {
    if |raw| >= 9 && raw[0] == 1 {
      var stamp := raw[1..9];
      BigEndianWrites(stamp);
      EightBytes();
      assert Unix(Signed(FromBigEndian(stamp)) * SECOND) == Signed(FromBigEndian(stamp));
      assert raw == [1] + stamp + raw[9..];
    }
  }

  // ---------------------------------------------------------------------------
  // The decision
  // ---------------------------------------------------------------------------

  datatype Response = Response(status: int, contentType: string, body: seq<Byte>)

  /**
   * Per key: the fresh and the stale window, in nanoseconds; what may be cached; whether the
   * backend honours lifetimes.
   */
  datatype Config = Config(freshTTL: string -> int, staleFor: string -> int, cacheable: Response -> bool,
                           honours: bool) {
    function HardTTL(key: string): int {
      freshTTL(key) + staleFor(key)
    }
  }

  datatype Decision = Hit(body: seq<Byte>) | Stale(body: seq<Byte>) | Compute

  /** What a request does with the answer of the cache. */
  method Decide(cfg: Config, key: string, raw: Option<seq<Byte>>, refresh: bool, now: int) returns (d: Decision)
    ensures d == Decided(cfg, key, raw, refresh, now)
  {
    var cachedBody: seq<Byte>, age, haveCached := [], 0, false;
    if raw.Some? {
      var decoded := DecodeEnvelope(raw.value);
      if decoded.Some? {
        cachedBody, age, haveCached := decoded.value.1, now - decoded.value.0, true;
      }
    }
    if haveCached && !refresh && age <= cfg.freshTTL(key) {
      return Hit(cachedBody);
    }
    if haveCached && cfg.staleFor(key) > 0 {
      return Stale(cachedBody);
    }
    return Compute;
  }

  function Decided(cfg: Config, key: string, raw: Option<seq<Byte>>, refresh: bool, now: int): Decision {
    match (if raw.Some? then DecodeEnvelope(raw.value) else None)
    case None => Compute
    case Some((storedAt, body)) =>
      if !refresh && now - storedAt <= cfg.freshTTL(key) then Hit(body)
      else if cfg.staleFor(key) > 0 then Stale(body)
      else Compute
  }

  /**
   * The stamp is rounded down, so the age never looks younger than it is: a hit is
   * within the fresh window, and an entry a second younger than the window is a hit.
   */
  lemma HitAges(cfg: Config, key: string, at: int, body: seq<Byte>, refresh: bool, now: int)
    requires IsInt64(Unix(at))
    ensures var d := Decided(cfg, key, Some(Envelope(Unix(at), body)), refresh, now);
      && (d.Hit? ==> !refresh && now - at <= cfg.freshTTL(key))
      && (!refresh && now - at <= cfg.freshTTL(key) - SECOND ==> d == Hit(body))
      && (d.Stale? ==> cfg.staleFor(key) > 0 && (refresh || now - at > cfg.freshTTL(key) - SECOND))
      && (d.Hit? || d.Stale? ==> d.body == body)
  {
    DecodeInvertsEncode(Unix(at), body);
  }

  // ---------------------------------------------------------------------------
  // The shared state
  // ---------------------------------------------------------------------------

  /** Computes run under the key, revalidations under the prefixed key. */
  function GroupName(key: string, background: bool): string {
    if background then "revalidate:" + key else key
  }

  /** Cache keys carry the service's prefix. */
  predicate IsKey(key: string) {
    "nagg:" <= key
  }

  /** A running or finished flight; `answer` is the compute it returned, `closed` when it left the group. */
  datatype Flight = Flight(key: string, background: bool, creator: nat, answer: Option<nat>, closed: Option<nat>)

  /**
   * One finished compute, and one write to the cache: of which compute, with which clock reading,
   * and when the backend took it.
   */
  datatype Computed = Computed(key: string, response: Response)
  datatype Stored = Stored(key: string, compute: nat, at: int, put: int)

  /** Where one goroutine is; `since` is the number of flights that had closed when its request began. */
  datatype Thread =
    | Asking(key: string, refresh: bool, now: int, since: nat)
    | Joining(key: string, background: bool, since: nat)
    | Waiting(key: string, background: bool, flight: nat, since: nat)
    | Computing(key: string, background: bool, flight: nat, since: nat)
    | Returned(key: string, background: bool, flight: nat, compute: nat, stored: bool, since: nat)
    // got: when the backend answered
    | Served(key: string, refresh: bool, now: int, got: int, stale: bool, body: seq<Byte>)
    | Answered(key: string, flight: nat, compute: nat, since: nat)
    | Ended

  datatype System = System(
    cache: map<string, seq<Byte>>, expires: map<string, int>, group: map<string, nat>,
    flights: map<nat, Flight>, threads: map<nat, Thread>,
    computes: seq<Computed>, stores: seq<Stored>, closings: nat)

  const INITIAL := System(map[], map[], map[], map[], map[], [], [], 0)

  datatype Action =
    | Ask(t: nat, key: string, refresh: bool, now: int)
    | Lookup(t: nat, answers: bool, got: int, worker: nat)
    | Join(t: nat, f: nat)
    | Return(t: nat, response: Response)
    | Store(t: nat, at: int, kept: bool, put: int)
    | Finish(t: nat)
    | Panic(t: nat)
    | Wake(t: nat)
    | Vanish(key: string)

  ghost predicate MayStore(cfg: Config, s: System, thread: Thread) {
    thread.Returned? && !thread.stored && thread.compute < |s.computes|
      && cfg.cacheable(s.computes[thread.compute].response)
  }

  /** A backend that honours lifetimes answers only before the entry expires. */
  ghost predicate MayAnswer(cfg: Config, s: System, key: string, got: int) {
    cfg.honours && key in s.cache ==> key in s.expires && got < s.expires[key]
  }

  /** Which step a goroutine may take; thread and flight numbers are never reused. */
  ghost predicate Enabled(cfg: Config, s: System, a: Action) {
    match a
    case Ask(t, key, _, _) => t !in s.threads && IsKey(key)
    case Lookup(t, answers, got, worker) =>
      t in s.threads && s.threads[t].Asking? && worker !in s.threads
        && (answers ==> MayAnswer(cfg, s, s.threads[t].key, got))
    case Join(t, f) => t in s.threads && s.threads[t].Joining? && f !in s.flights
    case Return(t, _) => t in s.threads && s.threads[t].Computing?
    case Store(t, at, _, _) => t in s.threads && MayStore(cfg, s, s.threads[t]) && IsInt64(Unix(at))
    case Finish(t) =>
      t in s.threads && s.threads[t].Returned? && !MayStore(cfg, s, s.threads[t]) && s.threads[t].flight in s.flights
    case Panic(t) => t in s.threads && s.threads[t].Computing? && s.threads[t].flight in s.flights
    case Wake(t) =>
      t in s.threads && s.threads[t].Waiting? && s.threads[t].flight in s.flights
        && s.flights[s.threads[t].flight].closed.Some?
    case Vanish(_) => true
  }

  /** The flight leaves the group, with an answer or (after a panic) without one. */
  ghost function Close(s: System, key: string, background: bool, f: nat, answer: Option<nat>): System
    requires f in s.flights
  {
    s.(group := s.group - {GroupName(key, background)},
       flights := s.flights[f := s.flights[f].(answer := answer, closed := Some(s.closings))],
       closings := s.closings + 1)
  }

  ghost function Become(s: System, t: nat, thread: Thread): System {
    s.(threads := s.threads[t := thread])
  }

  /** A new flight enters the group under its name. */
  ghost function Open(s: System, key: string, background: bool, t: nat, f: nat): System {
    s.(group := s.group[GroupName(key, background) := f],
       flights := s.flights[f := Flight(key, background, t, None, None)])
  }

  /** The backend takes the value, unless it fails or the lifetime is not positive. */
  ghost function Put(cfg: Config, s: System, key: string, raw: seq<Byte>, kept: bool, put: int): System {
    if !kept || cfg.HardTTL(key) <= 0 then s
    else s.(cache := s.cache[key := raw], expires := s.expires[key := put + cfg.HardTTL(key)])
  }

  ghost function LookedUp(cfg: Config, s: System, key: string, refresh: bool, now: int, answers: bool): Decision {
    Decided(cfg, key, if answers && key in s.cache then Some(s.cache[key]) else None, refresh, now)
  }

  /** A stale answer, or any answer to a refresh, leaves a background worker behind. */
  ghost function Look(cfg: Config, s: System, t: nat, answers: bool, got: int, worker: nat): System
    requires t in s.threads && s.threads[t].Asking?
  {
    var me := s.threads[t];
    match LookedUp(cfg, s, me.key, me.refresh, me.now, answers)
    case Hit(body) => Become(s, t, Served(me.key, me.refresh, me.now, got, false, body))
    case Stale(body) =>
      Become(Become(s, t, Served(me.key, me.refresh, me.now, got, true, body)), worker, Joining(me.key, true, me.since))
    case Compute => Become(s, t, Joining(me.key, false, me.since))
  }

  ghost function Step(cfg: Config, s: System, a: Action): System
    requires Enabled(cfg, s, a)
  {
    match a
    case Ask(t, key, refresh, now) => Become(s, t, Asking(key, refresh, now, s.closings))
    case Lookup(t, answers, got, worker) => Look(cfg, s, t, answers, got, worker)
    case Join(t, f) =>
      var me := s.threads[t];
      var name := GroupName(me.key, me.background);
      if name in s.group then Become(s, t, Waiting(me.key, me.background, s.group[name], me.since))
      else Become(Open(s, me.key, me.background, t, f), t, Computing(me.key, me.background, f, me.since))
    case Return(t, response) =>
      var me := s.threads[t];
      Become(s.(computes := s.computes + [Computed(me.key, response)]),
             t, Returned(me.key, me.background, me.flight, |s.computes|, false, me.since))
    case Store(t, at, kept, put) =>
      var me := s.threads[t];
      var raw := Envelope(Unix(at), s.computes[me.compute].response.body);
      Become(Put(cfg, s, me.key, raw, kept, put), t,
             me.(stored := true)).(stores := s.stores + [Stored(me.key, me.compute, at, put)])
    case Finish(t) =>
      var me := s.threads[t];
      Become(Close(s, me.key, me.background, me.flight, Some(me.compute)),
             t, if me.background then Ended else Answered(me.key, me.flight, me.compute, me.since))
    case Panic(t) =>
      var me := s.threads[t];
      Become(Close(s, me.key, me.background, me.flight, None), t, Ended)
    case Wake(t) =>
      var me := s.threads[t];
      var answer := s.flights[me.flight].answer;
      Become(s, t, if me.background || answer.None? then Ended else Answered(me.key, me.flight, answer.value, me.since))
    case Vanish(key) => s.(cache := s.cache - {key})
  }

  // ---------------------------------------------------------------------------
  // The same sections as methods on the shared fields
  // ---------------------------------------------------------------------------

  class SharedCache {
    const cfg: Config
    var cache: map<string, seq<Byte>>
    var expires: map<string, int>
    var group: map<string, nat>
    var flights: map<nat, Flight>
    var closings: nat

    constructor (cfg: Config)
      ensures this.cfg == cfg && Within(INITIAL) == INITIAL
    {
      this.cfg := cfg;
      cache, expires, group, flights, closings := map[], map[], map[], map[], 0;
    }

    /** The system, with these fields as its shared part. */
    ghost function Within(s: System): System
      reads this
    {
      s.(cache := cache, expires := expires, group := group, flights := flights, closings := closings)
    }

    /** The first half of serveSWR: read the cache and decide. */
    method Lookup(key: string, refresh: bool, now: int, answers: bool) returns (d: Decision)
      ensures forall s :: d == LookedUp(cfg, Within(s), key, refresh, now, answers)
    {
      var raw := None;
      if answers && key in cache {
        raw := Some(cache[key]);
      }
      d := Decide(cfg, key, raw, refresh, now);
    }

    /** Entering the group: join the flight of that name, or open one. */
    method Enter(key: string, background: bool, t: nat, f: nat) returns (joined: Option<nat>)
      modifies this`group, this`flights
      ensures var name := GroupName(key, background);
        if name in old(group) then joined == Some(old(group)[name]) && group == old(group) && flights == old(flights)
        else joined.None? && forall s :: Within(s) == Open(old(Within(s)), key, background, t, f)
    {
      var name := GroupName(key, background);
      if name in group {
        return Some(group[name]);
      }
      flights := flights[f := Flight(key, background, t, None, None)];
      group := group[name := f];
      joined := None;
    }

    /** Caching a response: encode it with the clock reading and set it for the hard lifetime. */
    method Cache(key: string, response: Response, at: int, kept: bool, put: int)
      requires IsInt64(Unix(at))
      modifies this`cache, this`expires
      ensures forall s :: Within(s) == Put(cfg, old(Within(s)), key, Envelope(Unix(at), response.body), kept, put)
    {
      var hardTTL := cfg.HardTTL(key);
      var out := EncodeEnvelope(at, response.body);
      if hardTTL <= 0 || !kept {
        return;
      }
      cache := cache[key := out[..]];
      expires := expires[key := put + hardTTL];
    }

    /** Leaving the group with an answer, or after a panic without one. */
    method Leave(key: string, background: bool, f: nat, answer: Option<nat>)
      requires f in flights
      modifies this`group, this`flights, this`closings
      ensures forall s :: Within(s) == Close(old(Within(s)), key, background, f, answer)
    {
      group := group - {GroupName(key, background)};
      flights := flights[f := flights[f].(answer := answer, closed := Some(closings))];
      closings := closings + 1;
    }
  }

  // ---------------------------------------------------------------------------
  // Reachable states
  // ---------------------------------------------------------------------------

  /** The states some interleaving reaches, with the number of steps it took. */
  ghost predicate Reachable(cfg: Config, s: System, steps: nat)
    decreases steps
  {
    if steps == 0 then s == INITIAL
    else exists p, a :: Reachable(cfg, p, steps - 1) && Enabled(cfg, p, a) && s == Step(cfg, p, a)
  }

  // ---------------------------------------------------------------------------
  // Invariants
  // ---------------------------------------------------------------------------

  /** Thread t runs the compute of flight f. */
  ghost predicate Runs(s: System, t: nat, key: string, background: bool, f: nat) {
    && t in s.threads && (s.threads[t].Computing? || s.threads[t].Returned?)
    && s.threads[t].key == key && s.threads[t].background == background && s.threads[t].flight == f
  }

  /** The group, the open flights and the running threads are three views of the same thing. */
  ghost predicate OneFlightPerName(s: System) {
    GroupIsRunning(s) && RunnersAreGrouped(s)
  }

  ghost predicate GroupIsRunning(s: System) {
    forall name :: name in s.group ==>
      var f := s.group[name];
      f in s.flights && s.flights[f].closed.None? && GroupName(s.flights[f].key, s.flights[f].background) == name
      && IsKey(s.flights[f].key) && Runs(s, s.flights[f].creator, s.flights[f].key, s.flights[f].background, f)
  }

  ghost predicate RunnersAreGrouped(s: System) {
    forall t :: t in s.threads && (s.threads[t].Computing? || s.threads[t].Returned?) ==>
      var me := s.threads[t];
      var name := GroupName(me.key, me.background);
      IsKey(me.key) && name in s.group && s.group[name] == me.flight
      && me.flight in s.flights && s.flights[me.flight].creator == t
  }

  ghost predicate KeysAreKeys(s: System) {
    forall t :: t in s.threads && !s.threads[t].Ended? ==> IsKey(s.threads[t].key)
  }

  /** Compute c was for the key. */
  ghost predicate ComputedFor(s: System, c: nat, key: string) {
    c < |s.computes| && s.computes[c].key == key
  }

  /** Write i was of this body for the key, from a cacheable compute for that key. */
  ghost predicate WrittenBy(cfg: Config, s: System, i: nat, key: string, body: seq<Byte>) {
    && i < |s.stores| && s.stores[i].key == key && ComputedFor(s, s.stores[i].compute, key)
    && cfg.cacheable(s.computes[s.stores[i].compute].response)
    && s.computes[s.stores[i].compute].response.body == body && IsInt64(Unix(s.stores[i].at))
  }

  /** The cache holds what write i put there, with the lifetime of that write. */
  ghost predicate Holds(cfg: Config, s: System, i: nat, key: string, body: seq<Byte>)
    requires WrittenBy(cfg, s, i, key, body) && key in s.cache
  {
    && s.cache[key] == Envelope(Unix(s.stores[i].at), body)
    && key in s.expires && s.expires[key] == s.stores[i].put + cfg.HardTTL(key)
  }

  ghost predicate CacheWasWritten(cfg: Config, s: System) {
    forall key :: key in s.cache ==> exists i: nat, body ::
      WrittenBy(cfg, s, i, key, body) && Holds(cfg, s, i, key, body)
  }

  /** A served body was written for its key; a hit is fresh and no refresh, a stale answer has a stale window. */
  ghost predicate ServedRight(cfg: Config, s: System, me: Thread, i: nat)
    requires me.Served?
  {
    && WrittenBy(cfg, s, i, me.key, me.body) && (cfg.honours ==> me.got < s.stores[i].put + cfg.HardTTL(me.key))
    && if me.stale then cfg.staleFor(me.key) > 0 else !me.refresh && me.now - s.stores[i].at <= cfg.freshTTL(me.key)
  }

  ghost predicate AllServedRight(cfg: Config, s: System) {
    forall t :: t in s.threads && s.threads[t].Served? ==> exists i: nat :: ServedRight(cfg, s, s.threads[t], i)
  }

  /** Flight f is for the key and is open, or closed no earlier than `since`. */
  ghost predicate OpenSince(s: System, f: nat, key: string, background: bool, since: nat) {
    && f in s.flights && s.flights[f].key == key && s.flights[f].background == background && since <= s.closings
    && (s.flights[f].closed.Some? ==> since <= s.flights[f].closed.value)
  }

  ghost predicate AnswersComputed(s: System) {
    && (forall t :: t in s.threads && s.threads[t].Returned? ==> ComputedFor(s, s.threads[t].compute, s.threads[t].key))
    && (forall f :: f in s.flights && s.flights[f].answer.Some? ==>
         ComputedFor(s, s.flights[f].answer.value, s.flights[f].key))
    && (forall f :: f in s.flights && s.flights[f].closed.None? ==> s.flights[f].answer.None?)
  }

  ghost predicate SinceIsPast(s: System) {
    forall t :: t in s.threads && !s.threads[t].Served? && !s.threads[t].Ended? ==> s.threads[t].since <= s.closings
  }

  ghost predicate AnsweredByOpenFlight(s: System, me: Thread)
    requires me.Answered?
  {
    && OpenSince(s, me.flight, me.key, false, me.since) && s.flights[me.flight].closed.Some?
    && s.flights[me.flight].answer == Some(me.compute) && ComputedFor(s, me.compute, me.key)
  }

  ghost predicate WaitersAndAnswers(s: System) {
    && (forall t :: t in s.threads && s.threads[t].Waiting? ==>
          OpenSince(s, s.threads[t].flight, s.threads[t].key, s.threads[t].background, s.threads[t].since))
    && (forall t :: t in s.threads && s.threads[t].Answered? ==> AnsweredByOpenFlight(s, s.threads[t]))
  }

  ghost predicate FlightInv(s: System) {
    KeysAreKeys(s) && OneFlightPerName(s) && SinceIsPast(s) && AnswersComputed(s) && WaitersAndAnswers(s)
  }

  ghost predicate CacheInv(cfg: Config, s: System) {
    CacheWasWritten(cfg, s) && AllServedRight(cfg, s)
  }

  /** Keys carry a prefix that the name of no revalidation has. */
  lemma NamesApart(key: string, background: bool, other: string, otherBackground: bool)
    requires IsKey(key) && IsKey(other) && GroupName(key, background) == GroupName(other, otherBackground)
    ensures key == other && background == otherBackground
  {
    assert "nagg:"[0] == 'n' && "revalidate:"[0] == 'r';
    if background && otherBackground {
      assert key == ("revalidate:" + key)[11..];
      assert other == ("revalidate:" + other)[11..];
    }
  }

  ghost predicate IsRunning(thread: Thread) {
    thread.Computing? || thread.Returned?
  }

  /** What a thread that runs no flight must satisfy. */
  ghost predicate Settled(s: System, thread: Thread) {
    && !IsRunning(thread)
    && (!thread.Ended? ==> IsKey(thread.key))
    && (!thread.Served? && !thread.Ended? ==> thread.since <= s.closings)
    && (thread.Waiting? ==> OpenSince(s, thread.flight, thread.key, thread.background, thread.since))
    && (thread.Answered? ==> AnsweredByOpenFlight(s, thread))
  }

  /** A thread that runs no flight may become any other such thread. */
  lemma BecomeKeepsFlights(s: System, t: nat, thread: Thread)
    requires FlightInv(s) && Settled(s, thread) && (t in s.threads ==> !IsRunning(s.threads[t]))
    ensures FlightInv(Become(s, t, thread))
  {
    BecomeKeepsGroup(s, t, thread);
    BecomeKeepsWaiters(s, t, thread);
  }

  lemma BecomeKeepsWaiters(s: System, t: nat, thread: Thread)
    requires WaitersAndAnswers(s) && Settled(s, thread)
    ensures WaitersAndAnswers(Become(s, t, thread))
  {
  }

  lemma BecomeKeepsGroup(s: System, t: nat, thread: Thread)
    requires OneFlightPerName(s) && !IsRunning(thread) && (t in s.threads ==> !IsRunning(s.threads[t]))
    ensures OneFlightPerName(Become(s, t, thread))
  {
  }

  lemma LookupKeepsFlights(cfg: Config, s: System, t: nat, answers: bool, got: int, worker: nat)
    requires FlightInv(s) && t in s.threads && s.threads[t].Asking? && worker !in s.threads
    ensures FlightInv(Look(cfg, s, t, answers, got, worker))
  {
    var me := s.threads[t];
    match LookedUp(cfg, s, me.key, me.refresh, me.now, answers)
    case Hit(body) => BecomeKeepsFlights(s, t, Served(me.key, me.refresh, me.now, got, false, body));
    case Stale(body) =>
      var served := Served(me.key, me.refresh, me.now, got, true, body);
      BecomeKeepsFlights(s, t, served);
      BecomeKeepsFlights(Become(s, t, served), worker, Joining(me.key, true, me.since));
    case Compute => BecomeKeepsFlights(s, t, Joining(me.key, false, me.since));
  }

  ghost function Launched(s: System, t: nat, f: nat, me: Thread): System
    requires me.Joining?
  {
    Become(Open(s, me.key, me.background, t, f), t, Computing(me.key, me.background, f, me.since))
  }

  lemma LaunchKeepsGroup(s: System, t: nat, f: nat, me: Thread)
    requires OneFlightPerName(s) && t in s.threads && s.threads[t] == me && me.Joining? && IsKey(me.key)
    requires f !in s.flights && GroupName(me.key, me.background) !in s.group
    ensures OneFlightPerName(Launched(s, t, f, me))
  {
    LaunchKeepsRunning(s, t, f, me);
    LaunchKeepsGrouped(s, t, f, me);
  }

  lemma LaunchKeepsRunning(s: System, t: nat, f: nat, me: Thread)
    requires GroupIsRunning(s) && t in s.threads && s.threads[t] == me && me.Joining? && IsKey(me.key)
      && f !in s.flights
    ensures GroupIsRunning(Launched(s, t, f, me))
  {
  }

  lemma LaunchKeepsGrouped(s: System, t: nat, f: nat, me: Thread)
    requires RunnersAreGrouped(s) && t in s.threads && s.threads[t] == me && me.Joining? && IsKey(me.key)
    requires f !in s.flights && GroupName(me.key, me.background) !in s.group
    ensures RunnersAreGrouped(Launched(s, t, f, me))
  {
  }

  lemma LaunchKeepsAnswers(s: System, t: nat, f: nat, me: Thread)
    requires AnswersComputed(s) && WaitersAndAnswers(s) && t in s.threads && s.threads[t] == me && me.Joining?
      && f !in s.flights
    ensures AnswersComputed(Launched(s, t, f, me)) && WaitersAndAnswers(Launched(s, t, f, me))
  {
  }

  lemma LaunchKeepsFlights(s: System, t: nat, f: nat, me: Thread)
    requires FlightInv(s) && t in s.threads && s.threads[t] == me && me.Joining?
    requires f !in s.flights && GroupName(me.key, me.background) !in s.group
    ensures FlightInv(Launched(s, t, f, me))
  {
    LaunchKeepsGroup(s, t, f, me);
    LaunchKeepsAnswers(s, t, f, me);
  }

  /** Joining a flight of the group: it is one of the very key. */
  lemma WaitKeepsFlights(s: System, t: nat, me: Thread)
    requires FlightInv(s) && t in s.threads && s.threads[t] == me && me.Joining?
      && GroupName(me.key, me.background) in s.group
    ensures FlightInv(Become(s, t, Waiting(me.key, me.background, s.group[GroupName(me.key, me.background)], me.since)))
  {
    var f := s.group[GroupName(me.key, me.background)];
    NamesApart(me.key, me.background, s.flights[f].key, s.flights[f].background);
    BecomeKeepsFlights(s, t, Waiting(me.key, me.background, f, me.since));
  }

  lemma JoinKeepsFlights(cfg: Config, s: System, t: nat, f: nat)
    requires FlightInv(s) && Enabled(cfg, s, Join(t, f))
    ensures FlightInv(Step(cfg, s, Join(t, f)))
  {
    var me := s.threads[t];
    if GroupName(me.key, me.background) in s.group {
      WaitKeepsFlights(s, t, me);
    } else {
      LaunchKeepsFlights(s, t, f, me);
    }
  }

  lemma ReturnKeepsGroup(cfg: Config, s: System, t: nat, response: Response)
    requires OneFlightPerName(s) && Enabled(cfg, s, Return(t, response))
    ensures OneFlightPerName(Step(cfg, s, Return(t, response)))
  {
  }

  lemma ReturnKeepsFlights(cfg: Config, s: System, t: nat, response: Response)
    requires FlightInv(s) && Enabled(cfg, s, Return(t, response))
    ensures FlightInv(Step(cfg, s, Return(t, response)))
  {
    ReturnKeepsGroup(cfg, s, t, response);
    ReturnKeepsAnswers(cfg, s, t, response);
  }

  lemma ReturnKeepsAnswers(cfg: Config, s: System, t: nat, response: Response)
    requires AnswersComputed(s) && WaitersAndAnswers(s) && Enabled(cfg, s, Return(t, response))
    ensures AnswersComputed(Step(cfg, s, Return(t, response))) && WaitersAndAnswers(Step(cfg, s, Return(t, response)))
  {
  }

  lemma StoreKeepsFlights(cfg: Config, s: System, t: nat, at: int, kept: bool, put: int)
    requires FlightInv(s) && Enabled(cfg, s, Store(t, at, kept, put))
    ensures FlightInv(Step(cfg, s, Store(t, at, kept, put)))
  {
    MarkKeepsFlights(s, t);
    CacheIsApart(Become(s, t, s.threads[t].(stored := true)), Step(cfg, s, Store(t, at, kept, put)));
  }

  /** The flights do not depend on what is cached. */
  lemma CacheIsApart(s: System, s': System)
    requires FlightInv(s) && s' == s.(cache := s'.cache, expires := s'.expires, stores := s'.stores)
    ensures FlightInv(s')
  {
  }

  lemma MarkKeepsFlights(s: System, t: nat)
    requires FlightInv(s) && t in s.threads && s.threads[t].Returned?
    ensures FlightInv(Become(s, t, s.threads[t].(stored := true)))
  {
    MarkKeepsGroup(s, t);
  }

  lemma MarkKeepsGroup(s: System, t: nat)
    requires OneFlightPerName(s) && t in s.threads && s.threads[t].Returned?
    ensures OneFlightPerName(Become(s, t, s.threads[t].(stored := true)))
  {
  }

  /** Thread t closes its flight and is settled. */
  ghost function Closed(s: System, t: nat, answer: Option<nat>, thread: Thread): System
    requires t in s.threads && IsRunning(s.threads[t]) && s.threads[t].flight in s.flights
  {
    Become(Close(s, s.threads[t].key, s.threads[t].background, s.threads[t].flight, answer), t, thread)
  }

  lemma CloseKeepsGroup(s: System, t: nat, answer: Option<nat>, thread: Thread)
    requires OneFlightPerName(s) && t in s.threads && IsRunning(s.threads[t]) && s.threads[t].flight in s.flights
    requires !IsRunning(thread)
    ensures OneFlightPerName(Closed(s, t, answer, thread))
  {
  }

  lemma CloseKeepsAnswers(s: System, t: nat, answer: Option<nat>, thread: Thread)
    requires FlightInv(s) && t in s.threads && IsRunning(s.threads[t]) && s.threads[t].flight in s.flights
    requires !IsRunning(thread) && (answer.Some? ==> ComputedFor(s, answer.value, s.threads[t].key))
    ensures AnswersComputed(Closed(s, t, answer, thread))
  {
  }

  lemma CloseKeepsWaiters(s: System, t: nat, answer: Option<nat>, thread: Thread)
    requires OneFlightPerName(s) && SinceIsPast(s) && AnswersComputed(s) && WaitersAndAnswers(s)
    requires t in s.threads && IsRunning(s.threads[t]) && s.threads[t].flight in s.flights
    requires thread.Ended? || (answer.Some? && ComputedFor(s, answer.value, s.threads[t].key)
      && !s.threads[t].background
      && thread == Answered(s.threads[t].key, s.threads[t].flight, answer.value, s.threads[t].since))
    ensures WaitersAndAnswers(Closed(s, t, answer, thread))
  {
    var s' := Closed(s, t, answer, thread);
    forall u | u in s'.threads && s'.threads[u].Waiting?
      ensures OpenSince(s', s'.threads[u].flight, s'.threads[u].key, s'.threads[u].background, s'.threads[u].since)
    {
      assert u != t && s'.threads[u] == s.threads[u];
    }
    forall u | u in s'.threads && s'.threads[u].Answered? ensures AnsweredByOpenFlight(s', s'.threads[u]) {
      if u != t {
        assert s.flights[s.threads[u].flight].closed.Some?;
        assert s.threads[u].flight != s.threads[t].flight;
      }
    }
  }

  lemma CloseKeepsFlights(s: System, t: nat, answer: Option<nat>, thread: Thread)
    requires FlightInv(s) && t in s.threads && IsRunning(s.threads[t]) && s.threads[t].flight in s.flights
    requires answer.Some? ==> ComputedFor(s, answer.value, s.threads[t].key)
    requires thread.Ended? || (answer.Some? && !s.threads[t].background
      && thread == Answered(s.threads[t].key, s.threads[t].flight, answer.value, s.threads[t].since))
    ensures FlightInv(Closed(s, t, answer, thread))
  {
    CloseKeepsGroup(s, t, answer, thread);
    CloseKeepsAnswers(s, t, answer, thread);
    CloseKeepsWaiters(s, t, answer, thread);
  }

  lemma WakeKeepsFlights(cfg: Config, s: System, t: nat)
    requires FlightInv(s) && Enabled(cfg, s, Wake(t))
    ensures FlightInv(Step(cfg, s, Wake(t)))
  {
    var me := s.threads[t];
    var answer := s.flights[me.flight].answer;
    BecomeKeepsFlights(s, t, if me.background || answer.None? then Ended
                             else Answered(me.key, me.flight, answer.value, me.since));
  }

  lemma AskKeepsFlights(cfg: Config, s: System, t: nat, key: string, refresh: bool, now: int)
    requires FlightInv(s) && Enabled(cfg, s, Ask(t, key, refresh, now))
    ensures FlightInv(Step(cfg, s, Ask(t, key, refresh, now)))
  {
    BecomeKeepsFlights(s, t, Asking(key, refresh, now, s.closings));
  }

  lemma FinishKeepsFlights(cfg: Config, s: System, t: nat)
    requires FlightInv(s) && Enabled(cfg, s, Finish(t))
    ensures FlightInv(Step(cfg, s, Finish(t)))
  {
    var me := s.threads[t];
    CloseKeepsFlights(s, t, Some(me.compute),
                      if me.background then Ended else Answered(me.key, me.flight, me.compute, me.since));
  }

  lemma StepKeepsFlights(cfg: Config, s: System, a: Action)
    requires FlightInv(s) && Enabled(cfg, s, a)
    ensures FlightInv(Step(cfg, s, a))
  {
    match a
    case Ask(t, key, refresh, now) => AskKeepsFlights(cfg, s, t, key, refresh, now);
    case Lookup(t, answers, got, worker) => LookupKeepsFlights(cfg, s, t, answers, got, worker);
    case Join(t, f) => JoinKeepsFlights(cfg, s, t, f);
    case Return(t, response) => ReturnKeepsFlights(cfg, s, t, response);
    case Store(t, at, kept, put) => StoreKeepsFlights(cfg, s, t, at, kept, put);
    case Finish(t) => FinishKeepsFlights(cfg, s, t);
    case Panic(t) => CloseKeepsFlights(s, t, None, Ended);
    case Wake(t) => WakeKeepsFlights(cfg, s, t);
    case Vanish(_) => CacheIsApart(s, Step(cfg, s, a));
  }

  // ---------------------------------------------------------------------------
  // Where cached bodies come from
  // ---------------------------------------------------------------------------

  lemma WrittenStays(cfg: Config, s: System, s': System, i: nat, key: string, body: seq<Byte>)
    requires WrittenBy(cfg, s, i, key, body) && s.computes <= s'.computes && s.stores <= s'.stores
    ensures WrittenBy(cfg, s', i, key, body) && s'.stores[i] == s.stores[i]
  {
  }

  lemma LogsGrow(cfg: Config, s: System, a: Action)
    requires Enabled(cfg, s, a)
    ensures var s' := Step(cfg, s, a); s.computes <= s'.computes && s.stores <= s'.stores
  {
    match a
    case Ask(_, _, _, _) =>
    case Lookup(_, _, _, _) =>
    case Join(_, _) =>
    case Return(_, _) =>
    case Store(_, _, _, _) =>
    case Finish(_) =>
    case Panic(_) =>
    case Wake(_) =>
    case Vanish(_) =>
  }

  /** What the cache holds for a key after a step was there before, or was just stored. */
  lemma CacheChanges(cfg: Config, s: System, a: Action, key: string)
    requires Enabled(cfg, s, a) && key in Step(cfg, s, a).cache
    ensures var s' := Step(cfg, s, a);
      || (key in s.cache && s'.cache[key] == s.cache[key]
           && (key in s.expires ==> key in s'.expires && s'.expires[key] == s.expires[key]))
      || (a.Store? && s.threads[a.t].key == key
           && s'.stores == s.stores + [Stored(key, s.threads[a.t].compute, a.at, a.put)]
          && s'.cache[key] == Envelope(Unix(a.at), s.computes[s.threads[a.t].compute].response.body)
          && key in s'.expires && s'.expires[key] == a.put + cfg.HardTTL(key))
  {
    match a
    case Ask(_, _, _, _) =>
    case Lookup(_, _, _, _) =>
    case Join(_, _) =>
    case Return(_, _) =>
    case Store(t, at, kept, put) => PutChanges(cfg, s, a, key);
    case Finish(_) =>
    case Panic(_) =>
    case Wake(_) =>
    case Vanish(_) =>
  }

  lemma PutChanges(cfg: Config, s: System, a: Action, key: string)
    requires a.Store? && Enabled(cfg, s, a) && key in Step(cfg, s, a).cache
    ensures var s', me := Step(cfg, s, a), s.threads[a.t];
      if a.kept && cfg.HardTTL(me.key) > 0 && key == me.key then
        && s'.cache[key] == Envelope(Unix(a.at), s.computes[me.compute].response.body)
        && key in s'.expires && s'.expires[key] == a.put + cfg.HardTTL(key)
      else
        && key in s.cache && s'.cache[key] == s.cache[key]
        && (key in s.expires ==> key in s'.expires && s'.expires[key] == s.expires[key])
    ensures Step(cfg, s, a).stores == s.stores + [Stored(s.threads[a.t].key, s.threads[a.t].compute, a.at, a.put)]
  {
  }

  lemma StepKeepsCache(cfg: Config, s: System, a: Action)
    requires FlightInv(s) && CacheWasWritten(cfg, s) && Enabled(cfg, s, a)
    ensures CacheWasWritten(cfg, Step(cfg, s, a))
  {
    var s' := Step(cfg, s, a);
    LogsGrow(cfg, s, a);
    forall key | key in s'.cache
      ensures exists i: nat, body :: WrittenBy(cfg, s', i, key, body) && Holds(cfg, s', i, key, body)
    {
      CacheChanges(cfg, s, a, key);
      if a.Store? && s.threads[a.t].key == key
        && s'.stores == s.stores + [Stored(key, s.threads[a.t].compute, a.at, a.put)]
         && s'.cache[key] == Envelope(Unix(a.at), s.computes[s.threads[a.t].compute].response.body)
         && key in s'.expires && s'.expires[key] == a.put + cfg.HardTTL(key) {
        var c := s.threads[a.t].compute;
        assert WrittenBy(cfg, s', |s.stores|, key, s.computes[c].response.body);
        assert Holds(cfg, s', |s.stores|, key, s.computes[c].response.body);
      } else {
        var i: nat, body :| WrittenBy(cfg, s, i, key, body) && Holds(cfg, s, i, key, body);
        WrittenStays(cfg, s, s', i, key, body);
        assert Holds(cfg, s', i, key, body);
      }
    }
  }

  lemma LookServes(cfg: Config, s: System, t: nat, answers: bool, got: int, worker: nat)
    requires t in s.threads && s.threads[t].Asking? && worker !in s.threads
    ensures var me, s' := s.threads[t], Look(cfg, s, t, answers, got, worker);
      var d := LookedUp(cfg, s, me.key, me.refresh, me.now, answers);
      && s'.stores == s.stores && s'.computes == s.computes
      && if d.Compute? then !s'.threads[t].Served?
         else s'.threads[t] == Served(me.key, me.refresh, me.now, got, d.Stale?, d.body)
  {
  }

  /** What a lookup serves was written for its key, and its window and age are right. */
  lemma LookupServesRight(cfg: Config, s: System, t: nat, answers: bool, got: int, worker: nat)
    requires CacheWasWritten(cfg, s) && Enabled(cfg, s, Lookup(t, answers, got, worker))
    ensures var s' := Look(cfg, s, t, answers, got, worker);
      s'.threads[t].Served? ==> exists i: nat :: ServedRight(cfg, s', s'.threads[t], i)
  {
    var me, s' := s.threads[t], Look(cfg, s, t, answers, got, worker);
    LookServes(cfg, s, t, answers, got, worker);
    if s'.threads[t].Served? {
      var i: nat, body :| WrittenBy(cfg, s, i, me.key, body) && Holds(cfg, s, i, me.key, body);
      HitAges(cfg, me.key, s.stores[i].at, body, me.refresh, me.now);
      assert WrittenBy(cfg, s', i, me.key, body);
      assert ServedRight(cfg, s', s'.threads[t], i);
    }
  }

  /** A lookup serves nobody but the thread that asked. */
  lemma LookServesOne(cfg: Config, s: System, t: nat, answers: bool, got: int, worker: nat, u: nat)
    requires t in s.threads && s.threads[t].Asking? && u != t
    requires var s' := Look(cfg, s, t, answers, got, worker); u in s'.threads && s'.threads[u].Served?
    ensures u in s.threads && Look(cfg, s, t, answers, got, worker).threads[u] == s.threads[u]
  {
  }

  /** A served thread was served before the step, or by this very lookup. */
  lemma ServedChanges(cfg: Config, s: System, a: Action, t: nat)
    requires Enabled(cfg, s, a) && t in Step(cfg, s, a).threads && Step(cfg, s, a).threads[t].Served?
    ensures (t in s.threads && s.threads[t] == Step(cfg, s, a).threads[t]) || (a.Lookup? && a.t == t)
  {
    match a
    case Ask(_, _, _, _) =>
    case Lookup(u, answers, got, worker) =>
      if t != u {
        LookServesOne(cfg, s, u, answers, got, worker, t);
      }
    case Join(_, _) =>
    case Return(_, _) =>
    case Store(_, _, _, _) =>
    case Finish(_) =>
    case Panic(_) =>
    case Wake(_) =>
    case Vanish(_) =>
  }

  lemma StepKeepsServed(cfg: Config, s: System, a: Action)
    requires CacheInv(cfg, s) && Enabled(cfg, s, a)
    ensures AllServedRight(cfg, Step(cfg, s, a))
  {
    var s' := Step(cfg, s, a);
    LogsGrow(cfg, s, a);
    forall t | t in s'.threads && s'.threads[t].Served?
      ensures exists i: nat :: ServedRight(cfg, s', s'.threads[t], i)
    {
      ServedChanges(cfg, s, a, t);
      if a.Lookup? && a.t == t {
        LookupServesRight(cfg, s, t, a.answers, a.got, a.worker);
      } else {
        var i: nat :| ServedRight(cfg, s, s.threads[t], i);
        WrittenStays(cfg, s, s', i, s.threads[t].key, s.threads[t].body);
        assert ServedRight(cfg, s', s'.threads[t], i);
      }
    }
  }

  // ---------------------------------------------------------------------------
  // Every interleaving
  // ---------------------------------------------------------------------------

  ghost predicate Sound(cfg: Config, s: System) {
    FlightInv(s) && CacheInv(cfg, s)
  }

  lemma StepKeepsSound(cfg: Config, s: System, a: Action)
    requires Sound(cfg, s) && Enabled(cfg, s, a)
    ensures Sound(cfg, Step(cfg, s, a))
  {
    StepKeepsFlights(cfg, s, a);
    StepKeepsCache(cfg, s, a);
    StepKeepsServed(cfg, s, a);
  }

  lemma LastStep(cfg: Config, s: System, steps: nat) returns (p: System, a: Action)
    requires steps > 0 && Reachable(cfg, s, steps)
    ensures Reachable(cfg, p, steps - 1) && Enabled(cfg, p, a) && s == Step(cfg, p, a)
  {
    p, a :| Reachable(cfg, p, steps - 1) && Enabled(cfg, p, a) && s == Step(cfg, p, a);
  }

  lemma {:induction false} EveryStateIsSound(cfg: Config, steps: nat)
    ensures forall s :: Reachable(cfg, s, steps) ==> Sound(cfg, s)
    decreases steps
  {
    if steps > 0 {
      EveryStateIsSound(cfg, steps - 1);
      forall s | Reachable(cfg, s, steps) ensures Sound(cfg, s) {
        var p, a := LastStep(cfg, s, steps);
        StepKeepsSound(cfg, p, a);
      }
    }
  }

  /** At most one miss compute and one revalidation of a key run at once. */
  lemma OneComputePerName(cfg: Config, s: System, steps: nat, key: string, background: bool, t: nat, u: nat, f: nat,
                          g: nat)
    requires Reachable(cfg, s, steps) && Runs(s, t, key, background, f) && Runs(s, u, key, background, g)
    ensures t == u && f == g
  {
    EveryStateIsSound(cfg, steps);
  }

  /** Every hit and every stale body came from a cacheable compute for that key that had already finished. */
  lemma ServedWasComputed(cfg: Config, s: System, steps: nat, t: nat)
    requires Reachable(cfg, s, steps) && t in s.threads && s.threads[t].Served?
    ensures exists c: nat :: GaveBody(cfg, s, c, s.threads[t].key, s.threads[t].body)
  {
    EveryStateIsSound(cfg, steps);
    var i: nat :| ServedRight(cfg, s, s.threads[t], i);
    assert GaveBody(cfg, s, s.stores[i].compute, s.threads[t].key, s.threads[t].body);
  }

  ghost predicate GaveBody(cfg: Config, s: System, c: nat, key: string, body: seq<Byte>) {
    ComputedFor(s, c, key) && cfg.cacheable(s.computes[c].response) && s.computes[c].response.body == body
  }

  /** Write i put the body under the key no longer than the fresh window before the reading `now`. */
  ghost predicate FreshFrom(cfg: Config, s: System, i: nat, key: string, body: seq<Byte>, now: int) {
    WrittenBy(cfg, s, i, key, body) && now - s.stores[i].at <= cfg.freshTTL(key)
  }

  /** A hit is never older than the fresh window, and never answers a refresh. */
  lemma HitsAreFresh(cfg: Config, s: System, steps: nat, t: nat)
    requires Reachable(cfg, s, steps) && t in s.threads && s.threads[t].Served? && !s.threads[t].stale
    ensures !s.threads[t].refresh
    ensures exists i: nat :: FreshFrom(cfg, s, i, s.threads[t].key, s.threads[t].body, s.threads[t].now)
  {
    EveryStateIsSound(cfg, steps);
    var i: nat :| ServedRight(cfg, s, s.threads[t], i);
    assert FreshFrom(cfg, s, i, s.threads[t].key, s.threads[t].body, s.threads[t].now);
  }

  /** Without a stale window, a cached body is served only within the fresh window and never to a refresh. */
  lemma NoStaleWindow(cfg: Config, s: System, steps: nat, t: nat)
    requires Reachable(cfg, s, steps) && t in s.threads && s.threads[t].Served? && cfg.staleFor(s.threads[t].key) <= 0
    ensures !s.threads[t].stale && !s.threads[t].refresh
    ensures exists i: nat :: FreshFrom(cfg, s, i, s.threads[t].key, s.threads[t].body, s.threads[t].now)
  {
    EveryStateIsSound(cfg, steps);
    var i: nat :| ServedRight(cfg, s, s.threads[t], i);
    HitsAreFresh(cfg, s, steps, t);
  }

  /** A miss is answered by a compute for its key whose flight closed after the request began. */
  lemma MissesAreCurrent(cfg: Config, s: System, steps: nat, t: nat)
    requires Reachable(cfg, s, steps) && t in s.threads && s.threads[t].Answered?
    ensures ComputedFor(s, s.threads[t].compute, s.threads[t].key)
    ensures var f := s.threads[t].flight;
      f in s.flights && s.flights[f].answer == Some(s.threads[t].compute) && !s.flights[f].background
      && s.flights[f].closed.Some? && s.flights[f].closed.value >= s.threads[t].since
  {
    EveryStateIsSound(cfg, steps);
  }

  /** The backend took write i less than the hard lifetime before it answered. */
  ghost predicate AliveFrom(cfg: Config, s: System, i: nat, key: string, body: seq<Byte>, got: int) {
    WrittenBy(cfg, s, i, key, body) && got < s.stores[i].put + cfg.HardTTL(key)
  }

  /**
   * From a backend that honours lifetimes, no served body, stale or not, is older than
   * the two windows together, counted from when the backend took it to when it answered.
   */
  lemma StaleAnswersExpire(cfg: Config, s: System, steps: nat, t: nat)
    requires Reachable(cfg, s, steps) && t in s.threads && s.threads[t].Served? && cfg.honours
    ensures exists i: nat :: AliveFrom(cfg, s, i, s.threads[t].key, s.threads[t].body, s.threads[t].got)
  {
    EveryStateIsSound(cfg, steps);
    var i: nat :| ServedRight(cfg, s, s.threads[t], i);
    assert AliveFrom(cfg, s, i, s.threads[t].key, s.threads[t].body, s.threads[t].got);
  }
}
