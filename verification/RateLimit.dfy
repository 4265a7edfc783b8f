/**
 * The per-client rate limiter of the app view: internal/appview/rate_limit.go.
 */
module RateLimit {
  import opened Wrappers

  datatype Bucket = Bucket(resetAt: int, count: nat)

  /** The limiter's fields; lastPrune is None until the first call. */
  datatype State = State(buckets: map<string, Bucket>, lastPrune: Option<int>)

  /** A request of a client, with the clock reading taken for it. */
  datatype Request = Request(client: string, now: int)

  // ---------------------------------------------------------------------------
  // The limiter that never prunes
  // ---------------------------------------------------------------------------

  predicate Admits(buckets: map<string, Bucket>, limit: nat, r: Request) {
    r.client in buckets && r.now <= buckets[r.client].resetAt ==> buckets[r.client].count < limit
  }

  function Charge(buckets: map<string, Bucket>, limit: nat, window: nat, r: Request): map<string, Bucket> {
    if r.client !in buckets || r.now > buckets[r.client].resetAt then buckets[r.client := Bucket(r.now + window, 1)]
    else if buckets[r.client].count >= limit then buckets
    else buckets[r.client := buckets[r.client].(count := buckets[r.client].count + 1)]
  }

  /** The buckets after a run, by the limiter that keeps every bucket forever. */
  function NaiveBuckets(limit: nat, window: nat, run: seq<Request>): map<string, Bucket> {
    if run == [] then map[] else Charge(NaiveBuckets(limit, window, run[..|run| - 1]), limit, window, run[|run| - 1])
  }

  /** Whether the i-th request of the run is admitted by the limiter that never prunes. */
  predicate Admitted(limit: nat, window: nat, run: seq<Request>, i: nat)
    requires i < |run|
  {
    Admits(NaiveBuckets(limit, window, run[..i]), limit, run[i])
  }

  // ---------------------------------------------------------------------------
  // The limiter
  // ---------------------------------------------------------------------------

  function Pruned(s: State, window: nat, now: int): State {
    if s.lastPrune.None? || now - s.lastPrune.value > window then
      State(map client | client in s.buckets && now <= s.buckets[client].resetAt :: s.buckets[client], Some(now))
    else s
  }

  function Allowed(s: State, limit: nat, window: nat, r: Request): (State, bool) {
    var p := Pruned(s, window, r.now);
    (p.(buckets := Charge(p.buckets, limit, window, r)), Admits(p.buckets, limit, r))
  }

  class RateLimiter {
    const limit: nat
    const window: nat
    var buckets: map<string, Bucket>
    var lastPrune: Option<int>

    constructor (limit: int, window: int)
      ensures this.limit == (if limit <= 0 then 120 else limit)
        && this.window == (if window <= 0 then 60_000_000_000 else window)
      ensures Fields() == State(map[], None)
    {
      this.limit := if limit <= 0 then 120 else limit;
      this.window := if window <= 0 then 60_000_000_000 else window;
      buckets, lastPrune := map[], None;
    }

    ghost function Fields(): State
      reads this
    {
      State(buckets, lastPrune)
    }

    method Prune(now: int)
      modifies this`buckets
      ensures buckets == map client | client in old(buckets)
        && now <= old(buckets)[client].resetAt :: old(buckets)[client]
    {
      var todo := buckets.Keys;
      while todo != {}
        invariant todo <= buckets.Keys <= old(buckets).Keys
        invariant forall client :: client in buckets ==> buckets[client] == old(buckets)[client]
        invariant forall client :: client in old(buckets) && client !in todo ==>
          (client in buckets <==> now <= old(buckets)[client].resetAt)
      {
        var client :| client in todo;
        if now > buckets[client].resetAt {
          buckets := buckets - {client};
        }
        todo := todo - {client};
      }
    }

    method Allow(client: string, now: int) returns (ok: bool)
      modifies this
      ensures (Fields(), ok) == old(Allowed(Fields(), limit, window, Request(client, now)))
    {
      if lastPrune.None? || now - lastPrune.value > window {
        Prune(now);
        lastPrune := Some(now);
      }
      if client !in buckets || now > buckets[client].resetAt {
        buckets := buckets[client := Bucket(now + window, 1)];
        return true;
      }
      var bucket := buckets[client];
      if bucket.count >= limit {
        return false;
      }
      bucket := bucket.(count := bucket.count + 1);
      buckets := buckets[client := bucket];
      ok := true;
    }
  }

  // ---------------------------------------------------------------------------
  // Pruning against never pruning
  // ---------------------------------------------------------------------------

  function StateAfter(limit: nat, window: nat, run: seq<Request>): State {
    if run == [] then State(map[], None)
    else Allowed(StateAfter(limit, window, run[..|run| - 1]), limit, window, run[|run| - 1]).0
  }

  /** What the limiter answers to the i-th request of the run. */
  predicate Answer(limit: nat, window: nat, run: seq<Request>, i: nat)
    requires i < |run|
  {
    Allowed(StateAfter(limit, window, run[..i]), limit, window, run[i]).1
  }

  /** From the i-th request on, the limiter answers the run as the one that never prunes. */
  ghost predicate AlikeFrom(limit: nat, window: nat, run: seq<Request>, from: nat) {
    forall i :: from <= i < |run| ==> Answer(limit, window, run, i) == Admitted(limit, window, run, i)
  }

  /** Clock readings do not go back, in the order in which the lock is taken. */
  predicate Monotone(run: seq<Request>) {
    forall i, j :: 0 <= i < j < |run| ==> run[i].now <= run[j].now
  }

  /** The two maps have the same buckets, but for those that are over by `now`. */
  predicate Agree(kept: map<string, Bucket>, naive: map<string, Bucket>, now: int) {
    && (forall c :: c in naive && naive[c].resetAt >= now ==> c in kept && kept[c] == naive[c])
    && (forall c :: c in kept && kept[c].resetAt >= now ==> c in naive && naive[c] == kept[c])
  }

  lemma AllowedAgrees(s: State, naive: map<string, Bucket>, limit: nat, window: nat, r: Request)
    requires Agree(s.buckets, naive, r.now)
    ensures var (s', ok) := Allowed(s, limit, window, r);
      ok == Admits(naive, limit, r) && Agree(s'.buckets, Charge(naive, limit, window, r), r.now)
  {
  }

  lemma {:induction false} AgreementLasts(limit: nat, window: nat, run: seq<Request>, later: seq<Request>, t: int,
                                          now: int)
    requires Agree(StateAfter(limit, window, run).buckets, NaiveBuckets(limit, window, run), t) && t <= now
    requires Monotone(later) && forall r :: r in later ==> t <= r.now <= now
    ensures Agree(StateAfter(limit, window, run + later).buckets, NaiveBuckets(limit, window, run + later), now)
    decreases |later|
  {
    if later == [] {
      assert run + later == run;
    } else {
      var front, last := later[..|later| - 1], later[|later| - 1];
      assert (run + later)[..|run + later| - 1] == run + front;
      AgreementLasts(limit, window, run, front, t, last.now);
      AllowedAgrees(StateAfter(limit, window, run + front), NaiveBuckets(limit, window, run + front), limit, window,
                    last);
    }
  }

  /** While the maps agree from t on, no later reading at or after t tells the limiters apart. */
  lemma AgreeingIsUnobservable(limit: nat, window: nat, run: seq<Request>, later: seq<Request>, t: int)
    requires Agree(StateAfter(limit, window, run).buckets, NaiveBuckets(limit, window, run), t)
    requires Monotone(later) && forall r :: r in later ==> t <= r.now
    ensures AlikeFrom(limit, window, run + later, |run|)
  {
    forall i | |run| <= i < |run + later|
      ensures Answer(limit, window, run + later, i) == Admitted(limit, window, run + later, i)
    {
      var n := i - |run|;
      assert (run + later)[..i] == run + later[..n] && (run + later)[i] == later[n];
      AgreementLasts(limit, window, run, later[..n], t, later[n].now);
      AllowedAgrees(StateAfter(limit, window, run + later[..n]), NaiveBuckets(limit, window, run + later[..n]), limit,
                    window, later[n]);
    }
  }

  // ---------------------------------------------------------------------------
  // Telling bucket maps apart
  // ---------------------------------------------------------------------------

  /** What the client has used of its limit at the reading. */
  function Used(buckets: map<string, Bucket>, client: string, now: int): nat {
    if client in buckets && now <= buckets[client].resetAt then buckets[client].count else 0
  }

  predicate InRange(buckets: map<string, Bucket>, limit: nat) {
    forall c :: c in buckets ==> 1 <= buckets[c].count <= limit
  }

  lemma {:induction false} CountsInRange(limit: nat, window: nat, run: seq<Request>)
    requires limit > 0
    ensures InRange(StateAfter(limit, window, run).buckets, limit) && InRange(NaiveBuckets(limit, window, run), limit)
  {
    if run != [] {
      CountsInRange(limit, window, run[..|run| - 1]);
    }
  }

  function Burst(client: string, now: int, n: nat): seq<Request> {
    if n == 0 then [] else Burst(client, now, n - 1) + [Request(client, now)]
  }

  function Capped(limit: nat, n: nat): nat {
    if n < limit then n else limit
  }

  /** A request is counted up to the limit. */
  lemma ChargeUses(buckets: map<string, Bucket>, limit: nat, window: nat, r: Request)
    requires InRange(buckets, limit) && limit > 0
    ensures var after := Charge(buckets, limit, window, r);
      && Used(after, r.client, r.now) == Capped(limit, Used(buckets, r.client, r.now) + 1)
      && Admits(buckets, limit, r) == (Used(buckets, r.client, r.now) < limit)
  {
  }

  lemma PruneKeepsUses(s: State, limit: nat, window: nat, client: string, now: int)
    requires InRange(s.buckets, limit)
    ensures var p := Pruned(s, window, now);
      && InRange(p.buckets, limit) && Used(p.buckets, client, now) == Used(s.buckets, client, now)
  {
  }

  /** What one more request does to a run. */
  lemma OneMore(limit: nat, window: nat, run: seq<Request>, r: Request)
    ensures (StateAfter(limit, window, run + [r]), Answer(limit, window, run + [r], |run|))
      == Allowed(StateAfter(limit, window, run), limit, window, r)
    ensures NaiveBuckets(limit, window, run + [r]) == Charge(NaiveBuckets(limit, window, run), limit, window, r)
    ensures Admitted(limit, window, run + [r], |run|) == Admits(NaiveBuckets(limit, window, run), limit, r)
  {
    assert (run + [r])[..|run|] == run;
  }

  /** What the client has used, as the limiter and as the one that never prunes count it. */
  function UsedKept(limit: nat, window: nat, run: seq<Request>, client: string, now: int): nat {
    Used(StateAfter(limit, window, run).buckets, client, now)
  }

  function UsedNaive(limit: nat, window: nat, run: seq<Request>, client: string, now: int): nat {
    Used(NaiveBuckets(limit, window, run), client, now)
  }

  lemma OneUses(limit: nat, window: nat, run: seq<Request>, r: Request)
    requires limit > 0
    ensures UsedKept(limit, window, run + [r], r.client, r.now)
      == Capped(limit, UsedKept(limit, window, run, r.client, r.now) + 1)
    ensures UsedNaive(limit, window, run + [r], r.client, r.now)
      == Capped(limit, UsedNaive(limit, window, run, r.client, r.now) + 1)
    ensures Answer(limit, window, run + [r], |run|) == (UsedKept(limit, window, run, r.client, r.now) < limit)
    ensures Admitted(limit, window, run + [r], |run|) == (UsedNaive(limit, window, run, r.client, r.now) < limit)
  {
    OneMore(limit, window, run, r);
    CountsInRange(limit, window, run);
    PruneKeepsUses(StateAfter(limit, window, run), limit, window, r.client, r.now);
    ChargeUses(Pruned(StateAfter(limit, window, run), window, r.now).buckets, limit, window, r);
    ChargeUses(NaiveBuckets(limit, window, run), limit, window, r);
  }

  lemma BurstGrows(run: seq<Request>, client: string, now: int, n: nat)
    ensures run + Burst(client, now, n + 1) == (run + Burst(client, now, n)) + [Request(client, now)]
    ensures run + Burst(client, now, 0) == run
  {
  }

  lemma {:induction false} BurstUses(limit: nat, window: nat, run: seq<Request>, client: string, now: int, n: nat)
    requires limit > 0
    ensures UsedKept(limit, window, run + Burst(client, now, n), client, now)
      == Capped(limit, UsedKept(limit, window, run, client, now) + n)
    ensures UsedNaive(limit, window, run + Burst(client, now, n), client, now)
      == Capped(limit, UsedNaive(limit, window, run, client, now) + n)
    decreases n
  {
    if n == 0 {
      BurstGrows(run, client, now, 0);
      CountsInRange(limit, window, run);
    } else {
      BurstUses(limit, window, run, client, now, n - 1);
      OneBurstUses(limit, window, run, client, now, n);
    }
  }

  lemma OneBurstUses(limit: nat, window: nat, run: seq<Request>, client: string, now: int, n: nat)
    requires limit > 0 && n > 0
    ensures UsedKept(limit, window, run + Burst(client, now, n), client, now)
         == Capped(limit, UsedKept(limit, window, run + Burst(client, now, n - 1), client, now) + 1)
    ensures UsedNaive(limit, window, run + Burst(client, now, n), client, now)
         == Capped(limit, UsedNaive(limit, window, run + Burst(client, now, n - 1), client, now) + 1)
  {
    var before, r := run + Burst(client, now, n - 1), Request(client, now);
    OneUses(limit, window, before, r);
    assert run + Burst(client, now, n) == before + [r] by {
      BurstGrows(run, client, now, n - 1);
    }
  }

  /** What the (n+1)-th request of a burst is answered. */
  lemma BurstAnswers(limit: nat, window: nat, run: seq<Request>, client: string, now: int, n: nat)
    requires limit > 0
    ensures var longer := run + Burst(client, now, n + 1);
      && |longer| == |run| + n + 1
      && Answer(limit, window, longer, |run| + n) == (UsedKept(limit, window, run, client, now) + n < limit)
      && Admitted(limit, window, longer, |run| + n) == (UsedNaive(limit, window, run, client, now) + n < limit)
  {
    BurstLength(client, now, n);
    BurstLength(client, now, n + 1);
    BurstGrows(run, client, now, n);
    BurstUses(limit, window, run, client, now, n);
    OneUses(limit, window, run + Burst(client, now, n), Request(client, now));
  }

  lemma {:induction false} BurstLength(client: string, now: int, n: nat)
    ensures |Burst(client, now, n)| == n && forall i :: 0 <= i < n ==> Burst(client, now, n)[i] == Request(client, now)
  {
    if n > 0 {
      BurstLength(client, now, n - 1);
    }
  }

  /** Maps that differ in a bucket not over by t differ in what some client has used at some reading from t on. */
  lemma DifferenceIsUsed(kept: map<string, Bucket>, naive: map<string, Bucket>, limit: nat, t: int)
    returns (client: string, now: int)
    requires InRange(kept, limit) && InRange(naive, limit) && !Agree(kept, naive, t)
    ensures now >= t && Used(kept, client, now) != Used(naive, client, now)
  {
    if c :| c in naive && naive[c].resetAt >= t && !(c in kept && kept[c] == naive[c]) {
      client, now := c, if c in kept && kept[c].resetAt > naive[c].resetAt then kept[c].resetAt else naive[c].resetAt;
    } else {
      var c :| c in kept && kept[c].resetAt >= t && !(c in naive && naive[c] == kept[c]);
      client, now := c, kept[c].resetAt;
    }
  }

  /**
   * No later requests with readings at or after t, on a clock that does not go back from there,
   * tell the limiters apart.
   */
  ghost predicate UnobservableFrom(limit: nat, window: nat, run: seq<Request>, t: int) {
    forall later: seq<Request> :: Monotone(later) && (forall r :: r in later ==> t <= r.now) ==>
      AlikeFrom(limit, window, run + later, |run|)
  }

  /** A burst that uses up the limit of the map that has used more tells differing maps apart. */
  lemma DifferenceShows(limit: nat, window: nat, run: seq<Request>, client: string, now: int)
    returns (later: seq<Request>)
    requires limit > 0 && UsedKept(limit, window, run, client, now) != UsedNaive(limit, window, run, client, now)
    ensures Monotone(later) && (forall r :: r in later ==> r == Request(client, now))
      && !AlikeFrom(limit, window, run + later, |run|)
  {
    var kept, naive := UsedKept(limit, window, run, client, now), UsedNaive(limit, window, run, client, now);
    CountsInRange(limit, window, run);
    var n := limit - if kept > naive then kept else naive;
    later := Burst(client, now, n + 1);
    BurstLength(client, now, n + 1);
    BurstAnswers(limit, window, run, client, now, n);
  }

  lemma DisagreeingShows(limit: nat, window: nat, run: seq<Request>, t: int)
    requires limit > 0 && !Agree(StateAfter(limit, window, run).buckets, NaiveBuckets(limit, window, run), t)
    ensures !UnobservableFrom(limit, window, run, t)
  {
    CountsInRange(limit, window, run);
    var client, now := DifferenceIsUsed(StateAfter(limit, window, run).buckets, NaiveBuckets(limit, window, run), limit,
                                        t);
    var later := DifferenceShows(limit, window, run, client, now);
  }

  /**
   * After any run, with any clock: pruning can never be noticed from the reading t on
   * if and only if every bucket that is not over by t is in both maps alike.
   */
  lemma UnobservableIff(limit: nat, window: nat, run: seq<Request>, t: int)
    requires limit > 0
    ensures UnobservableFrom(limit, window, run, t)
      <==> Agree(StateAfter(limit, window, run).buckets, NaiveBuckets(limit, window, run), t)
  {
    if Agree(StateAfter(limit, window, run).buckets, NaiveBuckets(limit, window, run), t) {
      forall later: seq<Request> | Monotone(later) && (forall r :: r in later ==> t <= r.now)
        ensures AlikeFrom(limit, window, run + later, |run|)
      {
        AgreeingIsUnobservable(limit, window, run, later, t);
      }
    } else {
      DisagreeingShows(limit, window, run, t);
    }
  }

  // ---------------------------------------------------------------------------
  // Which clocks let pruning show
  // ---------------------------------------------------------------------------

  function Readings(run: seq<Request>): seq<int> {
    seq(|run|, i requires 0 <= i < |run| => run[i].now)
  }

  /** When the limiter pruned last; it depends on the readings alone. */
  function LastPrune(readings: seq<int>, window: nat): Option<int> {
    if readings == [] then None
    else
      var before, last := LastPrune(readings[..|readings| - 1], window), readings[|readings| - 1];
      if before.None? || last - before.value > window then Some(last) else before
  }

  /** The j-th call prunes. */
  predicate Prunes(readings: seq<int>, window: nat, j: nat)
    requires j < |readings|
  {
    var before := LastPrune(readings[..j], window);
    before.None? || readings[j] - before.value > window
  }

  /** A prune passed the end of a window that an earlier reading opened, and a later reading returns to that window. */
  predicate ReturnsAt(readings: seq<int>, window: nat, i: nat, j: nat, k: nat) {
    && i < j < k < |readings|
    && Prunes(readings, window, j) && readings[i] + window < readings[j] && readings[k] <= readings[i] + window
  }

  ghost predicate NeverReturns(readings: seq<int>, window: nat) {
    forall i: nat, j: nat, k: nat :: !ReturnsAt(readings, window, i, j, k)
  }

  lemma {:induction false} PrunesByReadings(limit: nat, window: nat, run: seq<Request>)
    ensures StateAfter(limit, window, run).lastPrune == LastPrune(Readings(run), window)
  {
    if run != [] {
      assert Readings(run)[..|run| - 1] == Readings(run[..|run| - 1]);
      PrunesByReadings(limit, window, run[..|run| - 1]);
    }
  }

  /** The i-th reading, one of the first n, opened the bucket. */
  predicate OpenedAt(readings: seq<int>, window: nat, bucket: Bucket, i: nat, n: nat) {
    i < n <= |readings| && readings[i] + window == bucket.resetAt
  }

  /** The i-th reading opened the bucket and the j-th call, one of the first n, pruned past its end. */
  predicate PassedAt(readings: seq<int>, window: nat, bucket: Bucket, i: nat, j: nat, n: nat) {
    i < j < n <= |readings| && OpenedAt(readings, window, bucket, i, n) && bucket.resetAt < readings[j]
      && Prunes(readings, window, j)
  }

  ghost predicate Opened(readings: seq<int>, window: nat, bucket: Bucket, n: nat) {
    exists i: nat :: OpenedAt(readings, window, bucket, i, n)
  }

  ghost predicate Passed(readings: seq<int>, window: nat, bucket: Bucket, n: nat) {
    exists i: nat, j: nat :: PassedAt(readings, window, bucket, i, j, n)
  }

  ghost predicate AllOpened(readings: seq<int>, window: nat, naive: map<string, Bucket>, n: nat) {
    forall c :: c in naive ==> Opened(readings, window, naive[c], n)
  }

  ghost predicate MissingPassed(readings: seq<int>, window: nat, kept: map<string, Bucket>, naive: map<string, Bucket>,
                                n: nat) {
    forall c :: c in naive && c !in kept ==> Passed(readings, window, naive[c], n)
  }

  /**
   * What is kept is as in the naive map; every bucket was opened by a reading; a prune has passed
   * every missing one.
   */
  ghost predicate Tracks(readings: seq<int>, window: nat, kept: map<string, Bucket>, naive: map<string, Bucket>,
                         n: nat) {
    && (forall c :: c in kept ==> c in naive && naive[c] == kept[c])
    && AllOpened(readings, window, naive, n) && MissingPassed(readings, window, kept, naive, n)
  }

  /** Where no reading returns, a pruned bucket is over for the naive limiter too. */
  lemma TrackedAgree(readings: seq<int>, window: nat, kept: map<string, Bucket>, naive: map<string, Bucket>, n: nat)
    requires n < |readings| && Tracks(readings, window, kept, naive, n) && NeverReturns(readings, window)
    ensures Agree(kept, naive, readings[n]) && forall c :: c in naive && c !in kept ==> naive[c].resetAt < readings[n]
  {
    forall c | c in naive && c !in kept ensures naive[c].resetAt < readings[n] {
      var i: nat, j: nat :| PassedAt(readings, window, naive[c], i, j, n);
      assert !ReturnsAt(readings, window, i, j, n);
    }
  }

  lemma ChargeOpens(readings: seq<int>, limit: nat, window: nat, naive: map<string, Bucket>, n: nat, r: Request)
    requires n < |readings| && r.now == readings[n] && AllOpened(readings, window, naive, n)
    ensures AllOpened(readings, window, Charge(naive, limit, window, r), n + 1)
  {
    var after := Charge(naive, limit, window, r);
    forall c | c in after ensures Opened(readings, window, after[c], n + 1) {
      if c in naive && after[c].resetAt == naive[c].resetAt {
        var i: nat :| OpenedAt(readings, window, naive[c], i, n);
        assert OpenedAt(readings, window, after[c], i, n + 1);
      } else {
        assert OpenedAt(readings, window, after[c], n, n + 1);
      }
    }
  }

  /** A bucket that is missing after the call was missing before, or this call pruned past it. */
  lemma CallPasses(readings: seq<int>, limit: nat, window: nat, s: State, naive: map<string, Bucket>, n: nat,
                   r: Request)
    requires n < |readings| && r.now == readings[n] && Tracks(readings, window, s.buckets, naive, n)
    requires s.lastPrune == LastPrune(readings[..n], window)
    ensures MissingPassed(readings, window, Allowed(s, limit, window, r).0.buckets, Charge(naive, limit, window, r),
                          n + 1)
  {
    var kept', naive' := Allowed(s, limit, window, r).0.buckets, Charge(naive, limit, window, r);
    forall c | c in naive' && c !in kept' ensures Passed(readings, window, naive'[c], n + 1) {
      assert c != r.client && c in naive && naive'[c] == naive[c];
      if c in s.buckets {
        var i: nat :| OpenedAt(readings, window, naive[c], i, n);
        assert PassedAt(readings, window, naive'[c], i, n, n + 1);
      } else {
        var i: nat, j: nat :| PassedAt(readings, window, naive[c], i, j, n);
        assert PassedAt(readings, window, naive'[c], i, j, n + 1);
      }
    }
  }

  lemma TracksStep(readings: seq<int>, limit: nat, window: nat, s: State, naive: map<string, Bucket>, n: nat,
                   r: Request)
    requires n < |readings| && r.now == readings[n] && Tracks(readings, window, s.buckets, naive, n)
    requires s.lastPrune == LastPrune(readings[..n], window) && NeverReturns(readings, window)
    ensures Tracks(readings, window, Allowed(s, limit, window, r).0.buckets, Charge(naive, limit, window, r), n + 1)
  {
    TrackedAgree(readings, window, s.buckets, naive, n);
    ChargeOpens(readings, limit, window, naive, n, r);
    CallPasses(readings, limit, window, s, naive, n, r);
  }

  lemma {:induction false} RunTracks(limit: nat, window: nat, run: seq<Request>, n: nat)
    requires n <= |run| && NeverReturns(Readings(run), window)
    ensures Tracks(Readings(run), window, StateAfter(limit, window, run[..n]).buckets,
                   NaiveBuckets(limit, window, run[..n]), n)
  {
    if n > 0 {
      RunTracks(limit, window, run, n - 1);
      assert run[..n] == run[..n - 1] + [run[n - 1]] && Readings(run[..n - 1]) == Readings(run)[..n - 1];
      RequestTracks(Readings(run), limit, window, run[..n - 1], run[n - 1]);
    }
  }

  lemma RequestTracks(readings: seq<int>, limit: nat, window: nat, run: seq<Request>, r: Request)
    requires |run| < |readings| && Readings(run) == readings[..|run|] && r.now == readings[|run|]
      && NeverReturns(readings, window)
    requires Tracks(readings, window, StateAfter(limit, window, run).buckets, NaiveBuckets(limit, window, run), |run|)
    ensures Tracks(readings, window, StateAfter(limit, window, run + [r]).buckets,
                   NaiveBuckets(limit, window, run + [r]), |run| + 1)
  {
    PrunesByReadings(limit, window, run);
    TracksStep(readings, limit, window, StateAfter(limit, window, run), NaiveBuckets(limit, window, run), |run|, r);
    OneMore(limit, window, run, r);
  }

  lemma NoReturnNoDifference(limit: nat, window: nat, run: seq<Request>)
    requires NeverReturns(Readings(run), window)
    ensures AlikeFrom(limit, window, run, 0)
  {
    forall i | 0 <= i < |run| ensures Answer(limit, window, run, i) == Admitted(limit, window, run, i) {
      RunTracks(limit, window, run, i);
      TrackedAgree(Readings(run), window, StateAfter(limit, window, run[..i]).buckets,
                   NaiveBuckets(limit, window, run[..i]), i);
      AllowedAgrees(StateAfter(limit, window, run[..i]), NaiveBuckets(limit, window, run[..i]), limit, window, run[i]);
    }
  }

  /** Client "a" makes the i-th and k-th request, client "b" the others. */
  function TwoClients(readings: seq<int>, i: nat, k: nat): seq<Request> {
    seq(|readings|, n requires 0 <= n < |readings| => Request(if n == i || n == k then "a" else "b", readings[n]))
  }

  /** After n calls: client "a" has its bucket from its i-th request, and has lost it once the j-th call pruned. */
  predicate LostAfter(readings: seq<int>, window: nat, i: nat, j: nat, n: nat, kept: map<string, Bucket>,
                      naive: map<string, Bucket>)
    requires i < |readings|
  {
    && ("a" in naive <==> i < n) && (i < n ==> naive["a"] == Bucket(readings[i] + window, 1))
    && ("a" in kept ==> "a" in naive && kept["a"] == naive["a"]) && (j < n ==> "a" !in kept)
  }

  lemma LosesStep(readings: seq<int>, window: nat, i: nat, j: nat, k: nat, n: nat, s: State, naive: map<string, Bucket>,
                  r: Request)
    requires ReturnsAt(readings, window, i, j, k) && n < k && LostAfter(readings, window, i, j, n, s.buckets, naive)
    requires r.now == readings[n] && (r.client == "a" <==> n == i) && s.lastPrune == LastPrune(readings[..n], window)
    ensures LostAfter(readings, window, i, j, n + 1, Allowed(s, 1, window, r).0.buckets, Charge(naive, 1, window, r))
  {
  }

  lemma {:induction false} ReturnLosesBucket(window: nat, readings: seq<int>, i: nat, j: nat, k: nat, n: nat)
    requires ReturnsAt(readings, window, i, j, k) && n <= k
    ensures var run := TwoClients(readings, i, k)[..n];
      LostAfter(readings, window, i, j, n, StateAfter(1, window, run).buckets, NaiveBuckets(1, window, run))
  {
    if n > 0 {
      var run := TwoClients(readings, i, k);
      ReturnLosesBucket(window, readings, i, j, k, n - 1);
      assert "a" != "b" by { assert "a"[0] == 'a' && "b"[0] == 'b'; }
      assert run[..n] == run[..n - 1] + [run[n - 1]] && Readings(run[..n - 1]) == readings[..n - 1];
      RequestLoses(window, readings, i, j, k, run[..n - 1], run[n - 1]);
    }
  }

  lemma RequestLoses(window: nat, readings: seq<int>, i: nat, j: nat, k: nat, run: seq<Request>, r: Request)
    requires ReturnsAt(readings, window, i, j, k) && |run| < k && Readings(run) == readings[..|run|]
    requires r.now == readings[|run|] && (r.client == "a" <==> |run| == i)
    requires LostAfter(readings, window, i, j, |run|, StateAfter(1, window, run).buckets, NaiveBuckets(1, window, run))
    ensures LostAfter(readings, window, i, j, |run| + 1, StateAfter(1, window, run + [r]).buckets,
                      NaiveBuckets(1, window, run + [r]))
  {
    PrunesByReadings(1, window, run);
    LosesStep(readings, window, i, j, k, |run|, StateAfter(1, window, run), NaiveBuckets(1, window, run), r);
    OneMore(1, window, run, r);
  }

  lemma ReturnShows(window: nat, readings: seq<int>, i: nat, j: nat, k: nat)
    requires ReturnsAt(readings, window, i, j, k)
    ensures var run := TwoClients(readings, i, k);
      Readings(run) == readings && !Admitted(1, window, run, k) && Answer(1, window, run, k)
  {
    ReturnLosesBucket(window, readings, i, j, k, k);
  }

  /** Whoever makes the requests and whatever the limit: pruning shows in no answer. */
  ghost predicate PruningHidden(readings: seq<int>, window: nat) {
    forall limit: nat, run: seq<Request> :: limit > 0 && Readings(run) == readings ==> AlikeFrom(limit, window, run, 0)
  }

  /**
   * The clocks on which pruning is unobservable are exactly those on which no reading
   * returns to a window that an earlier prune has passed.
   */
  lemma PruningHiddenIff(readings: seq<int>, window: nat)
    ensures PruningHidden(readings, window) <==> NeverReturns(readings, window)
  {
    if NeverReturns(readings, window) {
      forall limit: nat, run: seq<Request> | limit > 0 && Readings(run) == readings
        ensures AlikeFrom(limit, window, run, 0)
      {
        NoReturnNoDifference(limit, window, run);
      }
    } else {
      var i: nat, j: nat, k: nat :| ReturnsAt(readings, window, i, j, k);
      ReturnShows(window, readings, i, j, k);
      assert !AlikeFrom(1, window, TwoClients(readings, i, k), 0);
    }
  }

  /** On a clock that does not go back, every request of every run gets the answer of the limiter that never prunes. */
  lemma PruningIsUnobservable(limit: nat, window: nat, run: seq<Request>)
    requires Monotone(run)
    ensures AlikeFrom(limit, window, run, 0)
  {
    assert NeverReturns(Readings(run), window);
    NoReturnNoDifference(limit, window, run);
  }

  /** Readings one tick out of order are enough: a used-up client is admitted again. */
  lemma InvertedReadingsShowPruning()
    ensures var run := [Request("a", 0), Request("b", 11), Request("a", 10)];
      !Admitted(1, 10, run, 2) && Answer(1, 10, run, 2)
  {
    var readings := [0, 11, 10];
    assert LastPrune([0], 10) == Some(0);
    assert readings[..1] == [0];
    assert ReturnsAt(readings, 10, 0, 1, 2);
    ReturnShows(10, readings, 0, 1, 2);
    assert TwoClients(readings, 0, 2) == [Request("a", 0), Request("b", 11), Request("a", 10)];
  }

  // ---------------------------------------------------------------------------
  // How much one client gets
  // ---------------------------------------------------------------------------

  /** Requests of the client, at times from `from` to `to`, that the limiter admitted. */
  function CountBetween(limit: nat, window: nat, run: seq<Request>, client: string, from: int, to: int): nat {
    if run == [] then 0
    else
      var last := run[|run| - 1];
      CountBetween(limit, window, run[..|run| - 1], client, from, to)
      + if last.client == client && from <= last.now <= to && Answer(limit, window, run, |run| - 1) then 1 else 0
  }

  function CountSince(limit: nat, window: nat, run: seq<Request>, client: string, from: int): nat {
    if run == [] then 0
    else
      var last := run[|run| - 1];
      CountSince(limit, window, run[..|run| - 1], client, from)
      + if last.client == client && from <= last.now && Answer(limit, window, run, |run| - 1) then 1 else 0
  }

  /** What a client's bucket, if it were never pruned, says about the admissions so far. */
  ghost predicate BucketTells(limit: nat, window: nat, run: seq<Request>, client: string, from: int, bucket: Bucket) {
    var start := bucket.resetAt - window;
    && 1 <= bucket.count <= limit && CountSince(limit, window, run, client, start) == bucket.count
    && (from > bucket.resetAt ==> CountSince(limit, window, run, client, from) == 0)
    && (from > start ==> CountSince(limit, window, run, client, from) <= bucket.count - 1)
    && (from >= start - window ==> CountSince(limit, window, run, client, from) <= bucket.count + limit - 1)
  }

  /** Without a bucket nothing was admitted; a bucket tells, and was not opened after the last request. */
  ghost predicate BucketsTell(limit: nat, window: nat, run: seq<Request>, client: string, from: int) {
    var naive := NaiveBuckets(limit, window, run);
    if client in naive then
      && BucketTells(limit, window, run, client, from, naive[client])
      && run != [] && naive[client].resetAt - window <= run[|run| - 1].now
    else CountSince(limit, window, run, client, from) == 0
  }

  lemma OneSince(limit: nat, window: nat, run: seq<Request>, r: Request, client: string, from: int)
    ensures CountSince(limit, window, run + [r], client, from) == CountSince(limit, window, run, client, from)
      + if r.client == client && from <= r.now && Answer(limit, window, run + [r], |run|) then 1 else 0
  {
    assert (run + [r])[..|run|] == run;
  }

  /** What another client's request changes: nothing. */
  lemma OthersTell(limit: nat, window: nat, run: seq<Request>, r: Request, client: string, from: int)
    requires BucketsTell(limit, window, run, client, from) && r.client != client
    requires run != [] ==> run[|run| - 1].now <= r.now
    ensures BucketsTell(limit, window, run + [r], client, from)
  {
    OneMore(limit, window, run, r);
    forall from
      ensures CountSince(limit, window, run + [r], client, from) == CountSince(limit, window, run, client, from)
    {
      OneSince(limit, window, run, r, client, from);
    }
  }

  lemma OwnTells(limit: nat, window: nat, run: seq<Request>, r: Request, from: int)
    requires limit > 0 && BucketsTell(limit, window, run, r.client, from)
      && BucketsTell(limit, window, run, r.client, r.now)
    requires run != [] ==> run[|run| - 1].now <= r.now
    requires Answer(limit, window, run + [r], |run|) == Admits(NaiveBuckets(limit, window, run), limit, r)
    ensures BucketsTell(limit, window, run + [r], r.client, from)
  {
    var naive := NaiveBuckets(limit, window, run);
    OneMore(limit, window, run, r);
    OneSince(limit, window, run, r, r.client, from);
    OneSince(limit, window, run, r, r.client, r.now);
    if r.client in naive {
      OneSince(limit, window, run, r, r.client, naive[r.client].resetAt - window);
    }
  }

  lemma {:induction false} BucketCounts(limit: nat, window: nat, run: seq<Request>, client: string, from: int)
    requires Monotone(run) && limit > 0
    ensures BucketsTell(limit, window, run, client, from)
    decreases |run|
  {
    if run != [] {
      var front, last := run[..|run| - 1], run[|run| - 1];
      assert run == front + [last];
      BucketCounts(limit, window, front, client, from);
      if last.client == client {
        BucketCounts(limit, window, front, client, last.now);
        LastAnswer(limit, window, front, last);
        OwnTells(limit, window, front, last, from);
      } else {
        OthersTell(limit, window, front, last, client, from);
      }
    }
  }

  lemma LastAnswer(limit: nat, window: nat, run: seq<Request>, r: Request)
    requires Monotone(run + [r])
    ensures Answer(limit, window, run + [r], |run|) == Admits(NaiveBuckets(limit, window, run), limit, r)
  {
    PruningIsUnobservable(limit, window, run + [r]);
    OneMore(limit, window, run, r);
    assert Answer(limit, window, run + [r], |run|) == Admitted(limit, window, run + [r], |run|);
  }

  lemma {:induction false} BetweenIsSince(limit: nat, window: nat, run: seq<Request>, client: string, from: int,
                                          to: int)
    ensures CountBetween(limit, window, run, client, from, to) <= CountSince(limit, window, run, client, from)
  {
    if run != [] {
      BetweenIsSince(limit, window, run[..|run| - 1], client, from, to);
    }
  }

  /**
   * On a clock that does not go back, any interval as long as the window admits fewer than twice
   * the limit of one client.
   */
  lemma {:induction false} BelowTwiceTheLimit(limit: nat, window: nat, run: seq<Request>, client: string, from: int,
                                              to: int)
    requires Monotone(run) && limit > 0 && to - from <= window
    ensures CountBetween(limit, window, run, client, from, to) <= 2 * limit - 1
    decreases |run|
  {
    if run != [] {
      if run[|run| - 1].now > to {
        BelowTwiceTheLimit(limit, window, run[..|run| - 1], client, from, to);
      } else {
        BucketCounts(limit, window, run, client, from);
        BetweenIsSince(limit, window, run, client, from, to);
      }
    }
  }

  lemma OneCounts(limit: nat, window: nat, run: seq<Request>, r: Request, from: int, to: int)
    ensures CountBetween(limit, window, run + [r], r.client, from, to)
         == CountBetween(limit, window, run, r.client, from, to)
           + if from <= r.now <= to && Answer(limit, window, run + [r], |run|) then 1 else 0
  {
    assert (run + [r])[..|run|] == run;
  }

  lemma AdmittedCounts(limit: nat, window: nat, run: seq<Request>, r: Request, from: int, to: int)
    requires limit > 0 && from <= r.now <= to && UsedKept(limit, window, run, r.client, r.now) < limit
    ensures CountBetween(limit, window, run + [r], r.client, from, to)
      == CountBetween(limit, window, run, r.client, from, to) + 1
  {
    OneUses(limit, window, run, r);
    OneCounts(limit, window, run, r, from, to);
  }

  lemma {:induction false} BurstCounts(limit: nat, window: nat, run: seq<Request>, client: string, now: int, n: nat,
                                       from: int, to: int)
    requires limit > 0 && from <= now <= to && n + UsedKept(limit, window, run, client, now) <= limit
    ensures CountBetween(limit, window, run + Burst(client, now, n), client, from, to)
      == CountBetween(limit, window, run, client, from, to) + n
    decreases n
  {
    if n == 0 {
      BurstGrows(run, client, now, 0);
    } else {
      var before := CountBetween(limit, window, run + Burst(client, now, n - 1), client, from, to);
      assert before == CountBetween(limit, window, run, client, from, to) + n - 1 by {
        BurstCounts(limit, window, run, client, now, n - 1, from, to);
      }
      assert CountBetween(limit, window, run + Burst(client, now, n), client, from, to) == before + 1 by {
        OneBurstMore(limit, window, run, client, now, n, from, to);
      }
    }
  }

  lemma OneBurstMore(limit: nat, window: nat, run: seq<Request>, client: string, now: int, n: nat, from: int, to: int)
    requires limit > 0 && from <= now <= to && 0 < n <= limit - UsedKept(limit, window, run, client, now)
    ensures CountBetween(limit, window, run + Burst(client, now, n), client, from, to)
         == CountBetween(limit, window, run + Burst(client, now, n - 1), client, from, to) + 1
  {
    var before, r := run + Burst(client, now, n - 1), Request(client, now);
    assert UsedKept(limit, window, before, client, now) < limit by {
      BurstUses(limit, window, run, client, now, n - 1);
    }
    AdmittedCounts(limit, window, before, r, from, to);
    assert run + Burst(client, now, n) == before + [r] by {
      BurstGrows(run, client, now, n - 1);
    }
  }

  /** One request, then all the limit leaves at the end of its window, then a full burst right after it. */
  function FullRun(limit: nat, window: nat): seq<Request>
    requires limit > 0
  {
    [Request("a", 0)] + Burst("a", window, limit - 1) + Burst("a", window + 1, limit)
  }

  /** The first window stays the one the first request opened. */
  lemma {:induction false} FirstWindow(limit: nat, window: nat, n: nat)
    ensures var kept := StateAfter(limit, window, [Request("a", 0)] + Burst("a", window, n)).buckets;
      "a" in kept && kept["a"].resetAt == window && (n == 0 ==> kept["a"].count == 1)
  {
    var first := [Request("a", 0)];
    assert first[..0] == [];
    BurstGrows(first, "a", window, if n == 0 then 0 else n - 1);
    if n > 0 {
      FirstWindow(limit, window, n - 1);
      OneMore(limit, window, first + Burst("a", window, n - 1), Request("a", window));
    }
  }

  lemma FirstCounts(limit: nat, window: nat)
    requires window > 0
    ensures CountBetween(limit, window, [Request("a", 0)], "a", window, 2 * window) == 0
  {
    assert [Request("a", 0)][..0] == [];
  }

  /** What is left of the limit at the end of the first window is all admitted. */
  lemma SecondCounts(limit: nat, window: nat)
    requires limit > 0 && window > 0
    ensures CountBetween(limit, window, [Request("a", 0)] + Burst("a", window, limit - 1), "a", window, 2 * window)
      == limit - 1
  {
    BurstGrows([Request("a", 0)], "a", window, 0);
    FirstWindow(limit, window, 0);
    FirstCounts(limit, window);
    BurstCounts(limit, window, [Request("a", 0)], "a", window, limit - 1, window, 2 * window);
  }

  /** The bound is reached for every limit and every window. */
  lemma TheBoundIsReached(limit: nat, window: nat)
    requires limit > 0 && window > 0
    ensures Monotone(FullRun(limit, window))
    ensures CountBetween(limit, window, FullRun(limit, window), "a", window, 2 * window) == 2 * limit - 1
  {
    var second := [Request("a", 0)] + Burst("a", window, limit - 1);
    SecondCounts(limit, window);
    FirstWindow(limit, window, limit - 1);
    BurstCounts(limit, window, second, "a", window + 1, limit, window, 2 * window);
    FullRunIsMonotone(limit, window);
  }

  lemma FullRunIsMonotone(limit: nat, window: nat)
    requires limit > 0
    ensures Monotone(FullRun(limit, window))
  {
    BurstLength("a", window, limit - 1);
    BurstLength("a", window + 1, limit);
  }
}
