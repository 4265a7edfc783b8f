/**
 * On-demand backfill: the cooldown map and the job scheduler of
 * internal/appview/user_feed_backfill.go.
 */
module Backfill {
  const ATTEMPTS_PRUNE_THRESHOLD := 50_000

  /** Five minutes in nanoseconds. */
  const DEFAULT_COOLDOWN := 300_000_000_000

  // ---------------------------------------------------------------------------
  // Cooldown
  // ---------------------------------------------------------------------------

  /** The key was admitted less than a cooldown ago. */
  predicate Cooling(attempts: map<string, int>, cooldown: int, now: int, key: string) {
    key in attempts && now - attempts[key] < cooldown
  }

  /** The cooldown map after the keys were tried in order. */
  function Tried(attempts: map<string, int>, cooldown: int, now: int, keys: seq<string>): map<string, int> {
    if keys == [] then attempts
    else
      var before, key := Tried(attempts, cooldown, now, keys[..|keys| - 1]), keys[|keys| - 1];
      if Cooling(before, cooldown, now, key) then before else before[key := now]
  }

  /** The keys that were admitted, in order. */
  function Chosen(attempts: map<string, int>, cooldown: int, now: int, keys: seq<string>): seq<string> {
    if keys == [] then []
    else
      var front, key := keys[..|keys| - 1], keys[|keys| - 1];
      Chosen(attempts, cooldown, now, front)
        + if Cooling(Tried(attempts, cooldown, now, front), cooldown, now, key) then [] else [key]
  }

  /** A big map loses the entries that are no longer cooling. */
  function Pruned(attempts: map<string, int>, cooldown: int, now: int): map<string, int> {
    if |attempts| < ATTEMPTS_PRUNE_THRESHOLD then attempts
    else map key | key in attempts && now - attempts[key] < cooldown :: attempts[key]
  }

  function Keyed(prefix: string, values: seq<string>): seq<string> {
    seq(|values|, i requires 0 <= i < |values| => prefix + ":" + values[i])
  }

  datatype Job = Job(key: string, phase: Phase, closes: nat, panicked: bool)

  /** A job's goroutine: running the work, done with it, done channel closed, removed from the table. */
  datatype Phase = Working | Worked | Closed | Gone

  class Backfiller {
    const cooldown: int
    var attempts: map<string, int>
    var jobs: map<string, nat>
    var started: map<nat, Job>

    /** A cooldown that is not positive stands for five minutes. */
    constructor (cooldown: int)
      ensures this.cooldown == if cooldown > 0 then cooldown else 300_000_000_000
      ensures attempts == map[] && Table() == Jobs(map[], map[])
    {
      this.cooldown := if cooldown <= 0 then DEFAULT_COOLDOWN else cooldown;
      attempts, jobs, started := map[], map[], map[];
    }

    ghost function Table(): Jobs
      reads this
    {
      Jobs(jobs, started)
    }

    method PruneAttemptsLocked(now: int)
      modifies this`attempts
      ensures attempts == Pruned(old(attempts), cooldown, now)
    {
      if |attempts| < ATTEMPTS_PRUNE_THRESHOLD {
        return;
      }
      var todo := attempts.Keys;
      while todo != {}
        invariant todo <= attempts.Keys <= old(attempts).Keys
        invariant forall key :: key in attempts ==> attempts[key] == old(attempts)[key]
        invariant forall key :: key in old(attempts) && key !in todo ==>
          (key in attempts <==> now - old(attempts)[key] < cooldown)
      {
        var key :| key in todo;
        if now - attempts[key] >= cooldown {
          attempts := attempts - {key};
        }
        todo := todo - {key};
      }
    }

    method ShouldAttempt(key: string, now: int) returns (ok: bool)
      modifies this`attempts
      ensures attempts == Tried(Pruned(old(attempts), cooldown, now), cooldown, now, [key])
      ensures Chosen(Pruned(old(attempts), cooldown, now), cooldown, now, [key]) == if ok then [key] else []
    {
      PruneAttemptsLocked(now);
      assert [key][..0] == [];
      if key in attempts && now - attempts[key] < cooldown {
        return false;
      }
      attempts := attempts[key := now];
      ok := true;
    }

    method AttemptValues(prefix: string, values: seq<string>, now: int) returns (out: seq<string>)
      modifies this`attempts
      ensures attempts == Tried(Pruned(old(attempts), cooldown, now), cooldown, now, Keyed(prefix, values))
      ensures Keyed(prefix, out) == Chosen(Pruned(old(attempts), cooldown, now), cooldown, now, Keyed(prefix, values))
    {
      out := [];
      PruneAttemptsLocked(now);
      ghost var start := attempts;
      for i := 0 to |values|
        invariant attempts == Tried(start, cooldown, now, Keyed(prefix, values[..i]))
        invariant Keyed(prefix, out) == Chosen(start, cooldown, now, Keyed(prefix, values[..i]))
      {
        var key := prefix + ":" + values[i];
        assert Keyed(prefix, values[..i + 1])[..i] == Keyed(prefix, values[..i]);
        if key in attempts && now - attempts[key] < cooldown {
          continue;
        }
        attempts := attempts[key := now];
        assert Keyed(prefix, out + [values[i]]) == Keyed(prefix, out) + [key];
        out := out + [values[i]];
      }
      assert values[..|values|] == values;
    }

    /** The locked part of scheduleJob; `next` is the number of the job it may start. */
    method ScheduleJob(key: string, next: nat) returns (job: nat)
      modifies this`jobs, this`started
      ensures (Table(), job) == old(Scheduled(Table(), key, next))
    {
      var name := if key == "" then "unknown" else key;
      if name in jobs {
        return jobs[name];
      }
      started := started[next := Job(name, Working, 0, false)];
      jobs := jobs[name := next];
      job := next;
    }

    /** The locked part of the deferred cleanup. */
    method Cleanup(job: nat)
      requires job in started
      modifies this`jobs, this`started
      ensures Table() == old(Cleaned(Table(), job))
    {
      var key := started[job].key;
      if key in jobs && jobs[key] == job {
        jobs := jobs - {key};
      }
      started := started[job := started[job].(phase := Gone)];
    }
  }

  // ---------------------------------------------------------------------------
  // Runs of the cooldown map
  // ---------------------------------------------------------------------------

  /** One locked call: its clock reading and the keys it tries. */
  datatype Call = Call(now: int, keys: seq<string>)

  datatype Admission = Admission(key: string, time: int)

  function MaybePruned(attempts: map<string, int>, cooldown: int, now: int, prune: bool): map<string, int> {
    if prune then Pruned(attempts, cooldown, now) else attempts
  }

  /** The cooldown map after a run: with pruning, and without. */
  function Attempts(cooldown: int, run: seq<Call>, prune: bool): map<string, int> {
    if run == [] then map[]
    else
      var call := run[|run| - 1];
      Tried(MaybePruned(Attempts(cooldown, run[..|run| - 1], prune), cooldown, call.now, prune), cooldown, call.now,
            call.keys)
  }

  /** The cooldown map the last call of the run works on. */
  function Before(cooldown: int, run: seq<Call>, prune: bool): map<string, int>
    requires run != []
  {
    MaybePruned(Attempts(cooldown, run[..|run| - 1], prune), cooldown, run[|run| - 1].now, prune)
  }

  /** What the last call of the run admits. */
  function Admits(cooldown: int, run: seq<Call>, prune: bool): seq<string>
    requires run != []
  {
    Chosen(Before(cooldown, run, prune), cooldown, run[|run| - 1].now, run[|run| - 1].keys)
  }

  predicate Monotone(run: seq<Call>) {
    forall i, j :: 0 <= i < j < |run| ==> run[i].now <= run[j].now
  }

  /** The two maps have the same entries, but for those that are over their cooldown by `now`. */
  ghost predicate Agree(kept: map<string, int>, all: map<string, int>, cooldown: int, now: int) {
    && (forall key :: Cooling(all, cooldown, now, key) ==> key in kept && kept[key] == all[key])
    && (forall key :: Cooling(kept, cooldown, now, key) ==> key in all && all[key] == kept[key])
  }

  lemma {:induction false} TriedAgrees(kept: map<string, int>, all: map<string, int>, cooldown: int, now: int,
                                       keys: seq<string>)
    requires Agree(kept, all, cooldown, now)
    ensures Agree(Tried(kept, cooldown, now, keys), Tried(all, cooldown, now, keys), cooldown, now)
    ensures Chosen(kept, cooldown, now, keys) == Chosen(all, cooldown, now, keys)
  {
    if keys != [] {
      TriedAgrees(kept, all, cooldown, now, keys[..|keys| - 1]);
    }
  }

  lemma OneMoreCall(cooldown: int, run: seq<Call>, call: Call, prune: bool)
    ensures Before(cooldown, run + [call], prune)
      == MaybePruned(Attempts(cooldown, run, prune), cooldown, call.now, prune)
    ensures Attempts(cooldown, run + [call], prune)
      == Tried(Before(cooldown, run + [call], prune), cooldown, call.now, call.keys)
    ensures Admits(cooldown, run + [call], prune)
      == Chosen(Before(cooldown, run + [call], prune), cooldown, call.now, call.keys)
  {
    assert (run + [call])[..|run|] == run;
  }

  /** Maps that agree decide the next call alike, and agree after it. */
  lemma NextCallAgrees(cooldown: int, run: seq<Call>, call: Call)
    requires Agree(Attempts(cooldown, run, true), Attempts(cooldown, run, false), cooldown, call.now)
    ensures Agree(Attempts(cooldown, run + [call], true), Attempts(cooldown, run + [call], false), cooldown, call.now)
    ensures Admits(cooldown, run + [call], true) == Admits(cooldown, run + [call], false)
  {
    OneMoreCall(cooldown, run, call, true);
    OneMoreCall(cooldown, run, call, false);
    TriedAgrees(Before(cooldown, run + [call], true), Before(cooldown, run + [call], false), cooldown, call.now,
                call.keys);
  }

  lemma {:induction false} AgreementLasts(cooldown: int, run: seq<Call>, later: seq<Call>, t: int, now: int)
    requires Agree(Attempts(cooldown, run, true), Attempts(cooldown, run, false), cooldown, t) && t <= now
    requires Monotone(later) && forall c :: c in later ==> t <= c.now <= now
    ensures Agree(Attempts(cooldown, run + later, true), Attempts(cooldown, run + later, false), cooldown, now)
    decreases |later|
  {
    if later == [] {
      assert run + later == run;
    } else {
      var front, call := later[..|later| - 1], later[|later| - 1];
      assert run + later == (run + front) + [call];
      AgreementLasts(cooldown, run, front, t, call.now);
      NextCallAgrees(cooldown, run + front, call);
    }
  }

  lemma LaterDecidedAlike(cooldown: int, run: seq<Call>, later: seq<Call>, t: int)
    requires Agree(Attempts(cooldown, run, true), Attempts(cooldown, run, false), cooldown, t)
    requires later != [] && Monotone(later) && forall c :: c in later ==> t <= c.now
    ensures Admits(cooldown, run + later, true) == Admits(cooldown, run + later, false)
  {
    var front, call := later[..|later| - 1], later[|later| - 1];
    assert run + later == (run + front) + [call];
    AgreementLasts(cooldown, run, front, t, call.now);
    NextCallAgrees(cooldown, run + front, call);
  }

  /** Entries that differ while one of them is cooling differ in what some key is answered at some reading from t on. */
  lemma DifferenceIsAnswered(kept: map<string, int>, all: map<string, int>, cooldown: int, t: int)
    returns (key: string, now: int)
    requires !Agree(kept, all, cooldown, t)
    ensures now >= t && Cooling(kept, cooldown, now, key) != Cooling(all, cooldown, now, key)
  {
    key :| (Cooling(all, cooldown, t, key) && !(key in kept && kept[key] == all[key]))
        || (Cooling(kept, cooldown, t, key) && !(key in all && all[key] == kept[key]));
    now := t;
    if key in kept && key in all {
      var older := if kept[key] < all[key] then kept[key] else all[key];
      now := if older + cooldown > t then older + cooldown else t;
    }
  }

  /** No later calls with readings at or after t, on a clock that does not go back from there, are decided otherwise. */
  ghost predicate UnobservableFrom(cooldown: int, run: seq<Call>, t: int) {
    forall later: seq<Call> :: later != [] && Monotone(later) && (forall c :: c in later ==> t <= c.now) ==>
      Admits(cooldown, run + later, true) == Admits(cooldown, run + later, false)
  }

  lemma DisagreeingShows(cooldown: int, run: seq<Call>, t: int)
    requires !Agree(Attempts(cooldown, run, true), Attempts(cooldown, run, false), cooldown, t)
    ensures !UnobservableFrom(cooldown, run, t)
  {
    var key, now := DifferenceIsAnswered(Attempts(cooldown, run, true), Attempts(cooldown, run, false), cooldown, t);
    var call := Call(now, [key]);
    OneMoreCall(cooldown, run, call, true);
    OneMoreCall(cooldown, run, call, false);
    assert [key][..0] == [];
    assert Admits(cooldown, run + [call], true) != Admits(cooldown, run + [call], false);
    assert Monotone([call]) && [call] != [];
  }

  /**
   * After any run, with any clock: pruning can never change a decision from the reading
   * t on if and only if every entry still cooling at t is in both maps alike.
   */
  lemma UnobservableIff(cooldown: int, run: seq<Call>, t: int)
    ensures UnobservableFrom(cooldown, run, t) <==>
      Agree(Attempts(cooldown, run, true), Attempts(cooldown, run, false), cooldown, t)
  {
    if Agree(Attempts(cooldown, run, true), Attempts(cooldown, run, false), cooldown, t) {
      forall later: seq<Call> | later != [] && Monotone(later) && (forall c :: c in later ==> t <= c.now)
        ensures Admits(cooldown, run + later, true) == Admits(cooldown, run + later, false)
      {
        LaterDecidedAlike(cooldown, run, later, t);
      }
    } else {
      DisagreeingShows(cooldown, run, t);
    }
  }

  lemma EmptyRunAgrees(cooldown: int, t: int)
    ensures Agree(Attempts(cooldown, [], true), Attempts(cooldown, [], false), cooldown, t)
  {
  }

  /** On a clock that does not go back, pruning changes no decision of any call of any run. */
  lemma PruningIsUnobservable(cooldown: int, run: seq<Call>)
    requires Monotone(run) && run != []
    ensures Admits(cooldown, run, true) == Admits(cooldown, run, false)
  {
    assert [] + run == run;
    EmptyRunAgrees(cooldown, run[0].now);
    LaterDecidedAlike(cooldown, [], run, run[0].now);
  }

  function At(keys: seq<string>, now: int): seq<Admission> {
    seq(|keys|, i requires 0 <= i < |keys| => Admission(keys[i], now))
  }

  /** Everything the pruning map admitted over the run, in order. */
  function Log(cooldown: int, run: seq<Call>): seq<Admission> {
    if run == [] then [] else Log(cooldown, run[..|run| - 1]) + At(Admits(cooldown, run, true), run[|run| - 1].now)
  }

  /** What trying keys does: the chosen were not cooling and are stamped with the time; the others keep theirs. */
  ghost predicate Stamps(attempts: map<string, int>, after: map<string, int>, chosen: seq<string>, cooldown: int,
                         now: int) {
    && (forall key :: key in chosen ==>
          key in after && after[key] == now && (key in attempts ==> now - attempts[key] >= cooldown))
    && (forall key :: key in attempts && key !in chosen ==> key in after && after[key] == attempts[key])
    && (forall i, j :: 0 <= i < j < |chosen| && chosen[i] == chosen[j] ==> cooldown <= 0)
  }

  lemma {:induction false} TryingStamps(attempts: map<string, int>, cooldown: int, now: int, keys: seq<string>)
    ensures Stamps(attempts, Tried(attempts, cooldown, now, keys), Chosen(attempts, cooldown, now, keys), cooldown, now)
  {
    if keys != [] {
      TryingStamps(attempts, cooldown, now, keys[..|keys| - 1]);
    }
  }

  /** No two admissions of a key are closer than the cooldown. */
  ghost predicate Spaced(log: seq<Admission>, cooldown: int) {
    forall i, j :: 0 <= i < j < |log| && log[i].key == log[j].key ==> log[j].time - log[i].time >= cooldown
  }

  /** No admission of a key is later than its entry. */
  ghost predicate Bounded(log: seq<Admission>, all: map<string, int>) {
    forall i :: 0 <= i < |log| ==> log[i].key in all && log[i].time <= all[log[i].key]
  }

  lemma CallKeepsSpaced(log: seq<Admission>, all: map<string, int>, after: map<string, int>,
                        chosen: seq<string>, cooldown: int, now: int)
    requires cooldown > 0 && Spaced(log, cooldown) && Bounded(log, all) && Stamps(all, after, chosen, cooldown, now)
    ensures Spaced(log + At(chosen, now), cooldown) && Bounded(log + At(chosen, now), after)
  {
  }

  // ---------------------------------------------------------------------------
  // Which clocks let pruning show
  // ---------------------------------------------------------------------------

  function Readings(run: seq<Call>): seq<int> {
    seq(|run|, i requires 0 <= i < |run| => run[i].now)
  }

  /** The j-th reading is a cooldown past the i-th, and the k-th, later, is less than a cooldown past it. */
  predicate ReturnsAt(readings: seq<int>, cooldown: int, i: nat, j: nat, k: nat) {
    i < j < k < |readings| && readings[j] - readings[i] >= cooldown > readings[k] - readings[i]
  }

  ghost predicate NeverReturns(readings: seq<int>, cooldown: int) {
    forall i: nat, j: nat, k: nat :: !ReturnsAt(readings, cooldown, i, j, k)
  }

  /** The i-th reading, one of the first n, is the stamp. */
  predicate StampedAt(readings: seq<int>, stamp: int, i: nat, n: nat) {
    i < n <= |readings| && readings[i] == stamp
  }

  /** The i-th reading is the stamp and the j-th, one of the first n, is a cooldown past it. */
  predicate ExpiredAt(readings: seq<int>, cooldown: int, stamp: int, i: nat, j: nat, n: nat) {
    i < j < n <= |readings| && readings[i] == stamp && readings[j] - stamp >= cooldown
  }

  ghost predicate Stamped(readings: seq<int>, stamp: int, n: nat) {
    exists i: nat :: StampedAt(readings, stamp, i, n)
  }

  ghost predicate Expired(readings: seq<int>, cooldown: int, stamp: int, n: nat) {
    exists i: nat, j: nat :: ExpiredAt(readings, cooldown, stamp, i, j, n)
  }

  /** What is kept is as in the other map. */
  ghost predicate Within(kept: map<string, int>, all: map<string, int>) {
    forall key :: key in kept ==> key in all && all[key] == kept[key]
  }

  /** Every stamp is a reading, and the clock has once been a cooldown past the missing ones. */
  ghost predicate Tracks(readings: seq<int>, cooldown: int, kept: map<string, int>, all: map<string, int>, n: nat) {
    && Within(kept, all)
    && (forall key :: key in all ==> Stamped(readings, all[key], n))
    && (forall key :: key in all && key !in kept ==> Expired(readings, cooldown, all[key], n))
  }

  /** Entries missing from the kept map are not cooling. */
  ghost predicate MissingAreOver(kept: map<string, int>, all: map<string, int>, cooldown: int, now: int) {
    Within(kept, all) && forall key :: key in all && key !in kept ==> now - all[key] >= cooldown
  }

  /** Where no reading returns, an entry that was pruned is not cooling. */
  lemma TrackedAreOver(readings: seq<int>, cooldown: int, kept: map<string, int>, all: map<string, int>, n: nat)
    requires n < |readings| && Tracks(readings, cooldown, kept, all, n) && NeverReturns(readings, cooldown)
    ensures MissingAreOver(kept, all, cooldown, readings[n])
  {
    forall key | key in all && key !in kept ensures readings[n] - all[key] >= cooldown {
      var i: nat, j: nat :| ExpiredAt(readings, cooldown, all[key], i, j, n);
      assert !ReturnsAt(readings, cooldown, i, j, n);
    }
  }

  /** Pruning at the reading takes away only what is over then. */
  lemma PrunedAreOver(kept: map<string, int>, all: map<string, int>, cooldown: int, now: int)
    requires MissingAreOver(kept, all, cooldown, now)
    ensures MissingAreOver(Pruned(kept, cooldown, now), all, cooldown, now)
  {
  }

  lemma PruningTracks(readings: seq<int>, cooldown: int, kept: map<string, int>, all: map<string, int>, n: nat)
    requires n < |readings| && Tracks(readings, cooldown, kept, all, n)
    ensures Tracks(readings, cooldown, Pruned(kept, cooldown, readings[n]), all, n + 1)
  {
    var pruned := Pruned(kept, cooldown, readings[n]);
    forall key | key in all
      ensures Stamped(readings, all[key], n + 1)
      ensures key !in pruned ==> Expired(readings, cooldown, all[key], n + 1)
    {
      var i: nat :| StampedAt(readings, all[key], i, n);
      assert StampedAt(readings, all[key], i, n + 1);
      if key in kept {
        assert key !in pruned ==> ExpiredAt(readings, cooldown, all[key], i, n, n + 1);
      } else {
        var i: nat, j: nat :| ExpiredAt(readings, cooldown, all[key], i, j, n);
        assert ExpiredAt(readings, cooldown, all[key], i, j, n + 1);
      }
    }
  }

  /** Trying keys stamps the same ones in both maps, and what is still missing was missing before. */
  ghost predicate TriedAlike(kept: map<string, int>, all: map<string, int>,
                             kept': map<string, int>, all': map<string, int>, now: int) {
    && Within(kept', all') && (forall key :: key in all' ==> (key in all && all'[key] == all[key]) || all'[key] == now)
    && (forall key :: key in all' && key !in kept' ==> key in all && key !in kept && all'[key] == all[key])
  }

  lemma {:induction false} TryingIsAlike(kept: map<string, int>, all: map<string, int>, cooldown: int, now: int,
                                         keys: seq<string>)
    requires MissingAreOver(kept, all, cooldown, now)
    ensures TriedAlike(kept, all, Tried(kept, cooldown, now, keys), Tried(all, cooldown, now, keys), now)
  {
    if keys != [] {
      TryingIsAlike(kept, all, cooldown, now, keys[..|keys| - 1]);
    }
  }

  lemma TryingTracks(readings: seq<int>, cooldown: int, kept: map<string, int>, all: map<string, int>, n: nat,
                     keys: seq<string>)
    requires n < |readings| && Tracks(readings, cooldown, kept, all, n + 1)
      && MissingAreOver(kept, all, cooldown, readings[n])
    ensures Tracks(readings, cooldown, Tried(kept, cooldown, readings[n], keys),
                   Tried(all, cooldown, readings[n], keys), n + 1)
  {
    TryingIsAlike(kept, all, cooldown, readings[n], keys);
    assert StampedAt(readings, readings[n], n, n + 1);
  }

  lemma AttemptsGrow(cooldown: int, run: seq<Call>, call: Call)
    ensures Attempts(cooldown, run + [call], true) ==
      Tried(Pruned(Attempts(cooldown, run, true), cooldown, call.now), cooldown, call.now, call.keys)
    ensures Attempts(cooldown, run + [call], false)
      == Tried(Attempts(cooldown, run, false), cooldown, call.now, call.keys)
  {
    assert (run + [call])[..|run|] == run;
  }

  lemma MapsTrack(readings: seq<int>, cooldown: int, kept: map<string, int>, all: map<string, int>, n: nat,
                  keys: seq<string>)
    requires n < |readings| && Tracks(readings, cooldown, kept, all, n) && NeverReturns(readings, cooldown)
    ensures Tracks(readings, cooldown, Tried(Pruned(kept, cooldown, readings[n]), cooldown, readings[n], keys),
                   Tried(all, cooldown, readings[n], keys), n + 1)
  {
    TrackedAreOver(readings, cooldown, kept, all, n);
    PrunedAreOver(kept, all, cooldown, readings[n]);
    PruningTracks(readings, cooldown, kept, all, n);
    TryingTracks(readings, cooldown, Pruned(kept, cooldown, readings[n]), all, n, keys);
  }

  lemma CallTracks(readings: seq<int>, cooldown: int, run: seq<Call>, call: Call)
    requires |run| < |readings| && readings[|run|] == call.now && NeverReturns(readings, cooldown)
    requires Tracks(readings, cooldown, Attempts(cooldown, run, true), Attempts(cooldown, run, false), |run|)
    ensures Tracks(readings, cooldown, Attempts(cooldown, run + [call], true), Attempts(cooldown, run + [call], false),
                   |run| + 1)
  {
    MapsTrack(readings, cooldown, Attempts(cooldown, run, true), Attempts(cooldown, run, false), |run|, call.keys);
    AttemptsGrow(cooldown, run, call);
  }

  lemma {:induction false} RunTracks(cooldown: int, run: seq<Call>, n: nat)
    requires n <= |run| && NeverReturns(Readings(run), cooldown)
    ensures Tracks(Readings(run), cooldown, Attempts(cooldown, run[..n], true), Attempts(cooldown, run[..n], false), n)
  {
    if n > 0 {
      RunTracks(cooldown, run, n - 1);
      CallTracks(Readings(run), cooldown, run[..n - 1], run[n - 1]);
      assert run[..n] == run[..n - 1] + [run[n - 1]];
    }
  }

  /** The first n calls decide as they would without pruning. */
  ghost predicate DecidedAlike(cooldown: int, run: seq<Call>, n: nat) {
    0 < n <= |run| ==> Admits(cooldown, run[..n], true) == Admits(cooldown, run[..n], false)
  }

  lemma NoReturnNoDifference(cooldown: int, run: seq<Call>, n: nat)
    requires NeverReturns(Readings(run), cooldown)
    ensures DecidedAlike(cooldown, run, n)
  {
    if 0 < n <= |run| {
      var front, call := run[..n - 1], run[n - 1];
      RunTracks(cooldown, run, n - 1);
      TrackedAreOver(Readings(run), cooldown, Attempts(cooldown, front, true), Attempts(cooldown, front, false), n - 1);
      assert run[..n] == front + [call];
      NextCallAgrees(cooldown, front, call);
    }
  }

  /** Distinct keys, the first of which is "k". */
  function Name(n: nat): string { seq(n + 1, _ => 'k') }

  function Names(n: nat): seq<string> { seq(n, i requires 0 <= i < n => Name(i)) }

  lemma {:induction false} NamesAreTried(cooldown: int, now: int, n: nat)
    ensures var after := Tried(map[], cooldown, now, Names(n));
      |after| == n && (forall key :: key in after ==> after[key] == now) && forall i: nat :: Name(i) in after <==> i < n
  {
    if n > 0 {
      NamesAreTried(cooldown, now, n - 1);
      assert Names(n)[..n - 1] == Names(n - 1) && Names(n)[n - 1] == Name(n - 1);
      forall i: nat | i != n - 1 ensures Name(i) != Name(n - 1) {
        assert |Name(i)| == i + 1;
      }
    }
  }

  /** A call with as many keys as start pruning, the i-th; the k-th call tries one of them again. */
  function BusyRun(readings: seq<int>, i: nat, k: nat): seq<Call> {
    seq(|readings|, n requires 0 <= n < |readings| =>
      Call(readings[n], if n == i then Names(ATTEMPTS_PRUNE_THRESHOLD) else if n == k then [Name(0)] else []))
  }

  /** After n calls of a busy run: its keys have one stamp, and the pruned map has lost them once the j-th call ran. */
  ghost predicate LostAfter(readings: seq<int>, i: nat, j: nat, n: nat, kept: map<string, int>, all: map<string, int>)
    requires i < |readings|
  {
    && (n <= i ==> kept == all == map[]) && (i < n ==> Name(0) in all && all[Name(0)] == readings[i])
    && (i < n && kept != map[] ==>
          |kept| >= ATTEMPTS_PRUNE_THRESHOLD && forall key :: key in kept ==> kept[key] == readings[i])
    && (j < n ==> kept == map[])
  }

  lemma LosesStep(readings: seq<int>, cooldown: int, i: nat, j: nat, k: nat, n: nat, kept: map<string, int>,
                  all: map<string, int>)
    requires ReturnsAt(readings, cooldown, i, j, k) && n < k && LostAfter(readings, i, j, n, kept, all)
    ensures var keys := BusyRun(readings, i, k)[n].keys;
      LostAfter(readings, i, j, n + 1, Tried(Pruned(kept, cooldown, readings[n]), cooldown, readings[n], keys),
                Tried(all, cooldown, readings[n], keys))
  {
    if n == i {
      NamesAreTried(cooldown, readings[n], ATTEMPTS_PRUNE_THRESHOLD);
    } else if i < n && |kept| >= ATTEMPTS_PRUNE_THRESHOLD {
      var pruned := Pruned(kept, cooldown, readings[n]);
      assert if readings[n] - readings[i] < cooldown then pruned == kept else pruned == map[];
    }
  }

  lemma {:induction false} ReturnLosesKeys(cooldown: int, readings: seq<int>, i: nat, j: nat, k: nat, n: nat)
    requires ReturnsAt(readings, cooldown, i, j, k) && n <= k
    ensures var run := BusyRun(readings, i, k)[..n];
      LostAfter(readings, i, j, n, Attempts(cooldown, run, true), Attempts(cooldown, run, false))
  {
    if n > 0 {
      var run := BusyRun(readings, i, k);
      ReturnLosesKeys(cooldown, readings, i, j, k, n - 1);
      assert run[..n] == run[..n - 1] + [run[n - 1]];
      AttemptsGrow(cooldown, run[..n - 1], run[n - 1]);
      LosesStep(readings, cooldown, i, j, k, n - 1,
                Attempts(cooldown, run[..n - 1], true), Attempts(cooldown, run[..n - 1], false));
    }
  }

  /** The k-th call of a busy run admits with pruning what it refuses without. */
  lemma ReturnShows(cooldown: int, readings: seq<int>, i: nat, j: nat, k: nat)
    requires ReturnsAt(readings, cooldown, i, j, k)
    ensures var run := BusyRun(readings, i, k)[..k + 1];
      Admits(cooldown, run, true) == [Name(0)] && Admits(cooldown, run, false) == []
  {
    var run := BusyRun(readings, i, k);
    ReturnLosesKeys(cooldown, readings, i, j, k, k);
    assert run[..k + 1] == run[..k] + [run[k]] && run[k].keys[..0] == [];
    OneMoreCall(cooldown, run[..k], run[k], true);
    OneMoreCall(cooldown, run[..k], run[k], false);
  }

  /** Whatever the calls try: pruning changes no decision. */
  ghost predicate PruningHidden(readings: seq<int>, cooldown: int) {
    forall run: seq<Call>, n: nat :: Readings(run) == readings ==> DecidedAlike(cooldown, run, n)
  }

  /**
   * The clocks on which pruning changes no decision are exactly those on which no reading
   * returns to within a cooldown of a stamp that the clock has been a cooldown past.
   */
  lemma PruningHiddenIff(readings: seq<int>, cooldown: int)
    ensures PruningHidden(readings, cooldown) <==> NeverReturns(readings, cooldown)
  {
    if NeverReturns(readings, cooldown) {
      forall run: seq<Call>, n: nat | Readings(run) == readings ensures DecidedAlike(cooldown, run, n) {
        NoReturnNoDifference(cooldown, run, n);
      }
    } else {
      var i: nat, j: nat, k: nat :| ReturnsAt(readings, cooldown, i, j, k);
      ReturnShows(cooldown, readings, i, j, k);
      assert Readings(BusyRun(readings, i, k)) == readings;
      assert !DecidedAlike(cooldown, BusyRun(readings, i, k), k + 1);
    }
  }

  // ---------------------------------------------------------------------------
  // Which clocks keep attempts apart
  // ---------------------------------------------------------------------------

  lemma LogGrows(cooldown: int, run: seq<Call>, call: Call)
    ensures Log(cooldown, run + [call]) == Log(cooldown, run) + At(Admits(cooldown, run + [call], true), call.now)
  {
    assert (run + [call])[..|run|] == run;
  }

  lemma CallStamps(cooldown: int, run: seq<Call>, call: Call)
    ensures Stamps(Attempts(cooldown, run, false), Attempts(cooldown, run + [call], false),
                   Admits(cooldown, run + [call], false), cooldown, call.now)
  {
    OneMoreCall(cooldown, run, call, false);
    TryingStamps(Attempts(cooldown, run, false), cooldown, call.now, call.keys);
  }

  /** What holds of the log after any number of calls: it is spaced and behind the entries. */
  ghost predicate KeepsSpaced(cooldown: int, run: seq<Call>) {
    Spaced(Log(cooldown, run), cooldown) && Bounded(Log(cooldown, run), Attempts(cooldown, run, false))
  }

  lemma CallIsSpaced(cooldown: int, run: seq<Call>, call: Call)
    requires cooldown > 0 && KeepsSpaced(cooldown, run)
    requires Admits(cooldown, run + [call], true) == Admits(cooldown, run + [call], false)
    ensures KeepsSpaced(cooldown, run + [call])
  {
    LogGrows(cooldown, run, call);
    CallStamps(cooldown, run, call);
    CallKeepsSpaced(Log(cooldown, run), Attempts(cooldown, run, false), Attempts(cooldown, run + [call], false),
                    Admits(cooldown, run + [call], true), cooldown, call.now);
  }

  lemma {:induction false} LogIsSpaced(cooldown: int, run: seq<Call>, n: nat)
    requires cooldown > 0 && n <= |run| && NeverReturns(Readings(run), cooldown)
    ensures KeepsSpaced(cooldown, run[..n])
  {
    if n > 0 {
      LogIsSpaced(cooldown, run, n - 1);
      NoReturnNoDifference(cooldown, run, n);
      assert run[..n] == run[..n - 1] + [run[n - 1]];
      CallIsSpaced(cooldown, run[..n - 1], run[n - 1]);
    }
  }

  /** What a busy run has admitted before its k-th call. */
  lemma {:induction false} BusyLog(cooldown: int, readings: seq<int>, i: nat, k: nat, n: nat)
    requires i < n <= k < |readings|
    ensures Admission(Name(0), readings[i]) in Log(cooldown, BusyRun(readings, i, k)[..n])
  {
    var run := BusyRun(readings, i, k);
    assert run[..n][..n - 1] == run[..n - 1];
    if n > i + 1 {
      BusyLog(cooldown, readings, i, k, n - 1);
    } else {
      BusyAdmits(cooldown, readings, i, k);
      var c: nat :| c < |Admits(cooldown, run[..n], true)| && Admits(cooldown, run[..n], true)[c] == Name(0);
      assert At(Admits(cooldown, run[..n], true), readings[i])[c] == Admission(Name(0), readings[i]);
    }
  }

  lemma {:induction false} NothingTried(cooldown: int, readings: seq<int>, i: nat, k: nat, n: nat)
    requires n <= i < k < |readings|
    ensures Attempts(cooldown, BusyRun(readings, i, k)[..n], true) == map[]
  {
    if n > 0 {
      NothingTried(cooldown, readings, i, k, n - 1);
      assert BusyRun(readings, i, k)[..n][..n - 1] == BusyRun(readings, i, k)[..n - 1];
    }
  }

  lemma {:induction false} NamesAreChosen(cooldown: int, now: int, n: nat)
    requires n > 0
    ensures Name(0) in Chosen(map[], cooldown, now, Names(n))
  {
    assert Names(n)[..n - 1] == Names(n - 1) && Names(n)[n - 1] == Name(n - 1);
    if n > 1 {
      NamesAreChosen(cooldown, now, n - 1);
    }
  }

  lemma BusyAdmits(cooldown: int, readings: seq<int>, i: nat, k: nat)
    requires i < k < |readings|
    ensures Name(0) in Admits(cooldown, BusyRun(readings, i, k)[..i + 1], true)
  {
    var run := BusyRun(readings, i, k);
    NothingTried(cooldown, readings, i, k, i);
    assert run[..i + 1] == run[..i] + [run[i]];
    OneMoreCall(cooldown, run[..i], run[i], true);
    NamesAreChosen(cooldown, readings[i], ATTEMPTS_PRUNE_THRESHOLD);
  }

  lemma TooSoon(log: seq<Admission>, first: Admission, second: Admission, cooldown: int)
    requires first in log && first.key == second.key && second.time - first.time < cooldown
    ensures !Spaced(log + [second], cooldown)
  {
    var a: nat :| a < |log| && log[a] == first;
    assert (log + [second])[a] == first && (log + [second])[|log|] == second;
  }

  lemma BusyLogEnds(cooldown: int, readings: seq<int>, i: nat, j: nat, k: nat)
    requires ReturnsAt(readings, cooldown, i, j, k)
    ensures var run := BusyRun(readings, i, k);
      Log(cooldown, run[..k + 1]) == Log(cooldown, run[..k]) + [Admission(Name(0), readings[k])]
  {
    var run := BusyRun(readings, i, k);
    assert run[..k + 1] == run[..k] + [run[k]];
    LogGrows(cooldown, run[..k], run[k]);
    assert Admits(cooldown, run[..k + 1], true) == [Name(0)] by {
      ReturnShows(cooldown, readings, i, j, k);
    }
  }

  /** A busy run on readings that return admits a key twice within a cooldown. */
  lemma ReturnIsNotSpaced(cooldown: int, readings: seq<int>, i: nat, j: nat, k: nat)
    requires ReturnsAt(readings, cooldown, i, j, k)
    ensures !Spaced(Log(cooldown, BusyRun(readings, i, k)[..k + 1]), cooldown)
  {
    var log := Log(cooldown, BusyRun(readings, i, k)[..k]);
    BusyLog(cooldown, readings, i, k, k);
    TooSoon(log, Admission(Name(0), readings[i]), Admission(Name(0), readings[k]), cooldown);
    BusyLogEnds(cooldown, readings, i, j, k);
  }

  /** Whatever the calls try: no key is admitted twice within a cooldown. */
  ghost predicate AlwaysSpaced(readings: seq<int>, cooldown: int) {
    forall run: seq<Call>, n: nat :: Readings(run) == readings && n <= |run| ==>
      Spaced(Log(cooldown, run[..n]), cooldown)
  }

  /** The clocks on which admitted attempts of a key are always a cooldown apart are the same ones. */
  lemma AttemptsAreSpacedIff(readings: seq<int>, cooldown: int)
    requires cooldown > 0
    ensures AlwaysSpaced(readings, cooldown) <==> NeverReturns(readings, cooldown)
  {
    if NeverReturns(readings, cooldown) {
      forall run: seq<Call>, n: nat | Readings(run) == readings && n <= |run|
        ensures Spaced(Log(cooldown, run[..n]), cooldown)
      {
        LogIsSpaced(cooldown, run, n);
      }
    } else {
      var i: nat, j: nat, k: nat :| ReturnsAt(readings, cooldown, i, j, k);
      ReturnIsNotSpaced(cooldown, readings, i, j, k);
      assert Readings(BusyRun(readings, i, k)) == readings;
    }
  }

  /**
   * Two calls that reach the lock out of order, the earlier one after a prune: a key is admitted
   * twice within a cooldown.
   */
  lemma InvertedReadingsShowPruning(cooldown: int)
    requires cooldown > 0
    ensures var run := [Call(0, Names(ATTEMPTS_PRUNE_THRESHOLD)), Call(cooldown, []), Call(cooldown - 1, [Name(0)])];
      Admits(cooldown, run, true) == [Name(0)] && Admits(cooldown, run, false) == []
        && !Spaced(Log(cooldown, run), cooldown)
  {
    var readings := [0, cooldown, cooldown - 1];
    var run := [Call(0, Names(ATTEMPTS_PRUNE_THRESHOLD)), Call(cooldown, []), Call(cooldown - 1, [Name(0)])];
    assert run == BusyRun(readings, 0, 2)[..3];
    ReturnShows(cooldown, readings, 0, 1, 2);
    ReturnIsNotSpaced(cooldown, readings, 0, 1, 2);
  }

  /** On a clock that does not go back, any two admitted attempts of a key are at least a cooldown apart. */
  lemma AttemptsAreSpaced(cooldown: int, run: seq<Call>, i: nat, j: nat)
    requires cooldown > 0 && Monotone(run)
    requires i < j < |Log(cooldown, run)| && Log(cooldown, run)[i].key == Log(cooldown, run)[j].key
    ensures Log(cooldown, run)[j].time - Log(cooldown, run)[i].time >= cooldown
  {
    assert NeverReturns(Readings(run), cooldown);
    assert run[..|run|] == run;
    LogIsSpaced(cooldown, run, |run|);
  }

  /** Pruning leaves a map of fewer than 50,000 entries alone, and of a bigger one just the entries still cooling. */
  lemma PruningKeeps(attempts: map<string, int>, cooldown: int, now: int, key: string)
    ensures |attempts| < 50_000 ==> Pruned(attempts, cooldown, now) == attempts
    ensures |attempts| >= 50_000 ==> (key in Pruned(attempts, cooldown, now) <==> Cooling(attempts, cooldown, now, key))
    ensures key in Pruned(attempts, cooldown, now) ==>
      key in attempts && Pruned(attempts, cooldown, now)[key] == attempts[key]
  {
  }

  // ---------------------------------------------------------------------------
  // When a key is admitted
  // ---------------------------------------------------------------------------

  lemma {:induction false} OnlyChosenStamped(attempts: map<string, int>, cooldown: int, now: int, keys: seq<string>)
    ensures forall key :: key in Tried(attempts, cooldown, now, keys) ==>
      (key in attempts && Tried(attempts, cooldown, now, keys)[key] == attempts[key])
      || (key in Chosen(attempts, cooldown, now, keys) && Tried(attempts, cooldown, now, keys)[key] == now)
  {
    if keys != [] {
      OnlyChosenStamped(attempts, cooldown, now, keys[..|keys| - 1]);
    }
  }

  /** Every entry is the time of an admission. */
  ghost predicate EntriesLogged(log: seq<Admission>, all: map<string, int>) {
    forall key :: key in all ==> Admission(key, all[key]) in log
  }

  lemma CallLogs(cooldown: int, run: seq<Call>, call: Call)
    requires EntriesLogged(Log(cooldown, run), Attempts(cooldown, run, false))
    requires Admits(cooldown, run + [call], true) == Admits(cooldown, run + [call], false)
    ensures EntriesLogged(Log(cooldown, run + [call]), Attempts(cooldown, run + [call], false))
  {
    var all, chosen := Attempts(cooldown, run, false), Admits(cooldown, run + [call], true);
    LogGrows(cooldown, run, call);
    OneMoreCall(cooldown, run, call, false);
    OnlyChosenStamped(all, cooldown, call.now, call.keys);
    forall key | key in chosen ensures Admission(key, call.now) in At(chosen, call.now) {
      var i :| 0 <= i < |chosen| && chosen[i] == key;
      assert At(chosen, call.now)[i] == Admission(key, call.now);
    }
  }

  lemma {:induction false} LogHasEntries(cooldown: int, run: seq<Call>, n: nat)
    requires n <= |run| && NeverReturns(Readings(run), cooldown)
    ensures EntriesLogged(Log(cooldown, run[..n]), Attempts(cooldown, run[..n], false))
  {
    if n > 0 {
      LogHasEntries(cooldown, run, n - 1);
      NoReturnNoDifference(cooldown, run, n);
      assert run[..n] == run[..n - 1] + [run[n - 1]];
      CallLogs(cooldown, run[..n - 1], run[n - 1]);
    }
  }

  /** The key was admitted less than a cooldown before the reading. */
  ghost predicate AdmittedSince(log: seq<Admission>, key: string, cooldown: int, now: int) {
    exists a :: a in log && a.key == key && now - a.time < cooldown
  }

  lemma SingleKey(attempts: map<string, int>, cooldown: int, now: int, key: string)
    ensures Chosen(attempts, cooldown, now, [key]) == if Cooling(attempts, cooldown, now, key) then [] else [key]
  {
    assert [key][..0] == [];
  }

  /** On readings that do not return, a key is admitted exactly when it was not admitted less than a cooldown before. */
  lemma AdmittedIff(cooldown: int, run: seq<Call>, n: nat, key: string)
    requires cooldown > 0 && n < |run| && NeverReturns(Readings(run), cooldown) && run[n].keys == [key]
    ensures Admits(cooldown, run[..n + 1], true) ==
      if AdmittedSince(Log(cooldown, run[..n]), key, cooldown, run[n].now) then [] else [key]
  {
    var log, all := Log(cooldown, run[..n]), Attempts(cooldown, run[..n], false);
    assert run[..n + 1] == run[..n] + [run[n]];
    assert Admits(cooldown, run[..n + 1], true) == if Cooling(all, cooldown, run[n].now, key) then [] else [key] by {
      NoReturnNoDifference(cooldown, run, n + 1);
      OneMoreCall(cooldown, run[..n], run[n], false);
      SingleKey(all, cooldown, run[n].now, key);
    }
    assert Cooling(all, cooldown, run[n].now, key) <==> AdmittedSince(log, key, cooldown, run[n].now) by {
      LogIsSpaced(cooldown, run, n);
      LogHasEntries(cooldown, run, n);
      if Cooling(all, cooldown, run[n].now, key) {
        assert Admission(key, all[key]) in log;
      }
    }
  }

  predicate HasNoColon(prefix: string) {
    forall i :: 0 <= i < |prefix| ==> prefix[i] != ':'
  }

  function FirstColon(s: string, i: nat): nat
    requires i <= |s|
    decreases |s| - i
  {
    if i == |s| || s[i] == ':' then i else FirstColon(s, i + 1)
  }

  lemma {:induction false} PrefixEnds(p: string, v: string, i: nat)
    requires HasNoColon(p) && i <= |p|
    ensures FirstColon(p + ":" + v, i) == |p|
    decreases |p| - i
  {
    if i < |p| {
      assert (p + ":" + v)[i] == p[i];
      PrefixEnds(p, v, i + 1);
    }
  }

  lemma PrefixIsRead(p: string, v: string, q: string, w: string)
    requires HasNoColon(p) && HasNoColon(q) && p + ":" + v == q + ":" + w
    ensures p == q && v == w
  {
    PrefixEnds(p, v, 0);
    PrefixEnds(q, w, 0);
    var key := p + ":" + v;
    assert p == key[..|p|] && q == (q + ":" + w)[..|q|];
    assert v == key[|p| + 1..] && w == (q + ":" + w)[|q| + 1..];
  }

  lemma {:induction false} UntriedStays(attempts: map<string, int>, cooldown: int, now: int, keys: seq<string>,
                                        key: string)
    requires key !in keys
    ensures key in Tried(attempts, cooldown, now, keys) <==> key in attempts
    ensures key in attempts ==> Tried(attempts, cooldown, now, keys)[key] == attempts[key]
  {
    if keys != [] {
      assert keys[|keys| - 1] in keys && forall k :: k in keys[..|keys| - 1] ==> k in keys;
      UntriedStays(attempts, cooldown, now, keys[..|keys| - 1], key);
    }
  }

  /** Values tried under one prefix leave those of another as they were. */
  lemma PrefixesAreApart(attempts: map<string, int>, cooldown: int, now: int, prefix: string, values: seq<string>,
                         other: string, value: string, later: int)
    requires HasNoColon(prefix) && HasNoColon(other) && prefix != other
    ensures Cooling(Tried(attempts, cooldown, now, Keyed(prefix, values)), cooldown, later, other + ":" + value)
      <==> Cooling(attempts, cooldown, later, other + ":" + value)
  {
    var key, keys := other + ":" + value, Keyed(prefix, values);
    if key in keys {
      var i :| 0 <= i < |values| && keys[i] == key;
      PrefixIsRead(prefix, values[i], other, value);
    }
    UntriedStays(attempts, cooldown, now, keys, key);
  }

  // ---------------------------------------------------------------------------
  // Jobs
  // ---------------------------------------------------------------------------

  /** The job table, and every job ever started. */
  datatype Jobs = Jobs(table: map<string, nat>, started: map<nat, Job>)

  function NameOf(key: string): string {
    if key == "" then "unknown" else key
  }

  function Scheduled(s: Jobs, key: string, next: nat): (Jobs, nat) {
    var name := NameOf(key);
    if name in s.table then (s, s.table[name])
    else (Jobs(s.table[name := next], s.started[next := Job(name, Working, 0, false)]), next)
  }

  function Cleaned(s: Jobs, job: nat): Jobs
    requires job in s.started
  {
    var key := s.started[job].key;
    Jobs(if key in s.table && s.table[key] == job then s.table - {key} else s.table,
         s.started[job := s.started[job].(phase := Gone)])
  }

  datatype Action =
    | Schedule(key: string, next: nat)
    | WorkEnds(job: nat, panicked: bool)
    | CloseDone(job: nat)
    | CleanUp(job: nat)

  predicate Enabled(s: Jobs, a: Action) {
    match a
    case Schedule(_, next) => next !in s.started
    case WorkEnds(job, _) => job in s.started && s.started[job].phase.Working?
    case CloseDone(job) => job in s.started && s.started[job].phase.Worked?
    case CleanUp(job) => job in s.started && s.started[job].phase.Closed?
  }

  function Step(s: Jobs, a: Action): Jobs
    requires Enabled(s, a)
  {
    match a
    case Schedule(key, next) => Scheduled(s, key, next).0
    case WorkEnds(job, panicked) =>
      s.(started := s.started[job := s.started[job].(phase := Worked, panicked := panicked)])
    case CloseDone(job) =>
      s.(started := s.started[job := s.started[job].(phase := Closed, closes := s.started[job].closes + 1)])
    case CleanUp(job) => Cleaned(s, job)
  }

  ghost predicate Reachable(s: Jobs, steps: nat)
    decreases steps
  {
    if steps == 0 then s == Jobs(map[], map[])
    else exists p, a :: Reachable(p, steps - 1) && Enabled(p, a) && s == Step(p, a)
  }

  /** The table holds exactly the jobs that are not gone, one per key, and each done channel is closed once. */
  ghost predicate Inv(s: Jobs) {
    && (forall key :: key in s.table ==> s.table[key] in s.started && s.started[s.table[key]].key == key)
    && (forall job :: job in s.started ==>
          var j := s.started[job];
          && (j.phase.Gone? <==> !(j.key in s.table && s.table[j.key] == job))
          && j.closes == (if j.phase.Closed? || j.phase.Gone? then 1 else 0)
          && j.key != "")
  }

  lemma LastStep(s: Jobs, steps: nat) returns (p: Jobs, a: Action)
    requires steps > 0 && Reachable(s, steps)
    ensures Reachable(p, steps - 1) && Enabled(p, a) && s == Step(p, a)
  {
    p, a :| Reachable(p, steps - 1) && Enabled(p, a) && s == Step(p, a);
  }

  lemma StepKeepsInv(s: Jobs, a: Action)
    requires Inv(s) && Enabled(s, a)
    ensures Inv(Step(s, a))
  {
  }

  lemma {:induction false} EveryTableHasInv(steps: nat)
    ensures forall s :: Reachable(s, steps) ==> Inv(s)
    decreases steps
  {
    if steps > 0 {
      EveryTableHasInv(steps - 1);
      forall s | Reachable(s, steps) ensures Inv(s) {
        var p, a := LastStep(s, steps);
        StepKeepsInv(p, a);
      }
    }
  }

  /** In every interleaving at most one unfinished job works on a key. */
  lemma OneWorkPerKey(s: Jobs, steps: nat, i: nat, j: nat)
    requires Reachable(s, steps) && i in s.started && j in s.started && s.started[i].key == s.started[j].key
    requires !s.started[i].phase.Gone? && !s.started[j].phase.Gone?
    ensures i == j
  {
    EveryTableHasInv(steps);
  }

  /** A done channel is never closed twice, and is closed before the job leaves the table. */
  lemma DoneClosedOnce(s: Jobs, steps: nat, job: nat)
    requires Reachable(s, steps) && job in s.started
    ensures s.started[job].closes <= 1
    ensures s.started[job].closes == 1 <==> s.started[job].phase.Closed? || s.started[job].phase.Gone?
  {
    EveryTableHasInv(steps);
  }

  /** Scheduling starts new work exactly when no job for the key is still around. */
  lemma StartsWorkIff(s: Jobs, steps: nat, key: string, next: nat)
    requires Reachable(s, steps) && next !in s.started
    ensures Scheduled(s, key, next).1 == next <==>
      forall job :: job in s.started && s.started[job].key == NameOf(key) ==> s.started[job].phase.Gone?
    ensures Scheduled(s, key, next).1 in Scheduled(s, key, next).0.started
    ensures Scheduled(s, key, next).0.started[Scheduled(s, key, next).1].key == NameOf(key)
  {
    EveryTableHasInv(steps);
  }

  /** The goroutine's own steps after the work, whatever state it is in. */
  function Unwound(s: Jobs, job: nat, panicked: bool): Jobs
    requires job in s.started && s.started[job].phase.Working?
  {
    Step(Step(Step(s, WorkEnds(job, panicked)), CloseDone(job)), CleanUp(job))
  }

  /** Once work has returned or panicked and its goroutine has unwound, the key can be scheduled again. */
  lemma SchedulableAgain(s: Jobs, steps: nat, job: nat, panicked: bool, key: string, next: nat)
    requires Reachable(s, steps) && job in s.started && s.started[job].phase.Working?
    requires NameOf(key) == s.started[job].key && next !in s.started
    ensures Unwound(s, job, panicked).started[job] == Job(NameOf(key), Gone, 1, panicked)
    ensures Scheduled(Unwound(s, job, panicked), key, next).1 == next
  {
    EveryTableHasInv(steps);
  }

  /** A cleanup step always frees the key of its job, whatever ran in between. */
  lemma CleanupFrees(s: Jobs, steps: nat, job: nat)
    requires Reachable(s, steps) && job in s.started && s.started[job].phase.Closed?
    ensures Enabled(s, CleanUp(job)) && s.started[job].key !in Step(s, CleanUp(job)).table
  {
    EveryTableHasInv(steps);
  }

  /** Jobs of two different keys run side by side. */
  lemma KeysRunSideBySide(s: Jobs, key: string, next: nat, other: string, later: nat)
    requires key != "" && other != "" && key != other && key !in s.table && other !in s.table && next != later
    ensures var (s1, job) := Scheduled(s, key, next);
      var (s2, second) := Scheduled(s1, other, later);
      && job == next && second == later && s2.table == s.table[key := next][other := later]
      && s2.started == s.started[next := Job(key, Working, 0, false)][later := Job(other, Working, 0, false)]
  {
  }

  /** A job without a key runs under the key "unknown". */
  lemma NamelessKey(s: Jobs, next: nat)
    ensures Scheduled(s, "", next) == Scheduled(s, "unknown", next)
  {
  }
}
