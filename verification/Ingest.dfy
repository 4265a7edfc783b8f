/**
 * The ingest pipeline: batching and flushing in internal/ingest/pipeline.go, and the
 * daily post quota in internal/ingest/postcap.go.
 */
module Ingest {
  import opened Wrappers

  // ---------------------------------------------------------------------------
  // Events, signals and state
  // ---------------------------------------------------------------------------

  datatype Event = Event(id: string, pubkey: string, sig: string, kind: int, tags: seq<seq<string>>, content: string)

  datatype Record = Record(event: Event, relay: string, seen: int)

  /** An event from a relay, with what the exemption check and the clock say when it is handled. */
  datatype Arrival = Arrival(event: Option<Event>, relay: string, exempt: bool, day: string, seen: int)

  datatype Config = Config(batchSize: int, verifyEvents: bool, postCapPerDay: int)

  const MAX_ENTRIES := 200_000

  const CAPPED_KINDS: set<int> := {1, 1111, 6, 16}

  datatype Counter = Counter(day: string, counts: map<string, nat>, dropped: nat, capped: nat)

  /** The pipeline's fields, the batches the store took, and the drop counts that were logged. */
  datatype State = State(batch: seq<Record>, cap: Counter, inserted: seq<seq<Record>>, logged: seq<nat>)

  const INITIAL := State([], Counter("", map[], 0, 0), [], [])

  /** What Run selects on; `fails` says how an insert done for the signal would end. */
  datatype Signal =
    | Cancelled(fails: bool)
    | Tick(fails: bool)
    | InputClosed(fails: bool)
    | Received(arrival: Arrival, fails: bool)

  datatype Verdict = Rejected | OverCap | Accepted

  // ---------------------------------------------------------------------------
  // Counting posts
  // ---------------------------------------------------------------------------

  predicate ValidShape(e: Event) {
    |e.id| == 64 && |e.pubkey| == 64 && |e.sig| == 128 && |e.tags| <= 50_000 && |e.content| <= 1_000_000
  }

  /** The event is counted: capped kind, author not exempt, cap enabled. */
  predicate Subject(cfg: Config, a: Arrival) {
    cfg.postCapPerDay > 0 && a.event.Some? && a.event.value.kind in CAPPED_KINDS && !a.exempt
  }

  function Rolled(c: Counter, day: string): Counter {
    if c.day != day then Counter(day, map[], c.dropped, 0) else c
  }

  function CountOf(counts: map<string, nat>, author: string): nat {
    if author in counts then counts[author] else 0
  }

  function Counted(cfg: Config, c: Counter, a: Arrival): (Counter, bool)
    requires Subject(cfg, a)
  {
    var c, author := Rolled(c, a.day), a.event.value.pubkey;
    var count := CountOf(c.counts, author);
    if count >= cfg.postCapPerDay then (c.(dropped := c.dropped + 1), true)
    else if author !in c.counts && |c.counts| >= MAX_ENTRIES then (c, false)
    else (c.(counts := c.counts[author := count + 1],
             capped := c.capped + if count + 1 == cfg.postCapPerDay then 1 else 0), false)
  }

  function Added(cfg: Config, s: State, a: Arrival): (State, Verdict) {
    if a.event.None? || (!cfg.verifyEvents && !ValidShape(a.event.value)) then (s, Rejected)
    else
      var (cap, over) := if Subject(cfg, a) then Counted(cfg, s.cap, a) else (s.cap, false);
      if over then (s.(cap := cap), OverCap)
      else (s.(cap := cap, batch := s.batch + [Record(a.event.value, a.relay, a.seen)]), Accepted)
  }

  // ---------------------------------------------------------------------------
  // Flushing and handling one signal
  // ---------------------------------------------------------------------------

  predicate FlushFails(s: State, fails: bool) {
    s.batch != [] && fails
  }

  function Flushed(s: State, fails: bool): State {
    if s.batch == [] || fails then s
    else State([], s.cap.(dropped := 0), s.inserted + [s.batch],
               if s.cap.dropped > 0 then s.logged + [s.cap.dropped] else s.logged)
  }

  /** The state after the signal, and whether Run returns; with an error when the flush failed. */
  function Handled(cfg: Config, s: State, signal: Signal): (State, bool, bool) {
    match signal
    case Cancelled(fails) => (Flushed(s, fails), true, FlushFails(s, fails))
    case InputClosed(fails) => (Flushed(s, fails), true, FlushFails(s, fails))
    case Tick(fails) => (Flushed(s, fails), FlushFails(s, fails), FlushFails(s, fails))
    case Received(a, fails) =>
      var (s, verdict) := Added(cfg, s, a);
      if verdict.Accepted? && |s.batch| >= cfg.batchSize then
        (Flushed(s, fails), FlushFails(s, fails), FlushFails(s, fails))
      else (s, false, false)
  }

  /** The state after the signals, starting from s. */
  function After(cfg: Config, s: State, signals: seq<Signal>): State {
    if signals == [] then s
    else Handled(cfg, After(cfg, s, signals[..|signals| - 1]), signals[|signals| - 1]).0
  }

  /** Run returns at the k-th signal. */
  predicate Returns(cfg: Config, s: State, signals: seq<Signal>, k: nat)
    requires k < |signals|
  {
    Handled(cfg, After(cfg, s, signals[..k]), signals[k]).1
  }

  /** The k-th signal ends Run with an error. */
  predicate Fails(cfg: Config, s: State, signals: seq<Signal>, k: nat)
    requires k < |signals|
  {
    Handled(cfg, After(cfg, s, signals[..k]), signals[k]).2
  }

  lemma AfterGrows(cfg: Config, s: State, signals: seq<Signal>, k: nat)
    requires k < |signals|
    ensures After(cfg, s, signals[..k + 1]) == Handled(cfg, After(cfg, s, signals[..k]), signals[k]).0
  {
    assert signals[..k + 1][..k] == signals[..k];
  }

  class Pipeline {
    const cfg: Config
    var batch: seq<Record>
    var day: string
    var counts: map<string, nat>
    var droppedSinceLog: nat
    var cappedAuthorsToday: nat
    var inserted: seq<seq<Record>>
    var logged: seq<nat>

    constructor (cfg: Config)
      ensures this.cfg == cfg && Fields() == INITIAL
    {
      this.cfg := cfg;
      batch, day, counts, droppedSinceLog, cappedAuthorsToday, inserted, logged := [], "", map[], 0, 0, [], [];
    }

    ghost function Fields(): State
      reads this
    {
      State(batch, Counter(day, counts, droppedSinceLog, cappedAuthorsToday), inserted, logged)
    }

    method OverPostCap(a: Arrival) returns (over: bool)
      requires a.event.Some?
      modifies this`day, this`counts, this`droppedSinceLog, this`cappedAuthorsToday
      ensures (Fields().cap, over) ==
        old(if Subject(cfg, a) then Counted(cfg, Fields().cap, a) else (Fields().cap, false))
    {
      var limit, event := cfg.postCapPerDay, a.event.value;
      if limit <= 0 {
        return false;
      }
      if event.kind !in CAPPED_KINDS {
        return false;
      }
      if a.exempt {
        return false;
      }
      if day != a.day {
        day := a.day;
        counts := map[];
        cappedAuthorsToday := 0;
      }
      var tracked := event.pubkey in counts;
      var count := if tracked then counts[event.pubkey] else 0;
      if count >= limit {
        droppedSinceLog := droppedSinceLog + 1;
        return true;
      }
      if !tracked && |counts| >= MAX_ENTRIES {
        return false;
      }
      counts := counts[event.pubkey := count + 1];
      if count + 1 == limit {
        cappedAuthorsToday := cappedAuthorsToday + 1;
      }
      return false;
    }

    method Add(a: Arrival) returns (verdict: Verdict)
      modifies this
      ensures (Fields(), verdict) == old(Added(cfg, Fields(), a))
    {
      if a.event.None? {
        return Rejected;
      }
      if !cfg.verifyEvents {
        if !ValidShape(a.event.value) {
          return Rejected;
        }
      }
      var over := OverPostCap(a);
      if over {
        return OverCap;
      }
      batch := batch + [Record(a.event.value, a.relay, a.seen)];
      return Accepted;
    }

    method Flush(fails: bool) returns (failed: bool)
      modifies this
      ensures Fields() == old(Flushed(Fields(), fails)) && failed == old(FlushFails(Fields(), fails))
    {
      if |batch| == 0 {
        return false;
      }
      if fails {
        return true;
      }
      inserted := inserted + [batch];
      batch := [];
      if droppedSinceLog > 0 {
        logged := logged + [droppedSinceLog];
        droppedSinceLog := 0;
      }
      return false;
    }

    method Handle(signal: Signal) returns (ends: bool, failed: bool)
      modifies this
      ensures (Fields(), ends, failed) == old(Handled(cfg, Fields(), signal))
    {
      match signal
      case Cancelled(fails) =>
        failed := Flush(fails);
        ends := true;
      case InputClosed(fails) =>
        failed := Flush(fails);
        ends := true;
      case Tick(fails) =>
        failed := Flush(fails);
        ends := failed;
      case Received(arrival, fails) =>
        var verdict := Add(arrival);
        if verdict != Accepted {
          return false, false;
        }
        if |batch| >= cfg.batchSize {
          failed := Flush(fails);
          return failed, failed;
        }
        return false, false;
    }

    /** Handle signals until Run returns or none is left. */
    method Run(signals: seq<Signal>) returns (consumed: nat, failed: bool)
      modifies this
      ensures consumed <= |signals| && Fields() == old(After(cfg, Fields(), signals[..consumed]))
      ensures old(RunsTo(cfg, Fields(), signals, consumed, failed))
      ensures failed ==> batch != []
    {
      consumed, failed := 0, false;
      ghost var start := Fields();
      while consumed < |signals|
        invariant consumed <= |signals| && !failed
        invariant Fields() == After(cfg, start, signals[..consumed])
        invariant RunsOn(cfg, start, signals, consumed)
      {
        AfterGrows(cfg, start, signals, consumed);
        var ends: bool;
        ends, failed := Handle(signals[consumed]);
        GoesOn(cfg, start, signals, consumed);
        consumed := consumed + 1;
        if ends {
          return;
        }
      }
      RunsOut(cfg, start, signals);
    }
  }

  /** None of the first n signals makes Run return. */
  ghost predicate RunsOn(cfg: Config, s: State, signals: seq<Signal>, n: nat) {
    n <= |signals| && forall k :: 0 <= k < n ==> !Returns(cfg, s, signals, k)
  }

  /** Run returns at the last signal it consumed and at none before, or none is left; it fails if that one does. */
  ghost predicate RunsTo(cfg: Config, s: State, signals: seq<Signal>, consumed: nat, failed: bool) {
    && consumed <= |signals| && (consumed > 0 ==> RunsOn(cfg, s, signals, consumed - 1))
    && (consumed < |signals| ==> consumed > 0 && Returns(cfg, s, signals, consumed - 1))
    && (failed <==> consumed > 0 && Fails(cfg, s, signals, consumed - 1))
  }

  lemma GoesOn(cfg: Config, s: State, signals: seq<Signal>, n: nat)
    requires n < |signals| && RunsOn(cfg, s, signals, n)
    ensures !Returns(cfg, s, signals, n) ==> RunsOn(cfg, s, signals, n + 1)
    ensures Returns(cfg, s, signals, n) ==> RunsTo(cfg, s, signals, n + 1, Fails(cfg, s, signals, n))
  {
  }

  lemma RunsOut(cfg: Config, s: State, signals: seq<Signal>)
    requires RunsOn(cfg, s, signals, |signals|)
    ensures RunsTo(cfg, s, signals, |signals|, false)
  {
    if signals != [] {
      var k := |signals| - 1;
      assert !Returns(cfg, s, signals, k);
      RunEndsIff(cfg, After(cfg, s, signals[..k]), signals[k]);
    }
  }

  /** When Run returns without an error, nothing is left in the batch. */
  lemma ReturnsEmpty(cfg: Config, s: State, signals: seq<Signal>, k: nat)
    requires k < |signals| && Returns(cfg, s, signals, k) && !Fails(cfg, s, signals, k)
    ensures After(cfg, s, signals[..k + 1]).batch == []
  {
    AfterGrows(cfg, s, signals, k);
  }

  // ---------------------------------------------------------------------------
  // No accepted event is lost
  // ---------------------------------------------------------------------------

  predicate VerdictIs(cfg: Config, s: State, signal: Signal, verdict: Verdict) {
    signal.Received? && Added(cfg, s, signal.arrival).1 == verdict
  }

  /** The record the signal adds to the accepted events, if any. */
  function AcceptedAt(cfg: Config, s: State, signal: Signal): seq<Record> {
    if VerdictIs(cfg, s, signal, Accepted) && signal.arrival.event.Some?
    then [Record(signal.arrival.event.value, signal.arrival.relay, signal.arrival.seen)]
    else []
  }

  /** The accepted events of the signals, in order. */
  function AcceptedOf(cfg: Config, s: State, signals: seq<Signal>): seq<Record> {
    if signals == [] then []
    else
      var front, last := signals[..|signals| - 1], signals[|signals| - 1];
      AcceptedOf(cfg, s, front) + AcceptedAt(cfg, After(cfg, s, front), last)
  }

  /** How many events of the signals were dropped over the cap. */
  function DropsOf(cfg: Config, s: State, signals: seq<Signal>): nat {
    if signals == [] then 0
    else
      var front, last := signals[..|signals| - 1], signals[|signals| - 1];
      DropsOf(cfg, s, front) + if VerdictIs(cfg, After(cfg, s, front), last, OverCap) then 1 else 0
  }

  function Flatten(batches: seq<seq<Record>>): seq<Record> {
    if batches == [] then [] else Flatten(batches[..|batches| - 1]) + batches[|batches| - 1]
  }

  function Sum(counts: seq<nat>): nat {
    if counts == [] then 0 else Sum(counts[..|counts| - 1]) + counts[|counts| - 1]
  }

  /** Everything the store took, then everything still in the batch. */
  function Kept(s: State): seq<Record> {
    Flatten(s.inserted) + s.batch
  }

  /** All drops that were logged or are still pending. */
  function Drops(s: State): nat {
    Sum(s.logged) + s.cap.dropped
  }

  lemma FlushKeeps(s: State, fails: bool)
    ensures Kept(Flushed(s, fails)) == Kept(s) && Drops(Flushed(s, fails)) == Drops(s)
  {
    assert (s.inserted + [s.batch])[..|s.inserted|] == s.inserted;
    assert (s.logged + [s.cap.dropped])[..|s.logged|] == s.logged;
  }

  lemma AddKeeps(cfg: Config, s: State, a: Arrival)
    ensures var (s', verdict) := Added(cfg, s, a);
      && (verdict.Accepted? ==> a.event.Some? && Kept(s') == Kept(s) + [Record(a.event.value, a.relay, a.seen)])
      && (!verdict.Accepted? ==> Kept(s') == Kept(s))
      && Drops(s') == Drops(s) + if verdict.OverCap? then 1 else 0
  {
    if a.event.Some? {
      assert Kept(s) + [Record(a.event.value, a.relay, a.seen)]
        == Flatten(s.inserted) + (s.batch + [Record(a.event.value, a.relay, a.seen)]);
    }
  }

  /** One signal keeps everything but what it adds. */
  lemma SignalKeeps(cfg: Config, s: State, signal: Signal)
    ensures Kept(Handled(cfg, s, signal).0) == Kept(s) + AcceptedAt(cfg, s, signal)
    ensures Drops(Handled(cfg, s, signal).0) == Drops(s) + if VerdictIs(cfg, s, signal, OverCap) then 1 else 0
  {
    assert Kept(s) + [] == Kept(s);
    if signal.Received? {
      ArrivalKeeps(cfg, s, signal);
    } else {
      FlushKeeps(s, signal.fails);
    }
  }

  lemma ArrivalKeeps(cfg: Config, s: State, signal: Signal)
    requires signal.Received?
    ensures Kept(Handled(cfg, s, signal).0) == Kept(Added(cfg, s, signal.arrival).0)
      == Kept(s) + AcceptedAt(cfg, s, signal)
    ensures Drops(Handled(cfg, s, signal).0) == Drops(s) + if VerdictIs(cfg, s, signal, OverCap) then 1 else 0
  {
    var added := Added(cfg, s, signal.arrival).0;
    assert Kept(added) == Kept(s) + AcceptedAt(cfg, s, signal) by {
      AddKeeps(cfg, s, signal.arrival);
      assert Kept(s) + [] == Kept(s);
    }
    assert Drops(added) == Drops(s) + if VerdictIs(cfg, s, signal, OverCap) then 1 else 0 by {
      AddKeeps(cfg, s, signal.arrival);
    }
    FlushKeeps(added, signal.fails);
  }

  /**
   * From any state, so across failed flushes and restarts of Run: the store and the
   * batch grow by exactly the accepted events, in order, and the logged and pending
   * drops by exactly the dropped ones.
   */
  lemma {:induction false} NothingIsLost(cfg: Config, s: State, signals: seq<Signal>)
    ensures Kept(After(cfg, s, signals)) == Kept(s) + AcceptedOf(cfg, s, signals)
    ensures Drops(After(cfg, s, signals)) == Drops(s) + DropsOf(cfg, s, signals)
  {
    if signals == [] {
      assert Kept(s) + [] == Kept(s);
    } else {
      var front, last := signals[..|signals| - 1], signals[|signals| - 1];
      NothingIsLost(cfg, s, front);
      SignalKeeps(cfg, After(cfg, s, front), last);
      Associate(Kept(s), AcceptedOf(cfg, s, front), AcceptedAt(cfg, After(cfg, s, front), last));
    }
  }

  lemma Associate(a: seq<Record>, b: seq<Record>, c: seq<Record>)
    ensures (a + b) + c == a + (b + c)
  {
  }

  /** A second Run goes on where the first one returned. */
  lemma {:induction false} RunsCompose(cfg: Config, s: State, first: seq<Signal>, second: seq<Signal>)
    ensures After(cfg, After(cfg, s, first), second) == After(cfg, s, first + second)
    decreases |second|
  {
    if second == [] {
      assert first + second == first;
    } else {
      assert (first + second)[..|first + second| - 1] == first + second[..|second| - 1];
      RunsCompose(cfg, s, first, second[..|second| - 1]);
    }
  }

  /** A batch that is full after a signal was just refused by the store. */
  lemma FullBatchWasRefused(cfg: Config, s: State, signal: Signal)
    requires |s.batch| < cfg.batchSize
    ensures var (s', ends, failed) := Handled(cfg, s, signal);
      |s'.batch| >= cfg.batchSize ==> ends && failed && |s'.batch| == cfg.batchSize
  {
  }

  /** How often the store refused a full batch since it last took one. */
  function Refusals(cfg: Config, signals: seq<Signal>): nat {
    if signals == [] then 0
    else
      var front, last := signals[..|signals| - 1], signals[|signals| - 1];
      var s := After(cfg, INITIAL, front);
      var (s', _, failed) := Handled(cfg, s, last);
      if s'.inserted != s.inserted then 0
      else Refusals(cfg, front) + if last.Received? && failed then 1 else 0
  }

  /** One less than a full batch, and one more record for every refusal. */
  function Room(cfg: Config, refusals: nat): nat {
    (if cfg.batchSize > 0 then cfg.batchSize - 1 else 0) + refusals
  }

  lemma SignalKeepsRoom(cfg: Config, s: State, signal: Signal, refusals: nat)
    requires |s.batch| <= Room(cfg, refusals)
    ensures var (s', _, failed) := Handled(cfg, s, signal);
      |s'.batch| <= Room(cfg, if s'.inserted != s.inserted then 0
                              else refusals + if signal.Received? && failed then 1 else 0)
  {
  }

  /**
   * Over any run and any restarts: the batch is smaller than a full one, but for one
   * more record for each time the store has refused a full batch since it last took one.
   */
  lemma {:induction false} BatchStaysSmall(cfg: Config, signals: seq<Signal>)
    ensures |After(cfg, INITIAL, signals).batch| <= Room(cfg, Refusals(cfg, signals))
  {
    if signals != [] {
      var front, last := signals[..|signals| - 1], signals[|signals| - 1];
      BatchStaysSmall(cfg, front);
      SignalKeepsRoom(cfg, After(cfg, INITIAL, front), last, Refusals(cfg, front));
    }
  }

  // ---------------------------------------------------------------------------
  // What each signal does
  // ---------------------------------------------------------------------------

  /** After a tick, a cancellation or the end of input whose insert works, the store has all that was kept. */
  lemma SignalFlushes(cfg: Config, s: State, signal: Signal)
    requires !signal.Received? && !signal.fails
    ensures var s' := Handled(cfg, s, signal).0;
      && s'.batch == [] && Flatten(s'.inserted) == Flatten(s.inserted) + s.batch
      && s'.inserted == if s.batch == [] then s.inserted else s.inserted + [s.batch]
  {
    assert (s.inserted + [s.batch])[..|s.inserted|] == s.inserted;
    assert Flatten(s.inserted) + [] == Flatten(s.inserted);
  }

  /** An insert that fails leaves everything as it was, and Run returns its error. */
  lemma RefusalKeepsAll(cfg: Config, s: State, signal: Signal)
    requires !signal.Received? && signal.fails && s.batch != []
    ensures Handled(cfg, s, signal) == (s, true, true)
  {
  }

  /** Run goes on after every event and every tick, unless an insert failed; nothing else lets it go on. */
  lemma RunEndsIff(cfg: Config, s: State, signal: Signal)
    ensures var (s', ends, failed) := Handled(cfg, s, signal);
      && (ends <==> signal.Cancelled? || signal.InputClosed? || failed)
      && (failed ==> signal.fails && s'.batch != [] && s'.inserted == s.inserted)
  {
  }

  /** An event that fills the batch is inserted with it. */
  lemma FullBatchIsInserted(cfg: Config, s: State, arrival: Arrival)
    requires Added(cfg, s, arrival).1.Accepted? && |s.batch| + 1 >= cfg.batchSize
    ensures arrival.event.Some? && var s' := Handled(cfg, s, Received(arrival, false)).0;
      s'.batch == [] && s'.inserted == s.inserted
        + [s.batch + [Record(arrival.event.value, arrival.relay, arrival.seen)]]
  {
  }

  /** No insert is empty. */
  lemma {:induction false} InsertsAreNotEmpty(cfg: Config, signals: seq<Signal>)
    ensures forall b :: b in After(cfg, INITIAL, signals).inserted ==> b != []
  {
    if signals != [] {
      InsertsAreNotEmpty(cfg, signals[..|signals| - 1]);
    }
  }

  /** What is rejected: no event, or an unverified one whose id, key, signature, tags or content have the wrong size. */
  lemma RejectedIff(cfg: Config, s: State, a: Arrival)
    ensures Added(cfg, s, a).1.Rejected? <==>
      || a.event.None?
      || (!cfg.verifyEvents && (|a.event.value.id| != 64 || |a.event.value.pubkey| != 64 || |a.event.value.sig| != 128
                               || |a.event.value.tags| > 50000 || |a.event.value.content| > 1000000))
    ensures Added(cfg, s, a).1.Rejected? ==> Added(cfg, s, a).0 == s
  {
  }

  /** An accepted event goes to the end of the batch, with its relay and time; no other event does. */
  lemma AcceptedGoesLast(cfg: Config, s: State, a: Arrival)
    ensures var (s', verdict) := Added(cfg, s, a);
      && s'.inserted == s.inserted && s'.logged == s.logged
      && if verdict.Accepted? then a.event.Some? && s'.batch == s.batch + [Record(a.event.value, a.relay, a.seen)]
         else s'.batch == s.batch
  {
  }

  // ---------------------------------------------------------------------------
  // The quota
  // ---------------------------------------------------------------------------

  /** The arrival gets as far as the post counter. */
  predicate Reaches(cfg: Config, signal: Signal) {
    && signal.Received? && Subject(cfg, signal.arrival)
    && (cfg.verifyEvents || ValidShape(signal.arrival.event.value))
  }

  /** The ingestion day of the last event that reached the counter. */
  function LastDay(cfg: Config, signals: seq<Signal>): string {
    if signals == [] then ""
    else
      var last := signals[|signals| - 1];
      if Reaches(cfg, last) then last.arrival.day else LastDay(cfg, signals[..|signals| - 1])
  }

  /** The author's accepted counted events since the day last changed. */
  function Today(cfg: Config, signals: seq<Signal>, author: string): nat {
    if signals == [] then 0
    else
      var front, last := signals[..|signals| - 1], signals[|signals| - 1];
      if !Reaches(cfg, last) then Today(cfg, front, author)
      else
        (if last.arrival.day == LastDay(cfg, front) then Today(cfg, front, author) else 0)
        + if last.arrival.event.value.pubkey == author
          && VerdictIs(cfg, After(cfg, INITIAL, front), last, Accepted) then 1 else 0
  }

  function AtLimit(counts: map<string, nat>, limit: int): set<string> {
    set author | author in counts && counts[author] == limit
  }

  /** The counter counts: exactly for tracked authors, within the quota, and within the map's bound. */
  ghost predicate CountsRight(counts: map<string, nat>, capped: nat, limit: int, today: string -> nat) {
    && (forall author :: author in counts ==> 1 <= counts[author] == today(author) <= limit)
    && (forall author :: author !in counts && today(author) > 0 ==> |counts| == MAX_ENTRIES)
    && |counts| <= MAX_ENTRIES
    && capped == |AtLimit(counts, limit)|
  }

  /** One more event of the author. */
  ghost predicate OneMore(author: string, n: nat, before: string -> nat, after: string -> nat) {
    forall a :: after(a) == before(a) + if a == author then n else 0
  }

  lemma LimitReached(counts: map<string, nat>, limit: int, author: string)
    requires CountOf(counts, author) < limit
    ensures var count := CountOf(counts, author) + 1;
      |AtLimit(counts[author := count], limit)| == |AtLimit(counts, limit)| + if count == limit then 1 else 0
  {
    var count := CountOf(counts, author) + 1;
    assert author !in AtLimit(counts, limit);
    assert AtLimit(counts[author := count], limit) == AtLimit(counts, limit) + if count == limit then {author} else {};
  }

  lemma TrackedRight(counts: map<string, nat>, capped: nat, limit: int, author: string, before: string -> nat,
                     after: string -> nat)
    requires CountsRight(counts, capped, limit, before) && OneMore(author, 1, before, after)
    requires CountOf(counts, author) < limit && (author in counts || |counts| < MAX_ENTRIES)
    ensures var count := CountOf(counts, author) + 1;
      CountsRight(counts[author := count], capped + if count == limit then 1 else 0, limit, after)
  {
    LimitReached(counts, limit, author);
    GrowsByOne(counts, author, CountOf(counts, author) + 1);
    assert author !in counts ==> before(author) == 0;
  }

  lemma GrowsByOne(counts: map<string, nat>, author: string, count: nat)
    ensures |counts[author := count]| == |counts| + if author in counts then 0 else 1
  {
    assert counts[author := count].Keys == counts.Keys + {author};
  }

  lemma UntrackedRight(counts: map<string, nat>, capped: nat, limit: int, author: string, n: nat, before: string -> nat,
                       after: string -> nat)
    requires CountsRight(counts, capped, limit, before) && OneMore(author, n, before, after)
    requires n > 0 ==> author !in counts && |counts| >= MAX_ENTRIES
    ensures CountsRight(counts, capped, limit, after)
  {
  }

  /** Counting one event keeps the counter right. */
  lemma CountedRight(cfg: Config, c: Counter, a: Arrival, before: string -> nat, after: string -> nat)
    requires Subject(cfg, a) && CountsRight(Rolled(c, a.day).counts, Rolled(c, a.day).capped, cfg.postCapPerDay, before)
    requires OneMore(a.event.value.pubkey, if Counted(cfg, c, a).1 then 0 else 1, before, after)
    ensures CountsRight(Counted(cfg, c, a).0.counts, Counted(cfg, c, a).0.capped, cfg.postCapPerDay, after)
  {
    var rolled, author := Rolled(c, a.day), a.event.value.pubkey;
    if CountOf(rolled.counts, author) < cfg.postCapPerDay
      && (author in rolled.counts || |rolled.counts| < MAX_ENTRIES) {
      TrackedRight(rolled.counts, rolled.capped, cfg.postCapPerDay, author, before, after);
    } else {
      UntrackedRight(rolled.counts, rolled.capped, cfg.postCapPerDay, author, if Counted(cfg, c, a).1 then 0 else 1,
                     before, after);
    }
  }

  function TodayOf(cfg: Config, signals: seq<Signal>): string -> nat {
    (author: string) => Today(cfg, signals, author)
  }

  function SoFar(cfg: Config, signals: seq<Signal>, day: string): string -> nat {
    (author: string) => if day == LastDay(cfg, signals) then Today(cfg, signals, author) else 0
  }

  /** In every state: the day is the last one seen, and the counter counts right. */
  ghost predicate QuotaKept(cfg: Config, signals: seq<Signal>) {
    var cap := After(cfg, INITIAL, signals).cap;
    cap.day == LastDay(cfg, signals) && CountsRight(cap.counts, cap.capped, cfg.postCapPerDay, TodayOf(cfg, signals))
  }

  /** Only an arrival that reaches the counter changes it. */
  lemma CounterChanges(cfg: Config, s: State, signal: Signal)
    ensures var cap := Handled(cfg, s, signal).0.cap;
      if Reaches(cfg, signal) then
        var (counted, over) := Counted(cfg, s.cap, signal.arrival);
        && cap.day == counted.day && cap.counts == counted.counts && cap.capped == counted.capped
        && VerdictIs(cfg, s, signal, if over then OverCap else Accepted)
      else cap.day == s.cap.day && cap.counts == s.cap.counts && cap.capped == s.cap.capped
  {
  }

  lemma {:induction false} QuotaIsKept(cfg: Config, signals: seq<Signal>)
    ensures QuotaKept(cfg, signals)
  {
    if signals == [] {
      assert AtLimit(map[], cfg.postCapPerDay) == {};
    } else {
      var front, last := signals[..|signals| - 1], signals[|signals| - 1];
      var s := After(cfg, INITIAL, front);
      QuotaIsKept(cfg, front);
      CounterChanges(cfg, s, last);
      if Reaches(cfg, last) {
        var before, after := SoFar(cfg, front, last.arrival.day), TodayOf(cfg, signals);
        RolledRight(cfg, front, s.cap, last.arrival.day);
        CountedRight(cfg, s.cap, last.arrival, before, after);
      } else {
        UntrackedRight(s.cap.counts, s.cap.capped, cfg.postCapPerDay, "", 0, TodayOf(cfg, front),
                       TodayOf(cfg, signals));
      }
    }
  }

  lemma RolledRight(cfg: Config, signals: seq<Signal>, c: Counter, day: string)
    requires c.day == LastDay(cfg, signals) && CountsRight(c.counts, c.capped, cfg.postCapPerDay, TodayOf(cfg, signals))
    ensures CountsRight(Rolled(c, day).counts, Rolled(c, day).capped, cfg.postCapPerDay, SoFar(cfg, signals, day))
  {
    assert AtLimit(map[], cfg.postCapPerDay) == {};
  }

  /**
   * Each counter is the author's accepted counted events of the day and never exceeds
   * the limit; only authors that the full map has no room for go uncounted.
   */
  lemma CountersCount(cfg: Config, signals: seq<Signal>, author: string)
    ensures var counts := After(cfg, INITIAL, signals).cap.counts;
      && |counts| <= MAX_ENTRIES
      && (author in counts ==> counts[author] == Today(cfg, signals, author) <= cfg.postCapPerDay)
      && (author !in counts && Today(cfg, signals, author) > 0 ==> |counts| == MAX_ENTRIES)
  {
    QuotaIsKept(cfg, signals);
  }

  /** An arrival is dropped over the cap exactly when its author was counted `limit` times that day. */
  lemma DroppedIffAtLimit(cfg: Config, signals: seq<Signal>, a: Arrival)
    requires Reaches(cfg, Received(a, false))
    ensures var s := After(cfg, INITIAL, signals);
      Added(cfg, s, a).1 == OverCap <==>
        a.day == LastDay(cfg, signals) && a.event.value.pubkey in s.cap.counts
        && Today(cfg, signals, a.event.value.pubkey) == cfg.postCapPerDay
  {
    QuotaIsKept(cfg, signals);
  }

  /** The tracked authors that had the full quota accepted today. */
  function FullAuthors(cfg: Config, signals: seq<Signal>): set<string> {
    set author | author in After(cfg, INITIAL, signals).cap.counts && Today(cfg, signals, author) == cfg.postCapPerDay
  }

  /** The capped-authors count is the number of authors at the limit. */
  lemma CappedAuthorsCounted(cfg: Config, signals: seq<Signal>)
    ensures After(cfg, INITIAL, signals).cap.capped == |FullAuthors(cfg, signals)|
  {
    QuotaIsKept(cfg, signals);
    assert FullAuthors(cfg, signals) == AtLimit(After(cfg, INITIAL, signals).cap.counts, cfg.postCapPerDay);
  }

  // ---------------------------------------------------------------------------
  // Who the quota is for
  // ---------------------------------------------------------------------------

  /**
   * Exempt authors, other kinds than posts, comments and reposts, and everyone while there is no
   * limit, are not counted.
   */
  lemma NotForAll(cfg: Config, s: State, a: Arrival)
    requires a.exempt || cfg.postCapPerDay <= 0 || (a.event.Some? && a.event.value.kind !in {1, 6, 16, 1111})
    ensures !Added(cfg, s, a).1.OverCap? && Added(cfg, s, a).0.cap == s.cap
  {
  }

  /** Any other well-formed event: refused at the limit of the day, else accepted and counted while there is room. */
  lemma CountedOrRefused(cfg: Config, s: State, a: Arrival, author: string)
    requires cfg.postCapPerDay > 0 && a.event.Some? && a.event.value.kind in {1, 6, 16, 1111} && !a.exempt
    requires a.event.value.pubkey == author && (cfg.verifyEvents || ValidShape(a.event.value))
    ensures var (s', verdict) := Added(cfg, s, a);
      var today := if s.cap.day == a.day then s.cap.counts else map[];
      var used := if author in today then today[author] else 0;
      && s'.cap.day == a.day && (verdict.OverCap? <==> used >= cfg.postCapPerDay)
      && (verdict.OverCap? ==> s'.cap.counts == today && s'.cap.dropped == s.cap.dropped + 1)
      && (!verdict.OverCap? ==> verdict.Accepted? && s'.cap.dropped == s.cap.dropped)
      && (!verdict.OverCap? ==>
            s'.cap.counts == if author in today || |today| < 200000 then today[author := used + 1] else today)
  {
  }

  predicate IsFrom(signal: Signal, author: string) {
    signal.Received? && signal.arrival.event.Some? && signal.arrival.event.value.pubkey == author
  }

  /** Every arrival of the author is exempt. */
  predicate AlwaysExempt(signals: seq<Signal>, author: string) {
    forall signal :: signal in signals && IsFrom(signal, author) ==> signal.arrival.exempt
  }

  lemma OthersCount(cfg: Config, s: State, signal: Signal, author: string)
    requires AlwaysExempt([signal], author) && author !in s.cap.counts
    ensures author !in Handled(cfg, s, signal).0.cap.counts
  {
    assert signal in [signal];
  }

  /** An author who is always exempt is never counted, over any run. */
  lemma {:induction false} ExemptAreNeverCounted(cfg: Config, signals: seq<Signal>, author: string)
    requires AlwaysExempt(signals, author)
    ensures author !in After(cfg, INITIAL, signals).cap.counts
  {
    if signals != [] {
      var front, last := signals[..|signals| - 1], signals[|signals| - 1];
      assert last in signals && forall x :: x in front ==> x in signals;
      ExemptAreNeverCounted(cfg, front, author);
      OthersCount(cfg, After(cfg, INITIAL, front), last, author);
    }
  }
}
