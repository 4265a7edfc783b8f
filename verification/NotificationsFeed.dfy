/**
 * The two-cursor rollup behind the notifications read model:
 * internal/clickhouse/notifications_feed.go, with the cursor rows of
 * internal/clickhouse/rollup.go.
 *
 * Clock readings are nanoseconds. Cursors, run stamps and window bounds are whole
 * seconds, as DateTime columns and toDateTime(Unix()) store them. Of two rows
 * saved for one task, the store keeps the one with the later run stamp.
 */
module NotificationsFeed {
  import opened Wrappers

  const SECOND := 1_000_000_000
  const HOUR := 3600 * SECOND
  const HISTORY_WINDOW := 14 * 24 * HOUR
  const OVERLAP := 600 * SECOND
  const SLICE := HOUR
  const READY_LAG := 30 * 60 * SECOND
  const READY_HISTORY := 72 * HOUR
  const READY_CHECK_EVERY := 30 * SECOND

  function Unix(t: int): int { t / SECOND }

  datatype Row = Row(cursor: int, lastRunAt: int, processed: nat)

  /** Both cursor rows, and the seconds whose candidates have been written to the feed. */
  datatype Feed = Feed(head: Option<Row>, backfill: Option<Row>, written: set<int>)

  const EMPTY: Feed := Feed(None, None, {})

  /** A statement that fails may have written part of its window; a save that fails may have taken. */
  datatype ExecIo = ExecWorks | ExecFails(wrote: set<int>)
  datatype SaveIo = SaveWorks | SaveFails(took: bool)
  datatype TickIo = TickIo(loadHead: bool, execHead: ExecIo, saveHead: SaveIo,
                           loadBack: bool, execBack: ExecIo, saveBack: SaveIo)

  predicate Flawless(io: TickIo) {
    io.loadHead && io.execHead.ExecWorks? && io.saveHead.SaveWorks?
    && io.loadBack && io.execBack.ExecWorks? && io.saveBack.SaveWorks?
  }

  predicate Within(s: int, from: int, to: int) { from <= s < to }

  function Window(from: int, to: int): set<int> {
    set s: int | Unix(from) <= s < Unix(to) && Within(s, Unix(from), Unix(to))
  }

  function Written(written: set<int>, from: int, to: int, io: ExecIo): set<int> {
    written + if io.ExecWorks? then Window(from, to) else Window(from, to) * io.wrote
  }

  function Saved(row: Option<Row>, next: Row, io: SaveIo): Option<Row> {
    if io.SaveFails? && !io.took then row
    else if row.Some? && next.lastRunAt < row.value.lastRunAt then row
    else Some(next)
  }

  /** Where this tick's history slice ends: the stored cursor, or where the head design left off. */
  function Edge(feed: Feed, now: int): int {
    if feed.backfill.Some? then feed.backfill.value.cursor * SECOND
    else if feed.head.Some? then feed.head.value.cursor * SECOND
    else now - SLICE
  }

  function HeadFrom(feed: Feed, now: int): int {
    if feed.head.Some? then feed.head.value.cursor * SECOND - OVERLAP else now - SLICE
  }

  function SliceFrom(feed: Feed, now: int): int {
    var target, from := now - HISTORY_WINDOW, Edge(feed, now) - SLICE;
    if from < target then target else from
  }

  function Processed(row: Option<Row>): nat {
    if row.Some? then row.value.processed else 0
  }

  /** One whole tick, with whatever fails in it. */
  function Tick(feed: Feed, now: int, io: TickIo): (Feed, Result<bool, string>) {
    if !io.loadHead then (feed, Err("load head"))
    else
      var f1 := feed.(written := Written(feed.written, HeadFrom(feed, now), now, io.execHead));
      if io.execHead.ExecFails? then (f1, Err("exec head"))
      else
        var f2 := f1.(head := Saved(feed.head, Row(Unix(now), Unix(now), Processed(feed.head) + 1), io.saveHead));
        if io.saveHead.SaveFails? then (f2, Err("save head"))
        else if !io.loadBack then (f2, Err("load backfill"))
        else if Edge(feed, now) <= now - HISTORY_WINDOW then (f2, Ok(true))
        else
          var from := SliceFrom(feed, now);
          var f3 := f2.(written := Written(f2.written, from, Edge(feed, now), io.execBack));
          if io.execBack.ExecFails? then (f3, Err("exec history"))
          else
            var f4 := f3.(backfill := Saved(feed.backfill, Row(Unix(from), Unix(now), Processed(feed.backfill) + 1),
                                            io.saveBack));
            if io.saveBack.SaveFails? then (f4, Err("save backfill")) else (f4, Ok(from <= now - HISTORY_WINDOW))
  }

  /** The readiness rule; the two cursor ages are taken at two clock readings. */
  function Ready(feed: Feed, headOk: bool, backOk: bool, now1: int, now2: int): bool {
    headOk && backOk
    && feed.head.Some? && now1 - feed.head.value.cursor * SECOND < READY_LAG
    && feed.backfill.Some? && now2 - feed.backfill.value.cursor * SECOND >= READY_HISTORY
  }

  class FeedStore {
    var head: Option<Row>
    var backfill: Option<Row>
    var written: set<int>
    var feedReady: bool
    var feedReadyCheckedAt: Option<int>

    constructor ()
      ensures Value() == EMPTY && !feedReady && feedReadyCheckedAt.None?
    {
      head, backfill, written, feedReady, feedReadyCheckedAt := None, None, {}, false, None;
    }

    ghost function Value(): Feed
      reads this
    {
      Feed(head, backfill, written)
    }

    method ExecWindow(from: int, to: int, io: ExecIo) returns (ok: bool)
      modifies this`written
      ensures written == old(Written(written, from, to, io)) && ok == io.ExecWorks?
    {
      written := Written(written, from, to, io);
      ok := io.ExecWorks?;
    }

    method RecomputeNotificationsFeed(now: int, io: TickIo) returns (r: Result<bool, string>)
      modifies this`head, this`backfill, this`written
      ensures (Value(), r) == old(Tick(Value(), now, io))
    {
      if !io.loadHead {
        return Err("load head");
      }
      var loaded := head;
      var firstRun := loaded.None?;
      var headFrom := if firstRun then now - SLICE else loaded.value.cursor * SECOND - OVERLAP;
      var ok := ExecWindow(headFrom, now, io.execHead);
      if !ok {
        return Err("exec head");
      }
      head := Saved(head, Row(Unix(now), Unix(now), Processed(loaded) + 1), io.saveHead);
      if io.saveHead.SaveFails? {
        return Err("save head");
      }
      if !io.loadBack {
        return Err("load backfill");
      }
      var edge;
      if backfill.Some? {
        edge := backfill.value.cursor * SECOND;
      } else if !firstRun {
        edge := loaded.value.cursor * SECOND;
      } else {
        edge := headFrom;
      }
      var target := now - HISTORY_WINDOW;
      if edge <= target {
        return Ok(true);
      }
      var sliceFrom := edge - SLICE;
      if sliceFrom < target {
        sliceFrom := target;
      }
      ok := ExecWindow(sliceFrom, edge, io.execBack);
      if !ok {
        return Err("exec history");
      }
      backfill := Saved(backfill, Row(Unix(sliceFrom), Unix(now), Processed(backfill) + 1), io.saveBack);
      if io.saveBack.SaveFails? {
        return Err("save backfill");
      }
      r := Ok(sliceFrom <= target);
    }

    method NotificationsFeedReady(now: int, headOk: bool, backOk: bool, now1: int, now2: int, now3: int)
      returns (ready: bool)
      modifies this`feedReady, this`feedReadyCheckedAt
      ensures ready == feedReady
      ensures if old(feedReadyCheckedAt.Some?) && now - old(feedReadyCheckedAt).value < 30_000_000_000
        then feedReady == old(feedReady) && feedReadyCheckedAt == old(feedReadyCheckedAt)
        else feedReady == Ready(Value(), headOk, backOk, now1, now2) && feedReadyCheckedAt == Some(now3)
    {
      if feedReadyCheckedAt.Some? && now - feedReadyCheckedAt.value < READY_CHECK_EVERY {
        return feedReady;
      }
      feedReady := Ready(Feed(head, backfill, written), headOk, backOk, now1, now2);
      feedReadyCheckedAt := Some(now3);
      ready := feedReady;
    }
  }

  // ---------------------------------------------------------------------------
  // Coverage under failure
  // ---------------------------------------------------------------------------

  datatype TickInput = TickInput(now: int, io: TickIo)

  function Run(feed: Feed, ticks: seq<TickInput>): Feed {
    if ticks == [] then feed
    else
      var last := ticks[|ticks| - 1];
      Tick(Run(feed, ticks[..|ticks| - 1]), last.now, last.io).0
  }

  ghost predicate Covered(feed: Feed, from: int, to: int) {
    forall s: int :: from <= s < to ==> s in feed.written
  }

  ghost predicate CoverInv(feed: Feed) {
    && (feed.head.Some? ==> feed.head.value.lastRunAt == feed.head.value.cursor)
    && (feed.backfill.Some? ==> feed.head.Some? && Covered(feed, feed.backfill.value.cursor, feed.head.value.cursor))
  }

  lemma TickKeepsCover(feed: Feed, now: int, io: TickIo)
    requires CoverInv(feed)
    ensures CoverInv(Tick(feed, now, io).0)
    ensures feed.written <= Tick(feed, now, io).0.written
  {
    if io.loadHead && io.execHead.ExecWorks? {
      HeadSliceCovers(feed, now, io);
      WindowHolds(SliceFrom(feed, now), Edge(feed, now));
    }
  }

  lemma WindowHolds(from: int, to: int)
    ensures forall s :: Unix(from) <= s < Unix(to) ==> s in Window(from, to)
  {
    forall s | Unix(from) <= s < Unix(to) ensures s in Window(from, to) {
      assert Within(s, Unix(from), Unix(to));
    }
  }

  /** The head slice reaches back to the old head, or to where history starts on the first run. */
  lemma HeadSliceCovers(feed: Feed, now: int, io: TickIo)
    requires CoverInv(feed) && io.loadHead && io.execHead.ExecWorks?
    ensures var from := if feed.backfill.Some? then feed.backfill.value.cursor
                        else if feed.head.Some? then feed.head.value.cursor else Unix(now - SLICE);
      forall s :: from <= s < Unix(now) ==> s in Written(feed.written, HeadFrom(feed, now), now, io.execHead)
  {
    WindowHolds(HeadFrom(feed, now), now);
    if feed.head.Some? {
      assert Unix(HeadFrom(feed, now)) == feed.head.value.cursor - 600;
    }
  }

  lemma {:induction false} RunKeepsCover(ticks: seq<TickInput>)
    ensures CoverInv(Run(EMPTY, ticks))
  {
    if ticks != [] {
      var front, last := ticks[..|ticks| - 1], ticks[|ticks| - 1];
      RunKeepsCover(front);
      TickKeepsCover(Run(EMPTY, front), last.now, last.io);
    }
  }

  /** Whatever failed and whatever the clock did: between the two cursors nothing is missing. */
  lemma CursorsBoundWrittenHistory(ticks: seq<TickInput>)
    ensures var feed := Run(EMPTY, ticks);
      feed.backfill.Some? ==> feed.head.Some? && Covered(feed, feed.backfill.value.cursor, feed.head.value.cursor)
  {
    RunKeepsCover(ticks);
  }

  /** When the read path switches over, the last 72 hours up to the head are there, and the head is recent. */
  lemma ReadyMeansCovered(ticks: seq<TickInput>, headOk: bool, backOk: bool, now1: int, now2: int)
    requires Ready(Run(EMPTY, ticks), headOk, backOk, now1, now2)
    ensures var feed := Run(EMPTY, ticks);
      && feed.head.Some? && now1 - feed.head.value.cursor * SECOND < READY_LAG
      && Covered(feed, Unix(now2 - READY_HISTORY), feed.head.value.cursor)
  {
    RunKeepsCover(ticks);
  }

  /** Nothing written is ever unwritten, so a readiness answer kept for a while stays true of the feed. */
  lemma {:induction false} CoverageLasts(ticks: seq<TickInput>, more: seq<TickInput>, from: int, to: int)
    requires Covered(Run(EMPTY, ticks), from, to)
    ensures Covered(Run(EMPTY, ticks + more), from, to)
    decreases |more|
  {
    if more == [] {
      assert ticks + more == ticks;
    } else {
      var front, last := more[..|more| - 1], more[|more| - 1];
      assert (ticks + more)[..|ticks + more| - 1] == ticks + front;
      CoverageLasts(ticks, front, from, to);
      RunKeepsCover(ticks + front);
      TickKeepsCover(Run(EMPTY, ticks + front), last.now, last.io);
    }
  }

  /** A tick that reports completion leaves all 14 days up to the head written, for any clock. */
  lemma CompletionMeansCovered(ticks: seq<TickInput>, now: int, io: TickIo)
    ensures var (feed, r) := Tick(Run(EMPTY, ticks), now, io);
      r == Ok(true) ==> feed.head.Some? && Covered(feed, Unix(now - HISTORY_WINDOW), feed.head.value.cursor)
  {
    RunKeepsCover(ticks);
    TickCompletes(Run(EMPTY, ticks), now, io);
  }

  lemma TickCompletes(feed: Feed, now: int, io: TickIo)
    requires CoverInv(feed)
    ensures var (feed', r) := Tick(feed, now, io);
      r == Ok(true) ==> feed'.head.Some? && Covered(feed', Unix(now - HISTORY_WINDOW), feed'.head.value.cursor)
  {
    if io.loadHead && io.execHead.ExecWorks? {
      HeadSliceCovers(feed, now, io);
      WindowHolds(SliceFrom(feed, now), Edge(feed, now));
    }
  }

  // ---------------------------------------------------------------------------
  // History catch-up
  // ---------------------------------------------------------------------------

  /** How many history slices are still to be written, as seen at `now`. */
  function Remaining(feed: Feed, now: int): nat {
    var left := Edge(feed, now) - (now - HISTORY_WINDOW);
    if left <= 0 then 0 else (left + SLICE - 1) / SLICE
  }

  /** Over any run the stored history cursor only ever moves backwards, whatever fails and whatever the clock does. */
  lemma {:induction false} HistoryNeverMovesForward(feed: Feed, ticks: seq<TickInput>)
    requires feed.backfill.Some?
    ensures Run(feed, ticks).backfill.Some? && Run(feed, ticks).backfill.value.cursor <= feed.backfill.value.cursor
  {
    if ticks != [] {
      HistoryNeverMovesForward(feed, ticks[..|ticks| - 1]);
    }
  }

  /** A tick that got through reports completion exactly when at most one slice was left. */
  lemma CompletionIffTargetReached(feed: Feed, now: int, io: TickIo)
    requires Tick(feed, now, io).1.Ok?
    ensures Tick(feed, now, io).1.value <==> Remaining(feed, now) <= 1
  {
    var left := Edge(feed, now) - (now - HISTORY_WINDOW);
    if left > 0 {
      assert (left + SLICE - 1) / SLICE <= 1 <==> left <= SLICE;
    }
  }

  /** No run stamp lies after `now`. */
  predicate NotAfter(feed: Feed, now: int) {
    (feed.head.Some? ==> feed.head.value.lastRunAt <= Unix(now))
    && (feed.backfill.Some? ==> feed.backfill.value.lastRunAt <= Unix(now))
  }

  /** There is a head cursor older than the whole history window, and no history cursor yet. */
  predicate StaleHead(feed: Feed, now: int) {
    feed.backfill.None? && feed.head.Some? && feed.head.value.cursor * SECOND <= now - HISTORY_WINDOW
  }

  ghost predicate Progresses(feed: Feed, now: int, io: TickIo) {
    forall later: int :: later >= now ==>
      var before := Remaining(feed, now);
      Remaining(Tick(feed, now, io).0, later) <= if before > 0 then before - 1 else 0
  }

  /**
   * A successful tick takes one slice off what remains, except in one case: it
   * reports completion without storing a history cursor when the head is older
   * than the whole window, and the walk then starts over from the new head.
   */
  lemma ProgressIff(feed: Feed, now: int, io: TickIo)
    requires CoverInv(feed) && NotAfter(feed, now) && Tick(feed, now, io).1.Ok?
    ensures Progresses(feed, now, io) <==> !StaleHead(feed, now)
  {
    var feed' := Tick(feed, now, io).0;
    if StaleHead(feed, now) {
      assert Remaining(feed', now) >= 1;
    } else {
      forall later: int | later >= now
        ensures var before := Remaining(feed, now);
          Remaining(feed', later) <= if before > 0 then before - 1 else 0
      {
        OneSliceLess(feed, now, io, later);
      }
    }
  }

  lemma OneSliceLess(feed: Feed, now: int, io: TickIo, later: int)
    requires NotAfter(feed, now) && Tick(feed, now, io).1.Ok? && !StaleHead(feed, now) && now <= later
    ensures var before := Remaining(feed, now);
      Remaining(Tick(feed, now, io).0, later) <= if before > 0 then before - 1 else 0
  {
    var feed' := Tick(feed, now, io).0;
    var left, left' := Edge(feed, now) - (now - HISTORY_WINDOW), Edge(feed', later) - (later - HISTORY_WINDOW);
    if left > 0 {
      assert feed'.backfill == Some(Row(Unix(SliceFrom(feed, now)), Unix(now), Processed(feed.backfill) + 1));
      assert left' <= if left > SLICE then left - SLICE else 0;
      assert left > SLICE ==> (left - SLICE + SLICE - 1) / SLICE == (left + SLICE - 1) / SLICE - 1;
    } else {
      assert feed.backfill.Some?;
    }
  }

  /** The exception is real: completion is reported with no history cursor stored. */
  lemma StaleHeadExample()
    ensures var io := TickIo(true, ExecWorks, SaveWorks, true, ExecWorks, SaveWorks);
      var feed := Run(EMPTY, [TickInput(0, io.(execBack := ExecFails({})))]);
      var now := 15 * 24 * HOUR;
      StaleHead(feed, now) && Tick(feed, now, io).1 == Ok(true) && Tick(feed, now, io).0.backfill.None?
      && Remaining(Tick(feed, now, io).0, now) == 336
  {
    var io := TickIo(true, ExecWorks, SaveWorks, true, ExecWorks, SaveWorks);
    var bad := TickInput(0, io.(execBack := ExecFails({})));
    assert [bad][..0] == [];
    assert Run(EMPTY, [bad]) == Tick(Run(EMPTY, []), 0, bad.io).0;
  }

  ghost predicate SteadyClock(ticks: seq<TickInput>) {
    forall i, j :: 0 <= i < j < |ticks| ==> ticks[i].now <= ticks[j].now
  }

  predicate Succeeds(feed: Feed, t: TickInput) {
    Tick(feed, t.now, t.io).1.Ok?
  }

  /** How many ticks of the run get through, whatever fails in the others. */
  function Successes(feed: Feed, ticks: seq<TickInput>): nat {
    if ticks == [] then 0
    else
      var front, last := ticks[..|ticks| - 1], ticks[|ticks| - 1];
      Successes(feed, front) + if Succeeds(Run(feed, front), last) then 1 else 0
  }

  /** How many of them find no stale head. */
  function Productive(feed: Feed, ticks: seq<TickInput>): nat {
    if ticks == [] then 0
    else
      var front, last := ticks[..|ticks| - 1], ticks[|ticks| - 1];
      Productive(feed, front)
        + if Succeeds(Run(feed, front), last) && !StaleHead(Run(feed, front), last.now) then 1 else 0
  }

  /** A tick that fails anywhere keeps the stamps behind the clock and puts nothing back. */
  lemma TickPutsNothingBack(feed: Feed, now: int, io: TickIo, later: int)
    requires NotAfter(feed, now) && now <= later
    ensures var feed' := Tick(feed, now, io).0;
      && NotAfter(feed', later) && (feed.backfill.Some? ==> feed'.backfill.Some?)
      && (feed.backfill.Some? ==> Remaining(feed', later) <= Remaining(feed, now))
  {
    var feed' := Tick(feed, now, io).0;
    if feed.backfill.Some? {
      FewerLeft(Edge(feed, now) - (now - HISTORY_WINDOW), Edge(feed', later) - (later - HISTORY_WINDOW));
    }
  }

  lemma FewerLeft(left: int, left': int)
    requires left' <= left
    ensures (if left' <= 0 then 0 else (left' + SLICE - 1) / SLICE)
      <= if left <= 0 then 0 else (left + SLICE - 1) / SLICE
  {
  }

  /**
   * From any state with a history cursor, on a clock that does not go back: every
   * tick that gets through takes a slice off what remains, and no failure adds one.
   */
  lemma {:induction false} FailuresOnlyDelay(feed: Feed, ticks: seq<TickInput>, start: int, later: int)
    requires feed.backfill.Some? && NotAfter(feed, start) && start <= later && SteadyClock(ticks)
    requires forall t :: t in ticks ==> start <= t.now <= later
    ensures var after, n := Run(feed, ticks), Successes(feed, ticks);
      && after.backfill.Some? && NotAfter(after, later)
      && Remaining(after, later) <= if Remaining(feed, start) > n then Remaining(feed, start) - n else 0
    decreases |ticks|
  {
    if ticks == [] {
      FewerLeft(Edge(feed, start) - (start - HISTORY_WINDOW), Edge(feed, later) - (later - HISTORY_WINDOW));
    } else {
      var front, last := ticks[..|ticks| - 1], ticks[|ticks| - 1];
      FailuresOnlyDelay(feed, front, start, last.now);
      TickPutsNothingBack(Run(feed, front), last.now, last.io, later);
      if Succeeds(Run(feed, front), last) {
        OneSliceLess(Run(feed, front), last.now, last.io, later);
      }
    }
  }

  /** A tick of a walk that has no history cursor yet: at most the whole window remains. */
  lemma FirstCursor(feed: Feed, now: int, io: TickIo, later: int)
    requires CoverInv(feed) && NotAfter(feed, now) && feed.backfill.None? && now <= later
    ensures Remaining(feed, now) <= 336
    ensures var feed' := Tick(feed, now, io).0; feed'.backfill.Some? ==> Remaining(feed', later) <= 336
  {
    var feed' := Tick(feed, now, io).0;
    if feed'.backfill.Some? {
      FewerLeft(HISTORY_WINDOW, Edge(feed', later) - (later - HISTORY_WINDOW));
    }
    FewerLeft(HISTORY_WINDOW, Edge(feed, now) - (now - HISTORY_WINDOW));
  }

  /** What a run from an empty store has reached, whatever failed in it. */
  ghost predicate CaughtUp(ticks: seq<TickInput>, later: int) {
    var feed, n := Run(EMPTY, ticks), Productive(EMPTY, ticks);
    && CoverInv(feed) && NotAfter(feed, later)
    && (feed.backfill.None? ==> n == 0)
    && (feed.backfill.Some? ==> Remaining(feed, later) <= if n < 336 then 336 - n else 0)
  }

  /** From an empty store, on a clock that does not go back, n productive ticks leave at most 336 - n slices. */
  lemma {:induction false} CatchUp(ticks: seq<TickInput>, later: int)
    requires SteadyClock(ticks) && forall t :: t in ticks ==> t.now <= later
    ensures CaughtUp(ticks, later)
    decreases |ticks|
  {
    if ticks != [] {
      var front, last := ticks[..|ticks| - 1], ticks[|ticks| - 1];
      var feed := Run(EMPTY, front);
      CatchUp(front, last.now);
      TickKeepsCover(feed, last.now, last.io);
      TickPutsNothingBack(feed, last.now, last.io, later);
      if feed.backfill.None? {
        FirstCursor(feed, last.now, last.io, later);
      }
      if Succeeds(feed, last) && !StaleHead(feed, last.now) {
        OneSliceLess(feed, last.now, last.io, later);
      }
    }
  }

  /**
   * Catch-up terminates: once 335 ticks got through without finding a stale head,
   * wherever failures fell between them, every tick that gets through reports
   * completion, and the whole history window is written.
   */
  lemma CatchUpTerminates(ticks: seq<TickInput>, now: int, io: TickIo)
    requires SteadyClock(ticks) && (forall t :: t in ticks ==> t.now <= now)
    requires Productive(EMPTY, ticks) >= 335
    ensures var (feed, r) := Tick(Run(EMPTY, ticks), now, io);
      r.Ok? ==> r.value && feed.head.Some? && Covered(feed, Unix(now - HISTORY_WINDOW), feed.head.value.cursor)
  {
    if Tick(Run(EMPTY, ticks), now, io).1.Ok? {
      CatchUp(ticks, now);
      CompletionIffTargetReached(Run(EMPTY, ticks), now, io);
      CompletionMeansCovered(ticks, now, io);
    }
  }

  /** Once there is a history cursor, no tick finds a stale head: all that get through are productive. */
  lemma {:induction false} StaleHeadIsInitial(feed: Feed, ticks: seq<TickInput>)
    requires feed.backfill.Some?
    ensures Productive(feed, ticks) == Successes(feed, ticks) && Run(feed, ticks).backfill.Some?
  {
    if ticks != [] {
      StaleHeadIsInitial(feed, ticks[..|ticks| - 1]);
    }
  }

  /** The clock reading of the last tick of a run from an empty store that got through. */
  function LastSuccess(ticks: seq<TickInput>): Option<int> {
    if ticks == [] then None
    else
      var front, last := ticks[..|ticks| - 1], ticks[|ticks| - 1];
      if Succeeds(Run(EMPTY, front), last) then Some(last.now) else LastSuccess(front)
  }

  /** Each tick that got through came less than the history window after the one before that did. */
  predicate CloseSuccesses(ticks: seq<TickInput>) {
    ticks == [] ||
      var front, last := ticks[..|ticks| - 1], ticks[|ticks| - 1];
      && CloseSuccesses(front)
      && (Succeeds(Run(EMPTY, front), last) && LastSuccess(front).Some? ==>
            last.now - LastSuccess(front).value <= HISTORY_WINDOW - SECOND)
  }

  /** While there is no history cursor, at most one tick got through, and the head has not fallen behind it. */
  ghost predicate AtMostOneWasted(feed: Feed, last: Option<int>, productive: nat, successes: nat) {
    && productive >= successes - 1
    && (feed.backfill.None? && last.None? ==> successes == 0)
    && (feed.backfill.None? && last.Some? ==>
         successes <= 1 && feed.head.Some? && feed.head.value.cursor >= Unix(last.value))
  }

  lemma UnixGrows(s: int, t: int)
    requires s <= t
    ensures Unix(s) <= Unix(t)
  {
  }

  lemma HeadKeepsUp(feed: Feed, now: int, io: TickIo, last: int)
    requires NotAfter(feed, now) && last <= now && feed.head.Some? && feed.head.value.cursor >= Unix(last)
    ensures var feed' := Tick(feed, now, io).0; feed'.head.Some? && feed'.head.value.cursor >= Unix(last)
  {
    UnixGrows(last, now);
  }

  lemma CloseHeadIsNotStale(feed: Feed, last: int, now: int)
    requires feed.head.Some? && feed.head.value.cursor >= Unix(last) && now - last <= HISTORY_WINDOW - SECOND
    ensures !StaleHead(feed, now)
  {
  }

  lemma SuccessfulTick(feed: Feed, now: int, io: TickIo)
    requires NotAfter(feed, now) && Tick(feed, now, io).1.Ok?
    ensures var feed' := Tick(feed, now, io).0;
      && feed'.head.Some? && feed'.head.value.cursor == Unix(now)
      && (!StaleHead(feed, now) ==> feed'.backfill.Some?)
  {
  }

  lemma FailingTick(feed: Feed, now: int, io: TickIo)
    requires feed.backfill.Some?
    ensures Tick(feed, now, io).0.backfill.Some?
  {
  }

  lemma TickWastesOne(feed: Feed, last: Option<int>, t: TickInput, productive: nat, successes: nat)
    requires NotAfter(feed, t.now) && AtMostOneWasted(feed, last, productive, successes)
    requires last.Some? ==> last.value <= t.now && (Succeeds(feed, t) ==> t.now - last.value <= HISTORY_WINDOW - SECOND)
    ensures AtMostOneWasted(Tick(feed, t.now, t.io).0, if Succeeds(feed, t) then Some(t.now) else last,
      productive + (if Succeeds(feed, t) && !StaleHead(feed, t.now) then 1 else 0),
      successes + if Succeeds(feed, t) then 1 else 0)
  {
    if feed.backfill.Some? {
      FailingTick(feed, t.now, t.io);
    } else if last.Some? {
      HeadKeepsUp(feed, t.now, t.io, last.value);
    }
    if Succeeds(feed, t) {
      SuccessfulTick(feed, t.now, t.io);
      if feed.backfill.None? && last.Some? {
        CloseHeadIsNotStale(feed, last.value, t.now);
      }
    }
  }

  lemma {:induction false} RunWastesOne(ticks: seq<TickInput>, later: int)
    requires SteadyClock(ticks) && CloseSuccesses(ticks) && forall t :: t in ticks ==> t.now <= later
    ensures AtMostOneWasted(Run(EMPTY, ticks), LastSuccess(ticks), Productive(EMPTY, ticks), Successes(EMPTY, ticks))
    ensures LastSuccess(ticks).Some? ==> LastSuccess(ticks).value <= later
    decreases |ticks|
  {
    if ticks != [] {
      var front, last := ticks[..|ticks| - 1], ticks[|ticks| - 1];
      RunWastesOne(front, last.now);
      CatchUp(front, last.now);
      TickWastesOne(Run(EMPTY, front), LastSuccess(front), last, Productive(EMPTY, front), Successes(EMPTY, front));
    }
  }

  /**
   * Where ticks that get through are never a whole history window apart, at most the
   * first of them is wasted: after 336 of them, wherever others failed, every tick
   * that gets through reports completion with the window written.
   */
  lemma SuccessesComplete(ticks: seq<TickInput>, now: int, io: TickIo)
    requires SteadyClock(ticks) && (forall t :: t in ticks ==> t.now <= now)
    requires CloseSuccesses(ticks) && Successes(EMPTY, ticks) >= 336
    ensures var (feed, r) := Tick(Run(EMPTY, ticks), now, io);
      r.Ok? ==> r.value && feed.head.Some? && Covered(feed, Unix(now - HISTORY_WINDOW), feed.head.value.cursor)
  {
    RunWastesOne(ticks, now);
    CatchUpTerminates(ticks, now, io);
  }

  /** From an empty store, after n flawless ticks at most 335 - n slices remain. */
  lemma {:induction false} FlawlessCatchUp(ticks: seq<TickInput>, later: int)
    requires ticks != [] && SteadyClock(ticks) && (forall t :: t in ticks ==> Flawless(t.io) && t.now <= later)
    ensures var feed := Run(EMPTY, ticks);
      feed.backfill.Some? && NotAfter(feed, later)
        && Remaining(feed, later) <= if |ticks| <= 335 then 335 - |ticks| else 0
    decreases |ticks|
  {
    var front, last := ticks[..|ticks| - 1], ticks[|ticks| - 1];
    if front != [] {
      FlawlessCatchUp(front, last.now);
    }
    OneSliceLess(Run(EMPTY, front), last.now, last.io, later);
  }

  /** From an empty store, every flawless tick from the 335th on reports completion. */
  lemma FlawlessRunCompletes(ticks: seq<TickInput>)
    requires |ticks| >= 335 && SteadyClock(ticks) && (forall t :: t in ticks ==> Flawless(t.io))
    ensures var last := ticks[|ticks| - 1];
      Tick(Run(EMPTY, ticks[..|ticks| - 1]), last.now, last.io).1 == Ok(true)
  {
    var front, last := ticks[..|ticks| - 1], ticks[|ticks| - 1];
    FlawlessCatchUp(front, last.now);
    CompletionIffTargetReached(Run(EMPTY, front), last.now, last.io);
  }

  // ---------------------------------------------------------------------------
  // Ticks and readiness in hours and minutes
  // ---------------------------------------------------------------------------

  /** The feed has been written in exactly the seconds it was, and those of the two windows. */
  ghost predicate Gained(before: Feed, after: Feed, headFrom: int, headTo: int, from: int, to: int) {
    forall s: int :: s in after.written <==>
      s in before.written || headFrom / 1_000_000_000 <= s < headTo / 1_000_000_000
      || from / 1_000_000_000 <= s < to / 1_000_000_000
  }

  lemma WindowsGained(before: Feed, after: Feed, headFrom: int, headTo: int, from: int, to: int)
    requires after.written == before.written + Window(headFrom, headTo) + Window(from, to)
    ensures Gained(before, after, headFrom, headTo, from, to)
  {
    WindowHolds(headFrom, headTo);
    WindowHolds(from, to);
  }

  /**
   * A flawless tick with both cursors: it rewrites the last ten minutes before the old
   * head and goes on to now; and it goes an hour further back, but not past 14 days.
   */
  lemma FlawlessTick(feed: Feed, now: int, io: TickIo)
    requires Flawless(io) && feed.head.Some? && feed.backfill.Some? && NotAfter(feed, now)
    ensures var head, edge := feed.head.value.cursor * 1_000_000_000, feed.backfill.value.cursor * 1_000_000_000;
      var target := now - 1_209_600_000_000_000;
      var from := if edge - 3_600_000_000_000 < target then target else edge - 3_600_000_000_000;
      var (feed', r) := Tick(feed, now, io);
      && feed'.head == Some(Row(now / 1_000_000_000, now / 1_000_000_000, feed.head.value.processed + 1))
      && if edge <= target then
           r == Ok(true) && feed'.backfill == feed.backfill
             && Gained(feed, feed', head - 600_000_000_000, now, now, now)
         else
           && r == Ok(from == target)
           && feed'.backfill == Some(Row(from / 1_000_000_000, now / 1_000_000_000, feed.backfill.value.processed + 1))
           && Gained(feed, feed', head - 600_000_000_000, now, from, edge)
  {
    var feed' := Tick(feed, now, io).0;
    var headFrom, edge := HeadFrom(feed, now), Edge(feed, now);
    if edge <= now - HISTORY_WINDOW {
      WindowsGained(feed, feed', headFrom, now, now, now);
    } else {
      WindowsGained(feed, feed', headFrom, now, SliceFrom(feed, now), edge);
    }
  }

  /** The first flawless tick writes the last hour as the head and the hour before it as history. */
  lemma FirstTick(now: int, io: TickIo)
    requires Flawless(io)
    ensures var (feed, r) := Tick(EMPTY, now, io);
      && r == Ok(false) && feed.head == Some(Row(now / 1_000_000_000, now / 1_000_000_000, 1))
      && feed.backfill == Some(Row((now - 7_200_000_000_000) / 1_000_000_000, now / 1_000_000_000, 1))
      && Gained(EMPTY, feed, now - 3_600_000_000_000, now, now - 7_200_000_000_000, now - 3_600_000_000_000)
  {
    WindowsGained(EMPTY, Tick(EMPTY, now, io).0, now - SLICE, now, now - 2 * SLICE, now - SLICE);
  }

  /** Without a history cursor, history goes on from the old head. */
  lemma HistoryStartsAtHead(feed: Feed, now: int, io: TickIo)
    requires Flawless(io) && feed.head.Some? && feed.backfill.None? && NotAfter(feed, now)
    requires now - feed.head.value.cursor * 1_000_000_000 <= 1_209_600_000_000_000 - 3_600_000_000_000
    ensures Tick(feed, now, io).0.backfill == Some(Row(feed.head.value.cursor - 3600, now / 1_000_000_000, 1))
  {
  }

  /** A cursor moves only when the statement before it worked and its own save took. */
  lemma CursorsFollowWrites(feed: Feed, now: int, io: TickIo)
    ensures var feed' := Tick(feed, now, io).0;
      && (feed'.head != feed.head ==>
            io.loadHead && io.execHead.ExecWorks? && (io.saveHead.SaveFails? ==> io.saveHead.took))
      && (feed'.backfill != feed.backfill ==> io.saveHead.SaveWorks? && io.loadBack)
      && (feed'.backfill != feed.backfill ==> io.execBack.ExecWorks? && (io.saveBack.SaveFails? ==> io.saveBack.took))
    ensures Tick(feed, now, io).1.Ok? ==> io.loadHead && io.execHead.ExecWorks? && io.saveHead.SaveWorks? && io.loadBack
  {
  }

  /** Exactly when the feed is ready: a head younger than 30 minutes, and history 72 hours back. */
  lemma ReadyIff(feed: Feed, headOk: bool, backOk: bool, now1: int, now2: int)
    ensures Ready(feed, headOk, backOk, now1, now2) <==>
      && headOk && backOk && feed.head.Some? && feed.backfill.Some?
      && now1 - feed.head.value.cursor * 1_000_000_000 < 1_800_000_000_000
      && now2 - feed.backfill.value.cursor * 1_000_000_000 >= 259_200_000_000_000
  {
  }
}
