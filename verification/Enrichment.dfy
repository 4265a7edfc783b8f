/**
 * The enrichment worker: RunOnce of internal/enrich/runner.go over the cursor
 * rows of internal/clickhouse/enrichment.go. Any step may fail or the process may
 * stop there; the theorem is that the saved accounting is exactly-once anyway.
 */
module Enrichment {
  import opened Wrappers
  import opened Sorting
  import opened Events

  /** The id that stands for "no event id" in a stored cursor: 64 zeros. */
  const EMPTY_CURSOR_ID: string := Zeros(64)

  function Zeros(n: nat): (s: string)
    ensures |s| == n
  {
    if n == 0 then "" else "0" + Zeros(n - 1)
  }

  datatype Cursor = Cursor(createdAt: Option<int>, eventID: string)
  datatype Row = Row(createdAt: int, eventID: string, processed: nat, failed: nat, updatedAt: int)

  datatype Outcome = Failed | Empty | Annotated(annotation: string)

  /** What one saved batch consisted of. */
  datatype Commit = Commit(events: seq<Event>, results: seq<Outcome>)

  /** The cursor row, the annotations written so far, and (for reasoning) the batches whose save took. */
  datatype Db = Db(row: Option<Row>, written: set<(string, string)>, commits: seq<Commit>)

  const FRESH: Db := Db(None, {}, [])

  datatype WriteIo = WriteWorks | WriteFails(part: set<(string, string)>)
  datatype SaveIo = SaveWorks | SaveFails(took: bool)

  /** One attempt: what fails in it, what the processor returned, and the clock. */
  datatype Attempt = Attempt(loadOk: bool, fetchOk: bool, results: Option<seq<Outcome>>,
                             write: WriteIo, save: SaveIo, now: int)

  predicate Older(a: Event, b: Event) {
    a.createdAt < b.createdAt || (a.createdAt == b.createdAt && StringLess(a.id, b.id))
  }

  /** The WHERE clause of the fetch. */
  predicate AfterCursor(c: Cursor, e: Event) {
    c.createdAt.None?
    || (if c.eventID == "" then e.createdAt > c.createdAt.value
        else e.createdAt > c.createdAt.value || (e.createdAt == c.createdAt.value && StringLess(c.eventID, e.id)))
  }

  function Filter(c: Cursor, all: seq<Event>): seq<Event> {
    if all == [] then []
    else (if AfterCursor(c, all[0]) then [all[0]] else []) + Filter(c, all[1..])
  }

  function Limit(n: int): nat { if n <= 0 then 256 else n }

  /** FetchEnrichmentEvents on a table whose events, oldest first, are `all`. */
  function Fetch(all: seq<Event>, c: Cursor, batchSize: int): seq<Event> {
    Take(Filter(c, all), Limit(batchSize))
  }

  function Loaded(row: Option<Row>): Cursor {
    if row.None? then Cursor(None, "")
    else Cursor(Some(row.value.createdAt), if row.value.eventID == EMPTY_CURSOR_ID then "" else row.value.eventID)
  }

  function StoredID(id: string): string { if id == "" then EMPTY_CURSOR_ID else id }

  predicate IsZeroID(id: string) { id == "" || id == EMPTY_CURSOR_ID }

  function CountFailed(results: seq<Outcome>): (n: nat)
    ensures n <= |results|
  {
    if results == [] then 0
    else CountFailed(results[..|results| - 1]) + if results[|results| - 1].Failed? then 1 else 0
  }

  function Annotations(events: seq<Event>, results: seq<Outcome>): set<(string, string)>
    requires |events| == |results|
  {
    if events == [] then {}
    else
      var n := |events| - 1;
      Annotations(events[..n], results[..n])
        + if results[n].Annotated? then {(events[n].id, results[n].annotation)} else {}
  }

  /** Every annotation the processor produced is among those to write, and nothing else is. */
  lemma {:induction false} AnnotationsMembers(events: seq<Event>, results: seq<Outcome>)
    requires |events| == |results|
    ensures forall p :: p in Annotations(events, results) <==>
      exists i :: 0 <= i < |events| && results[i] == Annotated(p.1) && events[i].id == p.0
  {
    if events != [] {
      var n := |events| - 1;
      AnnotationsMembers(events[..n], results[..n]);
      forall p ensures p in Annotations(events, results) <==>
        exists i :: 0 <= i < |events| && results[i] == Annotated(p.1) && events[i].id == p.0
      {
        if p in Annotations(events[..n], results[..n]) {
          var i :| 0 <= i < n && results[..n][i] == Annotated(p.1) && events[..n][i].id == p.0;
          assert results[i] == Annotated(p.1) && events[i].id == p.0;
        }
        if i :| 0 <= i < |events| && results[i] == Annotated(p.1) && events[i].id == p.0 {
          if i < n {
            assert results[..n][i] == Annotated(p.1) && events[..n][i].id == p.0;
          }
        }
      }
    }
  }

  function SavedRow(row: Option<Row>, next: Row): Option<Row> {
    if row.Some? && next.updatedAt < row.value.updatedAt then row else Some(next)
  }

  function Processed(row: Option<Row>): nat { if row.Some? then row.value.processed else 0 }
  function FailedSoFar(row: Option<Row>): nat { if row.Some? then row.value.failed else 0 }

  /** One whole attempt. */
  function Attempted(all: seq<Event>, batchSize: int, db: Db, a: Attempt): (Db, Result<nat, string>) {
    if !a.loadOk then (db, Err("load"))
    else if !a.fetchOk then (db, Err("fetch"))
    else
      var events := Fetch(all, Loaded(db.row), batchSize);
      if events == [] then (db, Ok(0)) else Settle(db, events, a)
  }

  /** The part of an attempt that follows a fetch with something in it. */
  function Settle(db: Db, events: seq<Event>, a: Attempt): (Db, Result<nat, string>)
    requires events != []
  {
    if a.results.None? then (db, Err("process"))
    else if |a.results.value| != |events| then (db, Err("result count"))
    else
      var results := a.results.value;
      var annotations := Annotations(events, results);
      if annotations != {} && a.write.WriteFails? then
        (db.(written := db.written + annotations * a.write.part), Err("write"))
      else
        var wrote := db.(written := db.written + annotations);
        var next := NextRow(db.row, events, results, a.now);
        var saved :=
          if (a.save.SaveFails? && !a.save.took) || SavedRow(db.row, next) != Some(next) then wrote
          else wrote.(row := Some(next), commits := db.commits + [Commit(events, results)]);
        (saved, if a.save.SaveFails? then Err("save") else Ok(|events|))
  }

  function NextRow(row: Option<Row>, events: seq<Event>, results: seq<Outcome>, now: int): Row
    requires events != []
  {
    var last := events[|events| - 1];
    Row(last.createdAt, StoredID(last.id), Processed(row) + |results| - CountFailed(results),
        FailedSoFar(row) + CountFailed(results), now)
  }

  class EnrichmentStore {
    const all: seq<Event>
    var row: Option<Row>
    var written: set<(string, string)>
    ghost var commits: seq<Commit>

    constructor (all: seq<Event>)
      ensures this.all == all && Value() == FRESH
    {
      this.all := all;
      row, written, commits := None, {}, [];
    }

    ghost function Value(): Db
      reads this
    {
      Db(row, written, commits)
    }

    method RunOnce(batchSize: int, a: Attempt) returns (r: Result<nat, string>)
      modifies this
      ensures (Value(), r) == old(Attempted(all, batchSize, Value(), a))
    {
      if !a.loadOk {
        return Err("load");
      }
      var cursor := Loaded(row);
      if !a.fetchOk {
        return Err("fetch");
      }
      var events := Fetch(all, cursor, batchSize);
      if |events| == 0 {
        return Ok(0);
      }
      if a.results.None? {
        return Err("process");
      }
      var results := a.results.value;
      if |results| != |events| {
        return Err("result count");
      }
      var annotations, processed, failed, last := Tally(events, results);
      var wrote := WriteAnnotations(annotations, a.write);
      if !wrote {
        return Err("write");
      }
      var next := Row(last.createdAt.value, StoredID(last.eventID), Processed(row) + processed,
                      FailedSoFar(row) + failed, a.now);
      var saved := SaveState(next, Commit(events, results), a.save);
      r := if saved then Ok(|events|) else Err("save");
    }

    /** A write that fails may have written part of the annotations. */
    method WriteAnnotations(annotations: set<(string, string)>, io: WriteIo) returns (ok: bool)
      modifies this`written
      ensures ok == (annotations == {} || io.WriteWorks?)
      ensures written == old(written) + if ok then annotations else annotations * io.part
    {
      if annotations == {} {
        return true;
      }
      ok := io.WriteWorks?;
      written := written + if ok then annotations else annotations * io.part;
    }

    /** A save that fails may have taken; of two rows the store keeps the one with the later stamp. */
    method SaveState(next: Row, ghost commit: Commit, io: SaveIo) returns (ok: bool)
      modifies this`row, this`commits
      ensures ok == io.SaveWorks?
      ensures (row, commits) ==
        if (io.SaveFails? && !io.took) || SavedRow(old(row), next) != Some(next) then (old(row), old(commits))
        else (Some(next), old(commits) + [commit])
    {
      if io.SaveWorks? || io.took {
        if SavedRow(row, next) == Some(next) {
          commits := commits + [commit];
        }
        row := SavedRow(row, next);
      }
      ok := io.SaveWorks?;
    }
  }

  /** The loop over one batch: the cursor after it, the counters, and what to write. */
  method Tally(events: seq<Event>, results: seq<Outcome>)
    returns (annotations: set<(string, string)>, processed: nat, failed: nat, cursor: Cursor)
    requires |events| == |results| > 0
    ensures annotations == Annotations(events, results)
    ensures failed == CountFailed(results) && processed + failed == |results|
    ensures cursor == Cursor(Some(events[|events| - 1].createdAt), events[|events| - 1].id)
  {
    annotations, processed, failed, cursor := {}, 0, 0, Cursor(None, "");
    for i := 0 to |events|
      invariant annotations == Annotations(events[..i], results[..i])
      invariant failed == CountFailed(results[..i]) && processed + failed == i
      invariant i > 0 ==> cursor == Cursor(Some(events[i - 1].createdAt), events[i - 1].id)
    {
      cursor := Cursor(Some(events[i].createdAt), events[i].id);
      assert results[..i + 1][..i] == results[..i];
      assert events[..i + 1][..i] == events[..i];
      match results[i]
      case Failed =>
        failed := failed + 1;
      case Annotated(annotation) =>
        annotations := annotations + {(events[i].id, annotation)};
        processed := processed + 1;
      case Empty =>
        processed := processed + 1;
    }
    assert events[..|events|] == events && results[..|results|] == results;
  }

  // ---------------------------------------------------------------------------
  // Exactly-once accounting
  // ---------------------------------------------------------------------------

  function Run(all: seq<Event>, batchSize: int, attempts: seq<Attempt>): Db {
    if attempts == [] then FRESH
    else Attempted(all, batchSize, Run(all, batchSize, attempts[..|attempts| - 1]), attempts[|attempts| - 1]).0
  }

  function Done(commits: seq<Commit>): seq<Event> {
    if commits == [] then [] else Done(commits[..|commits| - 1]) + commits[|commits| - 1].events
  }

  /** What the committed batches amount to. */
  ghost predicate CommitsWritten(db: Db) {
    forall c :: c in db.commits ==> |c.events| == |c.results| && Annotations(c.events, c.results) <= db.written
  }

  function TotalFailed(commits: seq<Commit>): nat {
    if commits == [] then 0 else TotalFailed(commits[..|commits| - 1]) + CountFailed(commits[|commits| - 1].results)
  }

  /**
   * The saved state accounts for the first events of the table exactly once: the
   * saved cursor is the last committed event, the counters add up to the number of
   * committed events, and their annotations are written.
   */
  ghost predicate Accounted(all: seq<Event>, db: Db) {
    var done := Done(db.commits);
    && done <= all
    && Processed(db.row) + FailedSoFar(db.row) == |done|
    && FailedSoFar(db.row) == TotalFailed(db.commits)
    && CommitsWritten(db)
    && (done == [] <==> db.row.None?)
    && (done != [] ==>
          db.row.value.createdAt == done[|done| - 1].createdAt && db.row.value.eventID == StoredID(done[|done| - 1].id))
  }

  /** Nothing is left behind: when there is nothing to fetch, every event was committed. */
  ghost predicate Complete(all: seq<Event>, batchSize: int, db: Db) {
    Fetch(all, Loaded(db.row), batchSize) == [] ==> Done(db.commits) == all
  }

  /** The event set of the table, oldest first. */
  ghost predicate IsTable(all: seq<Event>) {
    SortedBy(Older, all)
  }

  /** After the first k events a batch may end without its cursor hiding the next event. */
  predicate SafeBoundary(all: seq<Event>, k: nat)
    requires k <= |all|
  {
    0 < k < |all| && IsZeroID(all[k - 1].id) ==> all[k].createdAt != all[k - 1].createdAt
  }

  /** How many events n full batches hold. */
  function Batches(n: nat, size: nat): nat {
    if n == 0 then 0 else Batches(n - 1, size) + size
  }

  /** No full batch ends on the all-zero id while another event shares its second. */
  ghost predicate NoHiddenEvent(all: seq<Event>, batchSize: int) {
    forall n: nat :: Batches(n, Limit(batchSize)) <= |all| ==> SafeBoundary(all, Batches(n, Limit(batchSize)))
  }

  lemma {:induction false} FilterSuffix(c: Cursor, all: seq<Event>, k: nat)
    requires k <= |all|
    requires forall i :: 0 <= i < |all| ==> (AfterCursor(c, all[i]) <==> i >= k)
    ensures Filter(c, all) == all[k..]
    decreases |all|
  {
    if all != [] {
      forall i | 0 <= i < |all| - 1
        ensures AfterCursor(c, all[1..][i]) <==> i >= if k > 0 then k - 1 else 0
      {
        assert all[1..][i] == all[i + 1];
      }
      assert AfterCursor(c, all[0]) <==> 0 >= k;
      FilterSuffix(c, all[1..], if k > 0 then k - 1 else 0);
      if k == 0 {
        assert all == [all[0]] + all[1..];
      } else {
        assert all[1..][k - 1..] == all[k..];
      }
    }
  }

  /** At a safe boundary the next fetch continues exactly where the commits end. */
  lemma FetchContinues(all: seq<Event>, batchSize: int, db: Db)
    requires IsTable(all) && Accounted(all, db) && SafeBoundary(all, |Done(db.commits)|)
    ensures Fetch(all, Loaded(db.row), batchSize) == Take(all[|Done(db.commits)|..], Limit(batchSize))
  {
    var done, c := Done(db.commits), Loaded(db.row);
    var k := |done|;
    forall i | 0 <= i < |all| ensures AfterCursor(c, all[i]) <==> i >= k {
      if k > 0 {
        var last := all[k - 1];
        StringLessIsStrict(last.id, all[i].id);
        assert i < k - 1 ==> Older(all[i], last);
        assert i > k - 1 ==> Older(last, all[i]);
        assert i > k ==> Older(all[k], all[i]);
        assert k < |all| ==> Older(last, all[k]);
      }
    }
    FilterSuffix(c, all, k);
  }

  lemma DonePrefix(commits: seq<Commit>, c: Commit)
    ensures Done(commits + [c]) == Done(commits) + c.events
    ensures TotalFailed(commits + [c]) == TotalFailed(commits) + CountFailed(c.results)
  {
    assert (commits + [c])[..|commits|] == commits;
  }

  /** Committing the next events of the table keeps the accounts. */
  lemma CommitKeepsAccounts(all: seq<Event>, db: Db, c: Commit, row: Row, written: set<(string, string)>)
    requires Accounted(all, db) && c.events != [] && |c.events| == |c.results|
    requires Done(db.commits) + c.events <= all
    requires Annotations(c.events, c.results) <= written && db.written <= written
    requires row.createdAt == c.events[|c.events| - 1].createdAt && row.eventID == StoredID(c.events[|c.events| - 1].id)
    requires row.failed == FailedSoFar(db.row) + CountFailed(c.results)
    requires row.processed == Processed(db.row) + |c.results| - CountFailed(c.results)
    ensures Accounted(all, Db(Some(row), written, db.commits + [c]))
  {
    DonePrefix(db.commits, c);
  }

  lemma MoreWrittenKeepsAccounts(all: seq<Event>, db: Db, written: set<(string, string)>)
    requires Accounted(all, db) && db.written <= written
    ensures Accounted(all, db.(written := written))
  {
  }

  /** Without a commit, nothing but annotations was added. */
  lemma SettleWithoutCommit(db: Db, events: seq<Event>, a: Attempt)
    requires events != [] && Settle(db, events, a).0.commits == db.commits
    ensures var db' := Settle(db, events, a).0; db' == db.(written := db'.written) && db.written <= db'.written
  {
    if a.results.Some? && |a.results.value| == |events| {
      assert |db.commits + [Commit(events, a.results.value)]| == |db.commits| + 1;
    }
  }

  /** A commit is of the whole batch. */
  lemma SettleWithCommit(db: Db, events: seq<Event>, a: Attempt)
    requires events != [] && Settle(db, events, a).0.commits != db.commits
    ensures a.results.Some? && |a.results.value| == |events|
    ensures Settle(db, events, a).0 == Db(Some(NextRow(db.row, events, a.results.value, a.now)),
      db.written + Annotations(events, a.results.value), db.commits + [Commit(events, a.results.value)])
  {
  }

  lemma SettleKeepsAccounts(all: seq<Event>, db: Db, events: seq<Event>, a: Attempt)
    requires Accounted(all, db) && events != [] && Done(db.commits) + events <= all
    ensures var db' := Settle(db, events, a).0;
      && Accounted(all, db')
      && (Done(db'.commits) == Done(db.commits) || Done(db'.commits) == Done(db.commits) + events)
  {
    var db' := Settle(db, events, a).0;
    if db'.commits == db.commits {
      SettleWithoutCommit(db, events, a);
      MoreWrittenKeepsAccounts(all, db, db'.written);
    } else {
      SettleWithCommit(db, events, a);
      var c := Commit(events, a.results.value);
      CommitKeepsAccounts(all, db, c, NextRow(db.row, events, c.results, a.now),
                          db.written + Annotations(events, c.results));
      DonePrefix(db.commits, c);
    }
  }

  /** An attempt commits nothing, or the next batch. */
  predicate Advances(all: seq<Event>, size: nat, done: seq<Event>, done': seq<Event>)
    requires |done| <= |all|
  {
    done' == done || done' == done + Take(all[|done|..], size)
  }

  lemma NextEventsFollow(all: seq<Event>, done: seq<Event>, size: nat)
    requires done <= all
    ensures done + Take(all[|done|..], size) <= all
  {
    assert all == done + all[|done|..];
  }

  lemma AttemptKeepsAccounts(all: seq<Event>, batchSize: int, db: Db, a: Attempt)
    requires IsTable(all) && Accounted(all, db) && SafeBoundary(all, |Done(db.commits)|)
    ensures var db' := Attempted(all, batchSize, db, a).0;
      && Accounted(all, db')
      && Complete(all, batchSize, db)
      && Advances(all, Limit(batchSize), Done(db.commits), Done(db'.commits))
  {
    var events := Fetch(all, Loaded(db.row), batchSize);
    FetchContinues(all, batchSize, db);
    NextEventsFollow(all, Done(db.commits), Limit(batchSize));
    if events != [] {
      SettleKeepsAccounts(all, db, events, a);
    }
  }

  /** Commits end after some number of full batches, or at the end of the table. */
  ghost predicate OnBoundary(all: seq<Event>, size: nat, k: nat) {
    k == |all| || exists n: nat :: Batches(n, size) == k
  }

  lemma BoundaryIsSafe(all: seq<Event>, batchSize: int, k: nat)
    requires NoHiddenEvent(all, batchSize) && k <= |all| && OnBoundary(all, Limit(batchSize), k)
    ensures SafeBoundary(all, k)
  {
  }

  lemma NextBoundary(all: seq<Event>, size: nat, done: seq<Event>, done': seq<Event>)
    requires |done| <= |all| && OnBoundary(all, size, |done|) && Advances(all, size, done, done')
    ensures OnBoundary(all, size, |done'|)
  {
    if |done| < |all| && |done'| == |done| + size {
      var n: nat :| Batches(n, size) == |done|;
      assert Batches(n + 1, size) == |done'|;
    }
  }

  /** What holds after any number of attempts. */
  ghost predicate Sound(all: seq<Event>, batchSize: int, db: Db) {
    Accounted(all, db) && OnBoundary(all, Limit(batchSize), |Done(db.commits)|) && SafeBoundary(all, |Done(db.commits)|)
  }

  lemma AttemptKeepsSound(all: seq<Event>, batchSize: int, db: Db, a: Attempt)
    requires IsTable(all) && NoHiddenEvent(all, batchSize) && Sound(all, batchSize, db)
    ensures Sound(all, batchSize, Attempted(all, batchSize, db, a).0)
  {
    var db' := Attempted(all, batchSize, db, a).0;
    AttemptKeepsAccounts(all, batchSize, db, a);
    NextBoundary(all, Limit(batchSize), Done(db.commits), Done(db'.commits));
    BoundaryIsSafe(all, batchSize, |Done(db'.commits)|);
  }

  lemma {:induction false} RunAccounts(all: seq<Event>, batchSize: int, attempts: seq<Attempt>)
    requires IsTable(all) && NoHiddenEvent(all, batchSize)
    ensures Sound(all, batchSize, Run(all, batchSize, attempts))
  {
    if attempts == [] {
      assert Batches(0, Limit(batchSize)) == 0;
    } else {
      var front := attempts[..|attempts| - 1];
      RunAccounts(all, batchSize, front);
      AttemptKeepsSound(all, batchSize, Run(all, batchSize, front), attempts[|attempts| - 1]);
    }
  }

  // ---------------------------------------------------------------------------
  // Draining the table
  // ---------------------------------------------------------------------------

  predicate SteadyClock(attempts: seq<Attempt>) {
    forall i, j :: 0 <= i < j < |attempts| ==> attempts[i].now <= attempts[j].now
  }

  /** How many attempts got through. */
  function Successes(all: seq<Event>, batchSize: int, attempts: seq<Attempt>): nat {
    if attempts == [] then 0
    else
      var front, last := attempts[..|attempts| - 1], attempts[|attempts| - 1];
      Successes(all, batchSize, front)
        + if Attempted(all, batchSize, Run(all, batchSize, front), last).1.Ok? then 1 else 0
  }

  /** The row is not stamped later than the reading. */
  predicate NotAfter(row: Option<Row>, now: int) {
    row.Some? ==> row.value.updatedAt <= now
  }

  /** The commits hold n full batches, or the whole table. */
  predicate Reaches(all: seq<Event>, size: nat, done: seq<Event>, n: nat) {
    |done| >= |all| || |done| >= Batches(n, size)
  }

  lemma StampsFollowClock(all: seq<Event>, batchSize: int, db: Db, a: Attempt)
    requires NotAfter(db.row, a.now)
    ensures NotAfter(Attempted(all, batchSize, db, a).0.row, a.now)
  {
  }

  /** An attempt that gets through commits what it fetched, unless a row with a later stamp is there. */
  lemma SuccessCommits(all: seq<Event>, batchSize: int, db: Db, a: Attempt)
    requires NotAfter(db.row, a.now) && Attempted(all, batchSize, db, a).1.Ok?
    ensures Done(Attempted(all, batchSize, db, a).0.commits) == Done(db.commits) + Fetch(all, Loaded(db.row), batchSize)
  {
    var events := Fetch(all, Loaded(db.row), batchSize);
    if events != [] {
      DonePrefix(db.commits, Commit(events, a.results.value));
    }
  }

  /** The attempt went on from n batches, and past one more if it got through. */
  ghost predicate GoesOn(all: seq<Event>, batchSize: int, after: (Db, Result<nat, string>), n: nat) {
    Reaches(all, Limit(batchSize), Done(after.0.commits), if after.1.Ok? then n + 1 else n)
  }

  lemma ReachesMore(all: seq<Event>, size: nat, done: seq<Event>, done': seq<Event>, n: nat, ok: bool)
    requires |done| <= |all| && Reaches(all, size, done, n) && Advances(all, size, done, done')
    requires ok ==> done' == done + Take(all[|done|..], size)
    ensures Reaches(all, size, done', if ok then n + 1 else n)
  {
  }

  lemma AttemptReaches(all: seq<Event>, batchSize: int, db: Db, a: Attempt, n: nat)
    requires IsTable(all) && Sound(all, batchSize, db) && NotAfter(db.row, a.now)
    requires Reaches(all, Limit(batchSize), Done(db.commits), n)
    ensures GoesOn(all, batchSize, Attempted(all, batchSize, db, a), n)
  {
    var (db', r) := Attempted(all, batchSize, db, a);
    var done, done' := Done(db.commits), Done(db'.commits);
    assert Advances(all, Limit(batchSize), done, done') by {
      AttemptKeepsAccounts(all, batchSize, db, a);
    }
    assert r.Ok? ==> done' == done + Take(all[|done|..], Limit(batchSize)) by {
      if r.Ok? {
        SuccessCommits(all, batchSize, db, a);
        FetchContinues(all, batchSize, db);
      }
    }
    ReachesMore(all, Limit(batchSize), done, done', n, r.Ok?);
  }

  lemma {:induction false} RunReaches(all: seq<Event>, batchSize: int, attempts: seq<Attempt>, later: int)
    requires IsTable(all) && NoHiddenEvent(all, batchSize)
    requires SteadyClock(attempts) && forall a :: a in attempts ==> a.now <= later
    ensures var db := Run(all, batchSize, attempts);
      NotAfter(db.row, later) && Reaches(all, Limit(batchSize), Done(db.commits), Successes(all, batchSize, attempts))
    decreases |attempts|
  {
    if attempts != [] {
      var front, last := attempts[..|attempts| - 1], attempts[|attempts| - 1];
      RunReaches(all, batchSize, front, last.now);
      RunAccounts(all, batchSize, front);
      StampsFollowClock(all, batchSize, Run(all, batchSize, front), last);
      AttemptReaches(all, batchSize, Run(all, batchSize, front), last, Successes(all, batchSize, front));
    }
  }

  /**
   * The worker drains the table: on a clock that does not go back, once as many
   * attempts got through as the table has batches, wherever failures fell between
   * them, every event was committed.
   */
  lemma Drains(all: seq<Event>, batchSize: int, attempts: seq<Attempt>)
    requires IsTable(all) && NoHiddenEvent(all, batchSize) && SteadyClock(attempts)
    requires Successes(all, batchSize, attempts) * Limit(batchSize) >= |all|
    ensures Done(Run(all, batchSize, attempts).commits) == all
  {
    var n := Successes(all, batchSize, attempts);
    BatchesMultiply(n, Limit(batchSize));
    RunAccounts(all, batchSize, attempts);
    RunReaches(all, batchSize, attempts, if attempts == [] then 0 else attempts[|attempts| - 1].now);
  }

  lemma {:induction false} BatchesMultiply(n: nat, size: nat)
    ensures Batches(n, size) == n * size
  {
    if n > 0 {
      BatchesMultiply(n - 1, size);
      assert n * size == (n - 1) * size + size;
    }
  }

  // ---------------------------------------------------------------------------
  // Exactly once, and when not
  // ---------------------------------------------------------------------------

  /** All reachable states are accounted for, and a drained worker has processed the whole table. */
  ghost predicate ExactlyOnce(all: seq<Event>, batchSize: int) {
    forall attempts: seq<Attempt> ::
      var db := Run(all, batchSize, attempts);
      Accounted(all, db) && Complete(all, batchSize, db)
  }

  /** One flawless attempt at a safe boundary commits one full batch. */
  lemma FlawlessStep(all: seq<Event>, batchSize: int, db: Db)
    requires IsTable(all) && Accounted(all, db) && SafeBoundary(all, |Done(db.commits)|)
    requires |Done(db.commits)| + Limit(batchSize) <= |all| && (db.row.Some? ==> db.row.value.updatedAt == 0)
    ensures var db' := Attempted(all, batchSize, db, Flawless(Limit(batchSize))).0;
      && Accounted(all, db') && |Done(db'.commits)| == |Done(db.commits)| + Limit(batchSize)
      && (db'.row.Some? ==> db'.row.value.updatedAt == 0)
  {
    var a := Flawless(Limit(batchSize));
    AttemptKeepsAccounts(all, batchSize, db, a);
    FetchContinues(all, batchSize, db);
    CommitsOne(all, batchSize, db, a);
  }

  /** Flawless attempts commit one full batch after another. */
  lemma {:induction false} FlawlessRun(all: seq<Event>, batchSize: int, n: nat) returns (attempts: seq<Attempt>)
    requires IsTable(all) && Batches(n, Limit(batchSize)) < |all|
    requires forall m: nat :: m < n ==> SafeBoundaryAt(all, Batches(m, Limit(batchSize)))
    ensures var db := Run(all, batchSize, attempts);
      && Accounted(all, db) && |Done(db.commits)| == Batches(n, Limit(batchSize))
      && (db.row.Some? ==> db.row.value.updatedAt == 0)
  {
    attempts := [];
    if n > 0 {
      var front := FlawlessRun(all, batchSize, n - 1);
      assert SafeBoundaryAt(all, Batches(n - 1, Limit(batchSize)));
      FlawlessStep(all, batchSize, Run(all, batchSize, front));
      attempts := front + [Flawless(Limit(batchSize))];
      assert attempts[..|attempts| - 1] == front;
    }
  }

  predicate SafeBoundaryAt(all: seq<Event>, k: int) {
    0 <= k <= |all| && SafeBoundary(all, k)
  }

  function Flawless(n: nat): Attempt {
    Attempt(true, true, Some(seq(n, _ => Empty)), WriteWorks, SaveWorks, 0)
  }

  /** A flawless attempt commits what it fetched. */
  lemma CommitsOne(all: seq<Event>, batchSize: int, db: Db, a: Attempt)
    requires a == Flawless(|Fetch(all, Loaded(db.row), batchSize)|) && a.results.value != []
    requires db.row.Some? ==> db.row.value.updatedAt <= 0
    ensures var db' := Attempted(all, batchSize, db, a).0;
      && Done(db'.commits) == Done(db.commits) + Fetch(all, Loaded(db.row), batchSize)
      && db'.row.Some? && db'.row.value.updatedAt == 0
  {
    var db' := Attempted(all, batchSize, db, a).0;
    assert db'.commits[..|db'.commits| - 1] == db.commits;
  }

  /** A fetch at an unsafe boundary leaves out the next event. */
  lemma UnsafeFetchSkips(all: seq<Event>, batchSize: int, db: Db)
    requires IsTable(all) && Accounted(all, db)
    requires !SafeBoundary(all, |Done(db.commits)|)
    ensures var fetched := Fetch(all, Loaded(db.row), batchSize);
      fetched != [] ==> fetched[0] != all[|Done(db.commits)|]
  {
    var k, c := |Done(db.commits)|, Loaded(db.row);
    assert !AfterCursor(c, all[k]);
    FilterSound(c, all);
  }

  lemma {:induction false} FilterSound(c: Cursor, all: seq<Event>)
    ensures forall e :: e in Filter(c, all) ==> AfterCursor(c, e)
  {
    if all != [] { FilterSound(c, all[1..]); }
  }

  /**
   * Accounting is exactly-once under every sequence of failures precisely when no
   * full batch ends on the all-zero id while another event shares its second: the
   * stored zero id then reads back as "no id", and the rest of that second is skipped.
   */
  lemma ExactlyOnceIff(all: seq<Event>, batchSize: int)
    requires IsTable(all)
    ensures ExactlyOnce(all, batchSize) <==> NoHiddenEvent(all, batchSize)
  {
    if NoHiddenEvent(all, batchSize) {
      forall attempts: seq<Attempt>
        ensures var db := Run(all, batchSize, attempts); Accounted(all, db) && Complete(all, batchSize, db)
      {
        RunAccounts(all, batchSize, attempts);
        AttemptKeepsAccounts(all, batchSize, Run(all, batchSize, attempts), Flawless(0));
      }
    } else {
      var n: nat :| Batches(n, Limit(batchSize)) <= |all| && !SafeBoundary(all, Batches(n, Limit(batchSize)));
      var attempts := HiddenEventRun(all, batchSize, n);
    }
  }

  lemma FilterTwo(c: Cursor, first: Event, second: Event)
    ensures Filter(c, [first, second]) == (if AfterCursor(c, first) then [first] else [])
      + (if AfterCursor(c, second) then [second] else [])
  {
    assert [first, second][1..] == [second] && [second][1..] == [];
    assert Filter(c, [second]) == if AfterCursor(c, second) then [second] else [];
  }

  lemma FirstOfTwoCommits(first: Event, second: Event)
    requires first.createdAt == second.createdAt && IsZeroID(first.id)
    ensures var db := Run([first, second], 1, [Flawless(1)]);
      Done(db.commits) == [first] && Loaded(db.row) == Cursor(Some(first.createdAt), "")
  {
    FilterTwo(Loaded(None), first, second);
    assert Fetch([first, second], Loaded(None), 1) == [first];
    CommitsOne([first, second], 1, FRESH, Flawless(1));
    assert [Flawless(1)][..0] == [];
    assert Run([first, second], 1, [Flawless(1)]) == Attempted([first, second], 1, FRESH, Flawless(1)).0;
  }

  /** With batch size 1, an event in the second of a zero id is never fetched, although nothing failed. */
  lemma SecondIsHidden(first: Event, second: Event)
    requires first.createdAt == second.createdAt && IsZeroID(first.id) && StringLess(first.id, second.id)
    ensures IsTable([first, second]) && !ExactlyOnce([first, second], 1)
    ensures var db := Run([first, second], 1, [Flawless(1)]);
      Done(db.commits) == [first] && Fetch([first, second], Loaded(db.row), 1) == []
  {
    FirstOfTwoCommits(first, second);
    FilterTwo(Cursor(Some(first.createdAt), ""), first, second);
    assert !Complete([first, second], 1, Run([first, second], 1, [Flawless(1)]));
  }

  /** Two events of one second, the first with the all-zero id. */
  function ZeroIDTable(): seq<Event> {
    [Event(EMPTY_CURSOR_ID, "", 7, []), Event("f" + Zeros(63), "", 7, [])]
  }

  lemma ZeroBeforeF()
    ensures StringLess(EMPTY_CURSOR_ID, "f" + Zeros(63))
  {
    assert EMPTY_CURSOR_ID[0] == '0';
  }

  lemma ZeroIDHidesEvent()
    ensures IsTable(ZeroIDTable()) && !ExactlyOnce(ZeroIDTable(), 1) && forall e :: e in ZeroIDTable() ==> |e.id| == 64
    ensures var db := Run(ZeroIDTable(), 1, [Flawless(1)]);
      Done(db.commits) == [ZeroIDTable()[0]] && Fetch(ZeroIDTable(), Loaded(db.row), 1) == []
  {
    ZeroBeforeF();
    SecondIsHidden(ZeroIDTable()[0], ZeroIDTable()[1]);
    assert ZeroIDTable() == [ZeroIDTable()[0], ZeroIDTable()[1]];
  }

  /** A run that goes wrong at an unsafe boundary. */
  lemma HiddenEventRun(all: seq<Event>, batchSize: int, n: nat) returns (attempts: seq<Attempt>)
    requires IsTable(all) && Batches(n, Limit(batchSize)) <= |all| && !SafeBoundary(all, Batches(n, Limit(batchSize)))
    ensures var db := Run(all, batchSize, attempts); !(Accounted(all, db) && Complete(all, batchSize, db))
  {
    var first := LeastUnsafe(all, Limit(batchSize), n);
    attempts := FlawlessRun(all, batchSize, first);
    var db := Run(all, batchSize, attempts);
    UnsafeFetchSkips(all, batchSize, db);
    var fetched := Fetch(all, Loaded(db.row), batchSize);
    if fetched != [] {
      var a := Flawless(|fetched|);
      CommitsOne(all, batchSize, db, a);
      var k := |Done(db.commits)|;
      assert (attempts + [a])[..|attempts|] == attempts;
      attempts := attempts + [a];
      assert Done(Run(all, batchSize, attempts).commits)[k] == fetched[0];
    }
  }

  lemma {:induction false} BatchesGrow(m: nat, n: nat, size: nat)
    requires m <= n
    ensures Batches(m, size) <= Batches(n, size)
  {
    if m < n {
      BatchesGrow(m, n - 1, size);
    }
  }

  lemma {:induction false} LeastUnsafe(all: seq<Event>, size: nat, n: nat) returns (first: nat)
    requires Batches(n, size) <= |all| && !SafeBoundary(all, Batches(n, size))
    ensures Batches(first, size) < |all| && !SafeBoundary(all, Batches(first, size))
    ensures forall m: nat :: m < first ==> SafeBoundaryAt(all, Batches(m, size))
  {
    if m: nat :| m < n && !SafeBoundaryAt(all, Batches(m, size)) {
      BatchesGrow(m, n, size);
      first := LeastUnsafe(all, size, m);
    } else {
      first := n;
    }
  }

  /** The counters say exactly which events lie at or before the saved cursor. */
  lemma CountersMatchCursor(all: seq<Event>, db: Db)
    requires IsTable(all) && Accounted(all, db) && db.row.Some?
    ensures var n := Processed(db.row) + FailedSoFar(db.row);
      && 0 < n <= |all| && db.row.value.createdAt == all[n - 1].createdAt
      && db.row.value.eventID == StoredID(all[n - 1].id)
      && forall i :: 0 <= i < |all| ==> (i < n <==> !Older(all[n - 1], all[i]))
  {
    var n := |Done(db.commits)|;
    forall i | 0 <= i < |all| ensures i < n <==> !Older(all[n - 1], all[i]) {
      StringLessIsStrict(all[n - 1].id, all[i].id);
      assert i < n - 1 ==> Older(all[i], all[n - 1]);
    }
  }

  /** In particular, a table without the all-zero id is always accounted for exactly once. */
  lemma NoZeroIDIsEnough(all: seq<Event>, batchSize: int)
    requires IsTable(all) && forall e :: e in all ==> !IsZeroID(e.id)
    ensures ExactlyOnce(all, batchSize)
  {
    ExactlyOnceIff(all, batchSize);
  }

  // ---------------------------------------------------------------------------
  // One attempt in plain terms
  // ---------------------------------------------------------------------------

  /** The failed count is the number of results that failed. */
  lemma {:induction false} FailedAreCounted(results: seq<Outcome>)
    ensures CountFailed(results) == |set i | 0 <= i < |results| && results[i].Failed?|
  {
    var failed := set i | 0 <= i < |results| && results[i].Failed?;
    if results == [] {
      assert failed == {};
    } else {
      var front := results[..|results| - 1];
      var before := set i | 0 <= i < |front| && front[i].Failed?;
      FailedAreCounted(front);
      assert failed == if results[|front|].Failed? then before + {|front|} else before;
    }
  }

  lemma {:induction false} NoCursorFiltersNothing(all: seq<Event>, c: Cursor)
    requires c.createdAt.None?
    ensures Filter(c, all) == all
  {
    if all != [] {
      NoCursorFiltersNothing(all[1..], c);
      assert all == [all[0]] + all[1..];
    }
  }

  /** Without a cursor row the first batch is the oldest events: as many as asked for, or 256. */
  lemma FirstBatch(all: seq<Event>, batchSize: int)
    ensures Fetch(all, Loaded(None), batchSize) == Take(all, if batchSize > 0 then batchSize else 256)
  {
    NoCursorFiltersNothing(all, Loaded(None));
  }

  /** An attempt that does not get to its write changes nothing and is an error, but for an empty fetch. */
  lemma NothingBeforeTheWrite(all: seq<Event>, batchSize: int, db: Db, a: Attempt)
    requires !a.loadOk || !a.fetchOk || a.results.None? || |a.results.value| != |Fetch(all, Loaded(db.row), batchSize)|
    ensures Attempted(all, batchSize, db, a).0 == db
    ensures Attempted(all, batchSize, db, a).1.Err? <==>
      !a.loadOk || !a.fetchOk || Fetch(all, Loaded(db.row), batchSize) != []
  {
  }

  /** Every annotation is written before the cursor moves, and the cursor moves only if the save took. */
  lemma WritesComeFirst(all: seq<Event>, batchSize: int, db: Db, a: Attempt)
    requires a.loadOk && a.fetchOk && a.results.Some?
    requires Fetch(all, Loaded(db.row), batchSize) != [] && |a.results.value| == |Fetch(all, Loaded(db.row), batchSize)|
    ensures var events, results := Fetch(all, Loaded(db.row), batchSize), a.results.value;
      var (db', r) := Attempted(all, batchSize, db, a);
      var toWrite := Annotations(events, results);
      && (db'.row != db.row ==>
            (toWrite == {} || a.write.WriteWorks?) && (a.save.SaveFails? ==> a.save.took)
              && db'.written == db.written + toWrite)
      && (r.Ok? ==> r.value == |events| && a.save.SaveWorks? && db'.written == db.written + toWrite)
      && (a.write.WriteFails? && toWrite != {} ==> r.Err? && db'.row == db.row)
      && (a.save.SaveFails? ==> r.Err?)
  {
  }

  /** The row that is saved: the last event of the batch, and the counters it adds. */
  lemma SavedRowSays(db: Db, events: seq<Event>, results: seq<Outcome>, now: int)
    requires events != [] && |results| == |events|
    ensures var last, failed := events[|events| - 1], |set i | 0 <= i < |results| && results[i].Failed?|;
      var before := if db.row.Some? then db.row.value else Row(0, "", 0, 0, 0);
      failed <= |results| && NextRow(db.row, events, results, now)
        == Row(last.createdAt, if last.id == "" then EMPTY_CURSOR_ID else last.id,
               before.processed + |results| - failed, before.failed + failed, now)
  {
    FailedAreCounted(results);
  }
}
