/**
 * The schema reconciler: computeReconcilePlan, guardProtectedTables and
 * executeReconcilePlan in internal/clickhouse/schema_reconcile.go.
 */
module SchemaReconcile {
  import opened Wrappers
  import opened Sorting

  const PROTECTED_TABLES: set<string> := {"nostr_events", "event_tags", "event_seen_relays"}

  /** Declared tables (column name to definition) and declared views. */
  datatype Desired = Desired(tables: map<string, map<string, string>>, views: set<string>)

  datatype Table = Table(engine: string, columns: set<string>)

  /** What the database currently holds. */
  type Schema = map<string, Table>

  datatype ColumnRef = ColumnRef(table: string, column: string)
  datatype ColumnAdd = ColumnAdd(table: string, column: string, definition: string)
  datatype Plan = Plan(dropTables: seq<string>, dropViews: seq<string>, dropColumns: seq<ColumnRef>,
                       addColumns: seq<ColumnAdd>)

  predicate IsViewEngine(engine: string) {
    engine in {"MaterializedView", "View", "LiveView", "WindowView"}
  }

  predicate IsInternal(name: string) {
    name != "" && name[0] == '.'
  }

  predicate IsView(db: Schema, name: string) {
    name in db && IsViewEngine(db[name].engine)
  }

  // ---------------------------------------------------------------------------
  // The plan
  // ---------------------------------------------------------------------------

  predicate DropsView(desired: Desired, db: Schema, name: string) {
    name in db && !IsInternal(name) && IsView(db, name) && name !in desired.views
  }

  predicate DropsTable(desired: Desired, db: Schema, name: string) {
    name in db && !IsInternal(name) && !IsView(db, name) && name !in desired.tables
  }

  predicate DropsColumn(desired: Desired, db: Schema, c: ColumnRef) {
    c.table in desired.tables && c.table in db && c.column in db[c.table].columns
      && c.column !in desired.tables[c.table]
  }

  predicate AddsColumn(desired: Desired, db: Schema, a: ColumnAdd) {
    && a.table in desired.tables && a.table in db
    && a.column in desired.tables[a.table] && a.definition == desired.tables[a.table][a.column]
    && a.column !in db[a.table].columns
  }

  /** The plan lists, in some order and without repetition, exactly the differences. */
  ghost predicate IsDiff(desired: Desired, db: Schema, plan: Plan) {
    && (forall n :: n in plan.dropViews <==> DropsView(desired, db, n))
    && (forall n :: n in plan.dropTables <==> DropsTable(desired, db, n))
    && (forall c :: c in plan.dropColumns <==> DropsColumn(desired, db, c))
    && (forall a :: a in plan.addColumns <==> AddsColumn(desired, db, a))
    && Distinct(plan.dropViews) && Distinct(plan.dropTables) && Distinct(plan.dropColumns) && Distinct(plan.addColumns)
  }

  method DropNames(desired: Desired, db: Schema) returns (dropTables: seq<string>, dropViews: seq<string>)
    ensures forall n :: n in dropViews <==> DropsView(desired, db, n)
    ensures forall n :: n in dropTables <==> DropsTable(desired, db, n)
    ensures Distinct(dropTables) && Distinct(dropViews)
  {
    dropTables, dropViews := [], [];
    var todo := db.Keys;
    while todo != {}
      invariant todo <= db.Keys
      invariant forall n :: n in dropViews <==> n !in todo && DropsView(desired, db, n)
      invariant forall n :: n in dropTables <==> n !in todo && DropsTable(desired, db, n)
      invariant Distinct(dropTables) && Distinct(dropViews)
    {
      var name :| name in todo;
      todo := todo - {name};
      if IsInternal(name) {
        continue;
      }
      if IsViewEngine(db[name].engine) {
        if name !in desired.views {
          AppendDistinct(dropViews, name);
          dropViews := dropViews + [name];
        }
        continue;
      }
      if name !in desired.tables {
        AppendDistinct(dropTables, name);
        dropTables := dropTables + [name];
      }
    }
  }

  method ColumnsToDrop(desired: Desired, db: Schema, table: string) returns (drops: seq<ColumnRef>)
    requires table in desired.tables && table in db
    ensures forall c :: c in drops <==> c.table == table && DropsColumn(desired, db, c)
    ensures Distinct(drops)
  {
    drops := [];
    var todo := db[table].columns;
    while todo != {}
      invariant todo <= db[table].columns && Distinct(drops)
      invariant forall c :: c in drops <==> c.table == table && c.column !in todo && DropsColumn(desired, db, c)
    {
      var col :| col in todo;
      todo := todo - {col};
      if col !in desired.tables[table] {
        AppendDistinct(drops, ColumnRef(table, col));
        drops := drops + [ColumnRef(table, col)];
      }
    }
  }

  method ColumnsToAdd(desired: Desired, db: Schema, table: string) returns (adds: seq<ColumnAdd>)
    requires table in desired.tables && table in db
    ensures forall a :: a in adds <==> a.table == table && AddsColumn(desired, db, a)
    ensures Distinct(adds)
  {
    adds := [];
    var todo := desired.tables[table].Keys;
    while todo != {}
      invariant todo <= desired.tables[table].Keys && Distinct(adds)
      invariant forall a :: a in adds <==> a.table == table && a.column !in todo && AddsColumn(desired, db, a)
    {
      var col :| col in todo;
      todo := todo - {col};
      if col !in db[table].columns {
        var add := ColumnAdd(table, col, desired.tables[table][col]);
        AppendDistinct(adds, add);
        adds := adds + [add];
      }
    }
  }

  lemma ConcatDistinct<T>(a: seq<T>, b: seq<T>)
    requires Distinct(a) && Distinct(b) && forall x :: x in a ==> x !in b
    ensures Distinct(a + b)
  {
    forall i, j | 0 <= i < j < |a + b| ensures (a + b)[i] != (a + b)[j] {
      if i < |a| <= j { assert a[i] in a; assert b[j - |a|] in b; }
    }
  }

  method ComputeReconcilePlan(desired: Desired, db: Schema) returns (plan: Plan)
    ensures IsDiff(desired, db, plan)
  {
    var dropTables, dropViews := DropNames(desired, db);
    var dropColumns: seq<ColumnRef>, addColumns: seq<ColumnAdd> := [], [];
    var todo := desired.tables.Keys;
    while todo != {}
      invariant todo <= desired.tables.Keys && Distinct(dropColumns) && Distinct(addColumns)
      invariant forall c :: c in dropColumns <==> c.table !in todo && DropsColumn(desired, db, c)
      invariant forall a :: a in addColumns <==> a.table !in todo && AddsColumn(desired, db, a)
    {
      var table :| table in todo;
      if table in db {
        var drops := ColumnsToDrop(desired, db, table);
        var adds := ColumnsToAdd(desired, db, table);
        ConcatDistinct(dropColumns, drops);
        ConcatDistinct(addColumns, adds);
        dropColumns, addColumns := dropColumns + drops, addColumns + adds;
      }
      todo := todo - {table};
    }
    plan := Plan(dropTables, dropViews, dropColumns, addColumns);
  }

  /** The guard takes protected tables and their columns out of the destructive parts. */
  ghost predicate IsGuarded(plan: Plan, guarded: Plan) {
    && (forall n :: n in guarded.dropTables <==> n in plan.dropTables && n !in PROTECTED_TABLES)
    && (forall c :: c in guarded.dropColumns <==> c in plan.dropColumns && c.table !in PROTECTED_TABLES)
    && guarded.dropViews == plan.dropViews && guarded.addColumns == plan.addColumns
  }

  method GuardProtectedTables(plan: Plan) returns (guarded: Plan)
    ensures IsGuarded(plan, guarded)
  {
    var keptTables: seq<string>, keptColumns: seq<ColumnRef> := [], [];
    for i := 0 to |plan.dropTables|
      invariant forall n :: n in keptTables <==> n in plan.dropTables[..i] && n !in PROTECTED_TABLES
    {
      assert plan.dropTables[..i + 1] == plan.dropTables[..i] + [plan.dropTables[i]];
      if plan.dropTables[i] !in PROTECTED_TABLES {
        keptTables := keptTables + [plan.dropTables[i]];
      }
    }
    for i := 0 to |plan.dropColumns|
      invariant forall c :: c in keptColumns <==> c in plan.dropColumns[..i] && c.table !in PROTECTED_TABLES
    {
      assert plan.dropColumns[..i + 1] == plan.dropColumns[..i] + [plan.dropColumns[i]];
      if plan.dropColumns[i].table !in PROTECTED_TABLES {
        keptColumns := keptColumns + [plan.dropColumns[i]];
      }
    }
    assert plan.dropTables[..|plan.dropTables|] == plan.dropTables;
    assert plan.dropColumns[..|plan.dropColumns|] == plan.dropColumns;
    guarded := plan.(dropTables := keptTables, dropColumns := keptColumns);
  }

  // ---------------------------------------------------------------------------
  // Execution
  // ---------------------------------------------------------------------------

  datatype Statement =
    | DropView(name: string)
    | DropTable(name: string)
    | AddColumn(add: ColumnAdd)
    | DropColumn(drop: ColumnRef)

  /**
   * One statement. Any statement may fail for reasons of its own; columns can only
   * be added to and dropped from an existing table that is not a view.
   */
  predicate Succeeds(db: Schema, s: Statement, fails: set<Statement>) {
    && s !in fails
    && match s
       case DropView(n) => n in db ==> IsView(db, n)
       case DropTable(n) => true
       case AddColumn(a) => a.table in db && !IsView(db, a.table)
       case DropColumn(c) => c.table in db && !IsView(db, c.table)
  }

  function Effect(db: Schema, s: Statement): Schema {
    match s
    case DropView(n) => db - {n}
    case DropTable(n) => db - {n}
    case AddColumn(a) =>
      if a.table in db then db[a.table := db[a.table].(columns := db[a.table].columns + {a.column})] else db
    case DropColumn(c) =>
      if c.table in db then db[c.table := db[c.table].(columns := db[c.table].columns - {c.column})] else db
  }

  function ViewDrops(plan: Plan): seq<Statement> {
    seq(|plan.dropViews|, i requires 0 <= i < |plan.dropViews| => DropView(plan.dropViews[i]))
  }

  function TableDrops(plan: Plan): seq<Statement> {
    seq(|plan.dropTables|, i requires 0 <= i < |plan.dropTables| => DropTable(plan.dropTables[i]))
  }

  function ColumnAdds(plan: Plan): seq<Statement> {
    seq(|plan.addColumns|, i requires 0 <= i < |plan.addColumns| => AddColumn(plan.addColumns[i]))
  }

  function ColumnDrops(plan: Plan): seq<Statement> {
    seq(|plan.dropColumns|, i requires 0 <= i < |plan.dropColumns| => DropColumn(plan.dropColumns[i]))
  }

  function Statements(plan: Plan): seq<Statement> {
    ViewDrops(plan) + (TableDrops(plan) + (ColumnAdds(plan) + ColumnDrops(plan)))
  }

  /** Run statements in order; a failed column drop is passed over, any other failure stops the run. */
  function Execute(db: Schema, todo: seq<Statement>, fails: set<Statement>): (Schema, bool) {
    if todo == [] then (db, true)
    else if Succeeds(db, todo[0], fails) then Execute(Effect(db, todo[0]), todo[1..], fails)
    else if todo[0].DropColumn? then Execute(db, todo[1..], fails)
    else (db, false)
  }

  lemma {:induction false} ExecuteParts(db: Schema, a: seq<Statement>, b: seq<Statement>, fails: set<Statement>)
    ensures Execute(db, a + b, fails) ==
      var (mid, ok) := Execute(db, a, fails);
      if ok then Execute(mid, b, fails) else (mid, false)
    decreases |a|
  {
    if a == [] {
      assert a + b == b;
    } else {
      assert (a + b)[1..] == a[1..] + b;
      ExecuteParts(if Succeeds(db, a[0], fails) then Effect(db, a[0]) else db, a[1..], b, fails);
    }
  }

  class Database {
    var tables: Schema

    method Exec(s: Statement, fails: set<Statement>) returns (ok: bool)
      modifies this
      ensures ok == old(Succeeds(tables, s, fails))
      ensures tables == if ok then old(Effect(tables, s)) else old(tables)
    {
      ok := Succeeds(tables, s, fails);
      if ok {
        tables := Effect(tables, s);
      }
    }

    /** One of the four loops: only a failed column drop is passed over. */
    method RunLoop(todo: seq<Statement>, fails: set<Statement>) returns (ok: bool)
      modifies this
      ensures (tables, ok) == old(Execute(tables, todo, fails))
    {
      ghost var first := tables;
      assert todo[0..] == todo;
      for i := 0 to |todo|
        invariant Execute(first, todo, fails) == Execute(tables, todo[i..], fails)
      {
        assert todo[i..][1..] == todo[i + 1..];
        ok := Exec(todo[i], fails);
        if !ok && !todo[i].DropColumn? {
          return false;
        }
      }
      ok := true;
    }

    method ExecuteReconcilePlan(plan: Plan, fails: set<Statement>) returns (ok: bool)
      modifies this
      ensures (tables, ok) == old(Execute(tables, Statements(plan), fails))
    {
      ghost var first := tables;
      ExecuteParts(first, ViewDrops(plan), TableDrops(plan) + (ColumnAdds(plan) + ColumnDrops(plan)), fails);
      ok := RunLoop(ViewDrops(plan), fails);
      if !ok {
        return;
      }
      ExecuteParts(tables, TableDrops(plan), ColumnAdds(plan) + ColumnDrops(plan), fails);
      ok := RunLoop(TableDrops(plan), fails);
      if !ok {
        return;
      }
      ExecuteParts(tables, ColumnAdds(plan), ColumnDrops(plan), fails);
      ok := RunLoop(ColumnAdds(plan), fails);
      if !ok {
        return;
      }
      ok := RunLoop(ColumnDrops(plan), fails);
    }

    /** Mode "off" and "dry-run" change nothing, and nothing happens when no table was parsed. */
    method ReconcileSchema(mode: string, desired: Desired, fails: set<Statement>)
      returns (r: Result<bool, string>, ghost guarded: Plan)
      modifies this
      ensures mode == "off" || desired.tables == map[] || mode == "dry-run" ==> tables == old(tables)
      ensures mode != "off" && desired.tables == map[] ==> r.Err?
      ensures mode != "off" && mode != "dry-run" && desired.tables != map[] ==>
        && (exists plan :: IsDiff(desired, old(tables), plan) && IsGuarded(plan, guarded))
        && (tables, r.Ok?) == old(Execute(tables, Statements(guarded), fails))
    {
      guarded := Plan([], [], [], []);
      if mode == "off" {
        return Ok(false), guarded;
      }
      if |desired.tables| == 0 {
        return Err("refusing to reconcile: parsed 0 desired tables"), guarded;
      }
      var plan := ComputeReconcilePlan(desired, tables);
      var safe := GuardProtectedTables(plan);
      guarded := safe;
      if mode == "dry-run" {
        return Ok(false), guarded;
      }
      var ok := ExecuteReconcilePlan(safe, fails);
      r := if ok then Ok(true) else Err("statement failed");
    }
  }

  // ---------------------------------------------------------------------------
  // What a run does
  // ---------------------------------------------------------------------------

  predicate Drops(todo: seq<Statement>, n: string) {
    DropView(n) in todo || DropTable(n) in todo
  }

  ghost predicate Adds(todo: seq<Statement>, n: string, col: string) {
    exists def :: AddColumn(ColumnAdd(n, col, def)) in todo
  }

  /** The run takes the column away: the drop is in the list and the server accepts it. */
  predicate Removes(db: Schema, todo: seq<Statement>, fails: set<Statement>, n: string, col: string) {
    DropColumn(ColumnRef(n, col)) in todo && DropColumn(ColumnRef(n, col)) !in fails && !IsView(db, n)
  }

  /** The tables that survive a complete run, and for each what its columns become. */
  ghost predicate Outcome(db: Schema, todo: seq<Statement>, fails: set<Statement>, after: Schema) {
    && (forall n :: n in after <==> n in db && !Drops(todo, n))
    && (forall n :: n in after ==> after[n].engine == db[n].engine)
    && (forall n, col :: n in after ==>
          (col in after[n].columns <==>
            (col in db[n].columns || Adds(todo, n, col)) && !Removes(db, todo, fails, n, col)))
  }

  /** No column is both added and dropped: what a plan made of differences looks like. */
  ghost predicate Consistent(todo: seq<Statement>) {
    forall n, col :: Adds(todo, n, col) ==> DropColumn(ColumnRef(n, col)) !in todo
  }

  lemma ListGrows(s: Statement, rest: seq<Statement>)
    ensures forall n :: Drops([s] + rest, n) <==> Drops(rest, n) || s == DropView(n) || s == DropTable(n)
    ensures forall n, col :: Adds([s] + rest, n, col) <==>
      Adds(rest, n, col) || (s.AddColumn? && s.add.table == n && s.add.column == col)
    ensures Consistent([s] + rest) ==> Consistent(rest)
  {
    var todo := [s] + rest;
    assert forall x :: x in todo <==> x == s || x in rest;
    forall n, col ensures Adds(todo, n, col) <==>
      Adds(rest, n, col) || (s.AddColumn? && s.add.table == n && s.add.column == col)
    {
      if s.AddColumn? && s.add.table == n && s.add.column == col {
        assert AddColumn(ColumnAdd(n, col, s.add.definition)) in todo;
      }
      if def :| AddColumn(ColumnAdd(n, col, def)) in rest {
        assert AddColumn(ColumnAdd(n, col, def)) in todo;
      }
    }
  }

  lemma OutcomeOfFirst(db: Schema, s: Statement, rest: seq<Statement>, fails: set<Statement>, after: Schema)
    requires Consistent([s] + rest)
    requires Succeeds(db, s, fails) || s.DropColumn?
    requires Outcome(if Succeeds(db, s, fails) then Effect(db, s) else db, rest, fails, after)
    ensures Outcome(db, [s] + rest, fails, after)
  {
    ListGrows(s, rest);
    assert forall x :: x in [s] + rest <==> x == s || x in rest;
    var mid := if Succeeds(db, s, fails) then Effect(db, s) else db;
    forall n, col | n in after
      ensures col in after[n].columns <==>
        (col in db[n].columns || Adds([s] + rest, n, col)) && !Removes(db, [s] + rest, fails, n, col)
    {
      assert mid[n].engine == db[n].engine;
    }
  }

  lemma {:induction false} CompleteRunOutcome(db: Schema, todo: seq<Statement>, fails: set<Statement>)
    requires Execute(db, todo, fails).1 && Consistent(todo)
    ensures Outcome(db, todo, fails, Execute(db, todo, fails).0)
    decreases |todo|
  {
    if todo != [] {
      var s, rest := todo[0], todo[1..];
      assert todo == [s] + rest;
      ListGrows(s, rest);
      var mid := if Succeeds(db, s, fails) then Effect(db, s) else db;
      CompleteRunOutcome(mid, rest, fails);
      OutcomeOfFirst(db, s, rest, fails, Execute(mid, rest, fails).0);
    }
  }

  lemma StatementsOf(plan: Plan)
    ensures var todo := Statements(plan);
      && (forall n :: DropView(n) in todo <==> n in plan.dropViews)
      && (forall n :: DropTable(n) in todo <==> n in plan.dropTables)
      && (forall a :: AddColumn(a) in todo <==> a in plan.addColumns)
      && (forall c :: DropColumn(c) in todo <==> c in plan.dropColumns)
  {
    assert forall i :: 0 <= i < |plan.dropViews| ==> ViewDrops(plan)[i] == DropView(plan.dropViews[i]);
    assert forall i :: 0 <= i < |plan.dropTables| ==> TableDrops(plan)[i] == DropTable(plan.dropTables[i]);
    assert forall i :: 0 <= i < |plan.addColumns| ==> ColumnAdds(plan)[i] == AddColumn(plan.addColumns[i]);
    assert forall i :: 0 <= i < |plan.dropColumns| ==> ColumnDrops(plan)[i] == DropColumn(plan.dropColumns[i]);
  }

  // ---------------------------------------------------------------------------
  // Convergence
  // ---------------------------------------------------------------------------

  /** The guarded plan for the current schema. */
  ghost predicate IsPlan(desired: Desired, db: Schema, guarded: Plan) {
    exists plan :: IsDiff(desired, db, plan) && IsGuarded(plan, guarded)
  }

  lemma PlanIsConsistent(desired: Desired, db: Schema, guarded: Plan)
    requires IsPlan(desired, db, guarded)
    ensures Consistent(Statements(guarded))
    ensures forall n :: Drops(Statements(guarded), n) <==>
      DropsView(desired, db, n) || (DropsTable(desired, db, n) && n !in PROTECTED_TABLES)
    ensures forall n, col :: Adds(Statements(guarded), n, col) <==>
      n in desired.tables && n in db && col in desired.tables[n] && col !in db[n].columns
    ensures forall c :: DropColumn(c) in Statements(guarded) <==>
      DropsColumn(desired, db, c) && c.table !in PROTECTED_TABLES
  {
    StatementsOf(guarded);
    forall n, col ensures Adds(Statements(guarded), n, col) <==>
      n in desired.tables && n in db && col in desired.tables[n] && col !in db[n].columns
    {
      if n in desired.tables && n in db && col in desired.tables[n] && col !in db[n].columns {
        assert ColumnAdd(n, col, desired.tables[n][col]) in guarded.addColumns;
      }
    }
  }

  /** The server did not accept this column drop. */
  predicate Refused(db: Schema, fails: set<Statement>, c: ColumnRef) {
    DropColumn(c) in fails || IsView(db, c.table)
  }

  /**
   * Reconciling converges: after a complete run the next guarded plan is empty, up
   * to the column drops the server refused.
   */
  lemma Converges(desired: Desired, db: Schema, guarded: Plan, fails: set<Statement>, next: Plan)
    requires IsPlan(desired, db, guarded) && Execute(db, Statements(guarded), fails).1
    requires IsPlan(desired, Execute(db, Statements(guarded), fails).0, next)
    ensures next.dropViews == [] && next.dropTables == [] && next.addColumns == []
    ensures forall c :: c in next.dropColumns <==>
      c in guarded.dropColumns && c.table in Execute(db, Statements(guarded), fails).0 && Refused(db, fails, c)
  {
    var todo, after := Statements(guarded), Execute(db, Statements(guarded), fails).0;
    PlanIsConsistent(desired, db, guarded);
    CompleteRunOutcome(db, todo, fails);
    StatementsOf(guarded);
    FirstIsMember(next.dropViews);
    FirstIsMember(next.dropTables);
    FirstIsMember(next.addColumns);
  }

  /** After a complete run every declared table that exists has every declared column, and only refused others. */
  lemma DeclaredTablesMatch(desired: Desired, db: Schema, guarded: Plan, fails: set<Statement>, n: string)
    requires IsPlan(desired, db, guarded) && Execute(db, Statements(guarded), fails).1
    requires n in desired.tables && n in Execute(db, Statements(guarded), fails).0
    ensures var columns := Execute(db, Statements(guarded), fails).0[n].columns;
      && desired.tables[n].Keys <= columns
      && forall col :: col in columns && col !in desired.tables[n] ==>
           n in PROTECTED_TABLES || Refused(db, fails, ColumnRef(n, col))
  {
    PlanIsConsistent(desired, db, guarded);
    CompleteRunOutcome(db, Statements(guarded), fails);
  }

  /** No declared table that lacks a declared column is currently a view. */
  ghost predicate NoViewNeedsColumns(desired: Desired, db: Schema) {
    forall n :: n in desired.tables && IsView(db, n) ==> desired.tables[n].Keys <= db[n].columns
  }

  /** Only column drops may fail of themselves. */
  predicate OnlyColumnDropsFail(fails: set<Statement>) {
    forall s :: s in fails ==> s.DropColumn?
  }

  /**
   * A run completes exactly when no declared table that is currently a view lacks a
   * declared column: such a view is dropped (or kept), and adding the column fails.
   */
  lemma CompletesIff(desired: Desired, db: Schema, guarded: Plan, fails: set<Statement>)
    requires IsPlan(desired, db, guarded) && OnlyColumnDropsFail(fails)
    ensures Execute(db, Statements(guarded), fails).1 <==> NoViewNeedsColumns(desired, db)
  {
    var todo := Statements(guarded);
    PlanIsConsistent(desired, db, guarded);
    if NoViewNeedsColumns(desired, db) {
      forall n, col | Adds(todo, n, col) ensures n in db && !IsView(db, n) && !Drops(todo, n) {}
      forall n | DropView(n) in todo ensures IsView(db, n) { StatementsOf(guarded); }
      RunCompletes(db, todo, fails);
    } else {
      var n :| n in desired.tables && IsView(db, n) && !(desired.tables[n].Keys <= db[n].columns);
      var col :| col in desired.tables[n] && col !in db[n].columns;
      assert Adds(todo, n, col);
      AddToViewFails(db, todo, fails, n, col);
    }
  }

  /** A declared table that is a view without its column: the view is dropped, and adding the column fails. */
  lemma ViewWithoutColumnFails()
    ensures var desired := Desired(map["t" := map["a" := "a UInt8", "b" := "b UInt8"]], {});
      var db := map["t" := Table("View", {"b"})];
      var plan := Plan([], ["t"], [], [ColumnAdd("t", "a", "a UInt8")]);
      IsPlan(desired, db, plan) && Execute(db, Statements(plan), {}) == (map[], false)
  {
    var desired := Desired(map["t" := map["a" := "a UInt8", "b" := "b UInt8"]], {});
    var db := map["t" := Table("View", {"b"})];
    var plan := Plan([], ["t"], [], [ColumnAdd("t", "a", "a UInt8")]);
    assert IsDiff(desired, db, plan) && IsGuarded(plan, plan);
    assert ViewDrops(plan) == [DropView("t")] && ColumnAdds(plan) == [AddColumn(plan.addColumns[0])];
    assert Statements(plan) == [DropView("t"), AddColumn(plan.addColumns[0])];
    assert Statements(plan)[1..] == [AddColumn(plan.addColumns[0])];
    assert db - {"t"} == map[];
  }

  lemma {:induction false} RunCompletes(db: Schema, todo: seq<Statement>, fails: set<Statement>)
    requires OnlyColumnDropsFail(fails)
    requires forall n, col :: Adds(todo, n, col) ==> n in db && !IsView(db, n) && !Drops(todo, n)
    requires forall n :: DropView(n) in todo ==> n in db ==> IsView(db, n)
    ensures Execute(db, todo, fails).1
    decreases |todo|
  {
    if todo != [] {
      var s, rest := todo[0], todo[1..];
      assert todo == [s] + rest;
      ListGrows(s, rest);
      if s.AddColumn? {
        assert Adds(todo, s.add.table, s.add.column);
      }
      RunCompletes(if Succeeds(db, s, fails) then Effect(db, s) else db, rest, fails);
    }
  }

  lemma {:induction false} AddToViewFails(db: Schema, todo: seq<Statement>, fails: set<Statement>, n: string,
                                          col: string)
    requires Adds(todo, n, col) && (n in db ==> IsView(db, n))
    ensures !Execute(db, todo, fails).1
    decreases |todo|
  {
    var s, rest := todo[0], todo[1..];
    assert todo == [s] + rest;
    ListGrows(s, rest);
    if Succeeds(db, s, fails) || s.DropColumn? {
      AddToViewFails(if Succeeds(db, s, fails) then Effect(db, s) else db, rest, fails, n, col);
    }
  }

  // ---------------------------------------------------------------------------
  // Safety, wherever the run stops
  // ---------------------------------------------------------------------------

  lemma {:induction false} UntouchedSurvive(db: Schema, todo: seq<Statement>, fails: set<Statement>, n: string)
    requires n in db && !Drops(todo, n)
    ensures var after := Execute(db, todo, fails).0;
      && n in after && after[n].engine == db[n].engine
      && ((forall col :: DropColumn(ColumnRef(n, col)) !in todo) ==> db[n].columns <= after[n].columns)
    decreases |todo|
  {
    if todo != [] {
      var s, rest := todo[0], todo[1..];
      assert todo == [s] + rest;
      ListGrows(s, rest);
      UntouchedSurvive(if Succeeds(db, s, fails) then Effect(db, s) else db, rest, fails, n);
    }
  }

  /** No run, complete or not, removes an internal table, a protected base table, or a column of a protected one. */
  lemma ProtectedSurvive(desired: Desired, db: Schema, guarded: Plan, fails: set<Statement>, n: string)
    requires IsPlan(desired, db, guarded) && n in db
    requires IsInternal(n) || (n in PROTECTED_TABLES && !IsView(db, n))
    ensures var after := Execute(db, Statements(guarded), fails).0;
      n in after && (n in PROTECTED_TABLES ==> db[n].columns <= after[n].columns)
  {
    PlanIsConsistent(desired, db, guarded);
    UntouchedSurvive(db, Statements(guarded), fails, n);
  }

  /** A protected name survives every complete run exactly when it is not an undeclared view. */
  lemma ProtectedNameSurvivesIff(desired: Desired, db: Schema, guarded: Plan, fails: set<Statement>, n: string)
    requires IsPlan(desired, db, guarded) && Execute(db, Statements(guarded), fails).1
    requires n in PROTECTED_TABLES && n in db
    ensures n in Execute(db, Statements(guarded), fails).0 <==> !(IsView(db, n) && n !in desired.views)
  {
    PlanIsConsistent(desired, db, guarded);
    CompleteRunOutcome(db, Statements(guarded), fails);
  }

  /** A protected name that is an undeclared view is dropped, guard or not. */
  lemma ProtectedViewIsDropped()
    ensures var desired := Desired(map["t" := map["a" := "a UInt8"]], {});
      var db := map["nostr_events" := Table("View", {"id"})];
      var plan := Plan([], ["nostr_events"], [], []);
      IsPlan(desired, db, plan) && Execute(db, Statements(plan), {}) == (map[], true)
  {
    var desired := Desired(map["t" := map["a" := "a UInt8"]], {});
    var db := map["nostr_events" := Table("View", {"id"})];
    var plan := Plan([], ["nostr_events"], [], []);
    assert IsDiff(desired, db, plan) && IsGuarded(plan, plan);
    assert ViewDrops(plan) == [DropView("nostr_events")];
    assert Statements(plan) == [DropView("nostr_events")];
    assert Statements(plan)[1..] == [];
    assert db - {"nostr_events"} == map[];
  }

  // ---------------------------------------------------------------------------
  // The database afterwards
  // ---------------------------------------------------------------------------

  lemma {:induction false} EnginesStay(db: Schema, todo: seq<Statement>, fails: set<Statement>)
    ensures var after := Execute(db, todo, fails).0; forall n :: n in after ==>
      n in db && after[n].engine == db[n].engine
    decreases |todo|
  {
    if todo != [] {
      EnginesStay(if Succeeds(db, todo[0], fails) then Effect(db, todo[0]) else db, todo[1..], fails);
    }
  }

  /**
   * Which names a complete run leaves: internal ones; views that are declared as
   * views; and other tables that are declared or protected.
   */
  lemma NamesAfterwards(desired: Desired, db: Schema, guarded: Plan, fails: set<Statement>, n: string)
    requires IsPlan(desired, db, guarded) && Execute(db, Statements(guarded), fails).1 && n in db
    ensures n in Execute(db, Statements(guarded), fails).0 <==>
      if n != "" && n[0] == '.' then true
      else if db[n].engine in {"MaterializedView", "View", "LiveView", "WindowView"} then n in desired.views
      else n in desired.tables || n in {"nostr_events", "event_tags", "event_seen_relays"}
  {
    PlanIsConsistent(desired, db, guarded);
    CompleteRunOutcome(db, Statements(guarded), fails);
  }

  /** No run creates a name or changes an engine. */
  lemma NothingIsCreated(desired: Desired, db: Schema, guarded: Plan, fails: set<Statement>)
    ensures forall n :: n in Execute(db, Statements(guarded), fails).0 ==>
      n in db && Execute(db, Statements(guarded), fails).0[n].engine == db[n].engine
  {
    EnginesStay(db, Statements(guarded), fails);
  }

  /**
   * Which columns a complete run leaves: what a declared table declares, and of what it
   * had besides, only what is protected or what the server refused to drop. Views, and
   * tables that are not declared, keep their columns.
   */
  lemma ColumnsAfterwards(desired: Desired, db: Schema, guarded: Plan, fails: set<Statement>, n: string, col: string)
    requires IsPlan(desired, db, guarded) && Execute(db, Statements(guarded), fails).1
    requires n in Execute(db, Statements(guarded), fails).0
    ensures n in db && (col in Execute(db, Statements(guarded), fails).0[n].columns <==>
      if n !in desired.tables || db[n].engine in {"MaterializedView", "View", "LiveView", "WindowView"} then
        col in db[n].columns
      else
        || col in desired.tables[n]
        || (col in db[n].columns
            && (n in {"nostr_events", "event_tags", "event_seen_relays"} || DropColumn(ColumnRef(n, col)) in fails)))
  {
    PlanIsConsistent(desired, db, guarded);
    CompleteRunOutcome(db, Statements(guarded), fails);
    if IsView(db, n) && Adds(Statements(guarded), n, col) {
      AddToViewFails(db, Statements(guarded), fails, n, col);
    }
  }

  /** A column is added with its declared definition. */
  lemma DefinitionsAreDeclared(desired: Desired, db: Schema, guarded: Plan, a: ColumnAdd)
    requires IsPlan(desired, db, guarded)
    ensures AddColumn(a) in Statements(guarded) ==>
      a.table in desired.tables && a.column in desired.tables[a.table]
        && a.definition == desired.tables[a.table][a.column]
  {
    StatementsOf(guarded);
  }

  /** View drops come first, then table drops, then added columns, then dropped ones. */
  lemma DropsAndAddsInOrder(plan: Plan, i: nat, j: nat)
    requires i < j < |Statements(plan)|
    ensures var s, t := Statements(plan)[i], Statements(plan)[j];
      && (t.DropView? ==> s.DropView?) && (t.DropTable? ==> s.DropView? || s.DropTable?)
      && (t.AddColumn? ==> !s.DropColumn?)
  {
  }

  /** Any statement but a column drop stops the run when it fails. */
  lemma FailureStops(plan: Plan, db: Schema, fails: set<Statement>, s: Statement)
    requires s in Statements(plan) && s in fails && !s.DropColumn?
    ensures !Execute(db, Statements(plan), fails).1
  {
    StopsAt(db, Statements(plan), fails, s);
  }

  lemma {:induction false} StopsAt(db: Schema, todo: seq<Statement>, fails: set<Statement>, s: Statement)
    requires s in todo && s in fails && !s.DropColumn?
    ensures !Execute(db, todo, fails).1
    decreases |todo|
  {
    if todo[0] != s {
      assert todo == [todo[0]] + todo[1..];
      StopsAt(if Succeeds(db, todo[0], fails) then Effect(db, todo[0]) else db, todo[1..], fails, s);
    }
  }
}
