/**
 * Reading whole migration scripts: parseDesiredSchema in
 * internal/clickhouse/schema_reconcile.go, over the splitter of SqlSplit and the
 * CREATE TABLE reader of SchemaParse.
 */
module SchemaScript {
  import opened Wrappers
  import opened SqlSplit
  import opened SchemaParse
  import SchemaReconcile

  type Desired = SchemaReconcile.Desired

  // ---------------------------------------------------------------------------
  // What a script declares
  // ---------------------------------------------------------------------------

  /** The name in a CREATE MATERIALIZED VIEW statement. */
  function ViewName(stmt: string): string {
    FirstIdentifier(Trim(StripPrefixFold(Trim(StripPrefixFold(stmt, "CREATE MATERIALIZED VIEW")), "IF NOT EXISTS")))
  }

  /** The table a CREATE TABLE statement declares, unless it is malformed. */
  ghost function TableIn(stmt: string): Option<TableDef> {
    if exists t :: Declares(stmt, Ok(t)) then
      var t :| Declares(stmt, Ok(t));
      Some(t)
    else None
  }

  lemma TableInIs(stmt: string, r: Result<TableDef, string>)
    requires Declares(stmt, r)
    ensures TableIn(stmt) == if r.Ok? then Some(r.value) else None
  {
    if TableIn(stmt).Some? {
      DeclaresOnce(stmt, r, Ok(TableIn(stmt).value));
    }
  }

  function WithTable(before: Desired, t: TableDef): Desired {
    if t.NoName? then before else before.(tables := before.tables[t.name := t.columns])
  }

  function WithView(before: Desired, name: string): Desired {
    if name == "" then before else before.(views := before.views + {name})
  }

  /** What is declared after one more statement; nothing is after a malformed one. */
  ghost function With(before: Desired, stmt: string): Option<Desired> {
    if HasPrefixFold(stmt, "CREATE MATERIALIZED VIEW") then Some(WithView(before, ViewName(stmt)))
    else if !HasPrefixFold(stmt, "CREATE TABLE") then Some(before)
    else if TableIn(stmt).Some? then Some(WithTable(before, TableIn(stmt).value))
    else None
  }

  const NOTHING := SchemaReconcile.Desired(map[], {})

  /** What the statements declare. */
  ghost function DesiredOf(stmts: seq<string>): Option<Desired> {
    if stmts == [] then Some(NOTHING)
    else
      var before := DesiredOf(stmts[..|stmts| - 1]);
      if before.None? then None else With(before.value, stmts[|stmts| - 1])
  }

  /** The statements of all migrations, in order. */
  function StatementsOf(migrations: seq<string>): seq<string> {
    if migrations == [] then []
    else StatementsOf(migrations[..|migrations| - 1]) + Split(migrations[|migrations| - 1])
  }

  /** The error is the one case of nothing. */
  ghost predicate Reads(r: Result<Desired, string>, declared: Option<Desired>) {
    declared == if r.Ok? then Some(r.value) else None
  }

  method ParseStatement(stmt: string, before: Desired) returns (r: Result<Desired, string>)
    ensures Reads(r, With(before, stmt))
  {
    if HasPrefixFold(stmt, "CREATE MATERIALIZED VIEW") {
      var name := ViewName(stmt);
      return Ok(if name == "" then before else before.(views := before.views + {name}));
    }
    if HasPrefixFold(stmt, "CREATE TABLE") {
      var table := ParseCreateTable(stmt);
      TableInIs(stmt, table);
      if table.Err? {
        return Err(table.error);
      }
      return Ok(WithTable(before, table.value));
    }
    r := Ok(before);
  }

  /** The inner loop: the statements of one migration, after those already read. */
  method ParseStatements(ghost read: seq<string>, stmts: seq<string>, before: Desired)
    returns (r: Result<Desired, string>)
    requires DesiredOf(read) == Some(before)
    ensures Reads(r, DesiredOf(read + stmts))
  {
    var desired := before;
    assert stmts[..0] == [] && read + [] == read;
    for k := 0 to |stmts|
      invariant DesiredOf(read + stmts[..k]) == Some(desired)
    {
      var next := ParseStatement(stmts[k], desired);
      NextStatement(read, stmts, k);
      if next.Err? {
        return next;
      }
      desired := next.value;
    }
    assert stmts[..|stmts|] == stmts;
    r := Ok(desired);
  }

  method ParseDesiredSchema(migrations: seq<string>) returns (r: Result<Desired, string>)
    ensures Reads(r, DesiredOf(StatementsOf(migrations)))
  {
    var desired := NOTHING;
    for i := 0 to |migrations|
      invariant DesiredOf(StatementsOf(migrations[..i])) == Some(desired)
    {
      var stmts := SplitSQLStatements(migrations[i]);
      assert migrations[..i + 1][..i] == migrations[..i];
      var next := ParseStatements(StatementsOf(migrations[..i]), stmts, desired);
      if next.Err? {
        var more := StatementsSuffix(migrations, i + 1);
        ErrorStays(StatementsOf(migrations[..i + 1]), more);
        return next;
      }
      desired := next.value;
    }
    assert migrations[..|migrations|] == migrations;
    r := Ok(desired);
  }

  lemma OneMoreStatement(stmts: seq<string>, stmt: string)
    ensures DesiredOf(stmts + [stmt]) == if DesiredOf(stmts).None? then None else With(DesiredOf(stmts).value, stmt)
  {
    assert (stmts + [stmt])[..|stmts|] == stmts;
  }

  /** After an error the remaining statements do not matter. */
  lemma {:induction false} ErrorStays(stmts: seq<string>, more: seq<string>)
    requires DesiredOf(stmts) == None
    ensures DesiredOf(stmts + more) == None
    decreases |more|
  {
    if more == [] {
      assert stmts + more == stmts;
    } else {
      var front, last := more[..|more| - 1], more[|more| - 1];
      ErrorStays(stmts, front);
      OneMoreStatement(stmts + front, last);
      assert stmts + more == (stmts + front) + [last];
    }
  }

  /** Reading one more of some statements; where that one is malformed, so are they all. */
  lemma NextStatement(read: seq<string>, stmts: seq<string>, k: nat)
    requires k < |stmts| && DesiredOf(read + stmts[..k]).Some?
    ensures DesiredOf(read + stmts[..k + 1]) == With(DesiredOf(read + stmts[..k]).value, stmts[k])
    ensures DesiredOf(read + stmts[..k + 1]) == None ==> DesiredOf(read + stmts) == None
  {
    CutAt(read, stmts, k);
    OneMoreStatement(read + stmts[..k], stmts[k]);
    if DesiredOf(read + stmts[..k + 1]) == None {
      ErrorStays(read + stmts[..k + 1], stmts[k + 1..]);
    }
  }

  lemma CutAt(read: seq<string>, stmts: seq<string>, k: nat)
    requires k < |stmts|
    ensures read + stmts[..k + 1] == (read + stmts[..k]) + [stmts[k]]
    ensures read + stmts == (read + stmts[..k + 1]) + stmts[k + 1..]
  {
  }

  lemma {:induction false} StatementsSuffix(migrations: seq<string>, i: nat) returns (more: seq<string>)
    requires i <= |migrations|
    ensures StatementsOf(migrations) == StatementsOf(migrations[..i]) + more
    decreases |migrations|
  {
    if i == |migrations| {
      more := [];
      assert migrations[..i] == migrations;
    } else {
      var front := migrations[..|migrations| - 1];
      var rest := StatementsSuffix(front, i);
      var last := Split(migrations[|migrations| - 1]);
      assert front[..i] == migrations[..i];
      more := rest + last;
      assert (StatementsOf(migrations[..i]) + rest) + last == StatementsOf(migrations[..i]) + more;
    }
  }

  // ---------------------------------------------------------------------------
  // Putting closed texts together
  // ---------------------------------------------------------------------------

  /** A character that no quote, comment or statement end starts or goes on with. */
  predicate IsSafe(c: char) {
    c != '\'' && c != '`' && c != ';' && c != '-' && c != '/' && c != '*'
  }

  predicate AllSafe(s: string) {
    forall i :: 0 <= i < |s| ==> IsSafe(s[i])
  }

  lemma {:induction false} AppendIsClean(ps: Pieces, qs: Pieces)
    requires Clean(ps) && EndsClosed(ps) && Clean(qs) && EndsClosed(qs)
    requires qs.More? ==> IsSafe(qs.head.text[0])
    ensures Clean(Append(ps, qs)) && EndsClosed(Append(ps, qs)) && Render(Append(ps, qs)) == Render(ps) + Render(qs)
  {
    if ps.More? {
      AppendIsClean(ps.tail, qs);
    }
  }

  lemma {:induction false} SafePieces(s: string) returns (ps: Pieces)
    requires AllSafe(s)
    ensures Clean(ps) && EndsClosed(ps) && Render(ps) == s && (ps.More? <==> s != "")
      && (ps.More? ==> ps.head.text == [s[0]])
  {
    if s == "" {
      ps := End;
    } else {
      var rest := SafePieces(s[1..]);
      ps := More(Piece(Plain, [s[0]]), rest);
    }
  }

  /** Closed text, some safe characters, and closed text again. */
  lemma SafeSeam(a: string, middle: string, b: string)
    requires ClosedText(a) && ClosedText(b) && AllSafe(middle) && middle != ""
    ensures ClosedText(a + (middle + b))
  {
    var ps :| Clean(ps) && Render(ps) == a && EndsClosed(ps);
    var rs :| Clean(rs) && Render(rs) == b && EndsClosed(rs);
    var qs := SafePieces(middle);
    SafeBefore(qs, rs);
    AppendIsClean(ps, Append(qs, rs));
  }

  lemma SafeTail(qs: Pieces)
    requires Clean(qs) && qs.More? && AllSafe(Render(qs))
    ensures AllSafe(Render(qs.tail)) && IsSafe(qs.head.text[0])
  {
    assert qs.head.text[0] == Render(qs)[0];
    assert forall i :: 0 <= i < |Render(qs.tail)| ==> Render(qs.tail)[i] == Render(qs)[|qs.head.text| + i];
  }

  /** Safe pieces fit before anything. */
  lemma {:induction false} SafeBefore(qs: Pieces, rs: Pieces)
    requires Clean(qs) && EndsClosed(qs) && Clean(rs) && EndsClosed(rs) && AllSafe(Render(qs))
    ensures Clean(Append(qs, rs)) && EndsClosed(Append(qs, rs)) && Render(Append(qs, rs)) == Render(qs) + Render(rs)
    ensures qs.More? ==> Append(qs, rs).More? && Append(qs, rs).head == qs.head
  {
    if qs.More? {
      SafeTail(qs);
      assert AllSafe(Render(qs.tail));
      SafeBefore(qs.tail, rs);
      SafeHeadFits(qs.head, Append(qs.tail, rs));
    }
  }

  lemma SafeHeadFits(p: Piece, more: Pieces)
    requires Good(p) && Closed(p) && IsSafe(p.text[0]) && Clean(more)
    ensures Clean(More(p, more))
  {
    if more.More? {
      assert Good(more.head);
    }
  }

  // ---------------------------------------------------------------------------
  // Printing tables into a script and reading it back
  // ---------------------------------------------------------------------------

  datatype TableText = TableText(name: string, columns: seq<Column>, suffix: string)

  /** A printable table whose definitions and suffix have closed quotes, no comments and no bare semicolons. */
  ghost predicate IsPrintable(t: TableText) {
    && IsTable(t.name, t.columns, t.suffix) && ClosedText(t.suffix)
    && forall c :: c in t.columns ==> ClosedText(c.definition)
  }

  function PrintTable(t: TableText): string
    requires t.columns != []
  {
    Print(t.name, t.columns, t.suffix)
  }

  lemma EntryIsClosed(c: Column)
    requires IsColumn(c) && ClosedText(c.definition)
    ensures ClosedText(EntryOf(c))
  {
    SafeHead(c.name + " ", c.definition);
  }

  lemma {:induction false} EntriesAreClosed(columns: seq<Column>)
    requires columns != [] && forall c :: c in columns ==> IsColumn(c) && ClosedText(c.definition)
    ensures ClosedText(SchemaParse.Join(Entries(columns)))
    decreases |columns|
  {
    var front, last := columns[..|columns| - 1], columns[|columns| - 1];
    EntryIsClosed(last);
    JoinEnds(columns);
    if front != [] {
      EntriesAreClosed(front);
      SafeSeam(SchemaParse.Join(Entries(front)), ",", EntryOf(last));
    }
  }

  lemma JoinEnds(columns: seq<Column>)
    requires columns != []
    ensures var front, last := columns[..|columns| - 1], columns[|columns| - 1];
      SchemaParse.Join(Entries(columns)) ==
        if front == [] then EntryOf(last) else SchemaParse.Join(Entries(front)) + ("," + EntryOf(last))
  {
    assert Entries(columns)[..|columns| - 1] == Entries(columns[..|columns| - 1]);
  }

  lemma SafeHead(head: string, x: string)
    requires AllSafe(head) && ClosedText(x)
    ensures ClosedText(head + x)
  {
    var ps := SafePieces(head);
    var rs :| Clean(rs) && Render(rs) == x && EndsClosed(rs);
    SafeBefore(ps, rs);
  }

  lemma HeadIsSafe(name: string)
    requires IsWord(name)
    ensures AllSafe(Statement(name + " ("))
  {
  }

  lemma PrintIsClosed(t: TableText)
    requires IsPrintable(t)
    ensures ClosedText(PrintTable(t))
  {
    var tail := SchemaParse.Join(Entries(t.columns)) + (")" + t.suffix);
    assert ClosedText(tail) by {
      EntriesAreClosed(t.columns);
      SafeSeam(SchemaParse.Join(Entries(t.columns)), ")", t.suffix);
    }
    HeadIsSafe(t.name);
    SafeHead(Statement(t.name + " ("), tail);
    PrintParts(t.name, tail);
  }

  lemma PrintParts(name: string, tail: string)
    ensures Statement(name + " (") + tail == Statement(name + (" (" + tail))
  {
  }

  lemma PrintIsStatement(t: TableText)
    requires IsPrintable(t)
    ensures IsStatement(PrintTable(t))
  {
    var x := PrintTable(t);
    PrintIsClosed(t);
    assert CleanText(x);
    assert x[0] == 'C' && x[|x| - 1] == if t.suffix == "" then ')' else t.suffix[|t.suffix| - 1];
    TrimNothing(x);
  }

  function Prints(tables: seq<TableText>): seq<string>
    requires forall t :: t in tables ==> t.columns != []
  {
    seq(|tables|, i requires 0 <= i < |tables| => PrintTable(tables[i]))
  }

  /** The tables with semicolons between them. */
  function Script(tables: seq<TableText>): string
    requires forall t :: t in tables ==> t.columns != []
  {
    SqlSplit.Join(Prints(tables))
  }

  ghost predicate AllPrintable(tables: seq<TableText>) {
    forall t :: t in tables ==> t.columns != [] && IsPrintable(t)
  }

  ghost predicate ArePrintable(tables: seq<TableText>) {
    AllPrintable(tables) && DistinctTables(tables)
  }

  /** The splitter gives the printed tables back. */
  lemma ScriptSplits(tables: seq<TableText>)
    requires ArePrintable(tables)
    ensures Split(Script(tables)) == Prints(tables)
  {
    forall x | x in Prints(tables) ensures Split(x) == [x] && ClosedText(x) {
      var i :| 0 <= i < |tables| && Prints(tables)[i] == x;
      PrintIsStatement(tables[i]);
      PrintIsClosed(tables[i]);
      FixpointsAreStatements(x);
    }
    JoinThenSplit(Prints(tables));
  }

  /** What the printed tables declare: each with the columns of its entries. */
  function DefsOf(tables: seq<TableText>): map<string, map<string, string>> {
    if tables == [] then map[]
    else
      var last := tables[|tables| - 1];
      DefsOf(tables[..|tables| - 1])[last.name := ColumnsOf(Entries(last.columns))]
  }

  lemma PrintIsCreateTable(rest: string)
    ensures HasPrefixFold(Statement(rest), "CREATE TABLE")
      && !HasPrefixFold(Statement(rest), "CREATE MATERIALIZED VIEW")
  {
    assert Statement(rest)[7] == 'T' && "CREATE MATERIALIZED VIEW"[7] == 'M';
  }

  lemma PrintAdds(t: TableText, before: Desired)
    requires IsPrintable(t)
    ensures With(before, PrintTable(t))
      == Some(before.(tables := before.tables[t.name := ColumnsOf(Entries(t.columns))]))
  {
    assert TableIn(PrintTable(t)) == Some(TableDef(t.name, ColumnsOf(Entries(t.columns)))) by {
      PrintedDeclares(t.name, t.columns, t.suffix);
      TableInIs(PrintTable(t), Ok(TableDef(t.name, ColumnsOf(Entries(t.columns)))));
    }
    PrintIsCreateTable(t.name + (" (" + (SchemaParse.Join(Entries(t.columns)) + (")" + t.suffix))));
  }

  lemma OneMorePrint(tables: seq<TableText>)
    requires AllPrintable(tables) && tables != []
    ensures var front, last := tables[..|tables| - 1], tables[|tables| - 1];
      last in tables && AllPrintable(front) && Prints(tables) == Prints(front) + [PrintTable(last)]
  {
    assert tables[|tables| - 1] in tables;
  }

  lemma {:induction false} PrintsDeclare(tables: seq<TableText>)
    requires AllPrintable(tables)
    ensures DesiredOf(Prints(tables)) == Some(SchemaReconcile.Desired(DefsOf(tables), {}))
    decreases |tables|
  {
    if tables != [] {
      var front, last := tables[..|tables| - 1], tables[|tables| - 1];
      OneMorePrint(tables);
      PrintsDeclare(front);
      OneMoreStatement(Prints(front), PrintTable(last));
      PrintAdds(last, SchemaReconcile.Desired(DefsOf(front), {}));
    }
  }

  ghost predicate DistinctTables(tables: seq<TableText>) {
    forall i, j :: 0 <= i < j < |tables| ==> tables[i].name != tables[j].name
  }

  lemma LastIsAnother(tables: seq<TableText>, t: TableText)
    requires DistinctTables(tables) && tables != [] && t in tables[..|tables| - 1]
    ensures t.name != tables[|tables| - 1].name
  {
    var i :| 0 <= i < |tables| - 1 && tables[i] == t;
  }

  lemma {:induction false} DefsAreThere(tables: seq<TableText>, t: TableText)
    requires DistinctTables(tables) && t in tables
    ensures t.name in DefsOf(tables) && DefsOf(tables)[t.name] == ColumnsOf(Entries(t.columns))
    decreases |tables|
  {
    var front, last := tables[..|tables| - 1], tables[|tables| - 1];
    assert tables == front + [last];
    if t in front {
      LastIsAnother(tables, t);
      DefsAreThere(front, t);
    }
  }

  lemma {:induction false} DefsAreOfTables(tables: seq<TableText>, name: string)
    ensures name in DefsOf(tables) <==> exists t :: t in tables && t.name == name
    decreases |tables|
  {
    if tables != [] {
      var front, last := tables[..|tables| - 1], tables[|tables| - 1];
      DefsAreOfTables(front, name);
      assert tables == front + [last];
    }
  }

  /** The table came back with exactly its columns. */
  ghost predicate IsRead(d: Desired, t: TableText) {
    t.name in d.tables && Recovered(Ok(TableDef(t.name, d.tables[t.name])), t.name, t.columns)
  }

  /**
   * Printing tables into a script and reading the script gives back exactly those
   * tables and no view, each with exactly its columns if and only if none of them
   * reads as a table-level clause.
   */
  lemma ScriptRoundTripIff(tables: seq<TableText>)
    requires ArePrintable(tables)
    ensures var d := DesiredOf(StatementsOf([Script(tables)]));
      && d.Some? && d.value.views == {} && (forall n :: n in d.value.tables <==> exists t :: t in tables && t.name == n)
      && forall t :: t in tables ==> (IsRead(d.value, t) <==>
           forall c :: c in t.columns ==> !IsTableLevelClause(EntryOf(c)))
  {
    assert StatementsOf([Script(tables)]) == Prints(tables) by {
      assert [Script(tables)][..0] == [];
      ScriptSplits(tables);
    }
    PrintsDeclare(tables);
    forall n ensures n in DefsOf(tables) <==> exists t :: t in tables && t.name == n {
      DefsAreOfTables(tables, n);
    }
    forall t | t in tables
      ensures IsRead(SchemaReconcile.Desired(DefsOf(tables), {}), t) <==>
        forall c :: c in t.columns ==> !IsTableLevelClause(EntryOf(c))
    {
      DefsAreThere(tables, t);
      TableIsRead(t);
    }
  }

  lemma TableIsRead(t: TableText)
    requires IsPrintable(t)
    ensures Recovered(Ok(TableDef(t.name, ColumnsOf(Entries(t.columns)))), t.name, t.columns) <==>
      forall c :: c in t.columns ==> !IsTableLevelClause(EntryOf(c))
  {
    ColumnsOfEntries(t.columns);
    RecoveredIffAllKept(t.name, t.columns, Readable(t.columns), ColumnsOf(Entries(t.columns)));
  }
}
