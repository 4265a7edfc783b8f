/**
 * What reading a schema script makes of keywords, names and columns: laws of
 * parseStatement and parseCreateTable in internal/clickhouse/schema_reconcile.go.
 */
module SchemaReading {
  import opened Wrappers
  import opened SchemaParse
  import opened SchemaScript
  import SqlSplit
  import SchemaReconcile

  // ---------------------------------------------------------------------------
  // Keywords
  // ---------------------------------------------------------------------------

  function Lower(c: char): char {
    if 'A' <= c <= 'Z' then ((c as int) + 32) as char else c
  }

  /** The same letters, whatever their case. */
  predicate SameLetters(a: string, b: string) {
    |a| == |b| && forall i :: 0 <= i < |a| ==> Lower(a[i]) == Lower(b[i])
  }

  lemma UpperIsLower(a: char, b: char)
    ensures Upper(a) == Upper(b) <==> Lower(a) == Lower(b)
  {
  }

  lemma PrefixInAnyCase(head: string, prefix: string, rest: string)
    requires SameLetters(head, prefix)
    ensures StripPrefixFold(head + rest, prefix) == rest && HasPrefixFold(head + rest, prefix)
  {
    forall i | 0 <= i < |prefix| ensures Upper((head + rest)[i]) == Upper(prefix[i]) {
      assert (head + rest)[i] == head[i];
      UpperIsLower(head[i], prefix[i]);
    }
    assert (head + rest)[|prefix|..] == rest;
  }

  predicate IsTrimmed(x: string) {
    x != "" && !SqlSplit.IsSpace(x[0]) && !SqlSplit.IsSpace(x[|x| - 1])
  }

  /** Both keyword phrases come off in any case. */
  lemma KeywordsInAnyCase(create: string, exists_: string, rest: string)
    requires SameLetters(create, "CREATE TABLE") && SameLetters(exists_, "IF NOT EXISTS") && IsTrimmed(rest)
    ensures AfterKeywords(create + (" " + (exists_ + (" " + rest)))) == rest
  {
    var middle := exists_ + (" " + rest);
    assert Lower(exists_[0]) == Lower("IF NOT EXISTS"[0]);
    PrefixInAnyCase(create, "CREATE TABLE", " " + middle);
    PrefixInAnyCase(exists_, "IF NOT EXISTS", " " + rest);
    TrimNothing(middle);
    TrimNothing(rest);
  }

  /** The second phrase may be missing. */
  lemma PlainCreate(create: string, rest: string)
    requires SameLetters(create, "CREATE TABLE") && IsTrimmed(rest) && !HasPrefixFold(rest, "IF NOT EXISTS")
    ensures AfterKeywords(create + (" " + rest)) == rest
  {
    PrefixInAnyCase(create, "CREATE TABLE", " " + rest);
    TrimNothing(rest);
  }

  // ---------------------------------------------------------------------------
  // Names in backticks
  // ---------------------------------------------------------------------------

  /** Backticks around a name come off. */
  lemma BackticksComeOff(name: string)
    requires IsWord(name)
    ensures StripBackticks("`" + name + "`") == name
  {
    var ticked := "`" + name + "`";
    TrimNothing(ticked);
    assert ticked[1..] == name + "`";
    assert (name + "`")[..|name|] == name;
    assert TrimTicksLeft(ticked) == name + "`";
    assert TrimTicksRight(name + "`") == name;
  }

  lemma {:induction false} TickedWordReads(s: string, word: string, i: nat, parenEnds: bool)
    requires (forall k :: 0 <= k < |word| ==> !IsBlank(word[k]) && word[k] != '(')
    requires i <= |word| < |s| && s[..|word|] == word && IsBlank(s[|word|])
    ensures WordEnd(s, i, parenEnds) == |word|
    decreases |word| - i
  {
    if i < |word| {
      assert s[i] == word[i];
      TickedWordReads(s, word, i + 1, parenEnds);
    }
  }

  /** A table may have its name in backticks. */
  lemma TickedTableName(name: string, tail: string)
    requires IsWord(name) && tail != "" && !SqlSplit.IsSpace(tail[|tail| - 1])
    ensures FirstIdentifier(("`" + name + "`") + (" " + tail)) == name
  {
    var ticked := "`" + name + "`";
    var rest := ticked + (" " + tail);
    TrimNothing(rest);
    assert rest[..|ticked|] == ticked;
    TickedWordReads(rest, ticked, 0, true);
    BackticksComeOff(name);
  }

  /** So may a column: it is known by its bare name, with its entry as written. */
  lemma TickedColumnName(columns: map<string, string>, name: string, definition: string)
    requires IsWord(name) && IsTrimmed(definition)
    ensures var entry := ("`" + name + "`") + (" " + definition);
      WithEntry(columns, entry) == columns[name := entry]
  {
    var ticked := "`" + name + "`";
    var entry := ticked + (" " + definition);
    TrimNothing(entry);
    assert entry[..|ticked|] == ticked && entry[0] == '`';
    TickedWordReads(entry, ticked, 0, false);
    BackticksComeOff(name);
  }

  // ---------------------------------------------------------------------------
  // Which columns read as clauses
  // ---------------------------------------------------------------------------

  lemma WordBeforeSpace(c: Column, prefix: string, n: nat)
    requires IsColumn(c) && n < |prefix| && prefix[n] == ' ' && forall i :: 0 <= i < n ==> Upper(prefix[i]) != ' '
    ensures HasPrefixFold(EntryOf(c), prefix) ==> |c.name| == n
  {
    var e := EntryOf(c);
    forall m | 0 <= m < |c.name| ensures Upper(e[m]) != ' ' {
      assert e[m] == c.name[m] && IsWordChar(c.name[m]);
    }
    assert e[|c.name|] == ' ';
  }

  lemma ReadsAs(c: Column, keyword: string)
    requires IsColumn(c) && forall i :: 0 <= i < |keyword| ==> 'A' <= keyword[i] <= 'Z'
    ensures HasPrefixFold(EntryOf(c), keyword + " ") <==> SameLetters(c.name, keyword)
  {
    var e, prefix := EntryOf(c), keyword + " ";
    WordBeforeSpace(c, prefix, |keyword|);
    forall i | 0 <= i < |keyword| && |c.name| == |keyword|
      ensures Upper(e[i]) == Upper(prefix[i]) <==> Lower(c.name[i]) == Lower(keyword[i])
    {
      UpperIsLower(c.name[i], keyword[i]);
    }
    if SameLetters(c.name, keyword) {
      forall i | 0 <= i < |prefix| ensures Upper(e[i]) == Upper(prefix[i]) {
        if i == |keyword| {
          assert e[i] == ' ';
        }
      }
    }
    if HasPrefixFold(e, prefix) {
      forall i | 0 <= i < |keyword| ensures Lower(c.name[i]) == Lower(keyword[i]) {
        assert Upper(e[i]) == Upper(prefix[i]);
      }
    }
  }

  /** The columns that read as table-level clauses: those named index, constraint or projection, and "primary key". */
  lemma ReadsAsClauseIff(c: Column)
    requires IsColumn(c)
    ensures IsTableLevelClause(EntryOf(c)) <==>
      || SameLetters(c.name, "index") || SameLetters(c.name, "constraint") || SameLetters(c.name, "projection")
      || (SameLetters(c.name, "primary") && |c.definition| >= 3 && SameLetters(c.definition[..3], "key"))
  {
    ClauseByPrefix(c);
    ReadsAsLower(c, "INDEX", "index", "INDEX ");
    ReadsAsLower(c, "CONSTRAINT", "constraint", "CONSTRAINT ");
    ReadsAsLower(c, "PROJECTION", "projection", "PROJECTION ");
    PrimaryKeyReads(c);
  }

  lemma ClauseByPrefix(c: Column)
    requires IsColumn(c)
    ensures IsTableLevelClause(EntryOf(c)) <==>
      || HasPrefixFold(EntryOf(c), "INDEX ") || HasPrefixFold(EntryOf(c), "PRIMARY KEY")
      || HasPrefixFold(EntryOf(c), "CONSTRAINT ") || HasPrefixFold(EntryOf(c), "PROJECTION ")
  {
    EntryReads(c);
  }

  lemma ReadsAsLower(c: Column, keyword: string, lower: string, prefix: string)
    requires IsColumn(c) && (forall i :: 0 <= i < |keyword| ==> 'A' <= keyword[i] <= 'Z')
    requires SameLetters(keyword, lower) && prefix == keyword + " "
    ensures HasPrefixFold(EntryOf(c), prefix) <==> SameLetters(c.name, lower)
  {
    ReadsAs(c, keyword);
    LowerKeyword(c.name, keyword, lower);
  }

  lemma LowerKeyword(name: string, keyword: string, lower: string)
    requires SameLetters(keyword, lower)
    ensures SameLetters(name, keyword) <==> SameLetters(name, lower)
  {
  }

  lemma PrimaryKeyReads(c: Column)
    requires IsColumn(c)
    ensures HasPrefixFold(EntryOf(c), "PRIMARY KEY") <==>
      SameLetters(c.name, "primary") && |c.definition| >= 3 && SameLetters(c.definition[..3], "key")
  {
    var e, prefix := EntryOf(c), "PRIMARY KEY";
    assert prefix[..7] == "PRIMARY" && prefix[7] == ' ' && prefix[8..] == "KEY";
    WordBeforeSpace(c, prefix, 7);
    LowerKeyword(c.name, "PRIMARY", "primary");
    if |c.name| == 7 {
      forall i | 0 <= i < 7 ensures Upper(e[i]) == Upper(prefix[i]) <==> Lower(c.name[i]) == Lower("PRIMARY"[i]) {
        assert prefix[i] == prefix[..7][i];
        UpperIsLower(c.name[i], "PRIMARY"[i]);
      }
      assert e[7] == ' ';
      if |c.definition| >= 3 {
        forall i | 0 <= i < 3
          ensures Upper(e[8 + i]) == Upper(prefix[8 + i]) <==> Lower(c.definition[..3][i]) == Lower("key"[i])
        {
          assert e[8 + i] == c.definition[i] && prefix[8 + i] == prefix[8..][i];
          UpperIsLower(c.definition[i], "KEY"[i]);
          assert Lower("KEY"[i]) == Lower("key"[i]);
        }
      }
    }
  }

  // ---------------------------------------------------------------------------
  // Malformed tables
  // ---------------------------------------------------------------------------

  lemma {:induction false} NoParen(s: string, i: nat)
    requires i <= |s| && forall k :: i <= k < |s| ==> s[k] != '('
    ensures IndexOfParen(s, i) == |s|
    decreases |s| - i
  {
    if i < |s| { NoParen(s, i + 1); }
  }

  lemma NameBeforeBlank(name: string, tail: string)
    requires IsWord(name) && IsTrimmed("x" + tail) && tail != ""
    ensures FirstIdentifier(name + (" " + tail)) == name && IsTrimmed(name + (" " + tail))
  {
    var rest := name + (" " + tail);
    WordIsBare(name);
    TrimNothing(rest);
    assert rest[..|name|] == name;
    WordReads(rest, name, 0, true);
  }

  lemma NameHasNoParen(name: string, tail: string)
    requires IsWord(name) && forall k :: 0 <= k < |tail| ==> tail[k] != '('
    ensures IndexOfParen(name + (" " + tail), 0) == |name + (" " + tail)|
  {
    NoParen(name + (" " + tail), 0);
  }

  lemma NoBlockIsError(stmt: string, rest: string, r: Result<TableDef, string>)
    requires AfterKeywords(stmt) == rest && FirstIdentifier(rest) != "" && IndexOfParen(rest, 0) == |rest|
    requires Declares(stmt, r)
    ensures r.Err?
  {
  }

  /** A table without a column block is an error. */
  lemma BlockIsNeeded(stmt: string, name: string, tail: string, r: Result<TableDef, string>)
    requires IsWord(name) && IsTrimmed("x" + tail) && tail != "" && forall k :: 0 <= k < |tail| ==> tail[k] != '('
    requires stmt == Statement(name + (" " + tail)) && Declares(stmt, r)
    ensures r.Err?
  {
    var rest := name + (" " + tail);
    assert FirstIdentifier(rest) == name && IsTrimmed(rest) by {
      NameBeforeBlank(name, tail);
    }
    assert AfterKeywords(stmt) == rest by {
      KeywordsStripped(rest);
    }
    NameHasNoParen(name, tail);
    NoBlockIsError(stmt, rest, r);
  }

  lemma {:induction false} WordStops(s: string, word: string, i: nat)
    requires IsWord(word) && i <= |word| < |s| && s[..|word|] == word && s[|word|] in {' ', '\t', '\n', '\r', '('}
    ensures WordEnd(s, i, true) == |word|
    decreases |word| - i
  {
    if i < |word| {
      assert s[i] == word[i];
      WordStops(s, word, i + 1);
    }
  }

  /** A table's name ends at the first blank, tab, line break or opening parenthesis. */
  lemma NameStops(name: string, stop: char, tail: string)
    requires IsWord(name) && stop in {' ', '\t', '\n', '\r', '('} && IsTrimmed("x" + tail) && tail != ""
    ensures FirstIdentifier(name + ([stop] + tail)) == name
  {
    var rest := name + ([stop] + tail);
    WordIsBare(name);
    TrimNothing(rest);
    assert rest[..|name|] == name;
    WordStops(rest, name, 0);
  }

  /** An entry that is blank declares no column. */
  lemma BlankEntryIsSkipped(columns: map<string, string>, blank: string)
    requires SqlSplit.Trim(blank) == ""
    ensures WithEntry(columns, blank) == columns
  {
  }

  /** A table without a name declares nothing, and is no error. */
  lemma NamelessIsNothing(stmt: string, tail: string)
    requires IsTrimmed("(" + tail) && stmt == Statement("(" + tail)
    ensures Declares(stmt, Ok(NoName))
  {
    var rest := "(" + tail;
    KeywordsStripped(rest);
    TrimNothing(rest);
    assert rest[..0] == "" && FirstIdentifier(rest) == StripBackticks("");
  }

  lemma NeverCloses(s: string, open: nat, j: nat)
    requires forall k :: 0 <= k < |s| ==> s[k] != ')'
    ensures !ClosesAt(s, open, j)
  {
  }

  /** A table whose column block never closes is an error. */
  lemma BlockMustClose(stmt: string, rest: string, r: Result<TableDef, string>)
    requires IsTrimmed(rest) && (forall k :: 0 <= k < |rest| ==> rest[k] != ')') && FirstIdentifier(rest) != ""
    requires stmt == Statement(rest) && Declares(stmt, r)
    ensures r.Err?
  {
    KeywordsStripped(rest);
    forall j: nat ensures !ClosesAt(rest, IndexOfParen(rest, 0), j) {
      NeverCloses(rest, IndexOfParen(rest, 0), j);
    }
  }

  // ---------------------------------------------------------------------------
  // Views and other statements
  // ---------------------------------------------------------------------------

  /** A materialized view is declared under its name, whatever it selects. */
  lemma ViewIsDeclared(before: Desired, name: string, tail: string)
    requires IsWord(name) && IsTrimmed("x" + tail) && tail != ""
    ensures With(before, "CREATE MATERIALIZED VIEW" + (" " + ("IF NOT EXISTS" + (" " + (name + (" " + tail))))))
      == Some(before.(views := before.views + {name}))
  {
    var rest := name + (" " + tail);
    NameBeforeBlank(name, tail);
    PhrasesStripped("CREATE MATERIALIZED VIEW", "IF NOT EXISTS", rest);
    PrefixInAnyCase("CREATE MATERIALIZED VIEW", "CREATE MATERIALIZED VIEW", " " + ("IF NOT EXISTS" + (" " + rest)));
    TrimNothing(rest);
  }

  lemma StartsWithCreate(stmt: string, keywords: string)
    requires HasPrefixFold(stmt, keywords) && |keywords| >= 6 && keywords[..6] == "CREATE"
    ensures |stmt| >= 6 && SameLetters(stmt[..6], "create")
  {
    forall i | 0 <= i < 6 ensures Lower(stmt[..6][i]) == Lower("create"[i]) {
      assert keywords[i] == keywords[..6][i] == "CREATE"[i];
      UpperIsLower(stmt[i], "CREATE"[i]);
      assert Lower("CREATE"[i]) == Lower("create"[i]);
    }
  }

  /** Only statements that start with CREATE declare anything. */
  lemma OnlyCreateDeclares(before: Desired, stmt: string)
    ensures With(before, stmt) != Some(before) ==> |stmt| >= 6 && SameLetters(stmt[..6], "create")
  {
    if HasPrefixFold(stmt, "CREATE MATERIALIZED VIEW") {
      StartsWithCreate(stmt, "CREATE MATERIALIZED VIEW");
    } else if HasPrefixFold(stmt, "CREATE TABLE") {
      StartsWithCreate(stmt, "CREATE TABLE");
    }
  }
}
