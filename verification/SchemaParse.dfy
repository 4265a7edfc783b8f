/**
 * Reading CREATE TABLE statements: splitTopLevelCommas, extractMatchingParen and
 * parseCreateTable in internal/clickhouse/schema_reconcile.go.
 */
module SchemaParse {
  import opened Wrappers
  import SqlSplit

  // ---------------------------------------------------------------------------
  // Parenthesis depth
  // ---------------------------------------------------------------------------

  function Step(c: char): int {
    if c == '(' then 1 else if c == ')' then -1 else 0
  }

  function Depth(s: string): int {
    if s == "" then 0 else Depth(s[..|s| - 1]) + Step(s[|s| - 1])
  }

  lemma {:induction false} DepthCat(a: string, b: string)
    ensures Depth(a + b) == Depth(a) + Depth(b)
    decreases |b|
  {
    if b == "" {
      assert a + b == a;
    } else {
      assert (a + b)[..|a + b| - 1] == a + b[..|b| - 1];
      DepthCat(a, b[..|b| - 1]);
    }
  }

  /** Every closing parenthesis has its opening one before it, and all are closed. */
  predicate Balanced(s: string) {
    Depth(s) == 0 && forall i :: 0 <= i <= |s| ==> Depth(s[..i]) >= 0
  }

  // ---------------------------------------------------------------------------
  // Matching parenthesis
  // ---------------------------------------------------------------------------

  /** Position j holds the ')' at which the depth, counted from `open`, first returns to zero. */
  predicate ClosesAt(s: string, open: nat, j: nat) {
    && open < j < |s| && s[j] == ')' && Depth(s[open..j + 1]) == 0
    && forall i :: open < i <= j ==> Depth(s[open..i]) > 0
  }

  method ExtractMatchingParen(s: string, open: nat) returns (block: string, ok: bool)
    requires open < |s| && s[open] == '('
    ensures ok ==> exists j: nat :: ClosesAt(s, open, j) && block == s[open + 1..j] && Balanced(block)
    ensures !ok ==> block == "" && forall j: nat :: !ClosesAt(s, open, j)
  {
    var depth := 0;
    var i := open;
    while i < |s|
      invariant open <= i <= |s| && depth == Depth(s[open..i])
      invariant forall k :: open < k <= i ==> Depth(s[open..k]) > 0
    {
      assert s[open..i + 1][..i - open] == s[open..i];
      if s[i] == '(' {
        depth := depth + 1;
      } else if s[i] == ')' {
        depth := depth - 1;
        if depth == 0 {
          assert ClosesAt(s, open, i);
          BlockIsBalanced(s, open, i);
          return s[open + 1..i], true;
        }
      }
      i := i + 1;
    }
    forall j: nat ensures !ClosesAt(s, open, j) {
      if open < j < |s| {
        assert Depth(s[open..j + 1]) > 0;
      }
    }
    return "", false;
  }

  lemma BlockIsBalanced(s: string, open: nat, j: nat)
    requires ClosesAt(s, open, j) && s[open] == '('
    ensures Balanced(s[open + 1..j])
  {
    var block := s[open + 1..j];
    forall i | 0 <= i <= |block| ensures Depth(block[..i]) == Depth(s[open..open + 1 + i]) - 1 {
      assert s[open..open + 1 + i] == "(" + block[..i];
      DepthCat("(", block[..i]);
      assert Depth("(") == 1 by { assert "("[..0] == ""; }
    }
    assert block[..|block|] == block;
    assert s[open..j + 1][..j - open] == s[open..j];
  }

  /** The matching parenthesis is unique. */
  lemma ClosesOnce(s: string, open: nat, i: nat, j: nat)
    requires ClosesAt(s, open, i) && ClosesAt(s, open, j)
    ensures i == j
  {
  }

  // ---------------------------------------------------------------------------
  // Top-level commas
  // ---------------------------------------------------------------------------

  function Join(parts: seq<string>): string
    requires parts != []
  {
    if |parts| == 1 then parts[0] else Join(parts[..|parts| - 1]) + "," + parts[|parts| - 1]
  }

  /** The comma at i is outside all parentheses. */
  predicate TopLevelComma(s: string, i: nat) {
    i < |s| && s[i] == ',' && Depth(s[..i]) == 0
  }

  /** No comma of the piece is outside parentheses. */
  predicate NoTopLevelComma(piece: string) {
    forall i :: 0 <= i < |piece| ==> !TopLevelComma(piece, i)
  }

  /**
   * Joining the pieces with commas restores the input, every piece but the last
   * closes its parentheses, and no piece has a comma outside parentheses.
   */
  ghost predicate SplitsInto(s: string, parts: seq<string>) {
    && parts != [] && Join(parts) == s
    && (forall k :: 0 <= k < |parts| ==> NoTopLevelComma(parts[k]))
    && (forall k :: 0 <= k < |parts| - 1 ==> Depth(parts[k]) == 0)
  }

  lemma SliceGrows(s: string, i: nat, j: nat)
    requires i <= j < |s|
    ensures s[i..j + 1] == s[i..j] + [s[j]]
  {
  }

  method SplitTopLevelCommas(s: string) returns (parts: seq<string>)
    ensures SplitsInto(s, parts)
  {
    parts := [];
    var depth, start := 0, 0;
    assert SplitsInto("", [""]);
    for i := 0 to |s|
      invariant 0 <= start <= i
      invariant depth == Depth(s[start..i])
      invariant SplitsInto(s[..i], parts + [s[start..i]])
    {
      var c := s[i];
      if c == ',' && depth == 0 {
        StartPiece(s[..i], parts + [s[start..i]]);
        parts := parts + [s[start..i]];
        start := i + 1;
        SliceGrows(s, 0, i);
      } else {
        GrowPiece(s[..i], parts, s[start..i], c);
        SliceGrows(s, 0, i);
        SliceGrows(s, start, i);
        if c == '(' {
          depth := depth + 1;
        } else if c == ')' {
          depth := depth - 1;
        }
      }
    }
    assert s[..|s|] == s;
    parts := parts + [s[start..]];
  }

  lemma StartPiece(s: string, parts: seq<string>)
    requires SplitsInto(s, parts) && Depth(parts[|parts| - 1]) == 0
    ensures SplitsInto(s + ",", parts + [""])
  {
    assert (parts + [""])[..|parts|] == parts;
    assert s + "," + "" == s + ",";
  }

  lemma GrowPiece(s: string, parts: seq<string>, piece: string, c: char)
    requires SplitsInto(s, parts + [piece]) && !(c == ',' && Depth(piece) == 0)
    ensures SplitsInto(s + [c], parts + [piece + [c]])
    ensures NoTopLevelComma(piece + [c]) && Depth(piece + [c]) == Depth(piece) + Step(c)
  {
    var grown := piece + [c];
    assert grown[..|piece|] == piece;
    forall i | 0 <= i < |grown| ensures !TopLevelComma(grown, i) {
      if i < |piece| {
        assert grown[..i] == piece[..i];
        assert NoTopLevelComma((parts + [piece])[|parts|]);
        assert !TopLevelComma(piece, i);
      }
    }
    var before, after := parts + [piece], parts + [grown];
    assert before[..|parts|] == parts && after[..|parts|] == parts;
    if parts != [] {
      assert Join(after) == Join(parts) + "," + grown;
      assert Join(before) + [c] == Join(after);
    }
    forall k | 0 <= k < |after| ensures NoTopLevelComma(after[k]) {
      if k < |parts| { assert NoTopLevelComma(before[k]); }
    }
    forall k | 0 <= k < |after| - 1 ensures Depth(after[k]) == 0 {
      assert Depth(before[k]) == 0;
    }
  }

  function JoinFront(parts: seq<string>): string
    requires parts != []
  {
    if |parts| == 1 then parts[0] else parts[0] + ("," + JoinFront(parts[1..]))
  }

  /** The first part comes off a join as the last one does. */
  lemma {:induction false} FirstOfJoin(parts: seq<string>)
    requires |parts| > 1
    ensures Join(parts) == parts[0] + ("," + Join(parts[1..]))
    decreases |parts|
  {
    var front, last := parts[..|parts| - 1], parts[|parts| - 1];
    if |parts| == 2 {
      assert parts[1..] == [last] && front == [parts[0]];
      assert parts[0] + "," + last == parts[0] + ("," + last);
    } else {
      FirstOfJoin(front);
      assert parts[1..][..|parts| - 2] == front[1..];
      Regroup(parts[0], Join(front[1..]), last);
    }
  }

  lemma Regroup(first: string, middle: string, last: string)
    ensures (first + ("," + middle)) + "," + last == first + ("," + (middle + "," + last))
  {
  }

  lemma {:induction false} JoinBothWays(parts: seq<string>)
    requires parts != []
    ensures Join(parts) == JoinFront(parts)
    decreases |parts|
  {
    if |parts| > 1 {
      FirstOfJoin(parts);
      JoinBothWays(parts[1..]);
    }
  }

  /** Where the first piece of a split ends, and what follows it. */
  lemma FirstPiece(s: string, parts: seq<string>)
    requires SplitsInto(s, parts)
    ensures |parts[0]| <= |s| && s[..|parts[0]|] == parts[0]
    ensures forall i :: 0 <= i < |parts[0]| ==> !TopLevelComma(s, i)
    ensures |parts| == 1 ==> parts[0] == s
    ensures |parts| > 1 ==> TopLevelComma(s, |parts[0]|) && SplitsInto(s[|parts[0]| + 1..], parts[1..])
  {
    JoinBothWays(parts);
    var first := parts[0];
    assert NoTopLevelComma(first);
    if |parts| > 1 {
      var rest := parts[1..];
      JoinBothWays(rest);
      assert s == first + ("," + JoinFront(rest));
      assert s[..|first|] == first && s[|first| + 1..] == JoinFront(rest);
      assert Depth(first) == 0;
      forall k | 0 <= k < |rest| ensures NoTopLevelComma(rest[k]) {
        assert NoTopLevelComma(parts[k + 1]);
      }
      forall k | 0 <= k < |rest| - 1 ensures Depth(rest[k]) == 0 {
        assert Depth(parts[k + 1]) == 0;
      }
    }
    forall i | 0 <= i < |first| ensures !TopLevelComma(s, i) {
      assert s[..i] == first[..i] && s[i] == first[i];
      assert !TopLevelComma(first, i);
    }
  }

  /** The split of a string at its top-level commas is unique. */
  lemma {:induction false} SplitUnique(s: string, p: seq<string>, q: seq<string>)
    requires SplitsInto(s, p) && SplitsInto(s, q)
    ensures p == q
    decreases |s|
  {
    FirstPiece(s, p);
    FirstPiece(s, q);
    assert |p[0]| == |q[0]|;
    if |p| > 1 {
      SplitUnique(s[|p[0]| + 1..], p[1..], q[1..]);
      assert p == [p[0]] + p[1..] && q == [q[0]] + q[1..];
    }
  }

  // ---------------------------------------------------------------------------
  // CREATE TABLE
  // ---------------------------------------------------------------------------

  function Upper(c: char): char {
    if 'a' <= c <= 'z' then ((c as int) - 32) as char else c
  }

  predicate HasPrefixFold(s: string, prefix: string) {
    |s| >= |prefix| && forall i :: 0 <= i < |prefix| ==> Upper(s[i]) == Upper(prefix[i])
  }

  function StripPrefixFold(s: string, prefix: string): string {
    if HasPrefixFold(s, prefix) then s[|prefix|..] else s
  }

  predicate IsBlank(c: char) {
    c == ' ' || c == '\t' || c == '\n' || c == '\r'
  }

  function TrimTicksLeft(s: string): string {
    if s != "" && s[0] == '`' then TrimTicksLeft(s[1..]) else s
  }

  function TrimTicksRight(s: string): string {
    if s != "" && s[|s| - 1] == '`' then TrimTicksRight(s[..|s| - 1]) else s
  }

  function StripBackticks(s: string): string {
    TrimTicksRight(TrimTicksLeft(SqlSplit.Trim(s)))
  }

  /** The first position at or after i where a word ends. */
  function WordEnd(s: string, i: nat, parenEnds: bool): (end: nat)
    requires i <= |s|
    ensures i <= end <= |s|
    decreases |s| - i
  {
    if i == |s| || IsBlank(s[i]) || (parenEnds && s[i] == '(') then i else WordEnd(s, i + 1, parenEnds)
  }

  function FirstIdentifier(s: string): string {
    var t := SqlSplit.Trim(s);
    StripBackticks(t[..WordEnd(t, 0, true)])
  }

  function FirstWhitespaceToken(entry: string): string {
    var t := SqlSplit.Trim(entry);
    t[..WordEnd(t, 0, false)]
  }

  predicate IsTableLevelClause(entry: string) {
    var t := SqlSplit.Trim(entry);
    HasPrefixFold(t, "INDEX ") || HasPrefixFold(t, "PRIMARY KEY") || HasPrefixFold(t, "CONSTRAINT ")
      || HasPrefixFold(t, "PROJECTION ")
  }

  function IndexOfParen(s: string, i: nat): (open: nat)
    requires i <= |s|
    ensures i <= open <= |s|
    decreases |s| - i
  {
    if i == |s| || s[i] == '(' then i else IndexOfParen(s, i + 1)
  }

  datatype TableDef = NoName | TableDef(name: string, columns: map<string, string>)

  /** The columns once one more entry of the block is read. */
  function WithEntry(columns: map<string, string>, part: string): map<string, string> {
    var entry := SqlSplit.Trim(part);
    if entry == "" || IsTableLevelClause(entry) || FirstWhitespaceToken(entry) == "" then columns
    else columns[StripBackticks(FirstWhitespaceToken(entry)) := entry]
  }

  /** The columns that a list of entries declares; a later entry for a name wins. */
  function ColumnsOf(entries: seq<string>): map<string, string> {
    if entries == [] then map[]
    else WithEntry(ColumnsOf(entries[..|entries| - 1]), entries[|entries| - 1])
  }

  function AfterKeywords(stmt: string): string {
    SqlSplit.Trim(StripPrefixFold(SqlSplit.Trim(StripPrefixFold(stmt, "CREATE TABLE")), "IF NOT EXISTS"))
  }

  /** What the statement declares: its name, and the columns of the first balanced block. */
  ghost predicate Declares(stmt: string, r: Result<TableDef, string>) {
    var rest := AfterKeywords(stmt);
    var name, open := FirstIdentifier(rest), IndexOfParen(rest, 0);
    if name == "" then r == Ok(NoName)
    else if open == |rest| || (forall j: nat :: !ClosesAt(rest, open, j)) then r.Err?
    else exists j: nat, parts ::
      ClosesAt(rest, open, j) && SplitsInto(rest[open + 1..j], parts) && r == Ok(TableDef(name, ColumnsOf(parts)))
  }

  method ParseCreateTable(stmt: string) returns (r: Result<TableDef, string>)
    ensures Declares(stmt, r)
  {
    var rest := AfterKeywords(stmt);
    var name := FirstIdentifier(rest);
    if name == "" {
      return Ok(NoName);
    }
    var open := IndexOfParen(rest, 0);
    if open == |rest| {
      return Err("no column block");
    }
    ParenFound(rest, 0);
    var block, ok := ExtractMatchingParen(rest, open);
    if !ok {
      return Err("unbalanced parentheses in column block");
    }
    var parts := SplitTopLevelCommas(block);
    var columns := ReadColumns(parts);
    r := Ok(TableDef(name, columns));
    ghost var j: nat :| ClosesAt(rest, open, j) && block == rest[open + 1..j];
    DeclaresTable(stmt, j, parts);
  }

  lemma DeclaresTable(stmt: string, j: nat, parts: seq<string>)
    requires FirstIdentifier(AfterKeywords(stmt)) != ""
    requires ClosesAt(AfterKeywords(stmt), IndexOfParen(AfterKeywords(stmt), 0), j)
    requires SplitsInto(AfterKeywords(stmt)[IndexOfParen(AfterKeywords(stmt), 0) + 1..j], parts)
    ensures Declares(stmt, Ok(TableDef(FirstIdentifier(AfterKeywords(stmt)), ColumnsOf(parts))))
  {
  }

  method ReadColumns(parts: seq<string>) returns (columns: map<string, string>)
    ensures columns == ColumnsOf(parts)
  {
    columns := map[];
    for i := 0 to |parts|
      invariant columns == ColumnsOf(parts[..i])
    {
      assert parts[..i + 1][..i] == parts[..i];
      var entry := SqlSplit.Trim(parts[i]);
      if entry == "" || IsTableLevelClause(entry) {
        continue;
      }
      var colName := FirstWhitespaceToken(entry);
      if colName == "" {
        continue;
      }
      columns := columns[StripBackticks(colName) := entry];
    }
    assert parts[..|parts|] == parts;
  }

  lemma {:induction false} ParenFound(s: string, i: nat)
    requires i <= |s|
    ensures IndexOfParen(s, i) < |s| ==> s[IndexOfParen(s, i)] == '('
    decreases |s| - i
  {
    if i < |s| && s[i] != '(' { ParenFound(s, i + 1); }
  }

  /** A statement declares one thing only. */
  lemma DeclaresOnce(stmt: string, a: Result<TableDef, string>, b: Result<TableDef, string>)
    requires Declares(stmt, a) && Declares(stmt, b)
    ensures a == b || (a.Err? && b.Err?)
  {
    var rest := AfterKeywords(stmt);
    var name, open := FirstIdentifier(rest), IndexOfParen(rest, 0);
    if name != "" && a.Ok? {
      var j: nat, p :| ClosesAt(rest, open, j) && SplitsInto(rest[open + 1..j], p)
        && a == Ok(TableDef(name, ColumnsOf(p)));
      var k: nat, q :| ClosesAt(rest, open, k) && SplitsInto(rest[open + 1..k], q)
        && b == Ok(TableDef(name, ColumnsOf(q)));
      ClosesOnce(rest, open, j, k);
      SplitUnique(rest[open + 1..j], p, q);
    }
  }

  // ---------------------------------------------------------------------------
  // Printing a table and reading it back
  // ---------------------------------------------------------------------------

  datatype Column = Column(name: string, definition: string)

  predicate IsWordChar(c: char) {
    'a' <= c <= 'z' || 'A' <= c <= 'Z' || '0' <= c <= '9' || c == '_'
  }

  predicate IsWord(s: string) {
    s != "" && forall i :: 0 <= i < |s| ==> IsWordChar(s[i])
  }

  /** A type expression: trimmed, with balanced parentheses and no comma outside them. */
  predicate IsType(s: string) {
    s != "" && !SqlSplit.IsSpace(s[0]) && !SqlSplit.IsSpace(s[|s| - 1]) && Balanced(s) && NoTopLevelComma(s)
  }

  predicate IsColumn(c: Column) {
    IsWord(c.name) && IsType(c.definition)
  }

  function EntryOf(c: Column): string {
    c.name + " " + c.definition
  }

  function Entries(columns: seq<Column>): seq<string> {
    seq(|columns|, i requires 0 <= i < |columns| => EntryOf(columns[i]))
  }

  function Statement(rest: string): string {
    "CREATE TABLE" + (" " + ("IF NOT EXISTS" + (" " + rest)))
  }

  function Print(name: string, columns: seq<Column>, suffix: string): string
    requires columns != []
  {
    Statement(name + (" (" + (Join(Entries(columns)) + (")" + suffix))))
  }

  ghost predicate IsTable(name: string, columns: seq<Column>, suffix: string) {
    && IsWord(name) && columns != [] && (forall c :: c in columns ==> IsColumn(c))
    && DistinctNames(columns)
    && (suffix != "" ==> !SqlSplit.IsSpace(suffix[|suffix| - 1]))
  }

  lemma TrimNothing(x: string)
    requires x != "" && !SqlSplit.IsSpace(x[0]) && !SqlSplit.IsSpace(x[|x| - 1])
    ensures SqlSplit.Trim(x) == x && SqlSplit.Trim(" " + x) == x
  {
    assert (" " + x)[1..] == x;
  }

  lemma {:induction false} WordReads(s: string, word: string, i: nat, parenEnds: bool)
    requires IsWord(word) && i <= |word| < |s| && s[..|word|] == word && IsBlank(s[|word|])
    ensures WordEnd(s, i, parenEnds) == |word|
    decreases |word| - i
  {
    if i < |word| {
      assert s[i] == word[i];
      WordReads(s, word, i + 1, parenEnds);
    }
  }

  lemma WordIsBare(word: string)
    requires IsWord(word)
    ensures StripBackticks(word) == word && !SqlSplit.IsSpace(word[0])
  {
    TrimNothing(word);
  }

  lemma {:induction false} SkipsToParen(s: string, i: nat, open: nat)
    requires i <= open < |s| && s[open] == '(' && forall k :: i <= k < open ==> s[k] != '('
    ensures IndexOfParen(s, i) == open
    decreases open - i
  {
    if i < open { SkipsToParen(s, i + 1, open); }
  }

  lemma WordDepth(word: string)
    requires forall i :: 0 <= i < |word| ==> IsWordChar(word[i]) || word[i] == ' '
    ensures Depth(word) == 0
    decreases |word|
  {
    if word != "" { WordDepth(word[..|word| - 1]); }
  }

  /** An entry is trimmed and starts with its column's name. */
  lemma EntryReads(c: Column)
    requires IsColumn(c)
    ensures var e := EntryOf(c);
      && e != "" && !SqlSplit.IsSpace(e[0]) && !SqlSplit.IsSpace(e[|e| - 1]) && SqlSplit.Trim(e) == e
      && FirstWhitespaceToken(e) == c.name && StripBackticks(c.name) == c.name
  {
    var e := EntryOf(c);
    WordIsBare(c.name);
    TrimNothing(e);
    assert e[..|c.name|] == c.name;
    WordReads(e, c.name, 0, false);
  }

  lemma EntryDepth(c: Column, i: nat)
    requires IsColumn(c) && i <= |EntryOf(c)|
    ensures var head := |c.name| + 1;
      Depth(EntryOf(c)[..i]) == if i <= head then 0 else Depth(c.definition[..i - head])
  {
    var e, head := EntryOf(c), c.name + " ";
    if i <= |head| {
      assert e[..i] == head[..i];
      WordDepth(head[..i]);
    } else {
      assert e[..i] == head + c.definition[..i - |head|];
      WordDepth(head);
      DepthCat(head, c.definition[..i - |head|]);
    }
  }

  /** An entry is balanced and has no comma outside parentheses. */
  lemma EntryIsPiece(c: Column)
    requires IsColumn(c)
    ensures Balanced(EntryOf(c)) && NoTopLevelComma(EntryOf(c))
  {
    var e, head := EntryOf(c), |c.name| + 1;
    forall i | 0 <= i <= |e| ensures Depth(e[..i]) == if i <= head then 0 else Depth(c.definition[..i - head]) {
      EntryDepth(c, i);
    }
    assert e[..|e|] == e && c.definition[..|c.definition|] == c.definition;
    forall i | 0 <= i < |e| ensures !TopLevelComma(e, i) {
      if i >= head {
        assert e[i] == c.definition[i - head];
        assert !TopLevelComma(c.definition, i - head);
      }
    }
  }

  lemma {:induction false} JoinIsBalanced(parts: seq<string>)
    requires parts != [] && forall k :: 0 <= k < |parts| ==> Balanced(parts[k])
    ensures Balanced(Join(parts))
    decreases |parts|
  {
    if |parts| > 1 {
      var front, last := parts[..|parts| - 1], parts[|parts| - 1];
      JoinIsBalanced(front);
      assert Join(parts) == (Join(front) + ",") + last;
      BalancedCat(Join(front), ",");
      BalancedCat(Join(front) + ",", last);
    }
  }

  lemma BalancedCat(a: string, b: string)
    requires Balanced(a) && (Balanced(b) || b == ",")
    ensures Balanced(a + b)
  {
    assert Depth(",") == 0 by { assert ","[..0] == ""; }
    DepthCat(a, b);
    forall i | 0 <= i <= |a + b| ensures Depth((a + b)[..i]) >= 0 {
      if i <= |a| {
        assert (a + b)[..i] == a[..i];
      } else {
        assert (a + b)[..i] == a + b[..i - |a|];
        DepthCat(a, b[..i - |a|]);
        if b == "," { assert b[..i - |a|] == ","; }
      }
    }
  }

  lemma StripsPrefix(prefix: string, x: string)
    ensures StripPrefixFold(prefix + x, prefix) == x
  {
    assert (prefix + x)[|prefix|..] == x;
  }

  lemma PhrasesStripped(first: string, second: string, rest: string)
    requires second != "" && !SqlSplit.IsSpace(second[0])
    requires rest != "" && !SqlSplit.IsSpace(rest[0]) && !SqlSplit.IsSpace(rest[|rest| - 1])
    ensures SqlSplit.Trim(StripPrefixFold(SqlSplit.Trim(
              StripPrefixFold(first + (" " + (second + (" " + rest))), first)), second)) == rest
  {
    var middle := second + (" " + rest);
    TrimNothing(rest);
    TrimNothing(middle);
    StripsPrefix(second, " " + rest);
    StripsPrefix(first, " " + middle);
  }

  /** The two keyword phrases come off the front of any trimmed text. */
  lemma KeywordsStripped(rest: string)
    requires rest != "" && !SqlSplit.IsSpace(rest[0]) && !SqlSplit.IsSpace(rest[|rest| - 1])
    ensures AfterKeywords(Statement(rest)) == rest
  {
    PhrasesStripped("CREATE TABLE", "IF NOT EXISTS", rest);
  }

  /** The text starts with the name, and its first parenthesis opens the block. */
  ghost predicate HasBlock(rest: string, name: string, block: string) {
    && |name| + 2 + |block| <= |rest|
    && FirstIdentifier(rest) == name && IndexOfParen(rest, 0) == |name| + 1
    && ClosesAt(rest, |name| + 1, |name| + 2 + |block|) && rest[|name| + 2..|name| + 2 + |block|] == block
  }

  /** A balanced block closes where its own parenthesis does. */
  lemma BlockCloses(rest: string, open: nat, block: string)
    requires open + 1 + |block| < |rest| && rest[open] == '(' && rest[open + 1 + |block|] == ')'
    requires Balanced(block) && rest[open + 1..open + 1 + |block|] == block
    ensures ClosesAt(rest, open, open + 1 + |block|)
  {
    var j := open + 1 + |block|;
    forall i | open < i <= j ensures Depth(rest[open..i]) == 1 + Depth(block[..i - open - 1]) {
      assert rest[open..i] == "(" + block[..i - open - 1];
      DepthCat("(", block[..i - open - 1]);
      assert Depth("(") == 1 by { assert "("[..0] == ""; }
    }
    assert block[..|block|] == block;
    assert rest[open..j + 1][..j + 1 - open - 1] == rest[open..j];
  }

  lemma NameReads(name: string, tail: string)
    requires IsWord(name) && tail != "" && !SqlSplit.IsSpace(tail[|tail| - 1])
    ensures FirstIdentifier(name + (" (" + tail)) == name
  {
    var rest := name + (" (" + tail);
    WordIsBare(name);
    TrimNothing(rest);
    assert rest[..|name|] == name;
    WordReads(rest, name, 0, true);
  }

  /** The column block of what is left is the printed entries. */
  lemma BlockFound(name: string, block: string, suffix: string)
    requires IsWord(name) && Balanced(block)
    requires suffix != "" ==> !SqlSplit.IsSpace(suffix[|suffix| - 1])
    ensures HasBlock(name + (" (" + (block + (")" + suffix))), name, block)
  {
    var tail := block + (")" + suffix);
    var rest := name + (" (" + tail);
    NameReads(name, tail);
    SkipsToParen(rest, 0, |name| + 1);
    assert rest[|name| + 2..|name| + 2 + |block|] == block;
    BlockCloses(rest, |name| + 1, block);
  }

  lemma EntryAdds(columns: map<string, string>, c: Column)
    requires IsColumn(c)
    ensures WithEntry(columns, EntryOf(c))
      == if IsTableLevelClause(EntryOf(c)) then columns else columns[c.name := EntryOf(c)]
  {
    EntryReads(c);
    assert c.name != "";
  }

  ghost predicate DistinctNames(columns: seq<Column>) {
    forall i, j :: 0 <= i < j < |columns| ==> columns[i].name != columns[j].name
  }

  /** Just the columns of the set come back, each with its entry. */
  ghost predicate Kept(columns: seq<Column>, kept: set<Column>, m: map<string, string>) {
    && (forall c :: c in columns && c in kept ==> c.name in m && m[c.name] == EntryOf(c))
    && (forall n :: n in m ==> exists c :: c in columns && c in kept && c.name == n)
  }

  ghost function Readable(columns: seq<Column>): set<Column> {
    set c | c in columns && !IsTableLevelClause(EntryOf(c))
  }

  lemma KeepsOne(front: seq<Column>, last: Column, kept: set<Column>, m: map<string, string>)
    requires DistinctNames(front + [last]) && Kept(front, kept - {last}, m)
    ensures last in kept ==> Kept(front + [last], kept, m[last.name := EntryOf(last)])
    ensures last !in kept ==> Kept(front + [last], kept, m)
  {
    assert (front + [last])[|front|] == last;
    forall c | c in front ensures c.name != last.name {
      var i :| 0 <= i < |front| && front[i] == c;
      assert (front + [last])[i] == c;
    }
  }

  /** The columns of printed entries: all those that do not read as a table-level clause. */
  lemma {:induction false} ColumnsOfEntries(columns: seq<Column>)
    requires (forall c :: c in columns ==> IsColumn(c)) && DistinctNames(columns)
    ensures Kept(columns, Readable(columns), ColumnsOf(Entries(columns)))
    decreases |columns|
  {
    if columns != [] {
      var front, last := columns[..|columns| - 1], columns[|columns| - 1];
      assert columns == front + [last];
      assert Entries(columns)[..|columns| - 1] == Entries(front);
      ColumnsOfEntries(front);
      EntryAdds(ColumnsOf(Entries(front)), last);
      LastIsNew(front, last);
      KeepsOne(front, last, Readable(columns), ColumnsOf(Entries(front)));
    }
  }

  lemma LastIsNew(front: seq<Column>, last: Column)
    requires DistinctNames(front + [last])
    ensures Readable(front + [last]) - {last} == Readable(front)
  {
    var all := front + [last];
    assert all[|front|] == last;
    assert forall i :: 0 <= i < |front| ==> all[i] == front[i];
    assert last !in front;
  }

  lemma EntriesSplit(columns: seq<Column>)
    requires columns != [] && forall c :: c in columns ==> IsColumn(c)
    ensures SplitsInto(Join(Entries(columns)), Entries(columns)) && Balanced(Join(Entries(columns)))
  {
    forall k | 0 <= k < |columns| ensures Balanced(Entries(columns)[k]) && NoTopLevelComma(Entries(columns)[k]) {
      assert columns[k] in columns;
      EntryIsPiece(columns[k]);
    }
    JoinIsBalanced(Entries(columns));
  }

  lemma StatementDeclares(rest: string, name: string, block: string, parts: seq<string>)
    requires rest != "" && !SqlSplit.IsSpace(rest[0]) && !SqlSplit.IsSpace(rest[|rest| - 1])
    requires name != "" && HasBlock(rest, name, block) && SplitsInto(block, parts)
    ensures Declares(Statement(rest), Ok(TableDef(name, ColumnsOf(parts))))
  {
    KeywordsStripped(rest);
    BlockDeclares(Statement(rest), rest, name, block, parts);
  }

  lemma BlockDeclares(stmt: string, rest: string, name: string, block: string, parts: seq<string>)
    requires AfterKeywords(stmt) == rest && name != "" && HasBlock(rest, name, block) && SplitsInto(block, parts)
    ensures Declares(stmt, Ok(TableDef(name, ColumnsOf(parts))))
  {
    DeclaresTable(stmt, |name| + 2 + |block|, parts);
  }

  /** What reading a printed table yields. */
  lemma PrintedDeclares(name: string, columns: seq<Column>, suffix: string)
    requires IsTable(name, columns, suffix)
    ensures Declares(Print(name, columns, suffix), Ok(TableDef(name, ColumnsOf(Entries(columns)))))
  {
    var block := Join(Entries(columns));
    EntriesSplit(columns);
    PrintedBlock(name, block, suffix, Entries(columns));
  }

  lemma PrintedBlock(name: string, block: string, suffix: string, parts: seq<string>)
    requires IsWord(name) && Balanced(block) && SplitsInto(block, parts)
    requires suffix != "" ==> !SqlSplit.IsSpace(suffix[|suffix| - 1])
    ensures Declares(Statement(name + (" (" + (block + (")" + suffix)))), Ok(TableDef(name, ColumnsOf(parts))))
  {
    var rest := name + (" (" + (block + (")" + suffix)));
    WordIsBare(name);
    BlockFound(name, block, suffix);
    StatementDeclares(rest, name, block, parts);
  }

  /** Reading a printed table has one result. */
  lemma PrintedReadsBack(name: string, columns: seq<Column>, suffix: string)
    requires IsTable(name, columns, suffix)
    ensures forall r :: Declares(Print(name, columns, suffix), r) ==>
      r == Ok(TableDef(name, ColumnsOf(Entries(columns))))
  {
    PrintedDeclares(name, columns, suffix);
    forall r | Declares(Print(name, columns, suffix), r) ensures r == Ok(TableDef(name, ColumnsOf(Entries(columns)))) {
      DeclaresOnce(Print(name, columns, suffix), r, Ok(TableDef(name, ColumnsOf(Entries(columns)))));
    }
  }

  /** Exactly the printed columns come back. */
  ghost predicate Recovered(r: Result<TableDef, string>, name: string, columns: seq<Column>) {
    && r.Ok? && r.value.TableDef? && r.value.name == name
    && (forall n :: n in r.value.columns <==> exists c :: c in columns && c.name == n)
    && (forall c :: c in columns && c.name in r.value.columns ==> r.value.columns[c.name] == EntryOf(c))
  }

  lemma RecoveredIffAllKept(name: string, columns: seq<Column>, kept: set<Column>, m: map<string, string>)
    requires DistinctNames(columns) && Kept(columns, kept, m)
    ensures Recovered(Ok(TableDef(name, m)), name, columns) <==> forall c :: c in columns ==> c in kept
  {
    if Recovered(Ok(TableDef(name, m)), name, columns) {
      forall c | c in columns ensures c in kept {
        assert c.name in m;
        var d :| d in columns && d in kept && d.name == c.name;
        assert d == c;
      }
    }
  }

  /**
   * Printing then parsing recovers the table exactly when no column reads as a
   * table-level clause: a column called `index`, `constraint` or `projection` is lost.
   */
  lemma RoundTripIff(name: string, columns: seq<Column>, suffix: string)
    requires IsTable(name, columns, suffix)
    ensures forall r :: Declares(Print(name, columns, suffix), r) ==>
      (Recovered(r, name, columns) <==> forall c :: c in columns ==> !IsTableLevelClause(EntryOf(c)))
  {
    ColumnsOfEntries(columns);
    RecoveredIffAllKept(name, columns, Readable(columns), ColumnsOf(Entries(columns)));
    PrintedReadsBack(name, columns, suffix);
  }

  lemma IndexDeclaresNothing()
    ensures ColumnsOf(Entries([Column("index", "UInt8")])) == map[]
  {
    var columns := [Column("index", "UInt8")];
    IndexIsColumn();
    IndexReadsAsClause();
    EntryAdds(map[], columns[0]);
    assert Entries(columns)[..0] == [];
  }

  lemma EmptyIsNotRecovered(name: string, columns: seq<Column>)
    requires columns != []
    ensures !Recovered(Ok(TableDef(name, map[])), name, columns)
  {
    var r: Result<TableDef, string> := Ok(TableDef(name, map[]));
    assert columns[0] in columns && columns[0].name !in r.value.columns;
  }

  lemma IndexReadsBack(columns: seq<Column>, r: Result<TableDef, string>)
    requires columns == [Column("index", "UInt8")] && Declares(Print("t", columns, ""), r)
    ensures r == Ok(TableDef("t", map[]))
  {
    IndexIsTable();
    PrintedReadsBack("t", columns, "");
    assert ColumnsOf(Entries(columns)) == map[] by { IndexDeclaresNothing(); }
  }

  /** A table whose one column is called `index` comes back without columns. */
  lemma IndexColumnIsLost(columns: seq<Column>, r: Result<TableDef, string>)
    requires columns == [Column("index", "UInt8")] && Declares(Print("t", columns, ""), r)
    ensures IsTable("t", columns, "") && r == Ok(TableDef("t", map[])) && !Recovered(r, "t", columns)
  {
    IndexIsTable();
    IndexReadsBack(columns, r);
    EmptyIsNotRecovered("t", columns);
  }

  lemma IndexIsTable()
    ensures IsTable("t", [Column("index", "UInt8")], "")
  {
    IndexIsColumn();
  }

  lemma IndexIsColumn()
    ensures IsColumn(Column("index", "UInt8"))
  {
    var t := "UInt8";
    forall i | 0 <= i <= |t| ensures Depth(t[..i]) == 0 {
      WordDepth(t[..i]);
    }
    assert t[..|t|] == t;
  }

  lemma IndexReadsAsClause()
    ensures IsTableLevelClause(EntryOf(Column("index", "UInt8")))
  {
    var entry := "index" + " " + "UInt8";
    assert entry == "index UInt8";
    TrimNothing(entry);
    assert HasPrefixFold(entry, "INDEX ");
  }
}
