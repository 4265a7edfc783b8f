/**
 * The migration splitter: splitSQLStatements in internal/clickhouse/sql.go. It cuts
 * a script at semicolons outside quotes and comments, and strips the comments.
 */
module SqlSplit {

  /** unicode.IsSpace, as strings.TrimSpace uses it. */
  predicate IsSpace(c: char) {
    '\t' <= c <= '\r' || c == ' ' || c == '\U{0085}' || c == '\U{00A0}' || c == '\U{1680}'
    || '\U{2000}' <= c <= '\U{200A}' || c == '\U{2028}' || c == '\U{2029}' || c == '\U{202F}'
    || c == '\U{205F}' || c == '\U{3000}'
  }

  function TrimLeft(s: string): string {
    if s != [] && IsSpace(s[0]) then TrimLeft(s[1..]) else s
  }

  function TrimRight(s: string): string {
    if s != [] && IsSpace(s[|s| - 1]) then TrimRight(s[..|s| - 1]) else s
  }

  function Trim(s: string): string {
    TrimRight(TrimLeft(s))
  }

  // ---------------------------------------------------------------------------
  // Lexical pieces
  // ---------------------------------------------------------------------------

  /** Where a single-quoted literal that opened before i ends; '' inside it is an escaped quote. */
  function QuoteEnd(s: string, i: nat): (end: nat)
    requires i <= |s|
    ensures i <= end <= |s|
    decreases |s| - i
  {
    if i == |s| then i
    else if s[i] != '\'' then QuoteEnd(s, i + 1)
    else if i + 1 < |s| && s[i + 1] == '\'' then QuoteEnd(s, i + 2)
    else i + 1
  }

  function TickEnd(s: string, i: nat): (end: nat)
    requires i <= |s|
    ensures i <= end <= |s|
    decreases |s| - i
  {
    if i == |s| then i else if s[i] == '`' then i + 1 else TickEnd(s, i + 1)
  }

  function LineEnd(s: string, i: nat): (end: nat)
    requires i <= |s|
    ensures i <= end <= |s|
    decreases |s| - i
  {
    if i == |s| || s[i] == '\n' then i else LineEnd(s, i + 1)
  }

  function BlockEnd(s: string, i: nat): (end: nat)
    requires i <= |s|
    ensures i <= end <= |s|
    decreases |s| - i
  {
    if i + 1 >= |s| then |s| else if s[i] == '*' && s[i + 1] == '/' then i + 2 else BlockEnd(s, i + 1)
  }

  datatype Kind = Quoted | Ticked | Comment | Semicolon | Plain

  function KindAt(s: string, i: nat): Kind
    requires i < |s|
  {
    if s[i] == '\'' then Quoted
    else if s[i] == '`' then Ticked
    else if s[i] == '-' && i + 1 < |s| && s[i + 1] == '-' then Comment
    else if s[i] == '/' && i + 1 < |s| && s[i + 1] == '*' then Comment
    else if s[i] == ';' then Semicolon
    else Plain
  }

  function EndAt(s: string, i: nat): (end: nat)
    requires i < |s|
    ensures i < end <= |s|
  {
    match KindAt(s, i)
    case Quoted => QuoteEnd(s, i + 1)
    case Ticked => TickEnd(s, i + 1)
    case Comment => if s[i] == '-' then LineEnd(s, i + 2) else BlockEnd(s, i + 2)
    case Semicolon => i + 1
    case Plain => i + 1
  }

  datatype Piece = Piece(kind: Kind, text: string)
  datatype Pieces = End | More(head: Piece, tail: Pieces)

  function PieceAt(s: string, i: nat): Piece
    requires i < |s|
  {
    Piece(KindAt(s, i), s[i..EndAt(s, i)])
  }

  /** The lexical pieces of the script from position i on. */
  function Lex(s: string, i: nat): Pieces
    requires i <= |s|
    decreases |s| - i
  {
    if i == |s| then End else More(PieceAt(s, i), Lex(s, EndAt(s, i)))
  }

  /** What a piece contributes to the statement being built. */
  function Emitted(p: Piece): string {
    if p.kind.Comment? then " " else p.text
  }

  function Flushed(statements: seq<string>, b: string): seq<string> {
    if Trim(b) != "" then statements + [Trim(b)] else statements
  }

  /** Gather pieces into b, and flush it at every semicolon and at the end. */
  function Group(ps: Pieces, b: string, statements: seq<string>): seq<string> {
    match ps
    case End => Flushed(statements, b)
    case More(p, rest) =>
      if p.kind.Semicolon? then Group(rest, "", Flushed(statements, b)) else Group(rest, b + Emitted(p), statements)
  }

  function Split(s: string): seq<string> {
    Group(Lex(s, 0), "", [])
  }

  /** Copy a quoted literal from its opening quote on. */
  method CopyQuoted(sql: string, start: nat, before: string) returns (i: nat, b: string)
    requires start < |sql|
    ensures i == QuoteEnd(sql, start + 1) && b == before + sql[start..i]
  {
    b := before + [sql[start]];
    i := start + 1;
    while i < |sql|
      invariant start < i <= |sql| && b == before + sql[start..i]
      invariant QuoteEnd(sql, start + 1) == QuoteEnd(sql, i)
    {
      b := b + [sql[i]];
      if sql[i] == '\'' {
        if i + 1 < |sql| && sql[i + 1] == '\'' {
          b := b + [sql[i + 1]];
          i := i + 2;
          continue;
        }
        i := i + 1;
        return;
      }
      i := i + 1;
    }
  }

  method CopyTicked(sql: string, start: nat, before: string) returns (i: nat, b: string)
    requires start < |sql|
    ensures i == TickEnd(sql, start + 1) && b == before + sql[start..i]
  {
    b := before + [sql[start]];
    i := start + 1;
    while i < |sql|
      invariant start < i <= |sql| && b == before + sql[start..i]
      invariant TickEnd(sql, start + 1) == TickEnd(sql, i)
    {
      b := b + [sql[i]];
      i := i + 1;
      if sql[i - 1] == '`' {
        return;
      }
    }
  }

  method SkipLine(sql: string, start: nat) returns (i: nat)
    requires start + 2 <= |sql|
    ensures i == LineEnd(sql, start + 2)
  {
    i := start + 2;
    while i < |sql| && sql[i] != '\n'
      invariant start < i <= |sql|
      invariant LineEnd(sql, start + 2) == LineEnd(sql, i)
    {
      i := i + 1;
    }
  }

  method SkipBlock(sql: string, start: nat) returns (i: nat)
    requires start + 2 <= |sql|
    ensures i == BlockEnd(sql, start + 2)
  {
    i := start + 2;
    while i + 1 < |sql| && !(sql[i] == '*' && sql[i + 1] == '/')
      invariant start < i <= |sql|
      invariant BlockEnd(sql, start + 2) == BlockEnd(sql, i)
    {
      i := i + 1;
    }
    i := if i + 2 > |sql| then |sql| else i + 2;
  }

  /** The splitter as the source writes it: one index, one buffer, a scan per kind of piece. */
  method SplitSQLStatements(sql: string) returns (statements: seq<string>)
    ensures statements == Split(sql)
  {
    statements := [];
    var b := "";
    var i := 0;
    while i < |sql|
      invariant 0 <= i <= |sql|
      invariant Split(sql) == Group(Lex(sql, i), b, statements)
    {
      var c := sql[i];
      assert Lex(sql, i) == More(PieceAt(sql, i), Lex(sql, EndAt(sql, i)));
      if c == '\'' {
        i, b := CopyQuoted(sql, i, b);
      } else if c == '`' {
        i, b := CopyTicked(sql, i, b);
      } else if c == '-' && i + 1 < |sql| && sql[i + 1] == '-' {
        i := SkipLine(sql, i);
        b := b + " ";
      } else if c == '/' && i + 1 < |sql| && sql[i + 1] == '*' {
        i := SkipBlock(sql, i);
        b := b + " ";
      } else if c == ';' {
        statements := Flushed(statements, b);
        b := "";
        i := i + 1;
      } else {
        assert sql[i..i + 1] == [c];
        b := b + [c];
        i := i + 1;
      }
    }
    statements := Flushed(statements, b);
  }

  // ---------------------------------------------------------------------------
  // Clean text: pieces that are neither comments nor semicolons
  // ---------------------------------------------------------------------------

  predicate QuoteClosed(s: string, i: nat)
    requires i <= |s|
    decreases |s| - i
  {
    i < |s| && if s[i] != '\'' then QuoteClosed(s, i + 1)
               else if i + 1 < |s| && s[i + 1] == '\'' then QuoteClosed(s, i + 2)
               else true
  }

  /** A piece that, taken alone, is one lexical piece of its kind. */
  predicate Good(p: Piece) {
    && p.text != []
    && match p.kind
       case Quoted => p.text[0] == '\'' && QuoteEnd(p.text, 1) == |p.text|
       case Ticked => p.text[0] == '`' && TickEnd(p.text, 1) == |p.text|
       case Plain => |p.text| == 1 && p.text[0] != '\'' && p.text[0] != '`' && p.text[0] != ';'
       case _ => false
  }

  /** The piece does not run on into whatever follows. */
  predicate Closed(p: Piece)
    requires Good(p)
  {
    match p.kind
    case Quoted => QuoteClosed(p.text, 1)
    case Ticked => |p.text| > 1 && p.text[|p.text| - 1] == '`'
    case _ => true
  }

  /** The next character does not change how the piece reads. */
  predicate Fits(p: Piece, next: char)
    requires Good(p)
  {
    && Closed(p)
    && (p.kind.Quoted? ==> next != '\'')
    && (p.kind.Plain? && p.text[0] == '-' ==> next != '-')
    && (p.kind.Plain? && p.text[0] == '/' ==> next != '*')
  }

  /** All pieces are good and none runs on into the next. */
  ghost predicate Clean(ps: Pieces) {
    match ps
    case End => true
    case More(p, rest) => Good(p) && Clean(rest) && (rest.More? ==> Fits(p, rest.head.text[0]))
  }

  function Render(ps: Pieces): string {
    match ps
    case End => ""
    case More(p, rest) => p.text + Render(rest)
  }

  /** The last piece is closed. */
  ghost predicate EndsClosed(ps: Pieces)
    requires Clean(ps)
  {
    match ps
    case End => true
    case More(p, rest) => if rest.End? then Closed(p) else EndsClosed(rest)
  }

  ghost predicate CleanText(x: string) {
    exists ps :: Clean(ps) && Render(ps) == x
  }

  /** Clean text whose quotes are all closed. */
  ghost predicate ClosedText(x: string) {
    exists ps :: Clean(ps) && Render(ps) == x && EndsClosed(ps)
  }

  /** A trimmed, non-empty text without comments and without semicolons outside quotes. */
  ghost predicate IsStatement(x: string) {
    x != "" && Trim(x) == x && CleanText(x)
  }

  // ---------------------------------------------------------------------------
  // Reading clean text back
  // ---------------------------------------------------------------------------

  lemma {:induction false} QuoteReads(s: string, i: nat, text: string, j: nat)
    requires i + |text| <= |s| && s[i..i + |text|] == text && j <= |text| && QuoteEnd(text, j) == |text|
    requires i + |text| == |s| || (QuoteClosed(text, j) && s[i + |text|] != '\'')
    ensures QuoteEnd(s, i + j) == i + |text|
    decreases |text| - j
  {
    if j < |text| {
      assert text[j] == s[i + j];
      if text[j] != '\'' {
        QuoteReads(s, i, text, j + 1);
      } else if j + 1 < |text| && text[j + 1] == '\'' {
        assert text[j + 1] == s[i + j + 1];
        QuoteReads(s, i, text, j + 2);
      }
    }
  }

  lemma {:induction false} TickReads(s: string, i: nat, text: string, j: nat)
    requires i + |text| <= |s| && s[i..i + |text|] == text && 0 < j <= |text| && TickEnd(text, j) == |text|
    requires i + |text| == |s| || (j < |text| && text[|text| - 1] == '`')
    ensures TickEnd(s, i + j) == i + |text|
    decreases |text| - j
  {
    if j < |text| {
      assert text[j] == s[i + j];
      if text[j] != '`' {
        TickReads(s, i, text, j + 1);
      }
    }
  }

  /** x stands in s at position i. */
  predicate Occurs(s: string, i: nat, x: string) {
    i + |x| <= |s| && s[i..i + |x|] == x
  }

  lemma OccursParts(s: string, i: nat, x: string, y: string)
    requires Occurs(s, i, x + y)
    ensures Occurs(s, i, x) && Occurs(s, i + |x|, y)
  {
    assert s[i..i + |x|] == (x + y)[..|x|];
    assert s[i + |x|..i + |x| + |y|] == (x + y)[|x|..];
  }

  /** A good piece followed by something it fits is read back as that piece. */
  lemma PieceReads(s: string, i: nat, p: Piece)
    requires Good(p) && Occurs(s, i, p.text)
    requires i + |p.text| == |s| || Fits(p, s[i + |p.text|])
    ensures KindAt(s, i) == p.kind && EndAt(s, i) == i + |p.text|
  {
    assert s[i] == p.text[0];
    match p.kind
    case Quoted => QuoteReads(s, i, p.text, 1);
    case Ticked => TickReads(s, i, p.text, 1);
    case _ =>
  }

  /** The text of the pieces may end at j: at the end of the script or before a semicolon. */
  ghost predicate EndsAt(s: string, j: nat, ps: Pieces)
    requires Clean(ps)
  {
    j == |s| || (j < |s| && s[j] == ';' && EndsClosed(ps))
  }

  function Append(ps: Pieces, more: Pieces): Pieces {
    match ps
    case End => more
    case More(p, rest) => More(p, Append(rest, more))
  }

  /** The first piece of clean text is read back as it is. */
  lemma FirstReads(s: string, i: nat, ps: Pieces, j: nat)
    requires Clean(ps) && ps.More? && Occurs(s, i, Render(ps)) && j == i + |Render(ps)| && EndsAt(s, j, ps)
    ensures EndsAt(s, j, ps.tail)
    ensures Occurs(s, i + |ps.head.text|, Render(ps.tail)) && j == i + |ps.head.text| + |Render(ps.tail)|
    ensures Lex(s, i) == More(ps.head, Lex(s, i + |ps.head.text|))
  {
    OccursParts(s, i, ps.head.text, Render(ps.tail));
    NextFits(s, i, ps, j);
    PieceReads(s, i, ps.head);
  }

  /** What follows the first piece does not change how it reads. */
  lemma NextFits(s: string, i: nat, ps: Pieces, j: nat)
    requires Clean(ps) && ps.More? && Occurs(s, i, Render(ps)) && j == i + |Render(ps)| && EndsAt(s, j, ps)
    ensures i + |ps.head.text| == |s| || Fits(ps.head, s[i + |ps.head.text|])
  {
    var p, rest := ps.head, ps.tail;
    OccursParts(s, i, p.text, Render(rest));
    if rest.More? {
      OccursParts(s, i + |p.text|, rest.head.text, Render(rest.tail));
      assert s[i + |p.text|] == rest.head.text[0];
    }
  }

  /** Clean text is read back as its own pieces. */
  lemma {:induction false} CleanReads(s: string, i: nat, ps: Pieces, j: nat)
    requires Clean(ps) && Occurs(s, i, Render(ps)) && j == i + |Render(ps)| && EndsAt(s, j, ps)
    ensures Lex(s, i) == Append(ps, Lex(s, j))
    decreases ps
  {
    if ps.More? {
      FirstReads(s, i, ps, j);
      CleanReads(s, i + |ps.head.text|, ps.tail, j);
    }
  }

  /** Clean pieces are gathered as they are. */
  lemma {:induction false} CleanGroups(ps: Pieces, more: Pieces, b: string, statements: seq<string>)
    requires Clean(ps)
    ensures Group(Append(ps, more), b, statements) == Group(more, b + Render(ps), statements)
    decreases ps
  {
    match ps
    case End =>
      assert b + "" == b;
    case More(p, rest) =>
      CleanGroups(rest, more, b + p.text, statements);
      assert b + Render(ps) == (b + p.text) + Render(rest);
  }

  // ---------------------------------------------------------------------------
  // What the splitter builds is clean
  // ---------------------------------------------------------------------------

  lemma {:induction false} QuoteCut(s: string, i: nat, j: nat)
    requires i < j <= |s|
    ensures var end := QuoteEnd(s, j);
      && QuoteEnd(s[i..end], j - i) == end - i
      && (end < |s| ==> QuoteClosed(s[i..end], j - i) && s[end] != '\'')
    decreases |s| - j
  {
    var end := QuoteEnd(s, j);
    if j < |s| {
      assert s[i..end][j - i] == s[j];
      if s[j] != '\'' {
        QuoteCut(s, i, j + 1);
      } else if j + 1 < |s| && s[j + 1] == '\'' {
        assert s[i..end][j + 1 - i] == s[j + 1];
        QuoteCut(s, i, j + 2);
      }
    }
  }

  lemma {:induction false} TickCut(s: string, i: nat, j: nat)
    requires i < j <= |s|
    ensures var end := TickEnd(s, j);
      && TickEnd(s[i..end], j - i) == end - i
      && (end < |s| ==> end > j && s[end - 1] == '`')
    decreases |s| - j
  {
    var end := TickEnd(s, j);
    if j < |s| {
      assert s[i..end][j - i] == s[j];
      if s[j] != '`' {
        TickCut(s, i, j + 1);
      }
    }
  }

  /** The pieces gathered so far, and the script that still follows, do not run into each other. */
  ghost predicate Seam(ps: Pieces, s: string, i: nat)
    requires Clean(ps) && i <= |s|
  {
    ps.More? && i < |s| ==> Good(Last(ps)) && Fits(Last(ps), s[i])
  }

  function Last(ps: Pieces): (p: Piece)
    requires ps.More?
  {
    if ps.tail.End? then ps.head else Last(ps.tail)
  }

  function Snoc(ps: Pieces, p: Piece): Pieces {
    match ps
    case End => More(p, End)
    case More(h, rest) => More(h, Snoc(rest, p))
  }

  lemma {:induction false} LastIsGood(ps: Pieces)
    requires Clean(ps) && ps.More?
    ensures Good(Last(ps)) && (EndsClosed(ps) <==> Closed(Last(ps)))
  {
    if ps.tail.More? { LastIsGood(ps.tail); }
  }

  lemma {:induction false} AppendPiece(ps: Pieces, p: Piece)
    requires Clean(ps) && Good(p)
    requires ps.More? ==> Good(Last(ps)) && Fits(Last(ps), p.text[0])
    ensures Clean(Snoc(ps, p)) && Render(Snoc(ps, p)) == Render(ps) + p.text && Last(Snoc(ps, p)) == p
    decreases ps
  {
    if ps.More? { AppendPiece(ps.tail, p); }
  }

  /** The piece that the splitter adds for position i. */
  function NextPiece(s: string, i: nat): Piece
    requires i < |s|
  {
    if KindAt(s, i) == Comment then Piece(Plain, " ") else PieceAt(s, i)
  }

  lemma NextPieceIsGood(s: string, i: nat)
    requires i < |s| && KindAt(s, i) != Semicolon
    ensures var p, end := NextPiece(s, i), EndAt(s, i);
      Good(p) && p.text == Emitted(PieceAt(s, i)) && (end < |s| ==> Fits(p, s[end]))
  {
    match KindAt(s, i)
    case Quoted => QuoteCut(s, i, i + 1);
    case Ticked => TickCut(s, i, i + 1);
    case _ =>
  }

  lemma {:induction false} TrimLeftClean(ps: Pieces) returns (qs: Pieces)
    requires Clean(ps)
    ensures Clean(qs) && Render(qs) == TrimLeft(Render(ps))
    ensures EndsClosed(ps) ==> EndsClosed(qs)
    decreases ps
  {
    qs := ps;
    if ps.More? && IsSpace(ps.head.text[0]) {
      assert Render(ps)[1..] == Render(ps.tail);
      qs := TrimLeftClean(ps.tail);
    }
  }

  lemma {:induction false} QuoteShorter(text: string, j: nat)
    requires 1 <= j <= |text| && |text| > 1 && QuoteEnd(text, j) == |text| && text[|text| - 1] != '\'' && j < |text|
    ensures QuoteEnd(text[..|text| - 1], j) == |text| - 1
    decreases |text| - j
  {
    var less := text[..|text| - 1];
    if j < |less| {
      assert less[j] == text[j];
      if text[j] != '\'' {
        QuoteShorter(text, j + 1);
      } else {
        QuoteShorter(text, j + 2);
      }
    }
  }

  lemma {:induction false} TickShorter(text: string, j: nat)
    requires 1 <= j < |text| && TickEnd(text, j) == |text| && text[|text| - 1] != '`'
    ensures TickEnd(text[..|text| - 1], j) == |text| - 1
    decreases |text| - j
  {
    var less := text[..|text| - 1];
    if j < |less| {
      assert less[j] == text[j];
      TickShorter(text, j + 1);
    }
  }

  lemma {:induction false} ClosedEndsInQuote(text: string, j: nat)
    requires 1 <= j <= |text| && QuoteEnd(text, j) == |text| && QuoteClosed(text, j)
    ensures text[|text| - 1] == '\''
    decreases |text| - j
  {
    if text[j] != '\'' {
      ClosedEndsInQuote(text, j + 1);
    } else if j + 1 < |text| && text[j + 1] == '\'' {
      ClosedEndsInQuote(text, j + 2);
    }
  }

  lemma {:induction false} TrimRightOfCat(a: string, b: string)
    ensures TrimRight(a + b) == if TrimRight(b) != "" then a + TrimRight(b) else TrimRight(a)
    decreases |b|
  {
    if b == "" {
      assert a + b == a;
    } else if IsSpace(b[|b| - 1]) {
      assert (a + b)[..|a + b| - 1] == a + b[..|b| - 1];
      TrimRightOfCat(a, b[..|b| - 1]);
    }
  }

  lemma {:induction false} TrimRightClean(ps: Pieces) returns (qs: Pieces)
    requires Clean(ps)
    ensures Clean(qs) && Render(qs) == TrimRight(Render(ps))
    ensures EndsClosed(ps) ==> EndsClosed(qs)
    ensures qs.More? ==> ps.More? && qs.head.text[0] == ps.head.text[0]
    decreases ps
  {
    match ps
    case End =>
      qs := End;
    case More(p, rest) =>
      var rs := TrimRightClean(rest);
      TrimRightOfCat(p.text, Render(rest));
      if rs.More? {
        assert Render(rs) != "";
        qs := More(p, rs);
      } else {
        qs := TrimLastPiece(p);
      }
  }

  /** Trimming a single piece: a space disappears, an unclosed literal is shortened, anything else stays. */
  lemma {:induction false} TrimLastPiece(p: Piece) returns (qs: Pieces)
    requires Good(p)
    ensures Clean(qs) && Render(qs) == TrimRight(p.text)
    ensures Closed(p) ==> EndsClosed(qs)
    ensures qs.More? ==> qs.head.text[0] == p.text[0]
    decreases |p.text|
  {
    if !IsSpace(p.text[|p.text| - 1]) {
      qs := More(p, End);
      assert p.text + "" == p.text;
    } else if p.kind.Plain? {
      qs := End;
    } else {
      ShorterPiece(p);
      qs := TrimLastPiece(Piece(p.kind, p.text[..|p.text| - 1]));
    }
  }

  /** Only an unclosed literal can end in a space, and it stays one without it. */
  lemma ShorterPiece(p: Piece)
    requires Good(p) && !p.kind.Plain? && IsSpace(p.text[|p.text| - 1])
    ensures !Closed(p) && Good(Piece(p.kind, p.text[..|p.text| - 1])) && p.text[..|p.text| - 1][0] == p.text[0]
  {
    if p.kind.Quoted? {
      if QuoteClosed(p.text, 1) { ClosedEndsInQuote(p.text, 1); }
      QuoteShorter(p.text, 1);
    } else {
      TickShorter(p.text, 1);
    }
  }

  lemma TrimIsTrimmed(s: string)
    ensures Trim(Trim(s)) == Trim(s)
  {
    TrimLeftEnds(s);
    TrimRightKeepsLeft(TrimLeft(s));
  }

  lemma {:induction false} TrimLeftEnds(s: string)
    ensures TrimLeft(s) != [] ==> !IsSpace(TrimLeft(s)[0])
  {
    if s != [] && IsSpace(s[0]) { TrimLeftEnds(s[1..]); }
  }

  lemma {:induction false} TrimRightKeepsLeft(s: string)
    requires s != [] ==> !IsSpace(s[0])
    ensures TrimLeft(TrimRight(s)) == TrimRight(s)
    ensures TrimRight(TrimRight(s)) == TrimRight(s)
  {
    if s != [] && IsSpace(s[|s| - 1]) { TrimRightKeepsLeft(s[..|s| - 1]); }
  }

  /** What a flush emits is a statement, and closed if the gathered text was. */
  lemma FlushedIsStatement(ps: Pieces)
    requires Clean(ps) && Trim(Render(ps)) != ""
    ensures IsStatement(Trim(Render(ps)))
    ensures EndsClosed(ps) ==> ClosedText(Trim(Render(ps)))
  {
    var ls := TrimLeftClean(ps);
    var qs := TrimRightClean(ls);
    TrimIsTrimmed(Render(ps));
  }

  ghost predicate AllButLastClosed(xs: seq<string>) {
    forall k :: 0 <= k < |xs| - 1 ==> ClosedText(xs[k])
  }

  lemma {:induction false} SplitGivesStatements(s: string, i: nat, ps: Pieces, statements: seq<string>)
    requires i <= |s| && Clean(ps) && Seam(ps, s, i)
    requires forall x :: x in statements ==> IsStatement(x) && ClosedText(x)
    ensures var r := Group(Lex(s, i), Render(ps), statements);
      && (forall x :: x in r ==> IsStatement(x))
      && AllButLastClosed(r)
    decreases |s| - i
  {
    if Trim(Render(ps)) != "" {
      FlushedIsStatement(ps);
    }
    if i == |s| {
      assert forall k :: 0 <= k < |statements| ==> statements[k] in statements;
    } else if KindAt(s, i) == Semicolon {
      if ps.More? { LastIsGood(ps); }
      SplitGivesStatements(s, i + 1, End, Flushed(statements, Render(ps)));
    } else {
      NextPieceIsGood(s, i);
      AppendPiece(ps, NextPiece(s, i));
      SplitGivesStatements(s, EndAt(s, i), Snoc(ps, NextPiece(s, i)), statements);
    }
  }

  // ---------------------------------------------------------------------------
  // The splitter is a projection
  // ---------------------------------------------------------------------------

  /** A trimmed clean text that ends the script yields itself. */
  lemma LastStatementReads(s: string, i: nat, x: string, statements: seq<string>)
    requires IsStatement(x) && Occurs(s, i, x) && i + |x| == |s|
    ensures Group(Lex(s, i), "", statements) == statements + [x]
  {
    var ps :| Clean(ps) && Render(ps) == x;
    CleanReads(s, i, ps, |s|);
    CleanGroups(ps, End, "", statements);
    assert "" + x == x;
  }

  lemma SemicolonFlushes(s: string, j: nat, x: string, statements: seq<string>)
    requires j < |s| && s[j] == ';' && x != "" && Trim(x) == x
    ensures Group(Lex(s, j), x, statements) == Group(Lex(s, j + 1), "", statements + [x])
  {
    assert Lex(s, j) == More(PieceAt(s, j), Lex(s, j + 1));
  }

  lemma ClosedGathers(s: string, i: nat, x: string, statements: seq<string>)
    requires ClosedText(x) && Occurs(s, i, x) && i + |x| < |s| && s[i + |x|] == ';'
    ensures Group(Lex(s, i), "", statements) == Group(Lex(s, i + |x|), x, statements)
  {
    var ps :| Clean(ps) && Render(ps) == x && EndsClosed(ps);
    CleanReads(s, i, ps, i + |x|);
    CleanGroups(ps, Lex(s, i + |x|), "", statements);
    assert "" + x == x;
  }

  /** A closed statement and the semicolon after it yield that statement. */
  lemma StatementReads(s: string, i: nat, x: string, statements: seq<string>)
    requires IsStatement(x) && ClosedText(x) && Occurs(s, i, x) && i + |x| < |s| && s[i + |x|] == ';'
    ensures Group(Lex(s, i), "", statements) == Group(Lex(s, i + |x| + 1), "", statements + [x])
  {
    ClosedGathers(s, i, x, statements);
    SemicolonFlushes(s, i + |x|, x, statements);
  }

  /** Exactly the statements split to just themselves. */
  lemma FixpointsAreStatements(x: string)
    ensures Split(x) == [x] <==> IsStatement(x)
  {
    if IsStatement(x) {
      LastStatementReads(x, 0, x, []);
    }
    SplitGivesStatements(x, 0, End, []);
    assert Split(x) == [x] ==> x in Split(x);
  }

  /** Whatever the script: each output is comment-free, has no semicolon outside quotes, and splits to itself. */
  lemma OutputsSplitToThemselves(s: string)
    ensures forall x :: x in Split(s) ==> IsStatement(x) && Split(x) == [x]
  {
    SplitGivesStatements(s, 0, End, []);
    forall x | x in Split(s) ensures IsStatement(x) && Split(x) == [x] {
      FixpointsAreStatements(x);
    }
  }

  /** The statements from the k-th on, joined with semicolons. */
  function JoinFrom(xs: seq<string>, k: nat): string
    requires k <= |xs|
    decreases |xs| - k
  {
    if k == |xs| then "" else if k + 1 == |xs| then xs[k] else xs[k] + (";" + JoinFrom(xs, k + 1))
  }

  function Join(xs: seq<string>): string {
    JoinFrom(xs, 0)
  }

  ghost predicate Joinable(xs: seq<string>) {
    (forall x :: x in xs ==> IsStatement(x)) && AllButLastClosed(xs)
  }

  ghost predicate JoinedAt(s: string, i: nat, xs: seq<string>, k: nat)
    requires k <= |xs|
  {
    Occurs(s, i, JoinFrom(xs, k)) && i + |JoinFrom(xs, k)| == |s|
  }

  lemma JoinUnfolds(xs: seq<string>, k: nat, rest: string)
    requires Joinable(xs) && k + 1 < |xs| && rest == JoinFrom(xs, k + 1)
    ensures JoinFrom(xs, k) == xs[k] + (";" + rest)
    ensures |JoinFrom(xs, k)| == |xs[k]| + 1 + |rest|
    ensures IsStatement(xs[k]) && ClosedText(xs[k])
  {
    assert xs[k] in xs;
  }

  /** One statement of a joined list, the semicolon after it, and the rest of the list. */
  lemma JoinStep(s: string, i: nat, xs: seq<string>, k: nat)
    requires Joinable(xs) && k + 1 < |xs| && JoinedAt(s, i, xs, k)
    ensures IsStatement(xs[k]) && ClosedText(xs[k]) && Occurs(s, i, xs[k])
    ensures i + |xs[k]| < |s| && s[i + |xs[k]|] == ';' && JoinedAt(s, i + |xs[k]| + 1, xs, k + 1)
  {
    var x, rest := xs[k], JoinFrom(xs, k + 1);
    JoinUnfolds(xs, k, rest);
    OccursParts(s, i, x, ";" + rest);
    OccursParts(s, i + |x|, ";", rest);
  }

  lemma JoinLast(s: string, i: nat, xs: seq<string>, k: nat)
    requires Joinable(xs) && k <= |xs| <= k + 1 && JoinedAt(s, i, xs, k)
    ensures Group(Lex(s, i), "", xs[..k]) == xs
  {
    if k < |xs| {
      assert xs[k] in xs && xs[..k] + [xs[k]] == xs;
      LastStatementReads(s, i, xs[k], xs[..k]);
    }
  }

  lemma {:induction false} JoinReads(s: string, i: nat, xs: seq<string>, k: nat, read: seq<string>)
    requires Joinable(xs) && k <= |xs| && JoinedAt(s, i, xs, k) && read == Group(Lex(s, i), "", xs[..k])
    ensures read == xs
    decreases |xs| - k
  {
    if |xs| <= k + 1 {
      JoinLast(s, i, xs, k);
    } else {
      var next := i + |xs[k]| + 1;
      assert next <= |s| && JoinedAt(s, next, xs, k + 1) && read == Group(Lex(s, next), "", xs[..k + 1]) by {
        JoinHeadReads(s, i, xs, k);
      }
      JoinReads(s, next, xs, k + 1, read);
    }
  }

  lemma JoinHeadReads(s: string, i: nat, xs: seq<string>, k: nat)
    requires Joinable(xs) && k + 1 < |xs| && JoinedAt(s, i, xs, k)
    ensures JoinedAt(s, i + |xs[k]| + 1, xs, k + 1) && i + |xs[k]| + 1 <= |s|
    ensures Group(Lex(s, i), "", xs[..k]) == Group(Lex(s, i + |xs[k]| + 1), "", xs[..k + 1])
  {
    JoinStep(s, i, xs, k);
    StatementReads(s, i, xs[k], xs[..k]);
    TakeGrows(xs, k);
  }

  lemma TakeGrows(xs: seq<string>, k: nat)
    requires k < |xs|
    ensures xs[..k] + [xs[k]] == xs[..k + 1]
  {
  }

  /** Statements joined with semicolons split back into the same list. */
  lemma JoinThenSplit(xs: seq<string>)
    requires forall x :: x in xs ==> Split(x) == [x]
    requires AllButLastClosed(xs)
    ensures Split(Join(xs)) == xs
  {
    forall x | x in xs ensures IsStatement(x) {
      FixpointsAreStatements(x);
    }
    assert xs[..0] == [];
    JoinReads(Join(xs), 0, xs, 0, Split(Join(xs)));
  }

  /** Splitting, joining and splitting again changes nothing, for every script. */
  lemma SplitIsStable(s: string)
    ensures Split(Join(Split(s))) == Split(s)
  {
    OutputsSplitToThemselves(s);
    SplitGivesStatements(s, 0, End, []);
    JoinThenSplit(Split(s));
  }
}
