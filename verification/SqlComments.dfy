/**
 * How the splitter of SqlSplit treats comments, semicolons, quotes and blanks: laws
 * of splitSQLStatements in internal/clickhouse/sql.go about the script's characters.
 */
module SqlComments {
  import opened SqlSplit

  // ---------------------------------------------------------------------------
  // Reading does not depend on what came before
  // ---------------------------------------------------------------------------

  lemma {:induction false} QuoteEndShifts(x: string, y: string, i: nat)
    requires i <= |y|
    ensures QuoteEnd(x + y, |x| + i) == |x| + QuoteEnd(y, i)
    decreases |y| - i
  {
    if i < |y| {
      assert (x + y)[|x| + i] == y[i];
      if y[i] != '\'' {
        QuoteEndShifts(x, y, i + 1);
      } else if i + 1 < |y| {
        assert (x + y)[|x| + i + 1] == y[i + 1];
        if y[i + 1] == '\'' {
          QuoteEndShifts(x, y, i + 2);
        }
      }
    }
  }

  lemma {:induction false} TickEndShifts(x: string, y: string, i: nat)
    requires i <= |y|
    ensures TickEnd(x + y, |x| + i) == |x| + TickEnd(y, i)
    decreases |y| - i
  {
    if i < |y| {
      assert (x + y)[|x| + i] == y[i];
      if y[i] != '`' {
        TickEndShifts(x, y, i + 1);
      }
    }
  }

  lemma {:induction false} LineEndShifts(x: string, y: string, i: nat)
    requires i <= |y|
    ensures LineEnd(x + y, |x| + i) == |x| + LineEnd(y, i)
    decreases |y| - i
  {
    if i < |y| {
      assert (x + y)[|x| + i] == y[i];
      if y[i] != '\n' {
        LineEndShifts(x, y, i + 1);
      }
    }
  }

  lemma {:induction false} BlockEndShifts(x: string, y: string, i: nat)
    requires i <= |y|
    ensures BlockEnd(x + y, |x| + i) == |x| + BlockEnd(y, i)
    decreases |y| - i
  {
    if i + 1 < |y| {
      assert (x + y)[|x| + i] == y[i] && (x + y)[|x| + i + 1] == y[i + 1];
      if !(y[i] == '*' && y[i + 1] == '/') {
        BlockEndShifts(x, y, i + 1);
      }
    }
  }

  lemma KindShifts(x: string, y: string, i: nat)
    requires i < |y|
    ensures KindAt(x + y, |x| + i) == KindAt(y, i)
  {
    assert (x + y)[|x| + i] == y[i];
    assert i + 1 < |y| ==> (x + y)[|x| + i + 1] == y[i + 1];
  }

  lemma EndShifts(x: string, y: string, i: nat)
    requires i < |y|
    ensures EndAt(x + y, |x| + i) == |x| + EndAt(y, i)
  {
    KindShifts(x, y, i);
    assert (x + y)[|x| + i] == y[i];
    match KindAt(y, i)
    case Quoted => QuoteEndShifts(x, y, i + 1);
    case Ticked => TickEndShifts(x, y, i + 1);
    case Comment =>
      if y[i] == '-' {
        LineEndShifts(x, y, i + 2);
      } else {
        BlockEndShifts(x, y, i + 2);
      }
    case _ =>
  }

  lemma {:induction false} LexShifts(x: string, y: string, i: nat)
    requires i <= |y|
    ensures Lex(x + y, |x| + i) == Lex(y, i)
    decreases |y| - i
  {
    if i < |y| {
      KindShifts(x, y, i);
      EndShifts(x, y, i);
      assert (x + y)[|x| + i..|x| + EndAt(y, i)] == y[i..EndAt(y, i)];
      LexShifts(x, y, EndAt(y, i));
    }
  }

  // ---------------------------------------------------------------------------
  // Closed text before anything it fits
  // ---------------------------------------------------------------------------

  /** The last piece reads the same before this character. */
  ghost predicate LastFits(ps: Pieces, next: char)
    requires Clean(ps)
  {
    match ps
    case End => true
    case More(p, rest) => if rest.End? then Fits(p, next) else LastFits(rest, next)
  }

  lemma {:induction false} ClosedFits(ps: Pieces, next: char)
    requires Clean(ps) && EndsClosed(ps) && next != '\''
    requires Render(ps) == "" || (Render(ps)[|Render(ps)| - 1] == '-' ==> next != '-')
    requires Render(ps) == "" || (Render(ps)[|Render(ps)| - 1] == '/' ==> next != '*')
    ensures LastFits(ps, next)
  {
    if ps.More? {
      if ps.tail.End? {
        assert Render(ps) == ps.head.text;
      } else {
        assert Render(ps.tail) != "" by { assert Good(ps.tail.head); }
        assert Render(ps)[|Render(ps)| - 1] == Render(ps.tail)[|Render(ps.tail)| - 1];
        ClosedFits(ps.tail, next);
      }
    }
  }

  lemma {:induction false} ReadsBefore(ps: Pieces, rest: string)
    requires Clean(ps) && rest != "" && LastFits(ps, rest[0])
    ensures Lex(Render(ps) + rest, 0) == Append(ps, Lex(rest, 0))
  {
    if ps.End? {
      assert Render(ps) + rest == rest;
    } else {
      var p, more := ps.head, Render(ps.tail) + rest;
      assert Render(ps) + rest == p.text + more;
      assert more[0] == if ps.tail.End? then rest[0] else ps.tail.head.text[0];
      assert Occurs(p.text + more, 0, p.text);
      PieceReads(p.text + more, 0, p);
      LexShifts(p.text, more, 0);
      ReadsBefore(ps.tail, rest);
    }
  }

  lemma {:induction false} GroupAppends(ps: Pieces, b: string, statements: seq<string>)
    ensures Group(ps, b, statements) == statements + Group(ps, b, [])
    decreases ps
  {
    if ps.More? {
      if ps.head.kind.Semicolon? {
        GroupAppends(ps.tail, "", Flushed(statements, b));
        GroupAppends(ps.tail, "", Flushed([], b));
        assert Flushed(statements, b) == statements + Flushed([], b);
      } else {
        GroupAppends(ps.tail, b + Emitted(ps.head), statements);
      }
    }
  }

  /** The text fits before a character that does not go on with a quote, and makes no comment with its end. */
  ghost predicate FitsBefore(a: string, next: char) {
    && ClosedText(a) && next != '\''
    && (a != "" && a[|a| - 1] == '-' ==> next != '-') && (a != "" && a[|a| - 1] == '/' ==> next != '*')
  }

  /** Closed text is gathered, and the rest is read as if it stood alone. */
  lemma GathersBefore(a: string, rest: string)
    requires rest != "" && FitsBefore(a, rest[0])
    ensures Split(a + rest) == Group(Lex(rest, 0), a, [])
  {
    var ps :| Clean(ps) && Render(ps) == a && EndsClosed(ps);
    ClosedFits(ps, rest[0]);
    ReadsBefore(ps, rest);
    CleanGroups(ps, Lex(rest, 0), "", []);
    assert "" + a == a;
  }

  // ---------------------------------------------------------------------------
  // Semicolons
  // ---------------------------------------------------------------------------

  /** Closed text on its own: one trimmed statement, or none if it is blank. */
  lemma SplitOfClosed(a: string)
    requires ClosedText(a)
    ensures Split(a) == if Trim(a) == "" then [] else [Trim(a)]
  {
    var ps :| Clean(ps) && Render(ps) == a && EndsClosed(ps);
    CleanReads(a, 0, ps, |a|);
    CleanGroups(ps, End, "", []);
    assert "" + a == a;
  }

  /** A semicolon after closed text ends a statement; what follows is split on its own. */
  lemma SemicolonSplits(a: string, b: string)
    requires ClosedText(a)
    ensures Split(a + (";" + b)) == Split(a) + Split(b)
  {
    var rest := ";" + b;
    assert Lex(rest, 0) == More(Piece(Semicolon, rest[0..1]), Lex(b, 0)) by {
      LexShifts(";", b, 0);
    }
    assert Split(a + rest) == Group(Lex(b, 0), "", Flushed([], a)) by {
      GathersBefore(a, rest);
    }
    SplitOfClosed(a);
    GroupAppends(Lex(b, 0), "", Flushed([], a));
  }

  // ---------------------------------------------------------------------------
  // Comments
  // ---------------------------------------------------------------------------

  lemma {:induction false} LineEndsAt(s: string, i: nat, j: nat)
    requires i <= j <= |s| && (j < |s| ==> s[j] == '\n') && forall k :: i <= k < j ==> s[k] != '\n'
    ensures LineEnd(s, i) == j
    decreases j - i
  {
    if i < j { LineEndsAt(s, i + 1, j); }
  }

  lemma {:induction false} BlockEndsAt(s: string, i: nat, j: nat)
    requires i <= j && j + 1 < |s| && s[j] == '*' && s[j + 1] == '/'
    requires forall k :: i <= k < j ==> !(s[k] == '*' && s[k + 1] == '/')
    ensures BlockEnd(s, i) == j + 2
    decreases j - i
  {
    if i < j { BlockEndsAt(s, i + 1, j); }
  }

  lemma {:induction false} BlockNeverEnds(s: string, i: nat)
    requires i <= |s| && forall k :: i <= k < |s| - 1 ==> !(s[k] == '*' && s[k + 1] == '/')
    ensures BlockEnd(s, i) == |s|
    decreases |s| - i
  {
    if i + 1 < |s| { BlockNeverEnds(s, i + 1); }
  }

  /** A comment counts as one blank. */
  lemma CommentIsBlank(a: string, comment: string, rest: string)
    requires |comment| >= 2 && FitsBefore(a, comment[0])
    requires KindAt(comment + rest, 0) == Comment && EndAt(comment + rest, 0) == |comment|
    ensures Split(a + (comment + rest)) == Split(a + (" " + rest))
  {
    GathersBefore(a, comment + rest);
    GathersBefore(a, " " + rest);
    assert Lex(comment + rest, 0) == More(Piece(Comment, comment), Lex(rest, 0)) by {
      LexShifts(comment, rest, 0);
      assert (comment + rest)[0..|comment|] == comment;
    }
    assert Lex(" " + rest, 0) == More(Piece(Plain, " "), Lex(rest, 0)) by {
      LexShifts(" ", rest, 0);
      assert (" " + rest)[0..1] == " ";
    }
  }

  /** A line comment counts as one blank, and the line break after it stays. */
  lemma LineComment(a: string, c: string, b: string)
    requires ClosedText(a) && (a != "" ==> a[|a| - 1] != '-') && forall i :: 0 <= i < |c| ==> c[i] != '\n'
    ensures Split(a + (("--" + c) + ("\n" + b))) == Split(a + (" " + ("\n" + b)))
  {
    var s := ("--" + c) + ("\n" + b);
    LineEndsAt(s, 2, 2 + |c|);
    CommentIsBlank(a, "--" + c, "\n" + b);
  }

  /** A line comment at the end of the script. */
  lemma LastLineComment(a: string, c: string)
    requires ClosedText(a) && (a != "" ==> a[|a| - 1] != '-') && forall i :: 0 <= i < |c| ==> c[i] != '\n'
    ensures Split(a + (("--" + c) + "")) == Split(a + (" " + ""))
  {
    var s := ("--" + c) + "";
    LineEndsAt(s, 2, 2 + |c|);
    CommentIsBlank(a, "--" + c, "");
  }

  /** A block comment, up to the first end mark, counts as one blank. */
  lemma BlockComment(a: string, c: string, b: string)
    requires ClosedText(a) && forall i :: 0 <= i < |c| ==> !((c + "*/")[i] == '*' && (c + "*/")[i + 1] == '/')
    ensures Split(a + (("/*" + (c + "*/")) + b)) == Split(a + (" " + b))
  {
    var comment := "/*" + (c + "*/");
    var s := comment + b;
    forall k | 2 <= k < 2 + |c| ensures !(s[k] == '*' && s[k + 1] == '/') {
      assert s[k] == (c + "*/")[k - 2] && s[k + 1] == (c + "*/")[k - 1];
    }
    assert s[2 + |c|] == '*' && s[3 + |c|] == '/';
    BlockEndsAt(s, 2, 2 + |c|);
    CommentIsBlank(a, comment, b);
  }

  /** A block comment that is not ended takes the rest of the script. */
  lemma OpenBlockComment(a: string, c: string)
    requires ClosedText(a) && forall i :: 0 <= i < |c| - 1 ==> !(c[i] == '*' && c[i + 1] == '/')
    ensures Split(a + (("/*" + c) + "")) == Split(a + (" " + ""))
  {
    var comment := "/*" + c;
    var s := comment + "";
    assert s == comment;
    forall k | 2 <= k < |s| - 1 ensures !(s[k] == '*' && s[k + 1] == '/') {
      assert s[k] == c[k - 2] && s[k + 1] == c[k - 1];
    }
    BlockNeverEnds(s, 2);
    CommentIsBlank(a, comment, "");
  }

  // ---------------------------------------------------------------------------
  // What closed text is
  // ---------------------------------------------------------------------------

  lemma {:induction false} QuoteRuns(s: string, i: nat)
    requires 1 <= i < |s| && s[|s| - 1] == '\'' && forall k :: i <= k < |s| - 1 ==> s[k] != '\''
    ensures QuoteEnd(s, i) == |s| && QuoteClosed(s, i)
    decreases |s| - i
  {
    if i < |s| - 1 { QuoteRuns(s, i + 1); }
  }

  lemma {:induction false} TickRuns(s: string, i: nat)
    requires 1 <= i < |s| && s[|s| - 1] == '`' && forall k :: i <= k < |s| - 1 ==> s[k] != '`'
    ensures TickEnd(s, i) == |s|
    decreases |s| - i
  {
    if i < |s| - 1 { TickRuns(s, i + 1); }
  }

  lemma OnePieceIsClosed(p: Piece)
    requires Good(p) && Closed(p)
    ensures ClosedText(p.text)
  {
    var ps := More(p, End);
    assert p.text + "" == p.text;
    assert Render(ps) == p.text + Render(End) && Clean(ps) && EndsClosed(ps);
  }

  /** Whatever stands between two single quotes is closed text: semicolons and comment marks in it mean nothing. */
  lemma QuotedIsClosed(q: string)
    requires forall i :: 0 <= i < |q| ==> q[i] != '\''
    ensures ClosedText("'" + (q + "'"))
  {
    var s := "'" + (q + "'");
    assert forall k :: 1 <= k < |s| - 1 ==> s[k] == q[k - 1];
    QuoteRuns(s, 1);
    OnePieceIsClosed(Piece(Quoted, s));
  }

  /** So is whatever stands between two backticks. */
  lemma TickedIsClosed(q: string)
    requires forall i :: 0 <= i < |q| ==> q[i] != '`'
    ensures ClosedText("`" + (q + "`"))
  {
    var s := "`" + (q + "`");
    assert forall k :: 1 <= k < |s| - 1 ==> s[k] == q[k - 1];
    TickRuns(s, 1);
    OnePieceIsClosed(Piece(Ticked, s));
  }

  /** No quote, no semicolon, and no mark that starts a comment. */
  predicate IsPlain(x: string) {
    && (forall i :: 0 <= i < |x| ==> x[i] != '\'' && x[i] != '`' && x[i] != ';')
    && (forall i :: 0 <= i < |x| - 1 ==> !(x[i] == '-' && x[i + 1] == '-') && !(x[i] == '/' && x[i + 1] == '*'))
  }

  lemma {:induction false} PlainPieces(x: string) returns (ps: Pieces)
    requires IsPlain(x)
    ensures Clean(ps) && EndsClosed(ps) && Render(ps) == x && (x != "" ==> ps.More? && ps.head == Piece(Plain, [x[0]]))
  {
    if x == "" {
      ps := End;
    } else {
      assert IsPlain(x[1..]) by {
        assert forall i :: 0 <= i < |x| - 1 ==> x[1..][i] == x[i + 1];
      }
      var rest := PlainPieces(x[1..]);
      ps := More(Piece(Plain, [x[0]]), rest);
    }
  }

  lemma PlainIsClosed(x: string)
    requires IsPlain(x)
    ensures ClosedText(x)
  {
    var ps := PlainPieces(x);
  }

  // ---------------------------------------------------------------------------
  // Blanks around statements
  // ---------------------------------------------------------------------------

  predicate IsBlank(c: char) {
    c == ' ' || c == '\t' || c == '\n' || c == '\r'
  }

  /** The text starts and ends with a visible ASCII character. */
  predicate HasVisibleEnds(x: string) {
    x != "" && '!' <= x[0] <= '~' && '!' <= x[|x| - 1] <= '~'
  }

  lemma {:induction false} LeftBlanksGo(w: string, x: string)
    requires (forall i :: 0 <= i < |w| ==> IsBlank(w[i])) && x != "" && '!' <= x[0] <= '~'
    ensures TrimLeft(w + x) == x
    decreases |w|
  {
    if w == "" {
      assert w + x == x;
    } else {
      assert (w + x)[1..] == w[1..] + x;
      LeftBlanksGo(w[1..], x);
    }
  }

  lemma {:induction false} RightBlanksGo(x: string, v: string)
    requires (forall i :: 0 <= i < |v| ==> IsBlank(v[i])) && x != "" && '!' <= x[|x| - 1] <= '~'
    ensures TrimRight(x + v) == x
    decreases |v|
  {
    if v == "" {
      assert x + v == x;
    } else {
      assert (x + v)[..|x + v| - 1] == x + v[..|v| - 1];
      RightBlanksGo(x, v[..|v| - 1]);
    }
  }

  /** A closed statement between blanks comes out without them, and otherwise as it is. */
  lemma BlanksGo(w: string, x: string, v: string)
    requires ClosedText(w + (x + v)) && HasVisibleEnds(x)
    requires (forall i :: 0 <= i < |w| ==> IsBlank(w[i])) && forall i :: 0 <= i < |v| ==> IsBlank(v[i])
    ensures Split(w + (x + v)) == [x]
  {
    SplitOfClosed(w + (x + v));
    LeftBlanksGo(w, x + v);
    RightBlanksGo(x, v);
  }

  /** Blanks alone are no statement. */
  lemma BlankIsNothing(w: string)
    requires forall i :: 0 <= i < |w| ==> IsBlank(w[i])
    ensures Split(w) == []
  {
    PlainIsClosed(w);
    SplitOfClosed(w);
    AllBlankGoes(w);
  }

  lemma {:induction false} AllBlankGoes(w: string)
    requires forall i :: 0 <= i < |w| ==> IsBlank(w[i])
    ensures TrimLeft(w) == ""
  {
    if w != "" { AllBlankGoes(w[1..]); }
  }
}
