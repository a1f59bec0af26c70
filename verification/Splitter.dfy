/** internal/sqlnorm/split.go: splitting SQL text into statements. */
module Splitter {
  import opened Text
  import opened Lexer

  /** The texts between the cuts, the first one continuing `current`. */
  function PiecesFrom(current: string, items: seq<Item>): (r: seq<string>)
    ensures |r| > 0
    decreases items
  {
    if items == [] then [current]
    else match items[0]
      case Keep(c) => PiecesFrom(current + [c], items[1..])
      case Cut => [current] + PiecesFrom("", items[1..])
  }

  /** Trims every piece and drops the ones that become empty. */
  function Statements(pieces: seq<string>): seq<string> {
    if pieces == [] then []
    else (if Trim(pieces[0]) == "" then [] else [Trim(pieces[0])]) + Statements(pieces[1..])
  }

  /** What SplitStatements promises: the top-level pieces of the text without its comments. */
  function Split(sql: string): seq<string> {
    Statements(PiecesFrom("", Scan(Normal, sql)))
  }

  /** Statements written one after the other with ";" between them. */
  function Join(statements: seq<string>): string {
    if statements == [] then ""
    else if |statements| == 1 then statements[0]
    else statements[0] + ";" + Join(statements[1..])
  }

  // ---- The loop of split.go ------------------------------------------------------------------

  /** The five mode flags of the loop, read as a lexer mode. */
  function FlagMode(single: bool, double: bool, backtick: bool, line: bool, block: bool): Mode {
    if line then LineComment else if block then BlockComment
    else if single then Quoted('\'') else if double then Quoted('"') else if backtick then Quoted('`') else Normal
  }

  function Count(single: bool, double: bool, backtick: bool, line: bool, block: bool): nat {
    (if single then 1 else 0) + (if double then 1 else 0) + (if backtick then 1 else 0)
    + (if line then 1 else 0) + (if block then 1 else 0)
  }

  lemma PiecesOfKeep(current: string, c: char, items: seq<Item>)
    ensures PiecesFrom(current, [Keep(c)] + items) == PiecesFrom(current + [c], items)
  {
    assert ([Keep(c)] + items)[1..] == items;
  }

  lemma PiecesOfCut(current: string, items: seq<Item>)
    ensures PiecesFrom(current, [Cut] + items) == [current] + PiecesFrom("", items)
  {
    assert ([Cut] + items)[1..] == items;
  }

  lemma {:induction false} StatementsConcat(a: seq<string>, b: seq<string>)
    ensures Statements(a + b) == Statements(a) + Statements(b)
    decreases a
  {
    if a == [] {
      assert a + b == b;
    } else {
      assert (a + b)[1..] == a[1..] + b;
      StatementsConcat(a[1..], b);
    }
  }

  lemma OneStatement(current: string)
    ensures Statements([current]) == if Trim(current) == "" then [] else [Trim(current)]
  {}

  lemma StatementsSnoc(pieces: seq<string>, current: string)
    ensures Statements(pieces + [current]) == Statements(pieces) + if Trim(current) == "" then [] else [Trim(current)]
  {
    StatementsConcat(pieces, [current]);
    OneStatement(current);
  }

  function Lookahead(sql: string, i: nat): Option<char> {
    if i + 1 < |sql| then Some(sql[i + 1]) else None
  }

  /**
   All pieces of the text, when the loop stands at byte `i` in mode `m` with `pieces` cut off and `current` collected.
   */
  function Pending(sql: string, i: nat, m: Mode, pieces: seq<string>, current: string): seq<string>
    requires i <= |sql|
    decreases |sql| - i
  {
    if i == |sql| then pieces + [current]
    else
      var m', items := Step(m, sql[i], Lookahead(sql, i)), Emit(m, sql[i], Lookahead(sql, i));
      if items == [] then Pending(sql, i + 1, m', pieces, current)
      else if items[0].Keep? then Pending(sql, i + 1, m', pieces, current + [items[0].c])
      else Pending(sql, i + 1, m', pieces + [current], "")
  }

  lemma ScanAt(sql: string, i: nat, m: Mode)
    requires i < |sql|
    ensures
      var c, next := sql[i], Lookahead(sql, i);
      Scan(m, sql[i..]) == Emit(m, c, next) + Scan(Step(m, c, next), sql[i + 1..])
  {
    assert sql[i..][1..] == sql[i + 1..];
    assert Lookahead(sql, i) == Head(sql[i + 1..]);
  }

  lemma {:induction false} PendingMeaning(sql: string, i: nat, m: Mode, pieces: seq<string>, current: string)
    requires i <= |sql|
    ensures Pending(sql, i, m, pieces, current) == pieces + PiecesFrom(current, Scan(m, sql[i..]))
    decreases |sql| - i
  {
    if i == |sql| {
    } else {
      ScanAt(sql, i, m);
      var m', items := Step(m, sql[i], Lookahead(sql, i)), Emit(m, sql[i], Lookahead(sql, i));
      var rest := Scan(m', sql[i + 1..]);
      if items == [] {
        assert items + rest == rest;
        PendingMeaning(sql, i + 1, m', pieces, current);
      } else if items[0].Keep? {
        PiecesOfKeep(current, items[0].c, rest);
        PendingMeaning(sql, i + 1, m', pieces, current + [items[0].c]);
      } else {
        PiecesOfCut(current, rest);
        PendingMeaning(sql, i + 1, m', pieces + [current], "");
        Associate(pieces, [current], PiecesFrom("", rest));
      }
    }
  }

  /**
   One byte inside a quoted text, or two where the quote is doubled; `open` says whether the quote is still open behind
   them.
   */
  method InsideQuote(sql: string, i: nat, current: string, quote: char, ghost pieces: seq<string>)
    returns (j: nat, text: string, open: bool)
    requires i < |sql| && IsQuote(quote)
    ensures i < j <= |sql|
    ensures Pending(sql, i, Quoted(quote), pieces, current) ==
      Pending(sql, j, if open then Quoted(quote) else Normal, pieces, text)
  {
    var c := sql[i];
    if c == quote && Lookahead(sql, i) == Some(quote) {
      return i + 2, current + [c] + [sql[i + 1]], true;
    }
    return i + 1, current + [c], c != quote;
  }

  /** One byte inside a block comment, or two where it closes. */
  method InsideBlockComment(sql: string, i: nat, ghost current: string, ghost pieces: seq<string>)
    returns (j: nat, open: bool)
    requires i < |sql|
    ensures i < j <= |sql|
    ensures Pending(sql, i, BlockComment, pieces, current) ==
      Pending(sql, j, if open then BlockComment else Normal, pieces, current)
  {
    if sql[i] == '*' && Lookahead(sql, i) == Some('/') {
      return i + 2, false;
    }
    return i + 1, true;
  }

  lemma BlockCommentOpens(sql: string, i: nat, current: string, pieces: seq<string>)
    requires i + 1 < |sql| && sql[i] == '/' && sql[i + 1] == '*'
    ensures Pending(sql, i, Normal, pieces, current) == Pending(sql, i + 2, BlockComment, pieces, current)
  {}

  method SplitStatements(sql: string) returns (statements: seq<string>)
    ensures statements == Split(sql)
  {
    statements := [];
    var current := "";
    var inSingle, inDouble, inBacktick, inLineComment, inBlockComment := false, false, false, false, false;
    var i := 0;
    ghost var pieces: seq<string> := [];
    ghost var all := PiecesFrom("", Scan(Normal, sql));
    PendingMeaning(sql, 0, Normal, pieces, current);
    assert sql[0..] == sql;
    while i < |sql|
      invariant 0 <= i <= |sql|
      invariant Count(inSingle, inDouble, inBacktick, inLineComment, inBlockComment) <= 1
      invariant
        var mode := FlagMode(inSingle, inDouble, inBacktick, inLineComment, inBlockComment);
        all == Pending(sql, i, mode, pieces, current)
      invariant statements == Statements(pieces)
    {
      var c := sql[i];
      var next := Lookahead(sql, i);
      if inLineComment {
        if c == '\n' {
          inLineComment := false;
        }
        i := i + 1;
      } else if inBlockComment {
        i, inBlockComment := InsideBlockComment(sql, i, current, pieces);
      } else if inSingle {
        i, current, inSingle := InsideQuote(sql, i, current, '\'', pieces);
      } else if inDouble {
        i, current, inDouble := InsideQuote(sql, i, current, '"', pieces);
      } else if inBacktick {
        i, current, inBacktick := InsideQuote(sql, i, current, '`', pieces);
      } else if c == '-' && next == Some('-') {
        inLineComment := true;
        i := i + 1;
      } else if c == '/' && next == Some('*') {
        BlockCommentOpens(sql, i, current, pieces);
        inBlockComment := true;
        i := i + 2;
      } else if c == ';' {
        var stmt := Trim(current);
        StatementsSnoc(pieces, current);
        pieces := pieces + [current];
        current := "";
        if stmt != "" {
          statements := statements + [stmt];
        }
        i := i + 1;
      } else {
        inSingle, inDouble, inBacktick := c == '\'', c == '"', c == '`';
        current := current + [c];
        i := i + 1;
      }
    }
    var last := Trim(current);
    StatementsSnoc(pieces, current);
    if last != "" {
      statements := statements + [last];
    }
  }
}
