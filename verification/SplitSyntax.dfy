/** What SplitStatements makes of comments, literals and plain text, stated on the text itself. */
module SplitSyntax {
  import opened Text
  import opened Lexer
  import opened Splitter
  import opened SplitTheorems

  // ---- Comments --------------------------------------------------------------------------------

  /** A line comment is dropped together with the newline that ends it. */
  lemma {:induction false} LineCommentScan(c: string, b: string)
    requires '\n' !in c
    ensures Scan(LineComment, c + ("\n" + b)) == Scan(Normal, b)
    decreases c
  {
    if c == "" {
      assert c + ("\n" + b) == "\n" + b && ("\n" + b)[1..] == b;
    } else {
      assert (c + ("\n" + b))[1..] == c[1..] + ("\n" + b);
      LineCommentScan(c[1..], b);
    }
  }

  lemma {:induction false} OpenLineCommentScan(c: string)
    requires '\n' !in c
    ensures Scan(LineComment, c) == []
    decreases c
  {
    if c == "" {
    } else {
      OpenLineCommentScan(c[1..]);
    }
  }

  /** No comment closer starts in `c`. */
  predicate NoCloser(c: string) {
    forall i | 0 <= i < |c| - 1 :: !(c[i] == '*' && c[i + 1] == '/')
  }

  /** A block comment is dropped together with its closer. */
  lemma {:induction false} BlockCommentScan(c: string, b: string)
    requires NoCloser(c)
    ensures Scan(BlockComment, c + ("*/" + b)) == Scan(Normal, b)
    decreases c
  {
    var s := c + ("*/" + b);
    if c == "" {
      assert s == "*/" + b && s[1..] == "/" + b && ("/" + b)[1..] == b;
      assert Scan(BlockClose, "/" + b) == Scan(Normal, b);
    } else {
      assert s[1..] == c[1..] + ("*/" + b);
      assert |c| > 1 ==> s[1] == c[1];
      assert forall i | 0 <= i < |c| - 1 :: c[1..][i] == c[i + 1];
      BlockCommentScan(c[1..], b);
    }
  }

  lemma {:induction false} OpenBlockCommentScan(c: string)
    requires NoCloser(c)
    ensures Scan(BlockComment, c) == []
    decreases c
  {
    if c == "" {
    } else {
      assert forall i | 0 <= i < |c| - 1 :: c[1..][i] == c[i + 1];
      OpenBlockCommentScan(c[1..]);
    }
  }

  lemma OpenersScan(s: string)
    ensures Scan(Normal, "--" + s) == Scan(LineComment, "-" + s) == Scan(LineComment, s)
    ensures Scan(Normal, "/*" + s) == Scan(BlockOpen, "*" + s) == Scan(BlockComment, s)
  {
    assert ("--" + s)[1..] == "-" + s && ("-" + s)[1..] == s;
    assert ("/*" + s)[1..] == "*" + s && ("*" + s)[1..] == s;
  }

  /** A line comment counts for nothing, semicolons and quotes in it included, and ends with its line. */
  lemma LineCommentEnds(a: string, c: string, b: string)
    requires EndMode(Normal, a) == Normal && '\n' !in c
    ensures Split(a + ";" + ("--" + (c + ("\n" + b)))) == Split(a) + Split(b)
  {
    var x := "--" + (c + ("\n" + b));
    OpenersScan(c + ("\n" + b));
    LineCommentScan(c, b);
    SplitComposes(a, x);
  }

  /** A block comment counts for nothing and ends at the first closer. */
  lemma BlockCommentEnds(a: string, c: string, b: string)
    requires EndMode(Normal, a) == Normal && NoCloser(c)
    ensures Split(a + ";" + ("/*" + (c + ("*/" + b)))) == Split(a) + Split(b)
  {
    var x := "/*" + (c + ("*/" + b));
    OpenersScan(c + ("*/" + b));
    BlockCommentScan(c, b);
    SplitComposes(a, x);
  }

  lemma NothingSplits()
    ensures Split("") == []
  {
    TrimAllSpace("");
    OneStatement("");
  }

  /** Without its end a comment swallows the rest of the text. */
  lemma OpenCommentSwallows(a: string, c: string)
    requires EndMode(Normal, a) == Normal
    ensures '\n' !in c ==> Split(a + ";" + ("--" + c)) == Split(a)
    ensures NoCloser(c) ==> Split(a + ";" + ("/*" + c)) == Split(a)
  {
    OpenersScan(c);
    NothingSplits();
    if '\n' !in c {
      OpenLineCommentScan(c);
      SplitComposes(a, "--" + c);
    }
    if NoCloser(c) {
      OpenBlockCommentScan(c);
      SplitComposes(a, "/*" + c);
    }
  }

  /** Nowhere do the last byte of `a` and the first of `b` make a two-byte token. */
  predicate Apart(a: string, b: string) {
    a != "" && b != "" ==>
      && !(a[|a| - 1] == '-' && b[0] == '-')
      && !(a[|a| - 1] == '/' && b[0] == '*')
      && !(a[|a| - 1] == '*' && b[0] == '/')
  }

  lemma {:induction false} ApartScan(m: Mode, a: string, b: string)
    requires Apart(a, b)
    ensures Scan(m, a + b) == Scan(m, a) + Scan(EndMode(m, a), b)
    ensures EndMode(m, a + b) == EndMode(EndMode(m, a), b)
    decreases a
  {
    if a == "" {
      assert a + b == b;
    } else {
      var c, rest := a[0], a[1..];
      assert (a + b)[1..] == rest + b;
      assert rest == "" ==> rest + b == b;
      assert Step(m, c, Head(rest + b)) == Step(m, c, Head(rest));
      assert Emit(m, c, Head(rest + b)) == Emit(m, c, Head(rest));
      ApartScan(Step(m, c, Head(rest)), rest, b);
      Associate(Emit(m, c, Head(rest)), Scan(Step(m, c, Head(rest)), rest), Scan(EndMode(m, a), b));
    }
  }

  lemma SameRest(a: string, x: string, b: string)
    requires EndMode(Normal, a) == Normal && Apart(a, x) && Apart(a, b) && Scan(Normal, x) == Scan(Normal, b)
    ensures Split(a + x) == Split(a + b)
  {
    ApartScan(Normal, a, x);
    ApartScan(Normal, a, b);
  }

  /** Cutting a line comment out of a text changes nothing, as long as the bytes around it do not join. */
  lemma LineCommentsAreTransparent(a: string, c: string, b: string)
    requires EndMode(Normal, a) == Normal && Apart(a, "--") && Apart(a, b) && '\n' !in c
    ensures Split(a + ("--" + (c + ("\n" + b)))) == Split(a + b)
  {
    OpenersScan(c + ("\n" + b));
    LineCommentScan(c, b);
    SameRest(a, "--" + (c + ("\n" + b)), b);
  }

  /** The same for a block comment. */
  lemma BlockCommentsAreTransparent(a: string, c: string, b: string)
    requires EndMode(Normal, a) == Normal && Apart(a, "/*") && Apart(a, b) && NoCloser(c)
    ensures Split(a + ("/*" + (c + ("*/" + b)))) == Split(a + b)
  {
    OpenersScan(c + ("*/" + b));
    BlockCommentScan(c, b);
    SameRest(a, "/*" + (c + ("*/" + b)), b);
  }

  // ---- Literals --------------------------------------------------------------------------------

  /** Inside a quote every byte but the quote itself is text. */
  lemma {:induction false} QuotedScan(q: char, c: string)
    requires q !in c
    ensures Plain(Quoted(q), c) && EndMode(Quoted(q), c) == Quoted(q)
    decreases c
  {
    if c == "" {
    } else {
      assert c[0] in c;
      assert forall d :: d in c[1..] ==> d in c;
      QuotedScan(q, c[1..]);
      PlainCons(Quoted(q), c);
    }
  }

  lemma {:induction false} QuotedPlainThen(q: char, c: string, b: string)
    requires q !in c && IsQuote(q)
    ensures Scan(Quoted(q), c + b) == Keeps(c) + Scan(Quoted(q), b)
    ensures EndMode(Quoted(q), c + b) == EndMode(Quoted(q), b)
    decreases c
  {
    if c == "" {
      assert c + b == b;
      assert Keeps(c) + Scan(Quoted(q), b) == Scan(Quoted(q), b);
    } else {
      assert c[0] in c;
      assert forall d :: d in c[1..] ==> d in c;
      assert (c + b)[1..] == c[1..] + b;
      QuotedPlainThen(q, c[1..], b);
      KeepsConcat([c[0]], c[1..]);
      assert [c[0]] + c[1..] == c;
      Associate([Keep(c[0])], Keeps(c[1..]), Scan(Quoted(q), b));
      assert Keeps([c[0]]) == [Keep(c[0])];
    }
  }

  /** A literal, closed or not. */
  lemma LiteralScan(q: char, c: string)
    requires IsQuote(q) && q !in c
    ensures Plain(Normal, [q] + c) && EndMode(Normal, [q] + c) == Quoted(q)
    ensures Plain(Normal, [q] + (c + [q])) && EndMode(Normal, [q] + (c + [q])) == Normal
  {
    QuotedScan(q, c);
    assert ([q] + c)[1..] == c && ([q] + (c + [q]))[1..] == c + [q];
    PlainCons(Normal, [q] + c);
    QuotedPlainThen(q, c, [q]);
    assert [q][1..] == "";
    assert Scan(Quoted(q), [q]) == [Keep(q)] == Keeps([q]);
    assert EndMode(Quoted(q), [q]) == Normal;
    KeepsConcat(c, [q]);
    PlainCons(Normal, [q] + (c + [q]));
  }

  /** A quoted literal is one statement, byte for byte, whatever separators, comments and other quotes it holds. */
  lemma LiteralsAreOpaque(a: string, q: char, c: string, b: string)
    requires EndMode(Normal, a) == Normal && (q == '\'' || q == '"' || q == '`') && q !in c
    ensures Split(a + ";" + ([q] + (c + [q]) + ";" + b)) == Split(a) + ([[q] + (c + [q])] + Split(b))
  {
    var literal := [q] + (c + [q]);
    LiteralScan(q, c);
    assert literal[|literal| - 1] == q;
    TrimIsIdentity(literal);
    SplitOfPlain(literal);
    SplitComposes(literal, b);
    SplitComposes(a, literal + ";" + b);
  }

  /** An open literal takes the rest of the text with it. */
  lemma OpenLiteralTakesTheRest(a: string, q: char, c: string)
    requires EndMode(Normal, a) == Normal && (q == '\'' || q == '"' || q == '`') && q !in c
    ensures Split(a + ";" + ([q] + c)) == Split(a) + [Trim([q] + c)]
  {
    var text := [q] + c;
    LiteralScan(q, c);
    PiecesOfKeeps("", text);
    assert "" + text == text;
    TrimKeepsNonSpace(text, 0);
    OneStatement(text);
    SplitComposes(a, text);
  }

  // ---- Plain text ------------------------------------------------------------------------------

  /** No quote, no semicolon, and nowhere the two bytes of a comment opener. */
  predicate Unmarked(s: string) {
    && (forall i | 0 <= i < |s| :: s[i] != '\'' && s[i] != '"' && s[i] != '`' && s[i] != ';')
    && (forall i | 0 <= i < |s| - 1 :: !(s[i] == '-' && s[i + 1] == '-') && !(s[i] == '/' && s[i + 1] == '*'))
  }

  lemma {:induction false} UnmarkedScan(s: string)
    requires Unmarked(s)
    ensures Plain(Normal, s) && EndMode(Normal, s) == Normal
    decreases s
  {
    if s == "" {
    } else {
      assert forall i | 0 <= i < |s| - 1 :: s[1..][i] == s[i + 1];
      assert |s| > 1 ==> s[1..][0] == s[1];
      UnmarkedScan(s[1..]);
      PlainCons(Normal, s);
    }
  }

  /** Any other text is one statement, trimmed. */
  lemma UnmarkedIsOneStatement(s: string)
    requires Unmarked(s)
    ensures Split(s) == if Trim(s) == "" then [] else [Trim(s)]
  {
    UnmarkedScan(s);
    PiecesOfKeeps("", s);
    assert "" + s == s;
    OneStatement(s);
  }
}
