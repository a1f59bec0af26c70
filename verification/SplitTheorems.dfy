/** What SplitStatements guarantees across calls: compositionality and the two round trips. */
module SplitTheorems {
  import opened Text
  import opened Lexer
  import opened Splitter

  // ---- Pieces ----------------------------------------------------------------------------------

  lemma {:induction false} PiecesConcat(current: string, xs: seq<Item>, ys: seq<Item>)
    ensures PiecesFrom(current, xs + [Cut] + ys) == PiecesFrom(current, xs) + PiecesFrom("", ys)
    decreases xs
  {
    if xs == [] {
      assert xs + [Cut] + ys == [Cut] + ys;
      PiecesOfCut(current, ys);
    } else {
      assert (xs + [Cut] + ys)[1..] == xs[1..] + [Cut] + ys;
      match xs[0] {
        case Keep(c) => PiecesConcat(current + [c], xs[1..], ys);
        case Cut =>
          PiecesConcat("", xs[1..], ys);
      }
    }
  }

  /** The items that pieces came from. */
  function Items(pieces: seq<string>): seq<Item>
    requires pieces != []
  {
    if |pieces| == 1 then Keeps(pieces[0]) else Keeps(pieces[0]) + [Cut] + Items(pieces[1..])
  }

  lemma {:induction false} PiecesInvert(current: string, items: seq<Item>)
    ensures Items(PiecesFrom(current, items)) == Keeps(current) + items
    decreases items
  {
    if items == [] {
    } else {
      match items[0] {
        case Keep(c) =>
          PiecesInvert(current + [c], items[1..]);
          KeepsConcat(current, [c]);
        case Cut =>
          PiecesInvert("", items[1..]);
          var rest := PiecesFrom("", items[1..]);
          assert ([current] + rest)[1..] == rest;
      }
    }
  }

  lemma {:induction false} PiecesOfKeeps(current: string, s: string)
    ensures PiecesFrom(current, Keeps(s)) == [current + s]
    decreases s
  {
    if s != "" {
      assert Keeps(s)[1..] == Keeps(s[1..]);
      PiecesOfKeeps(current + [s[0]], s[1..]);
      assert current + [s[0]] + s[1..] == current + s;
    } else {
      assert current + s == current;
    }
  }

  // ---- Compositionality ------------------------------------------------------------------------

  /** A text that ends in normal mode can be split on its own. */
  lemma SplitComposes(a: string, b: string)
    requires EndMode(Normal, a) == Normal
    ensures Split(a + ";" + b) == Split(a) + Split(b)
  {
    assert a + ";" + b == a + (";" + b);
    ScanConcat(Normal, a, ";" + b);
    assert (";" + b)[1..] == b;
    var xs, ys := Scan(Normal, a), Scan(Normal, b);
    assert Scan(Normal, a + ";" + b) == xs + [Cut] + ys;
    PiecesConcat("", xs, ys);
    StatementsConcat(PiecesFrom("", xs), PiecesFrom("", ys));
  }

  /** Keeping more bytes on the end never turns one piece into two. */
  lemma {:induction false} PiecesExtend(current: string, xs: seq<Item>, s: string)
    ensures
      var p := PiecesFrom(current, xs);
      PiecesFrom(current, xs + Keeps(s)) == p[..|p| - 1] + [p[|p| - 1] + s]
    decreases xs
  {
    if xs == [] {
      assert xs + Keeps(s) == Keeps(s);
      PiecesOfKeeps(current, s);
    } else {
      var rest := xs[1..];
      assert xs == [xs[0]] + rest;
      assert xs + Keeps(s) == [xs[0]] + (rest + Keeps(s));
      match xs[0] {
        case Keep(c) =>
          PiecesOfKeep(current, c, rest);
          PiecesOfKeep(current, c, rest + Keeps(s));
          PiecesExtend(current + [c], rest, s);
        case Cut =>
          PiecesOfCut(current, rest);
          PiecesOfCut(current, rest + Keeps(s));
          PiecesExtend("", rest, s);
          var p := PiecesFrom("", rest);
          assert ([current] + p)[..|p|] == [current] + p[..|p| - 1];
          Associate([current], p[..|p| - 1], [p[|p| - 1] + s]);
      }
    }
  }

  /** A lexer that stands inside a quote has collected at least the opening quote. */
  lemma {:induction false} OpenQuoteIsCollected(current: string, m: Mode, s: string)
    requires m.Quoted? ==> Trim(current) != ""
    requires EndMode(m, s).Quoted?
    ensures
      var p := PiecesFrom(current, Scan(m, s));
      Trim(p[|p| - 1]) != ""
    decreases s
  {
    if s == "" {
    } else {
      var next := Head(s[1..]);
      var m', items, rest := Step(m, s[0], next), Emit(m, s[0], next), Scan(Step(m, s[0], next), s[1..]);
      if items == [] {
        assert items + rest == rest;
        OpenQuoteIsCollected(current, m', s[1..]);
      } else if items[0].Keep? {
        if m'.Quoted? {
          CollectedStays(current, s[0], m.Quoted?);
        }
        PiecesOfKeep(current, s[0], rest);
        OpenQuoteIsCollected(current + [s[0]], m', s[1..]);
      } else {
        PiecesOfCut(current, rest);
        OpenQuoteIsCollected("", m', s[1..]);
      }
    }
  }

  lemma CollectedStays(current: string, c: char, already: bool)
    requires already ==> Trim(current) != ""
    requires !already ==> !IsSpace(c)
    ensures Trim(current + [c]) != ""
  {
    if already {
      var before, after := TrimCuts(current);
      assert current[|before|] == Trim(current)[0];
      TrimKeepsNonSpace(current + [c], |before|);
    } else {
      TrimKeepsNonSpace(current + [c], |current|);
    }
  }

  lemma {:induction false} QuoteModesAreQuotes(m: Mode, s: string)
    requires m.Quoted? ==> IsQuote(m.delimiter)
    ensures EndMode(m, s).Quoted? ==> IsQuote(EndMode(m, s).delimiter)
    ensures EndMode(m, s) == BlockOpen || EndMode(m, s) == BlockClose ==> s == ""
    decreases s
  {
    if s == "" {
    } else {
      QuoteModesAreQuotes(Step(m, s[0], Head(s[1..])), s[1..]);
    }
  }

  lemma GrownStaysVisible(s: string, more: string)
    requires Trim(s) != ""
    ensures Trim(s + more) != ""
  {
    var before, after := TrimCuts(s);
    assert (s + more)[|before|] == Trim(s)[0];
    TrimKeepsNonSpace(s + more, |before|);
  }

  lemma QuotedTail(e: Mode)
    requires e.Quoted? && IsQuote(e.delimiter)
    ensures Scan(e, ";x") == Keeps(";x")
  {
    assert ";x"[1..] == "x";
    assert Scan(e, "x") == [Keep('x')];
    assert Scan(e, ";x") == [Keep(';')] + Scan(e, "x");
  }

  /** A last piece that is not blank may grow: it stays one statement. */
  lemma GrownLastPiece(p: seq<string>, last: string, more: string)
    requires Trim(last) != ""
    ensures |Statements(p + [last + more])| == |Statements(p + [last])|
  {
    GrownStaysVisible(last, more);
    StatementsSnoc(p, last);
    StatementsSnoc(p, last + more);
  }

  lemma ExtendedQuoteIsOneStatement(a: string)
    requires EndMode(Normal, a).Quoted?
    ensures |Split(a + ";x")| == |Split(a)|
  {
    QuoteModesAreQuotes(Normal, a);
    QuotedTail(EndMode(Normal, a));
    ScanConcat(Normal, a, ";x");
    OpenQuoteIsCollected("", Normal, a);
    var p := PiecesFrom("", Scan(Normal, a));
    var n := |p| - 1;
    PiecesExtend("", Scan(Normal, a), ";x");
    assert p == p[..n] + [p[n]];
    GrownLastPiece(p[..n], p[n], ";x");
  }

  lemma SwallowedTail(a: string)
    requires InComment(EndMode(Normal, a))
    ensures Split(a + ";x") == Split(a)
  {
    var e := EndMode(Normal, a);
    QuoteModesAreQuotes(Normal, a);
    ScanConcat(Normal, a, ";x");
    assert ";x"[1..] == "x";
    assert Scan(e, "x") == [];
    assert Scan(e, ";x") == [];
    assert Scan(Normal, a) + [] == Scan(Normal, a);
  }

  lemma OneLetterSplits()
    ensures Split("x") == ["x"]
  {
    assert Plain(Normal, "x") by {
      assert "x"[1..] == "";
    }
    assert Trim("x") == "x" by {
      assert !IsSpace("x"[0]);
      TrimIsIdentity("x");
    }
    SplitOfPlain("x");
  }

  /** Splitting at a top-level semicolon commutes with concatenation exactly for texts that end in normal mode. */
  lemma ComposesExactly(a: string)
    ensures EndMode(Normal, a) == Normal <==> forall b :: Split(a + ";" + b) == Split(a) + Split(b)
  {
    if EndMode(Normal, a) == Normal {
      forall b
        ensures Split(a + ";" + b) == Split(a) + Split(b)
      {
        SplitComposes(a, b);
      }
    } else {
      if EndMode(Normal, a).Quoted? {
        ExtendedQuoteIsOneStatement(a);
      } else {
        SwallowedTail(a);
      }
      assert a + ";" + "x" == a + ";x";
      OneLetterSplits();
      assert Split(a + ";" + "x") != Split(a) + Split("x");
    }
  }

  // ---- Round trips -----------------------------------------------------------------------------

  /** A statement that survives being written out with ";" after it and split again. */
  predicate Clean(st: string) {
    st != "" && Trim(st) == st && Plain(Normal, st) && EndMode(Normal, st) == Normal
  }

  /** The last statement has no ";" after it and may leave a quote open. */
  predicate CleanLast(st: string) {
    st != "" && Trim(st) == st && Plain(Normal, st)
  }

  predicate CleanList(ss: seq<string>) {
    ss == [] || (CleanLast(ss[|ss| - 1]) && forall i | 0 <= i < |ss| - 1 :: Clean(ss[i]))
  }

  lemma SplitOfPlain(st: string)
    requires CleanLast(st)
    ensures Split(st) == [st]
  {
    PiecesOfKeeps("", st);
    assert "" + st == st;
    OneStatement(st);
  }

  lemma {:induction false} CleanListsRoundTrip(ss: seq<string>)
    requires CleanList(ss)
    ensures Split(Join(ss)) == ss
  {
    if |ss| == 1 {
      SplitOfPlain(ss[0]);
    } else if |ss| > 1 {
      CleanListsRoundTrip(ss[1..]);
      SplitComposes(ss[0], Join(ss[1..]));
      SplitOfPlain(ss[0]);
    } else {
      TrimAllSpace("");
    }
  }

  function Total(ss: seq<string>): nat {
    if ss == [] then 0 else |ss[0]| + Total(ss[1..])
  }

  lemma TrimIsShort(s: string)
    ensures |Trim(s)| <= |s|
    ensures |Trim(s)| == |s| ==> Trim(s) == s
  {
    var before, after := TrimCuts(s);
    if |Trim(s)| == |s| {
      assert before == "" && after == "";
    }
  }

  /** Trimming and filtering lose no byte and no piece only when they change nothing. */
  lemma {:induction false} StatementsShrink(pieces: seq<string>)
    ensures |Statements(pieces)| <= |pieces| && Total(Statements(pieces)) <= Total(pieces)
    ensures |Statements(pieces)| == |pieces| && Total(Statements(pieces)) == Total(pieces) ==>
      Statements(pieces) == pieces
  {
    if pieces == [] {
    } else {
      StatementsShrink(pieces[1..]);
      TrimIsShort(pieces[0]);
      assert [] + Statements(pieces[1..]) == Statements(pieces[1..]);
      assert ([Trim(pieces[0])] + Statements(pieces[1..]))[1..] == Statements(pieces[1..]);
    }
  }

  lemma {:induction false} ItemsSize(pieces: seq<string>)
    requires pieces != []
    ensures |Items(pieces)| == Total(pieces) + |pieces| - 1
  {
    if |pieces| <= 1 {
    } else {
      ItemsSize(pieces[1..]);
    }
  }

  lemma {:induction false} JoinSize(ss: seq<string>)
    requires ss != []
    ensures |Join(ss)| == Total(ss) + |ss| - 1
  {
    if |ss| <= 1 {
    } else {
      JoinSize(ss[1..]);
    }
  }

  lemma NoRoomForLoss(pieces: seq<string>, ss: seq<string>)
    requires ss != [] && pieces != [] && Statements(pieces) == ss
    requires Total(pieces) + |pieces| <= Total(ss) + |ss|
    ensures pieces == ss
  {
    StatementsShrink(pieces);
  }

  /** If nothing is lost on the way back, then the text scans to exactly the joined statements. */
  lemma RoundTripLosesNothing(ss: seq<string>, items: seq<Item>)
    requires ss != [] && items == Scan(Normal, Join(ss)) && Statements(PiecesFrom("", items)) == ss
    ensures items == Items(ss)
  {
    var pieces := PiecesFrom("", items);
    assert Items(pieces) == items by {
      PiecesInvert("", items);
      assert Keeps("") + items == items;
    }
    assert |items| <= Total(ss) + |ss| - 1 by {
      JoinSize(ss);
      ScanIsShort(Normal, Join(ss));
    }
    ItemsSize(pieces);
    NoRoomForLoss(pieces, ss);
  }

  /** The first statement of an exact scan is clean, and the rest scans exactly again. */
  lemma FirstIsClean(x: string, tail: string, items: seq<Item>)
    requires tail != "" && tail[0] == ';' && |items| == |tail| - 1
    requires Scan(Normal, x + tail) == Keeps(x) + ([Cut] + items)
    ensures Plain(Normal, x) && EndMode(Normal, x) == Normal && Scan(Normal, tail[1..]) == items
  {
    BothFull(Normal, x, tail);
    SameCut(Scan(Normal, x), Scan(EndMode(Normal, x), tail), Keeps(x), [Cut] + items);
    CutFirst(EndMode(Normal, x), tail, items);
  }

  lemma CutFirst(e: Mode, tail: string, items: seq<Item>)
    requires tail != "" && tail[0] == ';' && |items| == |tail| - 1
    requires Scan(e, tail) == [Cut] + items
    ensures e == Normal && Scan(Normal, tail[1..]) == items
  {
    var next := Head(tail[1..]);
    var first, rest := Emit(e, ';', next), Scan(Step(e, ';', next), tail[1..]);
    ScanIsShort(Step(e, ';', next), tail[1..]);
    assert |first| == 1;
    SameCut(first, rest, [Cut], items);
  }

  lemma {:induction false} ExactScanIsClean(ss: seq<string>)
    requires ss != [] && Scan(Normal, Join(ss)) == Items(ss)
    ensures Plain(Normal, ss[|ss| - 1])
    ensures forall i | 0 <= i < |ss| - 1 :: Plain(Normal, ss[i]) && EndMode(Normal, ss[i]) == Normal
  {
    if |ss| <= 1 {
    } else {
      var x, rest := ss[0], Join(ss[1..]);
      assert Join(ss) == x + (";" + rest);
      assert (";" + rest)[1..] == rest;
      ItemsSize(ss[1..]);
      JoinSize(ss[1..]);
      Associate(Keeps(x), [Cut], Items(ss[1..]));
      FirstIsClean(x, ";" + rest, Items(ss[1..]));
      ExactScanIsClean(ss[1..]);
      forall i | 0 < i < |ss| - 1
        ensures Plain(Normal, ss[i]) && EndMode(Normal, ss[i]) == Normal
      {
        assert ss[i] == ss[1..][i - 1];
      }
    }
  }

  lemma {:induction false} StatementsAreTrimmed(pieces: seq<string>)
    ensures forall st | st in Statements(pieces) :: st != "" && Trim(st) == st
  {
    if pieces == [] {
    } else {
      StatementsAreTrimmed(pieces[1..]);
      TrimIdempotent(pieces[0]);
    }
  }

  /** Round trip: a list of statements comes back from its joined text exactly when it is clean. */
  lemma RoundTripExactly(ss: seq<string>)
    ensures Split(Join(ss)) == ss <==> CleanList(ss)
  {
    if CleanList(ss) {
      CleanListsRoundTrip(ss);
    }
    if Split(Join(ss)) == ss && ss != [] {
      RoundTripLosesNothing(ss, Scan(Normal, Join(ss)));
      ExactScanIsClean(ss);
      StatementsAreTrimmed(PiecesFrom("", Scan(Normal, Join(ss))));
      assert forall i | 0 <= i < |ss| :: ss[i] in ss;
    }
  }

  // ---- Splitting again -------------------------------------------------------------------------

  /** The quote mode after `s` when no byte is taken for a comment. */
  function ToggleEnd(m: Mode, s: string): Mode {
    if s == "" then m else Step(ToggleEnd(m, s[..|s| - 1]), s[|s| - 1], None)
  }

  /** No byte of `s` is a semicolon outside quotes. */
  predicate Uncut(m: Mode, s: string) {
    s == "" || (Uncut(m, s[..|s| - 1]) && Emit(ToggleEnd(m, s[..|s| - 1]), s[|s| - 1], None) == [Keep(s[|s| - 1])])
  }

  lemma ToggleLast(m: Mode, s: string, c: char)
    ensures ToggleEnd(m, s + [c]) == Step(ToggleEnd(m, s), c, None)
    ensures Uncut(m, s + [c]) <==> Uncut(m, s) && Emit(ToggleEnd(m, s), c, None) == [Keep(c)]
  {
    assert (s + [c])[..|s|] == s;
  }

  lemma {:induction false} ToggleConcat(m: Mode, a: string, b: string)
    ensures ToggleEnd(m, a + b) == ToggleEnd(ToggleEnd(m, a), b)
    ensures Uncut(m, a + b) <==> Uncut(m, a) && Uncut(ToggleEnd(m, a), b)
    decreases b
  {
    if b == "" {
      assert a + b == a;
    } else {
      var b', c := b[..|b| - 1], b[|b| - 1];
      ToggleConcat(m, a, b');
      ToggleLast(m, a + b', c);
      assert a + b == a + b' + [c];
    }
  }

  lemma ToggleFirst(m: Mode, s: string)
    requires s != ""
    ensures ToggleEnd(m, s) == ToggleEnd(Step(m, s[0], None), s[1..])
    ensures Uncut(m, s) <==> Emit(m, s[0], None) == [Keep(s[0])] && Uncut(Step(m, s[0], None), s[1..])
  {
    assert [s[0]] + s[1..] == s;
    ToggleConcat(m, [s[0]], s[1..]);
    assert [s[0]][..0] == "";
  }

  lemma LookaheadIsIdle(m: Mode, c: char, next: Option<char>)
    requires !InComment(m) && !(m == Normal && OpensComment(c, next))
    ensures Step(m, c, next) == Step(m, c, None) && Emit(m, c, next) == Emit(m, c, None)
  {}

  /** Without comments the lexer is the toggle automaton. */
  lemma {:induction false} CommentFreeToggles(m: Mode, s: string)
    requires CommentFree(m, s)
    ensures EndMode(m, s) == ToggleEnd(m, s)
    ensures Uncut(m, s) ==> Plain(m, s)
    decreases s
  {
    if s == "" {
    } else {
      LookaheadIsIdle(m, s[0], Head(s[1..]));
      ToggleFirst(m, s);
      CommentFreeToggles(Step(m, s[0], None), s[1..]);
      if Uncut(m, s) {
        PlainCons(m, s);
      }
    }
  }

  /** Pieces hold no top-level semicolon, and all but the last close their quotes. */
  predicate WellQuoted(pieces: seq<string>) {
    forall i | 0 <= i < |pieces| ::
      Uncut(Normal, pieces[i]) && (i < |pieces| - 1 ==> ToggleEnd(Normal, pieces[i]) == Normal)
  }

  /** The quote mode that the collected bytes have led to. */
  function Base(m: Mode): Mode {
    if InComment(m) then Normal else m
  }

  lemma StepOnBase(m: Mode, c: char, next: Option<char>)
    ensures
      var m', items := Step(m, c, next), Emit(m, c, next);
      if items == [] then Base(m') == Base(m)
      else if items[0].Keep? then
        && items == [Keep(c)] == Emit(Base(m), c, None)
        && Base(m') == Step(Base(m), c, None)
      else items == [Cut] && Base(m) == Base(m') == Normal
  {}

  lemma WellQuotedCons(p: string, rest: seq<string>)
    requires Uncut(Normal, p) && ToggleEnd(Normal, p) == Normal && WellQuoted(rest)
    ensures WellQuoted([p] + rest)
  {
    assert forall i | 0 < i < |[p] + rest| :: ([p] + rest)[i] == rest[i - 1];
  }

  lemma {:induction false} PiecesAreWellQuoted(current: string, m: Mode, s: string)
    requires Uncut(Normal, current) && ToggleEnd(Normal, current) == Base(m)
    ensures WellQuoted(PiecesFrom(current, Scan(m, s)))
    decreases s
  {
    if s == "" {
    } else {
      var next := Head(s[1..]);
      var m', items, rest := Step(m, s[0], next), Emit(m, s[0], next), Scan(Step(m, s[0], next), s[1..]);
      StepOnBase(m, s[0], next);
      if items == [] {
        assert items + rest == rest;
        PiecesAreWellQuoted(current, m', s[1..]);
      } else if items[0].Keep? {
        ToggleLast(Normal, current, s[0]);
        PiecesOfKeep(current, s[0], rest);
        PiecesAreWellQuoted(current + [s[0]], m', s[1..]);
      } else {
        PiecesOfCut(current, rest);
        PiecesAreWellQuoted("", m', s[1..]);
        WellQuotedCons(current, PiecesFrom("", rest));
      }
    }
  }

  lemma {:induction false} SpaceTogglesNothing(m: Mode, s: string)
    requires AllSpace(s) && (m.Quoted? ==> IsQuote(m.delimiter)) && !InComment(m)
    ensures ToggleEnd(m, s) == m
  {
    if s == "" {
    } else {
      assert IsSpace(s[|s| - 1]);
      SpaceTogglesNothing(m, s[..|s| - 1]);
    }
  }

  lemma {:induction false} ToggleModes(s: string)
    ensures ToggleEnd(Normal, s) == Normal || (ToggleEnd(Normal, s).Quoted? && IsQuote(ToggleEnd(Normal, s).delimiter))
  {
    if s == "" {
    } else {
      ToggleModes(s[..|s| - 1]);
    }
  }

  lemma TrimKeepsQuoting(p: string)
    ensures Uncut(Normal, p) ==> Uncut(Normal, Trim(p))
    ensures ToggleEnd(Normal, Trim(p)) == ToggleEnd(Normal, p)
  {
    var before, after := TrimCuts(p);
    ToggleConcat(Normal, before + Trim(p), after);
    ToggleConcat(Normal, before, Trim(p));
    SpaceTogglesNothing(Normal, before);
    ToggleModes(Trim(p));
    SpaceTogglesNothing(ToggleEnd(Normal, Trim(p)), after);
  }

  lemma {:induction false} StatementsAreWellQuoted(pieces: seq<string>)
    requires WellQuoted(pieces)
    ensures WellQuoted(Statements(pieces))
  {
    if pieces == [] {
    } else {
      assert forall i | 0 <= i < |pieces| - 1 :: pieces[1..][i] == pieces[i + 1];
      StatementsAreWellQuoted(pieces[1..]);
      TrimKeepsQuoting(pieces[0]);
      var rest := Statements(pieces[1..]);
      assert [] + rest == rest;
      if rest == [] {
        assert [Trim(pieces[0])] + rest == [Trim(pieces[0])];
      } else {
        WellQuotedCons(Trim(pieces[0]), rest);
      }
    }
  }

  /** A trimmed, well-quoted statement is clean as soon as it opens no comment. */
  lemma CleanMeansCommentFree(st: string, last: bool)
    requires st != "" && Trim(st) == st && Uncut(Normal, st) && (!last ==> ToggleEnd(Normal, st) == Normal)
    ensures CommentFree(Normal, st) <==> CleanLast(st) && (!last ==> Clean(st))
  {
    if CommentFree(Normal, st) {
      CommentFreeToggles(Normal, st);
    }
    if CleanLast(st) {
      PlainIsCommentFree(Normal, st);
    }
  }

  lemma CleanListMeansCommentFree(ss: seq<string>)
    requires WellQuoted(ss) && forall i | 0 <= i < |ss| :: ss[i] != "" && Trim(ss[i]) == ss[i]
    ensures CleanList(ss) <==> forall i | 0 <= i < |ss| :: CommentFree(Normal, ss[i])
  {
    forall i | 0 <= i < |ss|
      ensures CommentFree(Normal, ss[i]) <==> CleanLast(ss[i]) && (i < |ss| - 1 ==> Clean(ss[i]))
    {
      CleanMeansCommentFree(ss[i], i == |ss| - 1);
    }
  }

  predicate AllCommentFree(texts: seq<string>) {
    forall t | t in texts :: CommentFree(Normal, t)
  }

  /** Splitting the joined output again changes nothing exactly when no output statement reads as a comment opener. */
  lemma ResplitOfStatements(sql: string)
    ensures Split(Join(Split(sql))) == Split(sql) <==> AllCommentFree(Split(sql))
  {
    var pieces := PiecesFrom("", Scan(Normal, sql));
    var ss := Statements(pieces);
    RoundTripExactly(ss);
    PiecesAreWellQuoted("", Normal, sql);
    StatementsAreWellQuoted(pieces);
    StatementsAreTrimmed(pieces);
    assert forall i | 0 <= i < |ss| :: ss[i] in ss;
    CleanListMeansCommentFree(ss);
  }

  // ---- The exact condition on the input --------------------------------------------------------

  lemma OneByteOpensNothing(m: Mode, c: char)
    ensures CommentFree(m, [c]) <==> !InComment(m)
  {
    assert [c][1..] == "";
  }

  /** A comment opener inside a text is seen one byte later. */
  lemma {:induction false} CommentFreeLast(m: Mode, s: string, x: char, c: char)
    ensures CommentFree(m, s + [x] + [c]) <==>
      CommentFree(m, s + [x]) && !(ToggleEnd(m, s) == Normal && OpensComment(x, Some(c)))
    decreases s
  {
    if s == "" {
      assert s + [x] + [c] == [x] + [c] && s + [x] == [x];
      assert ([x] + [c])[1..] == [c];
      OneByteOpensNothing(m, x);
      OneByteOpensNothing(Step(m, x, Some(c)), c);
    } else {
      assert (s + [x] + [c])[1..] == s[1..] + [x] + [c] && (s + [x])[1..] == s[1..] + [x];
      assert Head(s[1..] + [x] + [c]) == Head(s[1..] + [x]);
      var next := Head(s[1..] + [x]);
      if !InComment(m) && !(m == Normal && OpensComment(s[0], next)) {
        LookaheadIsIdle(m, s[0], next);
        ToggleFirst(m, s);
        CommentFreeLast(Step(m, s[0], None), s[1..], x, c);
      }
    }
  }

  /** The last byte of `current`, where it was read outside quotes. */
  function LastOpen(current: string): Option<char> {
    if current == "" || ToggleEnd(Normal, current[..|current| - 1]) != Normal then None
    else Some(current[|current| - 1])
  }

  lemma CommentFreeGrows(current: string, c: char)
    ensures CommentFree(Normal, current + [c]) <==>
      CommentFree(Normal, current) && !(LastOpen(current).Some? && OpensComment(LastOpen(current).value, Some(c)))
    ensures LastOpen(current + [c]) == if ToggleEnd(Normal, current) == Normal then Some(c) else None
  {
    assert (current + [c])[..|current|] == current;
    if current == "" {
      assert current + [c] == [c];
      OneByteOpensNothing(Normal, c);
    } else {
      var init, x := current[..|current| - 1], current[|current| - 1];
      assert init + [x] == current;
      CommentFreeLast(Normal, init, x, c);
    }
  }

  /** A quote that has just been opened is its own last byte, and no comment starts with it. */
  lemma InsideQuotesNothingGlues(current: string, c: char)
    requires ToggleEnd(Normal, current) != Normal
    ensures !(LastOpen(current).Some? && OpensComment(LastOpen(current).value, Some(c)))
  {
    if LastOpen(current).Some? {
      ToggleLast(Normal, current[..|current| - 1], current[|current| - 1]);
    }
  }

  /**
   Dropping the comments of `s` puts no two bytes together that open one: `last` is the last byte that the current
   statement has kept outside quotes. A comment leaves it standing; a separator or a quoted byte forgets it.
   */
  predicate GlueFree(m: Mode, last: Option<char>, s: string)
    decreases s
  {
    s == "" ||
    var m', items, rest := Step(m, s[0], Head(s[1..])), Emit(m, s[0], Head(s[1..])), s[1..];
    if items == [] then GlueFree(m', last, rest)
    else if m != Normal || items == [Cut] then GlueFree(m', None, rest)
    else !(last.Some? && OpensComment(last.value, Some(s[0]))) && GlueFree(m', Some(s[0]), rest)
  }

  /** A piece that has opened a comment cannot lose it by growing. */
  lemma {:induction false} GluedPieceStays(current: string, items: seq<Item>)
    requires !CommentFree(Normal, current)
    ensures !AllCommentFree(PiecesFrom(current, items))
    decreases items
  {
    if items == [] {
      assert current in [current];
    } else {
      match items[0] {
        case Keep(c) =>
          CommentFreeGrows(current, c);
          GluedPieceStays(current + [c], items[1..]);
        case Cut =>
          assert current in [current] + PiecesFrom("", items[1..]);
      }
    }
  }

  lemma AllCommentFreeCons(p: string, rest: seq<string>)
    ensures AllCommentFree([p] + rest) <==> CommentFree(Normal, p) && AllCommentFree(rest)
  {
    assert forall t :: t in [p] + rest <==> t == p || t in rest;
  }

  lemma {:induction false} GlueFreePieces(current: string, m: Mode, s: string)
    requires CommentFree(Normal, current) && ToggleEnd(Normal, current) == Base(m)
    ensures GlueFree(m, LastOpen(current), s) <==> AllCommentFree(PiecesFrom(current, Scan(m, s)))
    decreases s
  {
    if s == "" {
      assert PiecesFrom(current, []) == [current];
    } else {
      var c, next := s[0], Head(s[1..]);
      var m', items, rest := Step(m, c, next), Emit(m, c, next), Scan(Step(m, c, next), s[1..]);
      StepOnBase(m, c, next);
      if items == [] {
        assert items + rest == rest;
        GlueFreePieces(current, m', s[1..]);
      } else if items == [Cut] {
        PiecesOfCut(current, rest);
        AllCommentFreeCons(current, PiecesFrom("", rest));
        GlueFreePieces("", m', s[1..]);
      } else {
        PiecesOfKeep(current, c, rest);
        ToggleLast(Normal, current, c);
        CommentFreeGrows(current, c);
        if m != Normal {
          InsideQuotesNothingGlues(current, c);
        }
        if CommentFree(Normal, current + [c]) {
          GlueFreePieces(current + [c], m', s[1..]);
        } else {
          GluedPieceStays(current + [c], rest);
        }
      }
    }
  }

  lemma {:induction false} LeadingSpaceIsNeutral(before: string, s: string)
    requires AllSpace(before)
    ensures CommentFree(Normal, before + s) <==> CommentFree(Normal, s)
    decreases before
  {
    if before == "" {
      assert before + s == s;
    } else {
      assert IsSpace(before[0]);
      assert (before + s)[1..] == before[1..] + s;
      LeadingSpaceIsNeutral(before[1..], s);
    }
  }

  lemma TrimKeepsComments(p: string)
    ensures CommentFree(Normal, Trim(p)) <==> CommentFree(Normal, p)
  {
    var before, after := TrimCuts(p);
    assert before + Trim(p) + after == before + (Trim(p) + after);
    LeadingSpaceIsNeutral(before, Trim(p) + after);
    assert after != "" ==> IsSpace(after[0]);
    CommentFreeConcat(Normal, Trim(p), after);
    if CommentFree(Normal, Trim(p)) {
      var e := EndMode(Normal, Trim(p));
      CommentFreeToggles(Normal, Trim(p));
      ToggleModes(Trim(p));
      SpaceIsPlain(e, after);
      PlainIsCommentFree(e, after);
    }
  }

  lemma {:induction false} StatementsShowComments(pieces: seq<string>)
    ensures AllCommentFree(Statements(pieces)) <==> AllCommentFree(pieces)
  {
    if pieces == [] {
    } else {
      var rest := Statements(pieces[1..]);
      StatementsShowComments(pieces[1..]);
      TrimKeepsComments(pieces[0]);
      AllCommentFreeCons(pieces[0], pieces[1..]);
      assert [pieces[0]] + pieces[1..] == pieces;
      if Trim(pieces[0]) == "" {
        assert [] + rest == rest;
      } else {
        AllCommentFreeCons(Trim(pieces[0]), rest);
      }
    }
  }

  /**
   Splitting, joining and splitting again changes nothing if and only if dropping comments has put no comment opener
   together.
   */
  lemma ResplitExactly(sql: string)
    ensures Split(Join(Split(sql))) == Split(sql) <==> GlueFree(Normal, None, sql)
  {
    ResplitOfStatements(sql);
    StatementsShowComments(PiecesFrom("", Scan(Normal, sql)));
    GlueFreePieces("", Normal, sql);
  }

  lemma {:induction false} CommentFreeIsGlueFree(m: Mode, last: Option<char>, s: string)
    requires CommentFree(m, s)
    requires m == Normal && s != "" && last.Some? ==> !OpensComment(last.value, Some(s[0]))
    ensures GlueFree(m, last, s)
    decreases s
  {
    if s == "" {
    } else {
      var m', items := Step(m, s[0], Head(s[1..])), Emit(m, s[0], Head(s[1..]));
      CommentFreeIsGlueFree(m', if m == Normal && items != [Cut] then Some(s[0]) else None, s[1..]);
    }
  }

  /** A text without comments has nothing to glue: it can be split, joined and split again. */
  lemma CommentFreeTextsResplit(sql: string)
    requires CommentFree(Normal, sql)
    ensures Split(Join(Split(sql))) == Split(sql)
  {
    CommentFreeIsGlueFree(Normal, None, sql);
    ResplitExactly(sql);
  }

  lemma SkippedComment()
    ensures Scan(BlockOpen, "**/-") == [Keep('-')]
  {
    assert "-"[1..] == "" && "/-"[1..] == "-" && "*/-"[1..] == "/-" && "**/-"[1..] == "*/-";
    assert Scan(Normal, "-") == [Keep('-')];
    assert Scan(BlockClose, "/-") == [Keep('-')];
    assert Scan(BlockComment, "*/-") == [Keep('-')];
  }

  lemma GluedScan()
    ensures Scan(Normal, "-/**/-") == Keeps("--")
  {
    SkippedComment();
    assert "/**/-"[1..] == "**/-";
    assert Scan(Normal, "/**/-") == [Keep('-')];
    assert "-/**/-"[1..] == "/**/-";
  }

  lemma DashesVanish()
    ensures Split("--") == []
  {
    assert "--"[1..] == "-" && "-"[1..] == "";
    assert Scan(LineComment, "-") == [];
    assert Scan(Normal, "--") == [];
    OneStatement("");
    TrimAllSpace("");
  }

  lemma DashesAreTrimmed()
    ensures Trim("--") == "--"
  {
    assert "--"[0] == '-' && "--"[1] == '-';
    assert !IsSpace('-');
    TrimIsIdentity("--");
  }

  /** Removing a comment can put the two bytes of a new comment opener side by side. */
  lemma CommentsCanGlue()
    ensures Split("-/**/-") == ["--"] && Split(Join(["--"])) == []
    ensures !GlueFree(Normal, None, "-/**/-")
  {
    GluedScan();
    PiecesOfKeeps("", "--");
    assert "" + "--" == "--";
    DashesAreTrimmed();
    OneStatement("--");
    DashesVanish();
    ResplitExactly("-/**/-");
  }
}
