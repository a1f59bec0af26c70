/** Appending LIMIT and OFFSET: internal/sqlnorm/sqlnorm.go and internal/sqlnorm/pagination.go. */
module Rewrite {
  import opened Text
  import opened Lexer
  import opened Keywords
  import opened Itoa
  import Splitter
  import SplitTheorems

  /** The statement without surrounding white space and without one trailing semicolon. */
  function Core(sql: string): string {
    var s := Trim(sql);
    if s != "" && s[|s| - 1] == ';' then s[..|s| - 1] else s
  }

  function Suffix(sql: string): string {
    var s := Trim(sql);
    if s != "" && s[|s| - 1] == ';' then ";" else ""
  }

  function AppendClause(sql: string, word: string, n: Int64): Go<string> {
    var numeral :- Printed(n);
    Returned(Core(sql) + (" " + word + " " + numeral) + Suffix(sql))
  }

  function AppendLimit(sql: string, limit: Int64): Go<string> {
    AppendClause(sql, "LIMIT", limit)
  }

  function AppendOffset(sql: string, offset: Int64): Go<string> {
    AppendClause(sql, "OFFSET", offset)
  }

  // ---- Keywords in an appended text ------------------------------------------------------------

  lemma StandsLeft(a: string, b: string, word: string, i: nat)
    requires IsWord(word) && b != "" && b[0] == ' ' && i + |word| <= |a|
    ensures StandsAt(a + b, word, i) <==> StandsAt(a, word, i)
  {
    assert (a + b)[i..i + |word|] == a[i..i + |word|];
  }

  lemma StandsRight(a: string, b: string, word: string, i: nat)
    requires IsWord(word) && b != "" && b[0] == ' ' && i + |word| <= |b|
    ensures StandsAt(a + b, word, |a| + i) <==> StandsAt(b, word, i)
  {
    assert (a + b)[|a| + i..|a| + i + |word|] == b[i..i + |word|];
    assert OccursAt(b, word, i) ==> b[i..i + |word|][0] == b[i];
  }

  lemma NoStraddle(a: string, b: string, word: string, i: nat)
    requires IsWord(word) && b != "" && b[0] == ' ' && i <= |a| < i + |word|
    ensures !OccursAt(a + b, word, i)
  {
    OccursByte(a + b, word, i, |a| - i);
  }

  lemma StandsBehind(a: string, b: string, word: string, i: nat)
    requires IsWord(word) && b != "" && b[0] == ' ' && |a| < i + |word|
    ensures StandsAt(a + b, word, i) <==> i > |a| && StandsAt(b, word, i - |a|)
  {
    if i <= |a| {
      NoStraddle(a, b, word, i);
    } else if i - |a| + |word| <= |b| {
      StandsRight(a, b, word, i - |a|);
    }
  }

  /** A blank separates: a word stands in a text exactly when it stands on one side of it. */
  lemma StandsConcat(a: string, b: string, word: string)
    requires IsWord(word) && b != "" && b[0] == ' '
    ensures Stands(a + b, word) <==> Stands(a, word) || Stands(b, word)
  {
    if Stands(a + b, word) {
      var i :| 0 <= i < |a + b| && StandsAt(a + b, word, i);
      if i + |word| <= |a| {
        StandsLeft(a, b, word, i);
      } else if i <= |a| {
        NoStraddle(a, b, word, i);
      } else {
        StandsRight(a, b, word, i - |a|);
      }
    }
    if i :| 0 <= i < |a| && StandsAt(a, word, i) {
      StandsLeft(a, b, word, i);
    }
    if i :| 0 <= i < |b| && StandsAt(b, word, i) {
      StandsRight(a, b, word, i);
    }
  }

  predicate NoQuotes(s: string) {
    forall i | 0 <= i < |s| :: s[i] != '\'' && s[i] != '"'
  }

  lemma {:induction false} StateOfPrefix(a: string, b: string, i: nat)
    requires i <= |a|
    ensures StateAt(a + b, i) == StateAt(a, i)
  {
    if i == 0 {
    } else {
      StateOfPrefix(a, b, i - 1);
    }
  }

  lemma {:induction false} StatePastQuotes(a: string, b: string, i: nat)
    requires NoQuotes(b) && i <= |b|
    ensures StateAt(a + b, |a| + i) == QuoteEnd(a)
  {
    if i == 0 {
      StateOfPrefix(a, b, |a|);
    } else {
      StatePastQuotes(a, b, i - 1);
      assert (a + b)[|a| + i - 1] == b[i - 1];
    }
  }

  function Blanks(n: nat): (r: string)
    ensures |r| == n && forall i | 0 <= i < n :: r[i] == ' '
  {
    seq(n, _ => ' ')
  }

  lemma StripConcat(a: string, b: string)
    requires NoQuotes(b)
    ensures Strip(a + b) == Strip(a) + if QuoteEnd(a) == Outside then b else Blanks(|b|)
  {
    forall i | 0 <= i < |a|
      ensures Blanked(a + b, i) == Blanked(a, i)
    {
      StateOfPrefix(a, b, i);
    }
    forall i | 0 <= i < |b|
      ensures Blanked(a + b, |a| + i) == if QuoteEnd(a) == Outside then b[i] else ' '
    {
      StatePastQuotes(a, b, i);
    }
  }

  lemma NoWordInBlanks(n: nat, word: string)
    requires IsWord(word)
    ensures !Stands(Blanks(n), word)
  {
    forall i | 0 <= i < n
      ensures !StandsAt(Blanks(n), word, i)
    {
      OccursByte(Blanks(n), word, i, 0);
    }
  }

  lemma UpperBlanks(n: nat)
    ensures Upper(Blanks(n)) == Blanks(n)
  {}

  /** Appending a quote-free text adds its keywords outside quotes, and nothing inside an open quote. */
  lemma HasClauseConcat(a: string, b: string, word: string)
    requires IsWord(word) && NoQuotes(b) && b != "" && b[0] == ' '
    ensures HasClause(a + b, word) <==> HasClause(a, word) || (QuoteEnd(a) == Outside && Stands(Upper(b), word))
  {
    StripConcat(a, b);
    var tail := if QuoteEnd(a) == Outside then b else Blanks(|b|);
    UpperConcat(Strip(a), tail);
    UpperBlanks(|b|);
    NoWordInBlanks(|b|, word);
    StandsConcat(Upper(Strip(a)), Upper(tail), word);
  }

  /** White space and semicolons at the ends do not change what the quote scan ends in. */
  lemma {:induction false} StatePastNeutralPrefix(a: string, b: string, i: nat)
    requires NoQuotes(a) && i <= |b|
    ensures StateAt(a + b, |a| + i) == StateAt(b, i)
  {
    if i > 0 {
      StatePastNeutralPrefix(a, b, i - 1);
      assert (a + b)[|a| + i - 1] == b[i - 1];
    } else {
      StatePastQuotes("", a, |a|);
      assert "" + a == a;
      StateOfPrefix(a, b, |a|);
    }
  }

  lemma CoreKeepsQuoteEnd(sql: string)
    ensures QuoteEnd(Core(sql)) == QuoteEnd(sql)
  {
    var before, after := TrimCuts(sql);
    var core, tail := Core(sql), Suffix(sql) + after;
    assert sql == before + (core + tail);
    assert NoQuotes(before) && NoQuotes(tail);
    StatePastNeutralPrefix(before, core + tail, |core + tail|);
    StatePastQuotes(core, tail, |tail|);
  }

  lemma CoreStart(sql: string)
    ensures Core(sql) != "" ==> !IsSpace(Core(sql)[0])
    ensures Trim(sql) == Core(sql) + Suffix(sql)
  {
    var before, after := TrimCuts(sql);
  }

  // ---- The appended clause itself --------------------------------------------------------------

  predicate PlainNumeral(t: string) {
    t != "" && forall i | 0 <= i < |t| :: '0' <= t[i] <= '9' || (i == 0 && t[i] == '-')
  }

  lemma PrintedIsPlain(n: Int64)
    requires Printed(n).Returned?
    ensures PlainNumeral(Printed(n).value)
  {
    DecimalRoundTrip(n);
    if n != MIN_INT64 && n < 0 {
      var t := Decimal(n);
      assert forall i | 1 <= i < |t| :: t[i] == t[1..][i - 1];
    }
  }

  /** The text " WORD numeral;" or " WORD numeral". */
  predicate IsTail(tail: string, word: string, t: string) {
    PlainNumeral(t) && (tail == " " + word + " " + t || tail == " " + word + " " + t + ";")
  }

  lemma TailByte(tail: string, word: string, t: string, i: nat)
    requires IsWord(word) && IsTail(tail, word, t) && i < |tail|
    ensures 1 <= i <= |word| ==> tail[i] == word[i - 1]
    ensures !(1 <= i <= |word|) ==> UpperChar(tail[i]) == tail[i] && !('A' <= tail[i] <= 'Z')
    ensures tail[i] != '\'' && tail[i] != '"' && tail[0] == ' ' && |tail| >= |word| + 3
    ensures |word| < i <= |word| + 1 ==> tail[i] == ' '
  {}

  lemma TailHasItsWord(tail: string, word: string, t: string)
    requires IsWord(word) && IsTail(tail, word, t)
    ensures Stands(Upper(tail), word) && NoQuotes(tail) && tail != "" && tail[0] == ' '
  {
    var upper := Upper(tail);
    forall i | 0 <= i < |tail|
      ensures tail[i] != '\'' && tail[i] != '"'
      ensures 1 <= i <= |word| ==> upper[i] == word[i - 1]
      ensures i == |word| + 1 ==> upper[i] == ' '
    {
      TailByte(tail, word, t, i);
    }
    TailByte(tail, word, t, 0);
    assert upper[1..1 + |word|] == word;
    assert StandsAt(upper, word, 1);
  }

  lemma TailHasNoOtherWord(tail: string, word: string, t: string, other: string)
    requires IsWord(word) && IsWord(other) && IsTail(tail, word, t)
    requires |word| < |other| || (|other| < |word| && other[0] !in word)
    ensures !Stands(Upper(tail), other)
  {
    var upper := Upper(tail);
    forall i: nat | i < |upper|
      ensures !OccursAt(upper, other, i)
    {
      TailByte(tail, word, t, i);
      OccursByte(upper, other, i, 0);
      if i + |other| <= |upper| {
        TailByte(tail, word, t, i + |other| - 1);
        OccursByte(upper, other, i, |other| - 1);
      }
    }
  }

  lemma ClauseWords()
    ensures IsWord("LIMIT") && IsWord("OFFSET")
    ensures |"LIMIT"| < |"OFFSET"| && 'L' !in "OFFSET"
  {}

  lemma AppendedText(sql: string, word: string, n: Int64) returns (tail: string)
    requires IsWord(word) && AppendClause(sql, word, n).Returned?
    ensures AppendClause(sql, word, n).value == Core(sql) + tail && IsTail(tail, word, Printed(n).value)
  {
    PrintedIsPlain(n);
    tail := " " + word + " " + Printed(n).value + Suffix(sql);
    assert AppendClause(sql, word, n).value == Core(sql) + tail;
  }

  lemma AppendedTextIsTrimmed(sql: string, word: string, n: Int64)
    requires IsWord(word) && AppendClause(sql, word, n).Returned? && Core(sql) != ""
    ensures
      var r, t := AppendClause(sql, word, n).value, Printed(n).value;
      Trim(r) == r && Core(r) == Core(sql) + (" " + word + " " + t) && Suffix(r) == Suffix(sql)
  {
    PrintedIsPlain(n);
    CoreStart(sql);
    var t := Printed(n).value;
    var body := Core(sql) + (" " + word + " " + t);
    OuterBytes(Core(sql), " " + word + " ", t);
    TrimmedBody(body, Suffix(sql));
  }

  lemma OuterBytes(a: string, b: string, t: string)
    requires a != "" && !IsSpace(a[0]) && PlainNumeral(t)
    ensures
      var s := a + (b + t);
      s != "" && !IsSpace(s[0]) && !IsSpace(s[|s| - 1]) && s[|s| - 1] != ';'
  {
    var s := a + (b + t);
    assert s[0] == a[0] && s[|s| - 1] == t[|t| - 1];
  }

  lemma TrimmedBody(body: string, end: string)
    requires body != "" && !IsSpace(body[0]) && !IsSpace(body[|body| - 1]) && body[|body| - 1] != ';'
    requires end == "" || end == ";"
    ensures Trim(body + end) == body + end && Core(body + end) == body && Suffix(body + end) == end
  {
    TrimIsIdentity(body + end);
    assert (body + end)[..|body|] == body;
  }

  /**
   AppendLIMIT's result has a LIMIT clause exactly when the quote scan of the text ends outside quotes, or it had one
   already.
   */
  lemma AppendedLimitIsFound(sql: string, n: Int64)
    requires AppendLimit(sql, n).Returned?
    ensures HasClause(AppendLimit(sql, n).value, "LIMIT") <==> QuoteEnd(sql) == Outside || HasClause(Core(sql), "LIMIT")
  {
    ClauseWords();
    var tail := AppendedText(sql, "LIMIT", n);
    TailHasItsWord(tail, "LIMIT", Printed(n).value);
    HasClauseConcat(Core(sql), tail, "LIMIT");
    CoreKeepsQuoteEnd(sql);
  }

  /** Behind an open quote the appended LIMIT is not seen, and the next enforcement appends another. */
  lemma OpenQuoteHidesLimit()
    ensures AppendLimit("'", 1).Returned? && !HasClause(AppendLimit("'", 1).value, "LIMIT")
  {
    assert StateAt("'", 1) == Toggle(StateAt("'", 0), '\'');
    TrimIsIdentity("'");
    ClauseWords();
    NoClauseWithoutLetter("'", "LIMIT", 0);
    AppendedLimitIsFound("'", 1);
  }

  /** AppendLIMIT never adds or hides an OFFSET. */
  lemma AppendedLimitKeepsOffset(sql: string, n: Int64)
    requires AppendLimit(sql, n).Returned?
    ensures HasClause(AppendLimit(sql, n).value, "OFFSET") <==> HasClause(Core(sql), "OFFSET")
  {
    ClauseWords();
    var tail := AppendedText(sql, "LIMIT", n);
    TailHasItsWord(tail, "LIMIT", Printed(n).value);
    TailHasNoOtherWord(tail, "LIMIT", Printed(n).value, "OFFSET");
    HasClauseConcat(Core(sql), tail, "OFFSET");
  }

  // ---- What is read as SQL ---------------------------------------------------------------------

  /** Blanks and letters leave every mode as it is. */
  lemma {:induction false} ModeStays(e: Mode, s: string, j: nat)
    requires e != BlockOpen && e != BlockClose && (e.Quoted? ==> IsQuote(e.delimiter))
    requires j <= |s| && forall i | 0 <= i < j :: s[i] == ' ' || 'A' <= s[i] <= 'Z'
    ensures ModeAt(e, s, j) == e
    decreases j
  {
    if j == 0 {
    } else {
      assert Step(e, s[0], Head(s[1..])) == e;
      ModeStays(e, s[1..], j - 1);
    }
  }

  lemma TailWordStays(e: Mode, tail: string, word: string, t: string, j: nat)
    requires e != BlockOpen && e != BlockClose && (e.Quoted? ==> IsQuote(e.delimiter))
    requires IsWord(word) && IsTail(tail, word, t) && j <= |word| + 1
    ensures j <= |tail| && ModeAt(e, tail, j) == e
  {
    TailByte(tail, word, t, 0);
    forall i | 0 <= i < j
      ensures tail[i] == ' ' || 'A' <= tail[i] <= 'Z'
    {
      TailByte(tail, word, t, i);
    }
    ModeStays(e, tail, j);
  }

  /** The keyword of an appended clause starts here. */
  function WordStart(sql: string): nat {
    |Core(sql)| + 1
  }

  lemma AppendedModes(core: string, tail: string, word: string, t: string, k: nat)
    requires IsWord(word) && IsTail(tail, word, t) && |core| < k <= |core| + |word|
    ensures k < |core + tail| && ModeAt(Normal, core + tail, k) == EndMode(Normal, core)
  {
    var j := k - |core|;
    SplitTheorems.QuoteModesAreQuotes(Normal, core);
    TailByte(tail, word, t, 0);
    TailWordStays(EndMode(Normal, core), tail, word, t, j);
    ModeAtConcat(Normal, core, tail, j);
  }

  /**
   An appended keyword is read in the mode in which the text ends: as SQL exactly when that is outside quotes and
   comments.
   */
  lemma AppendedWordIsRead(sql: string, word: string, n: Int64)
    requires IsWord(word) && AppendClause(sql, word, n).Returned?
    ensures
      var r, from := AppendClause(sql, word, n).value, WordStart(sql);
      && from + |word| <= |r|
      && (forall k | from <= k < from + |word| :: ModeAt(Normal, r, k) == EndMode(Normal, Core(sql)))
      && (ReadAsSql(r, from, |word|) <==> EndMode(Normal, Core(sql)) == Normal)
  {
    var r, from := AppendClause(sql, word, n).value, WordStart(sql);
    var tail := AppendedText(sql, word, n);
    forall k | from <= k < from + |word|
      ensures k < |r| && ModeAt(Normal, r, k) == EndMode(Normal, Core(sql))
    {
      AppendedModes(Core(sql), tail, word, Printed(n).value, k);
    }
    AppendedModes(Core(sql), tail, word, Printed(n).value, from);
    AppendedModes(Core(sql), tail, word, Printed(n).value, from + |word| - 1);
    assert ModeAt(Normal, r, from) == EndMode(Normal, Core(sql));
  }

  lemma TailWordOnce(tail: string, word: string, t: string, i: nat)
    requires IsWord(word) && IsTail(tail, word, t)
    ensures OccursAt(Upper(tail), word, i) ==> i == 1
  {
    if i + |word| <= |tail| {
      var k := if i == 0 then 0 else |word| - 1;
      TailByte(tail, word, t, i + k);
      OccursByte(Upper(tail), word, i, k);
    }
  }

  /** In the appended clause the keyword stands at its own place only. */
  lemma TailStandsOnce(tail: string, word: string, t: string, i: nat)
    requires IsWord(word) && IsTail(tail, word, t)
    ensures StandsAt(Upper(tail), word, i) <==> i == 1
  {
    TailHasItsWord(tail, word, t);
    var j :| 0 <= j < |tail| && StandsAt(Upper(tail), word, j);
    TailWordOnce(tail, word, t, j);
    TailWordOnce(tail, word, t, i);
  }

  lemma ClauseBefore(core: string, tail: string, word: string, i: nat)
    requires IsWord(word) && tail != "" && tail[0] == ' ' && i + |word| <= |core|
    ensures StandsAt(Upper(core + tail), word, i) <==> StandsAt(Upper(core), word, i)
    ensures ReadAsSql(core + tail, i, |word|) <==> ReadAsSql(core, i, |word|)
  {
    UpperConcat(core, tail);
    StandsLeft(Upper(core), Upper(tail), word, i);
    forall k | i <= k < i + |word|
      ensures ModeAt(Normal, core + tail, k) == ModeAt(Normal, core, k)
    {
      ModeAtPrefix(Normal, core, tail, k);
    }
  }

  lemma ClauseBehind(core: string, tail: string, word: string, t: string, i: nat)
    requires IsWord(word) && IsTail(tail, word, t) && |core| < i + |word|
    ensures StandsAt(Upper(core + tail), word, i) <==> i == |core| + 1
  {
    TailByte(tail, word, t, 0);
    UpperConcat(core, tail);
    StandsBehind(Upper(core), Upper(tail), word, i);
    if i > |core| {
      TailStandsOnce(tail, word, t, i - |core|);
    }
  }

  /**
   A text with an appended clause has that clause as SQL if and only if it had before, or it ends outside quotes and
   comments.
   */
  lemma AppendedClauseReads(sql: string, word: string, n: Int64)
    requires IsWord(word) && AppendClause(sql, word, n).Returned?
    ensures ReadsClause(AppendClause(sql, word, n).value, word) <==>
      EndMode(Normal, Core(sql)) == Normal || ReadsClause(Core(sql), word)
  {
    var core, r := Core(sql), AppendClause(sql, word, n).value;
    var tail := AppendedText(sql, word, n);
    TailByte(tail, word, Printed(n).value, 0);
    AppendedWordIsRead(sql, word, n);
    ClauseBehind(core, tail, word, Printed(n).value, |core| + 1);
    if i :| 0 <= i < |r| && StandsAt(Upper(r), word, i) && ReadAsSql(r, i, |word|) {
      if i + |word| <= |core| {
        ClauseBefore(core, tail, word, i);
      } else {
        ClauseBehind(core, tail, word, Printed(n).value, i);
      }
    }
    if i :| 0 <= i < |core| && StandsAt(Upper(core), word, i) && ReadAsSql(core, i, |word|) {
      ClauseBefore(core, tail, word, i);
    }
  }

  lemma CommentedWord(word: string)
    requires IsWord(word)
    ensures Stands(Upper(" -- " + word), word) && NoQuotes(" -- " + word)
    ensures ModeAt(Normal, " -- " + word, 4) == LineComment
  {
    var s := " -- " + word;
    assert s[1..] == "-- " + word && s[1..][1..] == "- " + word;
    assert s[4..] == word;
    assert Upper(s)[4..4 + |word|] == word;
    assert StandsAt(Upper(s), word, 4);
    ModeAtStep(Normal, s, 0);
    ModeAtStep(Normal, s, 1);
    ModeAtStep(Normal, s, 2);
    ModeAtStep(Normal, s, 3);
  }

  /** A keyword in a comment is found: any text that ends outside quotes and comments passes for one with the clause. */
  lemma CommentedWordIsFound(a: string, word: string)
    requires IsWord(word) && QuoteEnd(a) == Outside && EndMode(Normal, a) == Normal
    ensures HasClause(a + (" -- " + word), word) && ModeAt(Normal, a + (" -- " + word), |a| + 4) == LineComment
  {
    var b := " -- " + word;
    CommentedWord(word);
    HasClauseConcat(a, b, word);
    ModeAtConcat(Normal, a, b, 4);
  }

  /** A quote between backticks hides the clauses behind it, although they are read as SQL. */
  lemma BacktickHidesClause()
    ensures !HasClause("`'` LIMIT", "LIMIT") && ReadAsSql("`'` LIMIT", 4, 5)
  {
    var a, b := "`'`", " LIMIT";
    ClauseWords();
    assert a + b == "`'` LIMIT";
    assert StateAt(a, 1) == Toggle(StateAt(a, 0), '`');
    assert StateAt(a, 2) == Toggle(StateAt(a, 1), '\'');
    assert StateAt(a, 3) == Toggle(StateAt(a, 2), '`');
    HasClauseConcat(a, b, "LIMIT");
    forall i | 0 <= i < |a|
      ensures !StandsAt(Upper(Strip(a)), "LIMIT", i)
    {}
    assert EndMode(Normal, a) == Normal by {
      EndIsModeAt(Normal, a);
      ModeAtStep(Normal, a, 0);
      ModeAtStep(Normal, a, 1);
      ModeAtStep(Normal, a, 2);
    }
    forall k | 4 <= k < 9
      ensures ModeAt(Normal, a + b, k) == Normal
    {
      ModeStays(Normal, b, k - 3);
      ModeAtConcat(Normal, a, b, k - 3);
    }
  }

  // ---- LIMIT enforcement -----------------------------------------------------------------------

  /** The step every query path takes: pass a LIMIT through, append one where there is none. */
  function EnforceLimit(sql: string, n: Int64): Go<string> {
    if HasClause(sql, "LIMIT") then Returned(sql) else AppendLimit(sql, n)
  }

  /** The search will see a LIMIT after enforcement: it sees one now, or the quote scan ends outside quotes. */
  predicate LimitStays(sql: string) {
    HasClause(sql, "LIMIT") || QuoteEnd(sql) == Outside || HasClause(Core(sql), "LIMIT")
  }

  lemma EmptyCore(sql: string)
    requires Core(sql) == ""
    ensures forall i | 0 <= i < |sql| :: IsSpace(sql[i]) || sql[i] == ';'
  {
    var from, to := TrimBounds(sql);
    assert forall i | from <= i < to :: sql[i] == Trim(sql)[i - from];
  }

  lemma ClauseShows(sql: string, word: string, n: Int64)
    requires IsWord(word) && Core(sql) == "" && AppendClause(sql, word, n).Returned?
    ensures exists i | 0 <= i < |AppendClause(sql, word, n).value| :: 'A' <= AppendClause(sql, word, n).value[i] <= 'Z'
  {
    var tail := AppendedText(sql, word, n);
    TailByte(tail, word, Printed(n).value, 1);
    assert "" + tail == tail;
    assert 'A' <= tail[1] <= 'Z';
  }

  /** AppendLIMIT never gives its text back unchanged. */
  lemma AppendingChanges(sql: string, word: string, n: Int64)
    requires IsWord(word) && AppendClause(sql, word, n).Returned?
    ensures AppendClause(sql, word, n).value != sql
  {
    if Core(sql) == "" {
      EmptyCore(sql);
      ClauseShows(sql, word, n);
    } else {
      AppendedTextIsTrimmed(sql, word, n);
      var t := Printed(n).value;
      assert |Core(sql) + (" " + word + " " + t)| > |Core(sql)|;
    }
  }

  /** Enforcing twice is enforcing once, exactly where the first pass left a LIMIT that the search can see. */
  lemma EnforcementIsIdempotent(sql: string, n: Int64, again: Int64)
    requires EnforceLimit(sql, n).Returned?
    ensures
      var once := EnforceLimit(sql, n).value;
      && (EnforceLimit(once, again) == Returned(once) <==> HasClause(once, "LIMIT"))
      && (HasClause(once, "LIMIT") <==> LimitStays(sql))
  {
    var once := EnforceLimit(sql, n).value;
    if !HasClause(sql, "LIMIT") {
      AppendedLimitIsFound(sql, n);
    }
    ClauseWords();
    if AppendLimit(once, again).Returned? {
      AppendingChanges(once, "LIMIT", again);
    }
  }

  // ---- Lexical safety --------------------------------------------------------------------------

  /** No quote, no separator and no comment opener anywhere in `s`. */
  predicate Bland(s: string) {
    forall i | 0 <= i < |s| ::
      && !IsQuote(s[i]) && s[i] != ';' && s[i] != '/'
      && (s[i] == '-' && i + 1 < |s| ==> s[i + 1] != '-')
  }

  lemma BlandRest(s: string)
    requires Bland(s) && s != ""
    ensures Bland(s[1..])
  {
    assert forall i | 0 <= i < |s| - 1 :: s[1..][i] == s[i + 1];
  }

  lemma {:induction false} BlandIsPlain(m: Mode, s: string)
    requires Bland(s) && (m == Normal || (m.Quoted? && IsQuote(m.delimiter)))
    ensures Plain(m, s) && EndMode(m, s) == m
    decreases s
  {
    if s == "" {
    } else {
      BlandRest(s);
      assert !OpensComment(s[0], Head(s[1..]));
      BlandIsPlain(m, s[1..]);
      PlainCons(m, s);
    }
  }

  lemma TailIsBland(word: string, t: string)
    requires IsWord(word) && PlainNumeral(t)
    ensures Bland(" " + word + " " + t)
  {
    var s := " " + word + " " + t;
    forall i | 0 <= i < |s|
      ensures !IsQuote(s[i]) && s[i] != ';' && s[i] != '/' && (s[i] == '-' && i + 1 < |s| ==> s[i + 1] != '-')
    {
      TailByte(s, word, t, i);
      assert i >= |word| + 2 ==> s[i] == t[i - |word| - 2];
      assert i < |word| + 2 ==> s[i] != '-';
      assert |word| + 2 <= i < |s| - 1 ==> s[i + 1] == t[i - |word| - 1];
    }
  }

  lemma {:induction false} CommentFreeEnds(m: Mode, s: string)
    requires CommentFree(m, s)
    ensures !InComment(EndMode(m, s))
    decreases s
  {
    if s == "" {
    } else {
      CommentFreeEnds(Step(m, s[0], Head(s[1..])), s[1..]);
    }
  }

  /** A bland clause behind the core keeps the reading of core and suffix, and is read itself wherever they are. */
  lemma BlandInsertion(core: string, clause: string, end: string)
    requires Bland(clause) && Seam(clause) && clause != "" && Seam(end)
    ensures Plain(Normal, core + clause + end) <==> Plain(Normal, core + end)
    ensures Plain(Normal, core + end) ==> EndMode(Normal, core + clause + end) == EndMode(Normal, core + end)
  {
    var e := EndMode(Normal, core);
    Associate(core, clause, end);
    SplitTheorems.QuoteModesAreQuotes(Normal, core);
    if Plain(Normal, core + clause + end) {
      PlainPrefix(Normal, core + clause, end);
      PlainPrefix(Normal, core, clause);
    } else if Plain(Normal, core + end) {
      PlainPrefix(Normal, core, end);
    }
    if Plain(Normal, core) {
      PlainIsCommentFree(Normal, core);
      CommentFreeEnds(Normal, core);
      BlandIsPlain(e, clause);
      PlainConcat(Normal, core, clause);
      if Plain(e, end) {
        PlainConcat(Normal, core + clause, end);
        PlainConcat(Normal, core, end);
      }
    }
  }

  /**
   Rewriting cannot split a statement, merge it or open a comment: the result reads as exactly one statement, itself, if
   and only if the text was one, with neither separator nor comment.
   */
  lemma RewrittenStatementStaysWhole(st: string, word: string, n: Int64)
    requires IsWord(word) && AppendClause(st, word, n).Returned?
    ensures
      var r := AppendClause(st, word, n).value;
      && (Splitter.Split(r) == [r] <==> Core(st) != "" && Plain(Normal, Trim(st)))
      && (SplitTheorems.Clean(r) <==> Core(st) != "" && SplitTheorems.Clean(Trim(st)))
  {
    var r, t := AppendClause(st, word, n).value, Printed(n).value;
    var clause := " " + word + " " + t;
    PrintedIsPlain(n);
    TailIsBland(word, t);
    CoreStart(st);
    BlandInsertion(Core(st), clause, Suffix(st));
    assert r == Core(st) + clause + Suffix(st);
    SplitsToItself(r);
    if Core(st) == "" {
      assert r == clause + Suffix(st) && r[0] == ' ';
      NotTrimmed(r);
    } else {
      AppendedTextIsTrimmed(st, word, n);
      TrimIdempotent(st);
    }
  }

  lemma NotTrimmed(s: string)
    requires s != "" && IsSpace(s[0])
    ensures Trim(s) != s
  {
    var _, _ := TrimCuts(s);
  }

  lemma SplitsToItself(r: string)
    ensures Splitter.Split(r) == [r] <==> SplitTheorems.CleanLast(r)
  {
    SplitTheorems.RoundTripExactly([r]);
  }
}
