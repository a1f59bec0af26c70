/** internal/sqlnorm/sqlnorm.go: finding a clause keyword outside string literals. */
module Keywords {
  import opened Text
  import opened Lexer

  // ---- stripQuoted -----------------------------------------------------------------------------

  datatype QuoteState = Outside | InSingle | InDouble

  function Toggle(q: QuoteState, c: char): QuoteState {
    match q
    case InSingle => if c == '\'' then Outside else q
    case InDouble => if c == '"' then Outside else q
    case Outside => if c == '\'' then InSingle else if c == '"' then InDouble else Outside
  }

  /** The quote state before byte `i`. */
  function StateAt(s: string, i: nat): QuoteState
    requires i <= |s|
  {
    if i == 0 then Outside else Toggle(StateAt(s, i - 1), s[i - 1])
  }

  function QuoteEnd(s: string): QuoteState {
    StateAt(s, |s|)
  }

  /** Byte `i` is a quote delimiter or lies between two of them. */
  predicate InLiteral(s: string, i: nat)
    requires i < |s|
  {
    StateAt(s, i) != Outside || s[i] == '\'' || s[i] == '"'
  }

  function Blanked(s: string, i: nat): char
    requires i < |s|
  {
    if InLiteral(s, i) then ' ' else s[i]
  }

  function Strip(s: string): (r: string)
    ensures |r| == |s|
    ensures forall i | 0 <= i < |s| :: r[i] == Blanked(s, i)
  {
    seq(|s|, i requires 0 <= i < |s| => Blanked(s, i))
  }

  method StripQuoted(s: string) returns (r: string)
    ensures r == Strip(s)
  {
    r := "";
    var inSingle, inDouble := false, false;
    for i := 0 to |s|
      invariant |r| == i
      invariant StateAt(s, i) == if inSingle then InSingle else if inDouble then InDouble else Outside
      invariant !(inSingle && inDouble)
      invariant forall k | 0 <= k < i :: r[k] == Blanked(s, k)
    {
      var c := s[i];
      assert StateAt(s, i + 1) == Toggle(StateAt(s, i), c);
      if inSingle {
        if c == '\'' {
          inSingle := false;
        }
        r := r + [' '];
      } else if inDouble {
        if c == '"' {
          inDouble := false;
        }
        r := r + [' '];
      } else if c == '\'' {
        inSingle := true;
        r := r + [' '];
      } else if c == '"' {
        inDouble := true;
        r := r + [' '];
      } else {
        r := r + [c];
      }
    }
  }

  // ---- matchKeyword ----------------------------------------------------------------------------

  predicate IsDelimiter(c: char) {
    c == ' ' || c == '\t' || c == '\n' || c == '\r' ||
    c == '(' || c == ')' || c == ',' || c == ';' ||
    c == '=' || c == '<' || c == '>' || c == '!' ||
    c == '+' || c == '-' || c == '*' || c == '/' ||
    c == '\'' || c == '"'
  }

  /** `word` occurs at `i` with a delimiter, or an end of the text, on either side. */
  predicate StandsAt(text: string, word: string, i: int) {
    && OccursAt(text, word, i)
    && (i == 0 || IsDelimiter(text[i - 1]))
    && (i + |word| == |text| || IsDelimiter(text[i + |word|]))
  }

  predicate Stands(text: string, word: string) {
    exists i | 0 <= i < |text| :: StandsAt(text, word, i)
  }

  /** `word` does not stand anywhere before `end`. */
  predicate NotBefore(text: string, word: string, end: nat)
    requires end <= |text|
  {
    forall i | 0 <= i < end :: !StandsAt(text, word, i)
  }

  lemma NotBeforeNext(text: string, word: string, i: nat)
    requires i < |text| && NotBefore(text, word, i) && !StandsAt(text, word, i)
    ensures NotBefore(text, word, i + 1)
  {}

  /** Passing over a stretch where the word does not occur passes over no standing word. */
  lemma SearchOn(text: string, word: string, from: nat, to: nat)
    requires from <= to <= |text| && NotBefore(text, word, from) && Absent(text, word, from, to)
    ensures NotBefore(text, word, to)
  {}

  method MatchKeyword(sql: string, keyword: string) returns (found: bool)
    requires keyword != ""
    ensures found <==> Stands(Upper(sql), keyword)
  {
    var upper := Upper(sql);
    var idx := Index(upper, keyword, 0);
    SearchOn(upper, keyword, 0, if idx == -1 then |upper| else idx);
    while idx >= 0
      invariant -1 <= idx < |upper|
      invariant idx >= 0 ==> OccursAt(upper, keyword, idx)
      invariant NotBefore(upper, keyword, if idx == -1 then |upper| else idx)
      decreases if idx >= 0 then |upper| - idx else 0
    {
      if idx == 0 || IsDelimiter(upper[idx - 1]) {
        var end := idx + |keyword|;
        if end >= |upper| || IsDelimiter(upper[end]) {
          assert StandsAt(upper, keyword, idx);
          return true;
        }
      }
      NotBeforeNext(upper, keyword, idx);
      var next := idx + 1;
      if next >= |upper| {
        break;
      }
      idx := Index(upper, keyword, next);
      SearchOn(upper, keyword, next, if idx == -1 then |upper| else idx);
    }
    found := false;
  }

  /** HasWHERE, HasLIMIT and HasOFFSET: the keyword stands somewhere in the stripped text. */
  predicate HasClause(sql: string, keyword: string) {
    Stands(Upper(Strip(sql)), keyword)
  }

  method HasKeyword(sql: string, keyword: string) returns (found: bool)
    requires keyword != ""
    ensures found == HasClause(sql, keyword)
  {
    var cleaned := StripQuoted(sql);
    found := MatchKeyword(cleaned, keyword);
  }

  // ---- What the search means -------------------------------------------------------------------

  /** A keyword that a clause search looks for: upper-case letters only. */
  predicate IsWord(word: string) {
    word != "" && forall i | 0 <= i < |word| :: 'A' <= word[i] <= 'Z'
  }

  /** The occurrence at `i` lies outside every literal. */
  predicate Unquoted(sql: string, i: int, n: nat)
    requires 0 <= i && i + n <= |sql|
  {
    forall k | i <= k < i + n :: !InLiteral(sql, k)
  }

  lemma DelimiterSurvivesStripping(sql: string, i: nat)
    requires i < |sql|
    requires (i > 0 && !InLiteral(sql, i - 1)) || (i + 1 < |sql| && !InLiteral(sql, i + 1))
    ensures IsDelimiter(Upper(Strip(sql))[i]) <==> IsDelimiter(Upper(sql)[i])
  {
    if InLiteral(sql, i) {
      if i + 1 < |sql| && !InLiteral(sql, i + 1) {
        assert StateAt(sql, i + 1) == Toggle(StateAt(sql, i), sql[i]);
      } else {
        assert StateAt(sql, i) == Toggle(StateAt(sql, i - 1), sql[i - 1]);
      }
      assert sql[i] == '\'' || sql[i] == '"';
    }
  }

  lemma OccursInStripped(sql: string, word: string, i: nat)
    requires IsWord(word) && i + |word| <= |sql|
    ensures OccursAt(Upper(Strip(sql)), word, i) <==> OccursAt(Upper(sql), word, i) && Unquoted(sql, i, |word|)
  {
    var stripped, upper, n := Upper(Strip(sql)), Upper(sql), |word|;
    if OccursAt(stripped, word, i) {
      forall k | i <= k < i + n
        ensures !InLiteral(sql, k)
      {
        assert stripped[i..i + n][k - i] == word[k - i];
        assert stripped[k] == UpperChar(Blanked(sql, k));
      }
    }
    if Unquoted(sql, i, n) {
      assert forall k | i <= k < i + n :: Blanked(sql, k) == sql[k];
      assert upper[i..i + n] == stripped[i..i + n];
    }
  }

  lemma StandsInStripped(sql: string, word: string, i: nat)
    requires IsWord(word) && i + |word| <= |sql|
    ensures StandsAt(Upper(Strip(sql)), word, i) <==> StandsAt(Upper(sql), word, i) && Unquoted(sql, i, |word|)
  {
    OccursInStripped(sql, word, i);
    if Unquoted(sql, i, |word|) {
      assert !InLiteral(sql, i) && !InLiteral(sql, i + |word| - 1);
      if i > 0 {
        DelimiterSurvivesStripping(sql, i - 1);
      }
      if i + |word| < |sql| {
        DelimiterSurvivesStripping(sql, i + |word|);
      }
    }
  }

  /**
   The clause search finds exactly the delimited occurrences that lie outside string literals of the original text.
   */
  lemma HasClauseMeaning(sql: string, word: string)
    requires IsWord(word)
    ensures HasClause(sql, word) <==>
      exists i | 0 <= i < |sql| :: StandsAt(Upper(sql), word, i) && Unquoted(sql, i, |word|)
  {
    var stripped, upper := Upper(Strip(sql)), Upper(sql);
    if HasClause(sql, word) {
      var i :| 0 <= i < |stripped| && StandsAt(stripped, word, i);
      StandsInStripped(sql, word, i);
    }
    if i :| 0 <= i < |sql| && StandsAt(upper, word, i) && Unquoted(sql, i, |word|) {
      StandsInStripped(sql, word, i);
    }
  }

  // ---- Two lexers agree ------------------------------------------------------------------------

  /** The splitter's mode, as the two flags of stripQuoted see it. */
  function AsQuoteState(m: Mode): QuoteState {
    match m
    case Quoted(q) => if q == '\'' then InSingle else InDouble
    case _ => Outside
  }

  lemma {:induction false} ModeAtStep(m: Mode, s: string, i: nat)
    requires i < |s|
    ensures ModeAt(m, s, i + 1) == Step(ModeAt(m, s, i), s[i], Head(s[i + 1..]))
    decreases i
  {
    if i > 0 {
      ModeAtStep(Step(m, s[0], Head(s[1..])), s[1..], i - 1);
      assert s[1..][i..] == s[i + 1..];
    } else {
      assert ModeAt(m, s, 1) == ModeAt(Step(m, s[0], Head(s[1..])), s[1..], 0);
    }
  }

  /**
   What stripQuoted makes of a text: the bytes that the splitter reads in normal mode stay, quote delimiters and all
   others become blank.
   */
  predicate LexersAgreeAt(s: string, i: nat)
    requires i < |s|
  {
    Strip(s)[i] == if ModeAt(Normal, s, i) == Normal && !IsQuote(s[i]) then s[i] else ' '
  }

  /** Byte `i` means the same to both: in normal mode it is no backtick and opens no comment. */
  predicate BothKnow(s: string, i: nat)
    requires i < |s|
  {
    ModeAt(Normal, s, i) == Normal ==> s[i] != '`' && !OpensComment(s[i], Head(s[i + 1..]))
  }

  /** The two lexers walk in step as long as they meet nothing that only one of them knows. */
  lemma {:induction false} ModesAgree(s: string, i: nat)
    requires i <= |s| && forall k | 0 <= k < i :: BothKnow(s, k)
    ensures AsQuoteState(ModeAt(Normal, s, i)) == StateAt(s, i)
    ensures
      var m := ModeAt(Normal, s, i);
      m == Normal || m == Quoted('\'') || m == Quoted('"')
  {
    if i == 0 {
    } else {
      ModesAgree(s, i - 1);
      ModeAtStep(Normal, s, i - 1);
      assert BothKnow(s, i - 1);
    }
  }

  /** The first byte that only the splitter knows shows: a backtick at once, a comment opener at its second byte. */
  lemma UnknownByteShows(s: string, i: nat)
    requires i < |s| && (forall k | 0 <= k < i :: BothKnow(s, k)) && !BothKnow(s, i)
    ensures !LexersAgreeAt(s, i) || (i + 1 < |s| && !LexersAgreeAt(s, i + 1))
  {
    ModesAgree(s, i);
    if s[i] != '`' {
      ModeAtStep(Normal, s, i);
      assert s[i + 1..][0] == s[i + 1];
      assert StateAt(s, i + 1) == Toggle(StateAt(s, i), s[i]);
    }
  }

  lemma {:induction false} AgreementMeansKnown(s: string, i: nat)
    requires i <= |s| && forall k | 0 <= k < |s| :: LexersAgreeAt(s, k)
    ensures forall k | 0 <= k < i :: BothKnow(s, k)
  {
    if i == 0 {
    } else {
      AgreementMeansKnown(s, i - 1);
      if !BothKnow(s, i - 1) {
        UnknownByteShows(s, i - 1);
      }
    }
  }

  /**
   stripQuoted blanks exactly what the splitter holds quoted if and only if no normal-mode byte is a backtick or opens
   a comment.
   */
  lemma LexersAgreeExactly(s: string)
    ensures (forall i | 0 <= i < |s| :: LexersAgreeAt(s, i)) <==> (forall i | 0 <= i < |s| :: BothKnow(s, i))
    ensures (forall i | 0 <= i < |s| :: BothKnow(s, i)) ==> (QuoteEnd(s) == Outside <==> EndMode(Normal, s) == Normal)
  {
    if forall i | 0 <= i < |s| :: BothKnow(s, i) {
      forall i | 0 <= i < |s|
        ensures LexersAgreeAt(s, i)
      {
        ModesAgree(s, i);
        assert BothKnow(s, i);
      }
      ModesAgree(s, |s|);
      EndIsModeAt(Normal, s);
    }
    if forall i | 0 <= i < |s| :: LexersAgreeAt(s, i) {
      AgreementMeansKnown(s, |s|);
    }
  }

  lemma {:induction false} EndIsModeAt(m: Mode, s: string)
    ensures EndMode(m, s) == ModeAt(m, s, |s|)
    decreases s
  {
    if s == "" {
    } else {
      EndIsModeAt(Step(m, s[0], Head(s[1..])), s[1..]);
    }
  }

  /** The splitter reads the `n` bytes from `i` on as SQL: outside quotes and comments. */
  predicate ReadAsSql(sql: string, i: int, n: nat)
    requires 0 <= i && i + n <= |sql|
  {
    forall k | i <= k < i + n :: ModeAt(Normal, sql, k) == Normal
  }

  /** Where a word is found in a text, both scans keep across it the state they have in front of it. */
  lemma {:induction false} LettersKeepState(sql: string, word: string, i: nat, k: nat)
    requires IsWord(word) && OccursAt(Upper(sql), word, i) && i <= k < i + |word|
    ensures !IsQuote(sql[k]) && BothKnow(sql, k)
    ensures StateAt(sql, k) == Outside <==> StateAt(sql, i) == Outside
    ensures ModeAt(Normal, sql, i) == Normal ==> ModeAt(Normal, sql, k) == Normal
    decreases k
  {
    assert Upper(sql)[i..i + |word|][k - i] == word[k - i];
    assert UpperChar(sql[k]) == word[k - i];
    if k == i {
    } else {
      LettersKeepState(sql, word, i, k - 1);
      ModeAtStep(Normal, sql, k - 1);
      assert StateAt(sql, k) == Toggle(StateAt(sql, k - 1), sql[k - 1]);
    }
  }

  /**
   An occurrence is found where the quote scan stands outside quotes, and is SQL where the splitter stands in normal
   mode.
   */
  lemma OccurrenceMeaning(sql: string, word: string, i: nat)
    requires IsWord(word) && OccursAt(Upper(sql), word, i)
    ensures Unquoted(sql, i, |word|) <==> StateAt(sql, i) == Outside
    ensures ReadAsSql(sql, i, |word|) <==> ModeAt(Normal, sql, i) == Normal
  {
    forall k | i <= k < i + |word|
      ensures !InLiteral(sql, k) <==> StateAt(sql, i) == Outside
      ensures ModeAt(Normal, sql, i) == Normal ==> ModeAt(Normal, sql, k) == Normal
    {
      LettersKeepState(sql, word, i, k);
    }
    assert !InLiteral(sql, i) <==> StateAt(sql, i) == Outside;
  }

  /** The text has the clause: the keyword stands somewhere where the splitter reads SQL. */
  predicate ReadsClause(sql: string, word: string) {
    exists i | 0 <= i < |sql| :: StandsAt(Upper(sql), word, i) && ReadAsSql(sql, i, |word|)
  }

  /** The keyword stands somewhere where the quote scan is outside quotes. */
  predicate StandsOutside(sql: string, word: string) {
    exists i | 0 <= i < |sql| :: StandsAt(Upper(sql), word, i) && StateAt(sql, i) == Outside
  }

  /** The keyword stands somewhere where the splitter is in normal mode. */
  predicate StandsInNormal(sql: string, word: string) {
    exists i | 0 <= i < |sql| :: StandsAt(Upper(sql), word, i) && ModeAt(Normal, sql, i) == Normal
  }

  /** What the search finds and what is there to find, each by one scan up to the keyword. */
  lemma ClauseScans(sql: string, word: string)
    requires IsWord(word)
    ensures HasClause(sql, word) <==> StandsOutside(sql, word)
    ensures ReadsClause(sql, word) <==> StandsInNormal(sql, word)
  {
    HasClauseMeaning(sql, word);
    forall i | 0 <= i < |sql| && StandsAt(Upper(sql), word, i)
      ensures Unquoted(sql, i, |word|) <==> StateAt(sql, i) == Outside
      ensures ReadAsSql(sql, i, |word|) <==> ModeAt(Normal, sql, i) == Normal
    {
      OccurrenceMeaning(sql, word, i);
    }
  }

  /** The clause search is right about a text if and only if the two scans meet the keyword outside, or both do not. */
  lemma SearchIsExact(sql: string, word: string)
    requires IsWord(word)
    ensures (HasClause(sql, word) <==> ReadsClause(sql, word)) <==>
      (StandsOutside(sql, word) <==> StandsInNormal(sql, word))
  {
    ClauseScans(sql, word);
  }

  /** It is right as long as no keyword stands behind a backtick or a comment opener in normal mode. */
  lemma HasClauseReadsSql(sql: string, word: string)
    requires IsWord(word)
    requires forall i | 0 <= i < |sql| && StandsAt(Upper(sql), word, i) :: forall k | 0 <= k < i :: BothKnow(sql, k)
    ensures HasClause(sql, word) <==> ReadsClause(sql, word)
  {
    forall i | 0 <= i < |sql| && StandsAt(Upper(sql), word, i)
      ensures StateAt(sql, i) == Outside <==> ModeAt(Normal, sql, i) == Normal
    {
      ModesAgree(sql, i);
    }
    SearchIsExact(sql, word);
  }

  /** No clause without each of the keyword's letters. */
  lemma NoClauseWithoutLetter(sql: string, word: string, k: nat)
    requires IsWord(word) && k < |word| && word[k] !in Upper(sql)
    ensures !HasClause(sql, word)
  {
    HasClauseMeaning(sql, word);
    forall i | 0 <= i < |sql|
      ensures !StandsAt(Upper(sql), word, i)
    {
      if i + |word| <= |sql| {
        OccursByte(Upper(sql), word, i, k);
        assert Upper(sql)[i + k] in Upper(sql);
      }
    }
  }

  /** A backtick inside a string literal does no harm; around a name it does, and so does a comment. */
  lemma AgreementInstances()
    ensures LexersAgreeAt("'`'", 0) && LexersAgreeAt("'`'", 1) && LexersAgreeAt("'`'", 2)
    ensures !LexersAgreeAt("`x`", 1) && !LexersAgreeAt("--", 1)
  {
    ModeAtStep(Normal, "'`'", 0);
    ModeAtStep(Normal, "'`'", 1);
    assert StateAt("'`'", 1) == Toggle(StateAt("'`'", 0), '\'');
    assert StateAt("'`'", 2) == Toggle(StateAt("'`'", 1), '`');
    ModeAtStep(Normal, "`x`", 0);
    assert StateAt("`x`", 1) == Toggle(StateAt("`x`", 0), '`');
    ModeAtStep(Normal, "--", 0);
    assert "--"[1..] == "-";
    assert StateAt("--", 1) == Toggle(StateAt("--", 0), '-');
  }

  // ---- What delimits a keyword -----------------------------------------------------------------

  const DELIMITERS := " \t\n\r(),;=<>!+-*/"

  /**
   A keyword ends in front of these characters or a quote, and starts behind these; not at letters, digits, '_' or '`'.
   */
  lemma KeywordBounds(word: string, c: char)
    requires IsWord(word)
    ensures HasClause(word + [c], word) <==> c in DELIMITERS || c == '\'' || c == '"'
    ensures HasClause([c] + word, word) <==> c in DELIMITERS
  {
    WordThenByte(word, c);
    ByteThenWord(word, c);
    DelimiterSet(c);
  }

  lemma DelimiterSet(c: char)
    ensures IsDelimiter(c) <==> c in DELIMITERS || c == '\'' || c == '"'
  {
    var d := DELIMITERS;
    assert d[0] == ' ' && d[1] == '\t' && d[2] == '\n' && d[3] == '\r' && d[4] == '(' && d[5] == ')';
    assert d[6] == ',' && d[7] == ';' && d[8] == '=' && d[9] == '<' && d[10] == '>' && d[11] == '!';
    assert d[12] == '+' && d[13] == '-' && d[14] == '*' && d[15] == '/' && |d| == 16;
  }

  lemma UpperWord(word: string, k: nat)
    requires IsWord(word) && k < |word|
    ensures Upper(word) == word && !IsDelimiter(word[k])
  {}

  lemma WordThenByte(word: string, c: char)
    requires IsWord(word)
    ensures HasClause(word + [c], word) <==> IsDelimiter(c)
  {
    var s := word + [c];
    ClauseScans(s, word);
    UpperWord(word, 0);
    UpperConcat(word, [c]);
    assert Upper(s)[..|word|] == word;
    assert IsDelimiter(UpperChar(c)) <==> IsDelimiter(c);
    assert StandsAt(Upper(s), word, 0) <==> IsDelimiter(c);
    if StandsAt(Upper(s), word, 1) {
      UpperWord(word, 0);
      assert Upper(s)[0] == word[0];
    }
    assert StateAt(s, 0) == Outside;
  }

  lemma ByteThenWord(word: string, c: char)
    requires IsWord(word)
    ensures HasClause([c] + word, word) <==> IsDelimiter(c) && c != '\'' && c != '"'
  {
    var s := [c] + word;
    ClauseScans(s, word);
    UpperConcat([c], word);
    UpperWord(word, |word| - 1);
    assert Upper(s)[1..1 + |word|] == word;
    assert IsDelimiter(UpperChar(c)) <==> IsDelimiter(c);
    assert StandsAt(Upper(s), word, 1) <==> IsDelimiter(c);
    assert Upper(s)[|word|] == word[|word| - 1];
    assert StateAt(s, 1) == Toggle(StateAt(s, 0), c);
  }

  /** The same text up to the choice of white space: blank, tab, newline or carriage return. */
  predicate SameUpToBlanks(s: string, t: string) {
    |s| == |t| && forall k | 0 <= k < |s| :: s[k] == t[k] || (s[k] in " \t\n\r" && t[k] in " \t\n\r")
  }

  lemma {:induction false} BlanksKeepState(s: string, t: string, i: nat)
    requires SameUpToBlanks(s, t) && i <= |s|
    ensures StateAt(s, i) == StateAt(t, i)
  {
    if i == 0 {
    } else {
      BlanksKeepState(s, t, i - 1);
    }
  }

  lemma BlanksKeepByte(s: string, t: string, k: nat)
    requires SameUpToBlanks(s, t) && k < |s|
    ensures IsDelimiter(Upper(s)[k]) <==> IsDelimiter(Upper(t)[k])
    ensures 'A' <= Upper(s)[k] <= 'Z' ==> Upper(t)[k] == Upper(s)[k]
  {}

  lemma BlanksKeepStanding(s: string, t: string, word: string, i: nat)
    requires SameUpToBlanks(s, t) && IsWord(word) && StandsAt(Upper(s), word, i)
    ensures StandsAt(Upper(t), word, i)
  {
    forall k | i <= k < i + |word|
      ensures Upper(t)[k] == word[k - i]
    {
      OccursByte(Upper(s), word, i, k - i);
      BlanksKeepByte(s, t, k);
    }
    assert Upper(t)[i..i + |word|] == word;
    if i > 0 {
      BlanksKeepByte(s, t, i - 1);
    }
    if i + |word| < |s| {
      BlanksKeepByte(s, t, i + |word|);
    }
  }

  /** A line break, a tab or a blank: for the clause checks they are the same. */
  lemma BlanksAreInterchangeable(s: string, t: string, word: string)
    requires SameUpToBlanks(s, t) && IsWord(word)
    ensures HasClause(s, word) <==> HasClause(t, word)
  {
    ClauseScans(s, word);
    ClauseScans(t, word);
    forall i | 0 <= i < |s|
      ensures StandsAt(Upper(s), word, i) <==> StandsAt(Upper(t), word, i)
      ensures StateAt(s, i) == StateAt(t, i)
    {
      BlanksKeepState(s, t, i);
      if StandsAt(Upper(s), word, i) {
        BlanksKeepStanding(s, t, word, i);
      }
      if StandsAt(Upper(t), word, i) {
        BlanksKeepStanding(t, s, word, i);
      }
    }
  }
}
