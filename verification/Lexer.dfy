/**
 The reading of SQL text that SplitStatements promises, as an automaton that takes one byte at a time.
 Quotes toggle; there is no case for a doubled quote. Comments need one byte of lookahead.
 */
module Lexer {
  import opened Text

  datatype Mode =
    | Normal
    | LineComment
    | BlockOpen     // the '*' of a comment opener is still to come
    | BlockComment
    | BlockClose    // the '/' of a comment closer is still to come
    | Quoted(delimiter: char)

  /** What a byte contributes to the output: itself, or a cut between two statements. */
  datatype Item = Keep(c: char) | Cut

  predicate IsQuote(c: char) {
    c == '\'' || c == '"' || c == '`'
  }

  /** The byte of lookahead that `s` offers. */
  function Head(s: string): Option<char> {
    if s == "" then None else Some(s[0])
  }

  /** The two places where a comment starts, seen in normal mode at byte `c` with `next` behind it. */
  predicate OpensComment(c: char, next: Option<char>) {
    (c == '-' && next == Some('-')) || (c == '/' && next == Some('*'))
  }

  function Step(m: Mode, c: char, next: Option<char>): Mode {
    match m
    case LineComment => if c == '\n' then Normal else LineComment
    case BlockOpen => BlockComment
    case BlockComment => if c == '*' && next == Some('/') then BlockClose else BlockComment
    case BlockClose => Normal
    case Quoted(q) => if c == q then Normal else m
    case Normal =>
      if c == '-' && next == Some('-') then LineComment
      else if c == '/' && next == Some('*') then BlockOpen
      else if IsQuote(c) then Quoted(c)
      else Normal
  }

  function Emit(m: Mode, c: char, next: Option<char>): seq<Item> {
    match m
    case Quoted(_) => [Keep(c)]
    case Normal => if OpensComment(c, next) then [] else if c == ';' then [Cut] else [Keep(c)]
    case _ => []
  }

  function Scan(m: Mode, s: string): seq<Item>
    decreases s
  {
    if s == "" then [] else Emit(m, s[0], Head(s[1..])) + Scan(Step(m, s[0], Head(s[1..])), s[1..])
  }

  function EndMode(m: Mode, s: string): Mode
    decreases s
  {
    if s == "" then m else EndMode(Step(m, s[0], Head(s[1..])), s[1..])
  }

  /** The mode in force before byte `i`. */
  function ModeAt(m: Mode, s: string, i: nat): Mode
    requires i <= |s|
    decreases i
  {
    if i == 0 then m else ModeAt(Step(m, s[0], Head(s[1..])), s[1..], i - 1)
  }

  predicate InComment(m: Mode) {
    m == LineComment || m == BlockOpen || m == BlockComment || m == BlockClose
  }

  /** No byte of `s`, read from mode `m`, is part of a comment. */
  predicate CommentFree(m: Mode, s: string)
    decreases s
  {
    !InComment(m) &&
    (s == "" ||
     (!(m == Normal && OpensComment(s[0], Head(s[1..]))) && CommentFree(Step(m, s[0], Head(s[1..])), s[1..])))
  }

  /** Reading `s` from `m` keeps every byte: no comment and no statement separator. */
  predicate Plain(m: Mode, s: string) {
    Scan(m, s) == Keeps(s)
  }

  function Keeps(s: string): (r: seq<Item>)
    ensures |r| == |s| && forall i | 0 <= i < |s| :: r[i] == Keep(s[i])
  {
    seq(|s|, i requires 0 <= i < |s| => Keep(s[i]))
  }

  /** A text whose first byte cannot complete a two-byte token begun before it. */
  predicate Seam(b: string) {
    b != "" ==> b[0] != '-' && b[0] != '*' && b[0] != '/'
  }

  lemma StepAtSeam(m: Mode, c: char, rest: string, b: string)
    requires Seam(b)
    ensures Step(m, c, Head(rest + b)) == Step(m, c, Head(rest))
    ensures OpensComment(c, Head(rest + b)) == OpensComment(c, Head(rest))
    ensures Emit(m, c, Head(rest + b)) == Emit(m, c, Head(rest))
  {
    if rest == "" {
      assert rest + b == b;
    }
  }

  lemma {:induction false} EndModeConcat(m: Mode, a: string, b: string)
    requires Seam(b)
    ensures EndMode(m, a + b) == EndMode(EndMode(m, a), b)
    decreases a
  {
    if a == "" {
      assert a + b == b;
    } else {
      assert (a + b)[1..] == a[1..] + b;
      StepAtSeam(m, a[0], a[1..], b);
      EndModeConcat(Step(m, a[0], Head(a[1..])), a[1..], b);
    }
  }

  lemma {:induction false} ModeAtPrefix(m: Mode, a: string, b: string, k: nat)
    requires Seam(b) && k <= |a|
    ensures ModeAt(m, a + b, k) == ModeAt(m, a, k)
    decreases a
  {
    if k == 0 {
    } else {
      assert (a + b)[1..] == a[1..] + b;
      StepAtSeam(m, a[0], a[1..], b);
      ModeAtPrefix(Step(m, a[0], Head(a[1..])), a[1..], b, k - 1);
    }
  }

  lemma {:induction false} ModeAtConcat(m: Mode, a: string, b: string, j: nat)
    requires Seam(b) && j <= |b|
    ensures ModeAt(m, a + b, |a| + j) == ModeAt(EndMode(m, a), b, j)
    decreases a
  {
    if a == "" {
      assert a + b == b;
    } else {
      assert (a + b)[1..] == a[1..] + b;
      StepAtSeam(m, a[0], a[1..], b);
      ModeAtConcat(Step(m, a[0], Head(a[1..])), a[1..], b, j);
    }
  }

  lemma Associate<T>(a: seq<T>, b: seq<T>, c: seq<T>)
    ensures a + (b + c) == (a + b) + c
  {}

  lemma {:induction false} ScanConcat(m: Mode, a: string, b: string)
    requires Seam(b)
    ensures Scan(m, a + b) == Scan(m, a) + Scan(EndMode(m, a), b)
    ensures EndMode(m, a + b) == EndMode(EndMode(m, a), b)
    decreases a
  {
    EndModeConcat(m, a, b);
    if a == "" {
      assert a + b == b;
    } else {
      var m', items := Step(m, a[0], Head(a[1..])), Emit(m, a[0], Head(a[1..]));
      assert (a + b)[1..] == a[1..] + b;
      StepAtSeam(m, a[0], a[1..], b);
      ScanConcat(m', a[1..], b);
      Associate(items, Scan(m', a[1..]), Scan(EndMode(m', a[1..]), b));
    }
  }

  lemma {:induction false} CommentFreeConcat(m: Mode, a: string, b: string)
    requires Seam(b)
    ensures CommentFree(m, a + b) <==> CommentFree(m, a) && CommentFree(EndMode(m, a), b)
    decreases a
  {
    if a == "" {
      assert a + b == b;
    } else {
      assert (a + b)[1..] == a[1..] + b;
      StepAtSeam(m, a[0], a[1..], b);
      CommentFreeConcat(Step(m, a[0], Head(a[1..])), a[1..], b);
    }
  }

  lemma {:induction false} ScanIsShort(m: Mode, s: string)
    ensures |Scan(m, s)| <= |s|
    ensures |Scan(m, s)| == |s| <==> s == "" || CommentFree(m, s)
    decreases s
  {
    if s == "" {
    } else {
      ScanIsShort(Step(m, s[0], Head(s[1..])), s[1..]);
      if InComment(m) || (m == Normal && OpensComment(s[0], Head(s[1..]))) {
        assert Emit(m, s[0], Head(s[1..])) == [];
      }
    }
  }

  lemma PlainIsCommentFree(m: Mode, s: string)
    requires Plain(m, s) && !InComment(m)
    ensures CommentFree(m, s)
  {
    ScanIsShort(m, s);
  }

  lemma KeepsConcat(a: string, b: string)
    ensures Keeps(a + b) == Keeps(a) + Keeps(b)
  {}

  lemma PlainConcat(m: Mode, a: string, b: string)
    requires Seam(b) && Plain(m, a) && Plain(EndMode(m, a), b)
    ensures Plain(m, a + b) && EndMode(m, a + b) == EndMode(EndMode(m, a), b)
  {
    ScanConcat(m, a, b);
    KeepsConcat(a, b);
  }

  lemma SameCut<T>(xs: seq<T>, ys: seq<T>, a: seq<T>, b: seq<T>)
    requires xs + ys == a + b && |xs| == |a|
    ensures xs == a && ys == b
  {
    assert xs == (xs + ys)[..|a|] && ys == (xs + ys)[|a|..];
    assert a == (a + b)[..|a|] && b == (a + b)[|a|..];
  }

  /** If a concatenation scans at full length, so do its parts. */
  lemma BothFull(m: Mode, a: string, b: string)
    requires Seam(b) && |Scan(m, a + b)| == |a| + |b|
    ensures Scan(m, a + b) == Scan(m, a) + Scan(EndMode(m, a), b)
    ensures |Scan(m, a)| == |a| && |Scan(EndMode(m, a), b)| == |b|
  {
    ScanConcat(m, a, b);
    ScanIsShort(m, a);
    ScanIsShort(EndMode(m, a), b);
  }

  lemma PlainCons(m: Mode, s: string)
    requires s != "" && Emit(m, s[0], Head(s[1..])) == [Keep(s[0])] && Plain(Step(m, s[0], Head(s[1..])), s[1..])
    ensures Plain(m, s)
  {
    KeepsConcat([s[0]], s[1..]);
    assert [s[0]] + s[1..] == s;
  }

  lemma PlainPrefix(m: Mode, a: string, b: string)
    requires Seam(b) && Plain(m, a + b)
    ensures Plain(m, a) && Plain(EndMode(m, a), b)
  {
    BothFull(m, a, b);
    KeepsConcat(a, b);
    SameCut(Scan(m, a), Scan(EndMode(m, a), b), Keeps(a), Keeps(b));
  }

  /** White space is neutral: it keeps a quote open, leaves normal mode alone, and is always kept. */
  lemma {:induction false} SpaceIsPlain(m: Mode, s: string)
    requires AllSpace(s) && (m == Normal || (m.Quoted? && IsQuote(m.delimiter)))
    ensures Plain(m, s) && EndMode(m, s) == m
  {
    if s == "" {
    } else {
      assert IsSpace(s[0]);
      SpaceIsPlain(m, s[1..]);
      PlainCons(m, s);
    }
  }
}
