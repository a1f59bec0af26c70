/** internal/sanitize/sanitize.go: masking literals in logged SQL, one pass per quote character. */
module Masker {
  import opened Keywords

  /** Position `i` lies behind an odd number of `quote` characters. */
  predicate InRegion(s: string, quote: char, i: nat)
    requires i <= |s|
  {
    i > 0 && if s[i - 1] == quote then !InRegion(s, quote, i - 1) else InRegion(s, quote, i - 1)
  }

  function MaskedAt(s: string, quote: char, i: nat): char
    requires i < |s|
  {
    if s[i] != quote && InRegion(s, quote, i) then '*' else s[i]
  }

  function Mask(s: string, quote: char): (r: string)
    ensures |r| == |s|
    ensures forall i | 0 <= i < |s| :: r[i] == MaskedAt(s, quote, i)
  {
    seq(|s|, i requires 0 <= i < |s| => MaskedAt(s, quote, i))
  }

  method ReplaceQuoted(s: string, quote: char) returns (r: string)
    ensures r == Mask(s, quote)
  {
    r := "";
    var inQuote := false;
    for i := 0 to |s|
      invariant |r| == i
      invariant inQuote == InRegion(s, quote, i)
      invariant forall k | 0 <= k < i :: r[k] == MaskedAt(s, quote, k)
    {
      var c := s[i];
      if c == quote {
        r := r + [c];
        inQuote := !inQuote;
      } else if inQuote {
        r := r + ['*'];
      } else {
        r := r + [c];
      }
    }
  }

  /** The pass over single quotes, then the pass over double quotes. */
  function Sanitized(sql: string): (r: string)
    ensures |r| == |sql|
  {
    Mask(Mask(sql, '\''), '"')
  }

  method SanitizeSQL(sql: string) returns (r: string)
    ensures r == Sanitized(sql)
  {
    r := ReplaceQuoted(sql, '\'');
    r := ReplaceQuoted(r, '"');
  }

  /** A pass keeps its own quote characters where they are. */
  lemma {:induction false} MaskKeepsRegions(s: string, quote: char, i: nat)
    requires quote != '*' && i <= |s|
    ensures InRegion(Mask(s, quote), quote, i) == InRegion(s, quote, i)
  {
    if i == 0 {
    } else {
      MaskKeepsRegions(s, quote, i - 1);
    }
  }

  lemma MaskIdempotent(s: string, quote: char)
    requires quote != '*'
    ensures Mask(Mask(s, quote), quote) == Mask(s, quote)
  {
    var t := Mask(s, quote);
    forall i | 0 <= i < |s|
      ensures MaskedAt(t, quote, i) == t[i]
    {
      MaskKeepsRegions(s, quote, i);
    }
  }

  /**
   Parity: outside the double-quoted regions the second pass has removed an even number of single quotes,
   and inside one no single quote is left open.
   */
  lemma {:induction false} SecondPassKeepsParity(s: string, i: nat)
    requires i <= |s|
    ensures
      var t, u := Mask(s, '\''), Sanitized(s);
      InRegion(u, '\'', i) <==> !InRegion(t, '"', i) && InRegion(s, '\'', i)
  {
    if i == 0 {
    } else {
      SecondPassKeepsParity(s, i - 1);
      var t, u := Mask(s, '\''), Sanitized(s);
      assert u[i - 1] == MaskedAt(t, '"', i - 1);
      assert t[i - 1] == MaskedAt(s, '\'', i - 1);
    }
  }

  /** Masking a masked text changes nothing, unmatched quotes included. */
  lemma SanitizingIsIdempotent(s: string)
    ensures Sanitized(Sanitized(s)) == Sanitized(s)
  {
    var t, u := Mask(s, '\''), Sanitized(s);
    forall i | 0 <= i < |s|
      ensures MaskedAt(u, '\'', i) == u[i]
    {
      SecondPassKeepsParity(s, i);
      assert u[i] == MaskedAt(t, '"', i);
      assert t[i] == MaskedAt(s, '\'', i);
    }
    assert Mask(u, '\'') == u;
    MaskIdempotent(t, '"');
  }

  /** Every position keeps its character or shows an asterisk. */
  lemma SanitizingIsPositional(s: string, i: nat)
    requires i < |s|
    ensures Sanitized(s)[i] == s[i] || Sanitized(s)[i] == '*'
    ensures InRegion(s, '\'', i) && s[i] != '\'' ==> Sanitized(s)[i] == '*'
  {
    assert Sanitized(s)[i] == MaskedAt(Mask(s, '\''), '"', i);
    assert Mask(s, '\'')[i] == MaskedAt(s, '\'', i);
  }

  // ---- Against the quote scan of the SQL side --------------------------------------------------

  /** Byte `i` is part of a literal's contents, as the clause search reads the text. */
  predicate InsideLiteral(s: string, i: nat)
    requires i < |s|
  {
    match StateAt(s, i)
    case InSingle => s[i] != '\''
    case InDouble => s[i] != '"'
    case Outside => false
  }

  /** Every double-quoted literal that is closed holds an even number of single quotes. */
  predicate EvenInDoubles(s: string) {
    forall i | 0 <= i < |s| && StateAt(s, i) == InDouble && s[i] == '"' :: !InRegion(s, '\'', i)
  }

  lemma {:induction false} RegionsFollowScan(s: string, i: nat)
    requires EvenInDoubles(s) && i <= |s|
    ensures InRegion(Mask(s, '\''), '"', i) <==> StateAt(s, i) == InDouble
    ensures StateAt(s, i) != InDouble ==> (InRegion(s, '\'', i) <==> StateAt(s, i) == InSingle)
  {
    if i == 0 {
    } else {
      RegionsFollowScan(s, i - 1);
      assert Mask(s, '\'')[i - 1] == MaskedAt(s, '\'', i - 1);
    }
  }

  /**
   The two passes mask exactly the contents of literals if and only if no closed double-quoted literal holds an odd
   number of single quotes.
   */
  lemma MasksLiteralsExactly(s: string)
    ensures
      (forall i | 0 <= i < |s| :: Sanitized(s)[i] == if InsideLiteral(s, i) then '*' else s[i]) <==> EvenInDoubles(s)
  {
    var t, u := Mask(s, '\''), Sanitized(s);
    if EvenInDoubles(s) {
      forall i | 0 <= i < |s|
        ensures u[i] == if InsideLiteral(s, i) then '*' else s[i]
      {
        RegionsFollowScan(s, i);
        assert u[i] == MaskedAt(t, '"', i) && t[i] == MaskedAt(s, '\'', i);
      }
    } else {
      var i :| 0 <= i < |s| && StateAt(s, i) == InDouble && s[i] == '"' && InRegion(s, '\'', i);
      assert u[i] == MaskedAt(t, '"', i) && t[i] == MaskedAt(s, '\'', i) == '*';
    }
  }

  /** The condition fails: the single quote inside the double-quoted literal hides its end from the second pass. */
  lemma OddQuoteMasksTooMuch()
    ensures !EvenInDoubles("\"'\"") && Sanitized("\"'\"")[2] == '*'
  {
    var s := "\"'\"";
    assert StateAt(s, 1) == Toggle(StateAt(s, 0), '"');
    assert StateAt(s, 2) == Toggle(StateAt(s, 1), '\'');
    assert InRegion(s, '\'', 1) == InRegion(s, '\'', 0);
    assert InRegion(s, '\'', 2) == !InRegion(s, '\'', 1);
    assert Mask(s, '\'')[2] == MaskedAt(s, '\'', 2);
    assert Sanitized(s)[2] == MaskedAt(Mask(s, '\''), '"', 2);
  }
}
