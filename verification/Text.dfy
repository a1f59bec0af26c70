/** ASCII text in the way the repository's Go code handles it: trimming, upper-casing and substring search. */
module Text {

  datatype Option<+T> = None | Some(value: T)

  /** The ASCII bytes that strings.TrimSpace removes. */
  predicate IsSpace(c: char) {
    c == ' ' || c == '\t' || c == '\n' || c == '\r' || c == '\U{000B}' || c == '\U{000C}'
  }

  predicate AllSpace(s: string) {
    forall i | 0 <= i < |s| :: IsSpace(s[i])
  }

  function TrimLeft(s: string): string {
    if s != "" && IsSpace(s[0]) then TrimLeft(s[1..]) else s
  }

  function TrimRight(s: string): string {
    if s != "" && IsSpace(s[|s| - 1]) then TrimRight(s[..|s| - 1]) else s
  }

  function Trim(s: string): string {
    TrimRight(TrimLeft(s))
  }

  lemma {:induction false} TrimLeftCuts(s: string) returns (before: string)
    ensures s == before + TrimLeft(s) && AllSpace(before)
    ensures TrimLeft(s) != "" ==> !IsSpace(TrimLeft(s)[0])
  {
    if s == "" || !IsSpace(s[0]) {
      before := "";
    } else {
      var rest := TrimLeftCuts(s[1..]);
      before := [s[0]] + rest;
    }
  }

  lemma {:induction false} TrimRightCuts(s: string) returns (after: string)
    ensures s == TrimRight(s) + after && AllSpace(after)
    ensures TrimRight(s) != "" ==> !IsSpace(TrimRight(s)[|TrimRight(s)| - 1])
  {
    if s == "" || !IsSpace(s[|s| - 1]) {
      after := "";
    } else {
      var rest := TrimRightCuts(s[..|s| - 1]);
      after := rest + [s[|s| - 1]];
    }
  }

  /** Trimming cuts white space off both ends, and nothing else. */
  lemma TrimCuts(s: string) returns (before: string, after: string)
    ensures s == before + Trim(s) + after
    ensures AllSpace(before) && AllSpace(after)
    ensures Trim(s) != "" ==> !IsSpace(Trim(s)[0]) && !IsSpace(Trim(s)[|Trim(s)| - 1])
  {
    before := TrimLeftCuts(s);
    after := TrimRightCuts(TrimLeft(s));
  }

  lemma TrimBounds(s: string) returns (from: nat, to: nat)
    ensures from <= to <= |s| && s[from..to] == Trim(s)
    ensures forall i | 0 <= i < |s| && !(from <= i < to) :: IsSpace(s[i])
  {
    var before, after := TrimCuts(s);
    from, to := |before|, |before + Trim(s)|;
    assert AllSpace(s[..from]) && AllSpace(s[to..]) by {
      assert s[..from] == before && s[to..] == after;
    }
    forall i | 0 <= i < |s| && !(from <= i < to)
      ensures IsSpace(s[i])
    {
      assert s[i] == if i < from then s[..from][i] else s[to..][i - to];
    }
  }

  lemma TrimIsIdentity(s: string)
    requires s != "" ==> !IsSpace(s[0]) && !IsSpace(s[|s| - 1])
    ensures Trim(s) == s
  {}

  lemma TrimIdempotent(s: string)
    ensures Trim(Trim(s)) == Trim(s)
  {
    var _, _ := TrimCuts(s);
    TrimIsIdentity(Trim(s));
  }

  lemma TrimAllSpace(s: string)
    requires AllSpace(s)
    ensures Trim(s) == ""
  {
    var before, _ := TrimCuts(s);
    assert |before| < |s| ==> IsSpace(s[|before|]);
  }

  /** A text with a byte that is not white space does not trim to nothing. */
  lemma TrimKeepsNonSpace(s: string, i: nat)
    requires i < |s| && !IsSpace(s[i])
    ensures Trim(s) != ""
  {
    var before, after := TrimCuts(s);
    assert Trim(s) == "" ==> s == before + after;
  }

  /** The six white-space characters are the blank and the codes 9 to 13. */
  lemma SpaceCodes(c: char)
    ensures IsSpace(c) <==> c as int == 32 || 9 <= c as int <= 13
  {}

  lemma {:induction false} TrimLeftSkips(before: string, s: string)
    requires AllSpace(before)
    ensures TrimLeft(before + s) == TrimLeft(s)
  {
    if before == "" {
      assert before + s == s;
    } else {
      assert IsSpace(before[0]);
      assert (before + s)[1..] == before[1..] + s;
      TrimLeftSkips(before[1..], s);
    }
  }

  lemma {:induction false} TrimRightSkips(s: string, after: string)
    requires AllSpace(after)
    ensures TrimRight(s + after) == TrimRight(s)
  {
    if after == "" {
      assert s + after == s;
    } else {
      var n := |after| - 1;
      assert IsSpace(after[n]);
      assert (s + after)[..|s + after| - 1] == s + after[..n];
      TrimRightSkips(s, after[..n]);
    }
  }

  /** White space around a text that neither starts nor ends with it is what trimming takes off. */
  lemma TrimSandwich(before: string, x: string, after: string)
    requires AllSpace(before) && AllSpace(after) && x != "" && !IsSpace(x[0]) && !IsSpace(x[|x| - 1])
    ensures Trim(before + (x + after)) == x
  {
    TrimLeftSkips(before, x + after);
    assert TrimLeft(x + after) == x + after;
    TrimRightSkips(x, after);
  }

  function UpperChar(c: char): char {
    if 'a' <= c <= 'z' then (c as int - 32) as char else c
  }

  function Upper(s: string): (r: string)
    ensures |r| == |s|
    ensures forall i | 0 <= i < |s| :: r[i] == UpperChar(s[i])
  {
    seq(|s|, i requires 0 <= i < |s| => UpperChar(s[i]))
  }

  const SMALL := "abcdefghijklmnopqrstuvwxyz"
  const CAPITALS := "ABCDEFGHIJKLMNOPQRSTUVWXYZ"

  lemma Alphabets(i: nat)
    requires i < 26
    ensures |SMALL| == |CAPITALS| == 26 && SMALL[i] as int == 97 + i && CAPITALS[i] as int == 65 + i
  {}

  /** Upper-casing maps the small letters to the capitals, and nothing else. */
  lemma UpperAlphabet(c: char)
    ensures Upper(SMALL) == CAPITALS
    ensures c !in SMALL ==> UpperChar(c) == c
  {
    forall i | 0 <= i < 26
      ensures |SMALL| == |CAPITALS| == 26 && UpperChar(SMALL[i]) == CAPITALS[i]
    {
      Alphabets(i);
    }
    Alphabets(0);
    if 'a' <= c <= 'z' {
      Alphabets(c as int - 97);
    }
  }

  lemma UpperConcat(a: string, b: string)
    ensures Upper(a + b) == Upper(a) + Upper(b)
  {}

  predicate OccursAt(s: string, sub: string, i: int) {
    0 <= i && i + |sub| <= |s| && s[i..i + |sub|] == sub
  }

  lemma OccursByte(s: string, sub: string, i: nat, k: nat)
    requires k < |sub| && i + k < |s|
    ensures OccursAt(s, sub, i) ==> s[i + k] == sub[k]
  {
    assert OccursAt(s, sub, i) ==> s[i..i + |sub|][k] == sub[k];
  }

  /** `sub` does not occur from `from` up to `to`. */
  predicate Absent(s: string, sub: string, from: nat, to: nat) {
    forall i | from <= i < to :: !OccursAt(s, sub, i)
  }

  /** strings.Index from a starting point: the first occurrence at or after `from`, or -1. */
  method Index(s: string, sub: string, from: nat) returns (r: int)
    requires from <= |s| && sub != ""
    ensures r == -1 || (from <= r < |s| && OccursAt(s, sub, r))
    ensures Absent(s, sub, from, if r == -1 then |s| else r)
  {
    r := from;
    while r < |s|
      invariant from <= r <= |s|
      invariant Absent(s, sub, from, r)
    {
      if r + |sub| <= |s| && s[r..r + |sub|] == sub {
        return;
      }
      r := r + 1;
    }
    r := -1;
  }
}
