/** The fixed-buffer integer printer of internal/sqlnorm/sqlnorm.go, on Go's 64-bit int. */
module Itoa {

  type Int64 = x: int | -0x8000_0000_0000_0000 <= x < 0x8000_0000_0000_0000

  const MIN_INT64: Int64 := -0x8000_0000_0000_0000

  /** A Go computation that returns or panics. */
  datatype Go<+T> = Returned(value: T) | Panicked {
    predicate IsFailure() {
      Panicked?
    }

    function PropagateFailure<U>(): Go<U>
      requires Panicked?
    {
      Panicked
    }

    function Extract(): T
      requires Returned?
    {
      value
    }
  }

  // ---- Decimal numerals ------------------------------------------------------------------------

  function Digit(d: nat): char
    requires d < 10
  {
    '0' + d as char
  }

  function Digits(n: nat): string {
    if n < 10 then [Digit(n)] else Digits(n / 10) + [Digit(n % 10)]
  }

  /** The "%d" of fmt.Sprintf. */
  function Decimal(n: int): string {
    if n < 0 then "-" + Digits(-n) else Digits(n)
  }

  predicate AllDigits(s: string) {
    forall i | 0 <= i < |s| :: '0' <= s[i] <= '9'
  }

  function Value(s: string): nat
    requires AllDigits(s)
  {
    if s == "" then 0 else 10 * Value(s[..|s| - 1]) + (s[|s| - 1] as int - '0' as int)
  }

  /** A numeral without superfluous zeros or sign. */
  predicate Canonical(s: string) {
    if s != "" && s[0] == '-' then CanonicalDigits(s[1..]) && s[1] != '0' else CanonicalDigits(s)
  }

  predicate CanonicalDigits(s: string) {
    s != "" && AllDigits(s) && (s[0] == '0' ==> |s| == 1)
  }

  function Parse(s: string): int
    requires Canonical(s)
  {
    if s[0] == '-' then 0 - Value(s[1..]) else Value(s)
  }

  lemma {:induction false} DigitsParse(n: nat)
    ensures CanonicalDigits(Digits(n)) && Value(Digits(n)) == n
    ensures Digits(n)[0] == '0' ==> n == 0
  {
    if n >= 10 {
      DigitsParse(n / 10);
      var s := Digits(n);
      assert s[..|s| - 1] == Digits(n / 10);
      assert s[0] == Digits(n / 10)[0];
    } else {
      assert Digits(n)[..0] == "";
    }
  }

  lemma {:induction false} LeadingDigit(s: string)
    requires s != "" && AllDigits(s) && s[0] != '0'
    ensures Value(s) > 0 && (|s| > 1 ==> Value(s) >= 10)
  {
    if |s| <= 1 {
    } else {
      LeadingDigit(s[..|s| - 1]);
    }
  }

  lemma {:induction false} DigitsUnique(s: string)
    requires CanonicalDigits(s)
    ensures Digits(Value(s)) == s
  {
    if |s| > 1 {
      LeadingDigit(s);
      var init, d := s[..|s| - 1], s[|s| - 1] as int - '0' as int;
      assert init[0] == s[0];
      DigitsUnique(init);
      assert Value(s) / 10 == Value(init) && Value(s) % 10 == d;
      assert s == init + [Digit(d)];
    } else {
      assert s[..0] == "";
      assert Value(s) == s[0] as int - '0' as int;
    }
  }

  /** Printing and parsing are inverse to each other: Decimal is a bijection onto the canonical numerals. */
  lemma DecimalRoundTrip(n: int)
    ensures Canonical(Decimal(n)) && Parse(Decimal(n)) == n
  {
    if n < 0 {
      DigitsParse(-n);
      assert ("-" + Digits(-n))[1..] == Digits(-n);
    } else {
      DigitsParse(n);
    }
  }

  lemma NumeralRoundTrip(s: string)
    requires Canonical(s)
    ensures Decimal(Parse(s)) == s
  {
    if s[0] == '-' {
      DigitsUnique(s[1..]);
      LeadingDigit(s[1..]);
      assert s == "-" + s[1..];
    } else {
      DigitsUnique(s);
    }
  }

  function Pow10(k: nat): nat {
    if k == 0 then 1 else 10 * Pow10(k - 1)
  }

  lemma {:induction false} DigitsLength(n: nat, k: nat)
    requires k > 0
    ensures |Digits(n)| <= k <==> n < Pow10(k)
  {
    if n < 10 {
      Pow10Grows(k);
    } else if k == 1 {
      assert Pow10(1) == 10 * Pow10(0);
    } else {
      DigitsLength(n / 10, k - 1);
    }
  }

  lemma {:induction false} Pow10Grows(k: nat)
    requires k > 0
    ensures Pow10(k) >= 10
  {
    if k <= 1 {
    } else {
      Pow10Grows(k - 1);
    }
  }

  // ---- itoa ------------------------------------------------------------------------------------

  const TEN_TO_11 := 100_000_000_000
  const TEN_TO_12 := 1_000_000_000_000

  /** The numbers whose decimal form fits the twelve-byte buffer. */
  predicate Fits(n: int) {
    -TEN_TO_11 < n < TEN_TO_12
  }

  /** Two's complement negation: the least integer is its own negative. */
  function Negate(n: Int64): Int64 {
    if n == MIN_INT64 then n else -n
  }

  /**
   What itoa computes: the numeral exactly where it fits, a panic elsewhere, and a bare sign for the least integer.
   */
  function Printed(n: Int64): (r: Go<string>)
    ensures r == Returned(Decimal(n)) <==> Fits(n)
  {
    DecimalRoundTrip(n);
    if Fits(n) then Returned(Decimal(n)) else if n == MIN_INT64 then Returned("-") else Panicked
  }

  lemma BufferBounds(n: nat)
    ensures |Digits(n)| <= 12 <==> n < TEN_TO_12
    ensures |Digits(n)| <= 11 <==> n < TEN_TO_11
  {
    DigitsLength(n, 12);
    DigitsLength(n, 11);
    assert Pow10(3) == 1000;
    assert Pow10(6) == 1000 * Pow10(3);
    assert Pow10(9) == 1000 * Pow10(6);
    assert Pow10(11) == 100 * Pow10(9);
    assert Pow10(12) == 10 * Pow10(11);
  }

  /** itoa yields the decimal numeral exactly on the open interval (-10^11, 10^12). */
  method PrintInt(n: Int64) returns (r: Go<string>)
    ensures r == Printed(n)
    ensures r == Returned(Decimal(n)) <==> Fits(n)
  {
    if n == 0 {
      return Returned("0");
    }
    var buf := new char[12](_ => '\0');
    var neg, rest := false, n;
    if n < 0 {
      neg, rest := true, Negate(n);
    }
    ghost var size: nat := if n == MIN_INT64 then 0 else rest;
    BufferBounds(size);
    var i := buf.Length;
    while rest > 0
      invariant 0 <= i <= buf.Length && rest <= size
      invariant rest > 0 ==> Digits(size) == Digits(rest) + buf[i..]
      invariant rest <= 0 && size > 0 ==> rest == 0 && Digits(size) == buf[i..]
      invariant size == 0 ==> i == buf.Length
    {
      if i == 0 {
        return Panicked;
      }
      i := i - 1;
      ghost var before := buf[i + 1..];
      buf[i] := Digit(rest % 10);
      assert buf[i..] == [Digit(rest % 10)] + before;
      rest := rest / 10;
    }
    if neg {
      if i == 0 {
        return Panicked;
      }
      i := i - 1;
      ghost var before := buf[i + 1..];
      buf[i] := '-';
      assert buf[i..] == "-" + before;
      assert size > 0 ==> before == Digits(size) && |before| <= 11;
      assert size == 0 ==> before == "";
    }
    r := Returned(buf[i..]);
    assert if n == MIN_INT64 then r.value == "-" else r.value == Decimal(n) && Fits(n);
  }
}
