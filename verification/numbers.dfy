/** Rust's `str::parse::<i64>()` (`i64::from_str`), which the AST builder
    applies to the text of every integer literal, and a decimal formatter
    that is its inverse. */
module Numbers {
  import opened Wrappers
  import opened Ast

  predicate IsDigit(c: char) {
    '0' <= c <= '9'
  }

  predicate AllDigits(s: string) {
    forall i :: 0 <= i < |s| ==> IsDigit(s[i])
  }

  /** The value of a run of decimal digits, read left to right as
      `from_str_radix` accumulates it (`acc * 10 + digit`). */
  function DigitsValue(s: string): nat
    requires AllDigits(s)
  {
    if |s| == 0 then 0
    else DigitsValue(s[..|s| - 1]) * 10 + (s[|s| - 1] as int - '0' as int)
  }

  /** `i64::from_str`: an optional `+` or `-`, then one or more ASCII digits
      whose value fits in 64 bits; anything else (the empty text, a lone
      sign, a non-digit, an overflow) is an error. */
  function ParseI64(s: string): (r: Option<I64>)
    ensures r.Some? ==> |s| > 0
    ensures r.Some? && s[0] == '-' ==> r.value <= 0
    ensures r.Some? && s[0] != '-' ==> r.value >= 0
  {
    if |s| == 0 then None
    else if (s[0] == '+' || s[0] == '-') && |s| == 1 then None
    else
      var negative := s[0] == '-';
      var digits := if s[0] == '+' || s[0] == '-' then s[1..] else s;
      if !AllDigits(digits) then None
      else
        var v: int := if negative then -(DigitsValue(digits) as int) else DigitsValue(digits);
        if -0x8000_0000_0000_0000 <= v < 0x8000_0000_0000_0000 then Some(v) else None
  }

  function DigitChar(d: nat): (c: char)
    requires d < 10
    ensures IsDigit(c) && c as int - '0' as int == d
  {
    ('0' as int + d) as char
  }

  /** The shortest decimal spelling of a natural number. */
  function NatToDigits(m: nat): (s: string)
    ensures |s| > 0 && AllDigits(s)
  {
    if m < 10 then [DigitChar(m)] else NatToDigits(m / 10) + [DigitChar(m % 10)]
  }

  /** Decimal formatting of an `i64`, as `i64::to_string` spells it. */
  function FormatI64(n: I64): string {
    if n < 0 then "-" + NatToDigits(-(n as int)) else NatToDigits(n)
  }

  lemma {:induction false} NatToDigitsValue(m: nat)
    ensures DigitsValue(NatToDigits(m)) == m
  {
    if m >= 10 {
      var s := NatToDigits(m / 10);
      var t := s + [DigitChar(m % 10)];
      assert t[..|t| - 1] == s;
      NatToDigitsValue(m / 10);
    }
  }

  /** Parsing a formatted integer gives the integer back. */
  lemma FormatParseRoundTrip(n: I64)
    ensures ParseI64(FormatI64(n)) == Some(n)
  {
    var s := FormatI64(n);
    if n < 0 {
      var m: nat := -(n as int);
      var d := NatToDigits(m);
      NatToDigitsValue(m);
      assert s == "-" + d;
      assert s[0] == '-' && |s| > 1;
      assert s[1..] == d;
      assert AllDigits(s[1..]);
      assert -(DigitsValue(s[1..]) as int) == n;
    } else {
      var d := NatToDigits(n);
      NatToDigitsValue(n);
      assert s == d;
      assert IsDigit(s[0]);
      assert DigitsValue(s) == n;
    }
  }

  /** A successful parse reads digits only, after at most one sign. */
  lemma ParseI64Shape(s: string)
    requires ParseI64(s).Some?
    ensures s[0] == '+' || s[0] == '-' || IsDigit(s[0])
    ensures forall i :: 1 <= i < |s| ==> IsDigit(s[i])
  {
    if s[0] == '+' || s[0] == '-' {
      assert AllDigits(s[1..]);
      forall i | 1 <= i < |s| ensures IsDigit(s[i]) {
        assert s[i] == s[1..][i - 1];
      }
    }
  }
}
