/**
  Decimal text of integers: the formatting used for the node ids of the
  node-graph fixtures (JavaScript template literals) and the parsing that
  Go's `strconv.ParseInt(s, 10, 64)` performs on the `sub` claim.
 */
module Decimal {
  import opened Wrappers

  const Int64Min: int := -0x8000_0000_0000_0000
  const Int64Max: int := 0x7fff_ffff_ffff_ffff

  predicate IsDigit(c: char) {
    '0' <= c <= '9'
  }

  predicate AllDigits(s: string) {
    forall i :: 0 <= i < |s| ==> IsDigit(s[i])
  }

  function DigitChar(d: nat): (c: char)
    requires d < 10
    ensures IsDigit(c) && c as int - '0' as int == d
  {
    ('0' as int + d) as char
  }

  /** The shortest decimal text of `n`, without sign or leading zeros. */
  function FormatNat(n: nat): (s: string)
    ensures 1 <= |s| && AllDigits(s)
    ensures |s| > 1 ==> s[0] != '0'
    decreases n
  {
    if n < 10 then [DigitChar(n)] else FormatNat(n / 10) + [DigitChar(n % 10)]
  }

  /** Decimal text of an integer, with a leading '-' when it is negative. */
  function FormatInt(n: int): string {
    if n < 0 then "-" + FormatNat(-n) else FormatNat(n)
  }

  /** The value of a string of decimal digits, read left to right. */
  function DigitsValue(s: string): nat
    requires AllDigits(s)
  {
    if s == [] then 0
    else DigitsValue(s[..|s| - 1]) * 10 + (s[|s| - 1] as int - '0' as int)
  }

  lemma {:induction false} DigitsValueOfFormat(n: nat)
    ensures DigitsValue(FormatNat(n)) == n
    decreases n
  {
    if n >= 10 {
      var s := FormatNat(n);
      assert s[..|s| - 1] == FormatNat(n / 10);
      DigitsValueOfFormat(n / 10);
    }
  }

  /** Different numbers have different decimal texts. */
  lemma FormatNatInjective(m: nat, n: nat)
    ensures FormatNat(m) == FormatNat(n) ==> m == n
  {
    DigitsValueOfFormat(m);
    DigitsValueOfFormat(n);
  }

  /** The text after an optional leading '+' or '-'. */
  function Unsigned(s: string): string
    requires s != ""
  {
    if s[0] == '+' || s[0] == '-' then s[1..] else s
  }

  /** The value a signed digit string denotes: negated when it starts with '-'. */
  function SignedValue(s: string): int
    requires s != "" && AllDigits(Unsigned(s))
  {
    if s[0] == '-' then -(DigitsValue(Unsigned(s)) as int) else DigitsValue(Unsigned(s))
  }

  /**
    `strconv.ParseInt(s, 10, 64)`: an optional '+' or '-' sign, then at least
    one decimal digit and nothing else; the value must fit in 64 bits.
    None stands for the syntax and range errors.
   */
  function ParseInt64(s: string): (r: Option<int>)
    ensures r.Some? <==> s != "" && Unsigned(s) != "" && AllDigits(Unsigned(s)) && Int64Min <= SignedValue(s) <= Int64Max
    ensures r.Some? ==> r.value == SignedValue(s) && Int64Min <= r.value <= Int64Max
  {
    if s == "" then None
    else
      var neg := s[0] == '-';
      var digits := if s[0] == '+' || s[0] == '-' then s[1..] else s;
      if digits == [] || !AllDigits(digits) then None
      else
        var v: int := if neg then -(DigitsValue(digits) as int) else DigitsValue(digits);
        if Int64Min <= v <= Int64Max then Some(v) else None
  }

  /** A leading zero does not change the value of a digit string. */
  lemma {:induction false} DigitsValueLeadingZero(s: string)
    requires AllDigits(s)
    ensures AllDigits("0" + s) && DigitsValue("0" + s) == DigitsValue(s)
    decreases |s|
  {
    var z := "0" + s;
    assert AllDigits(z) by {
      assert forall i :: 0 < i < |z| ==> z[i] == s[i - 1];
    }
    if s != [] {
      assert z[..|z| - 1] == "0" + s[..|s| - 1];
      DigitsValueLeadingZero(s[..|s| - 1]);
    }
  }

  /** Leading zeros after the sign are accepted and ignored, as `strconv.ParseInt` does. */
  lemma LeadingZerosIgnored(s: string)
    requires s != "" && AllDigits(s)
    ensures ParseInt64("0" + s) == ParseInt64(s)
    ensures ParseInt64("+" + s) == ParseInt64(s)
  {
    DigitsValueLeadingZero(s);
    assert Unsigned("0" + s) == "0" + s;
    assert Unsigned("+" + s) == s;
  }

  /** Every 64-bit integer survives formatting and parsing back. */
  lemma ParseFormatRoundTrip(n: int)
    requires Int64Min <= n <= Int64Max
    ensures ParseInt64(FormatInt(n)) == Some(n)
  {
    var m: nat := if n < 0 then -n else n;
    DigitsValueOfFormat(m);
    if n < 0 {
      assert FormatInt(n)[1..] == FormatNat(m);
    }
  }
}
