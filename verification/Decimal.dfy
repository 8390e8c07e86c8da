/** Decimal integers as Go prints and parses them: strconv.Itoa, strconv.Atoi and strconv.ParseInt(s, 10, 64). */
module Decimal {
  import opened Prelude

  const MAX_INT64: int := 0x7fff_ffff_ffff_ffff

  predicate AllDigits(s: string) {
    forall i :: 0 <= i < |s| ==> '0' <= s[i] <= '9'
  }

  function DigitValue(c: char): (d: int)
    requires '0' <= c <= '9'
    ensures 0 <= d <= 9
  {
    c as int - '0' as int
  }

  function DigitChar(d: int): char
    requires 0 <= d <= 9
  {
    ('0' as int + d) as char
  }

  function NatValue(s: string): nat
    requires AllDigits(s)
  {
    if s == "" then 0 else 10 * NatValue(s[..|s| - 1]) + DigitValue(s[|s| - 1])
  }

  function DigitsOf(n: nat): string {
    if n < 10 then [DigitChar(n)] else DigitsOf(n / 10) + [DigitChar(n % 10)]
  }

  function Itoa(n: int): string {
    if n < 0 then "-" + DigitsOf(-n) else DigitsOf(n)
  }

  /** An optional sign, at least one digit, and a value in range. Leading zeros are fine. */
  function ParseInt(s: string): Option<int> {
    var signed := s != "" && (s[0] == '-' || s[0] == '+');
    var digits := if signed then s[1..] else s;
    if digits == "" || !AllDigits(digits) then None
    else
      var magnitude: int := NatValue(digits);
      var n := if signed && s[0] == '-' then -magnitude else magnitude;
      if -MAX_INT64 - 1 <= n <= MAX_INT64 then Some(n) else None
  }

  /** A decimal without needless zeros in front. */
  predicate Canonical(s: string) {
    s != "" && AllDigits(s) && (s[0] == '0' ==> s == "0")
  }

  lemma {:induction false} DigitsRoundTrip(n: nat)
    ensures Canonical(DigitsOf(n)) && NatValue(DigitsOf(n)) == n
    ensures n > 0 ==> DigitsOf(n)[0] != '0'
  {
    if n < 10 {
      assert [DigitChar(n)][..0] == "";
    } else {
      DigitsRoundTrip(n / 10);
      var s := DigitsOf(n);
      assert s[..|s| - 1] == DigitsOf(n / 10);
      assert s[0] == DigitsOf(n / 10)[0];
    }
  }

  lemma {:induction false} CanonicalRoundTrip(s: string)
    requires Canonical(s)
    ensures DigitsOf(NatValue(s)) == s
    ensures s != "0" ==> NatValue(s) > 0
  {
    var init := s[..|s| - 1];
    if |s| == 1 {
      assert init == "" && s == [s[0]];
    } else {
      assert init[0] == s[0] && init != "0";
      CanonicalRoundTrip(init);
      assert s == init + [s[|s| - 1]];
    }
  }

  /** Digits with or without a sign parse to their value, if it fits in 64 bits. */
  lemma SignedNumbers(digits: string)
    requires digits != "" && AllDigits(digits)
    ensures ParseInt(digits) == ParseInt("+" + digits)
      == if NatValue(digits) <= 9_223_372_036_854_775_807 then Some(NatValue(digits)) else None
    ensures ParseInt("-" + digits) ==
      if NatValue(digits) <= 9_223_372_036_854_775_808 then Some(0 - NatValue(digits)) else None
  {
    assert ("+" + digits)[1..] == digits && ("-" + digits)[1..] == digits;
  }

  /** And nothing else parses. */
  lemma OnlyNumbersParse(s: string)
    requires ParseInt(s).Some?
    ensures exists digits ::
      digits != "" && AllDigits(digits) && (s == digits || s == "+" + digits || s == "-" + digits)
  {
    var digits := if s[0] == '-' || s[0] == '+' then s[1..] else s;
    assert s == [s[0]] + s[1..];
    assert digits != "" && AllDigits(digits) && (s == digits || s == "+" + digits || s == "-" + digits);
  }

  /** Parsing what was printed, for every 64-bit integer. */
  lemma ParseItoa(n: int)
    requires -MAX_INT64 - 1 <= n <= MAX_INT64
    ensures ParseInt(Itoa(n)) == Some(n)
  {
    if n < 0 {
      DigitsRoundTrip(-n);
      assert Itoa(n)[1..] == DigitsOf(-n);
    } else {
      DigitsRoundTrip(n);
    }
  }
}
