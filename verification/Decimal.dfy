/** Decimal printing and 64-bit parsing as in strconv: Itoa, FormatInt and ParseInt in base 10. */
module Decimal {
  import opened Outcomes

  const MIN_INT64 := -0x8000_0000_0000_0000
  const MAX_INT64 := 0x7FFF_FFFF_FFFF_FFFF

  predicate IsDigit(c: char) {
    '0' <= c <= '9'
  }

  predicate AllDigits(s: string) {
    forall i :: 0 <= i < |s| ==> IsDigit(s[i])
  }

  function Digits(n: nat): string {
    (if n < 10 then "" else Digits(n / 10)) + [('0' as int + n % 10) as char]
  }

  function Print(i: int): string {
    if i < 0 then "-" + Digits(-i) else Digits(i)
  }

  function Value(s: string): nat
    requires AllDigits(s)
  {
    if s == "" then 0 else 10 * Value(s[..|s| - 1]) + (s[|s| - 1] as int - '0' as int)
  }

  /** An optional sign, then digits, with the result in the range of int64. */
  function ParseInt(s: string): Option<int> {
    var signed := s != "" && (s[0] == '-' || s[0] == '+');
    var digits := if signed then s[1..] else s;
    if digits == "" || !AllDigits(digits) then None
    else
      var magnitude: int := Value(digits);
      var i := if signed && s[0] == '-' then -magnitude else magnitude;
      if MIN_INT64 <= i <= MAX_INT64 then Some(i) else None
  }

  lemma {:induction false} DigitsAreDigits(n: nat)
    ensures Digits(n) != "" && AllDigits(Digits(n)) && Value(Digits(n)) == n
  {
    if n >= 10 {
      DigitsAreDigits(n / 10);
      assert Digits(n)[..|Digits(n)| - 1] == Digits(n / 10);
    }
  }

  /** Numbers are printed in base ten, highest digit first, with a sign only when negative. */
  lemma PrintIsDecimal(n: nat, d: nat)
    requires d < 10
    ensures Print(d) == ["0123456789"[d]]
    ensures n > 0 ==> Print(10 * n + d) == Print(n) + ["0123456789"[d]] && Print(0 - n) == "-" + Print(n)
  {
    assert "0123456789"[d] == ('0' as int + d) as char;
    if n > 0 {
      assert (10 * n + d) / 10 == n && (10 * n + d) % 10 == d;
    }
  }

  lemma ParseUndoesPrint(i: int)
    ensures ParseInt(Print(i)) == if MIN_INT64 <= i <= MAX_INT64 then Some(i) else None
    ensures Print(i) != ""
  {
    DigitsAreDigits(if i < 0 then -i else i);
    assert i < 0 ==> Print(i)[1..] == Digits(-i);
  }

  lemma PrintIsInjective(i: int, j: int)
    requires Print(i) == Print(j)
    ensures i == j
  {
    DigitsAreDigits(if i < 0 then -i else i);
    DigitsAreDigits(if j < 0 then -j else j);
    assert IsDigit(Digits(if i < 0 then -i else i)[0]) && IsDigit(Digits(if j < 0 then -j else j)[0]);
    if i < 0 && j < 0 {
      assert Digits(-i) == Print(i)[1..] == Print(j)[1..] == Digits(-j);
    }
  }

  lemma PrintHasNoUnderscore(i: int)
    ensures forall k :: 0 <= k < |Print(i)| ==> Print(i)[k] != '_'
  {
    DigitsAreDigits(if i < 0 then -i else i);
  }
}
