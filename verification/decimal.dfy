/** Decimal text of integers: strconv.Itoa, strconv.Atoi and strconv.ParseUint with base 10 and 64 bits. */
module Decimal {
  import opened Wrappers

  const MAX_UINT64: nat := 0xFFFF_FFFF_FFFF_FFFF
  const MAX_INT64: nat := 0x7FFF_FFFF_FFFF_FFFF

  predicate IsDigit(c: char) {
    '0' <= c <= '9'
  }

  function DigitOf(d: nat): char
    requires d < 10
  {
    '0' + d as char
  }

  function FormatNat(n: nat): string {
    if n < 10 then [DigitOf(n)] else FormatNat(n / 10) + [DigitOf(n % 10)]
  }

  function Itoa(n: int): string {
    if n < 0 then "-" + FormatNat(-n) else FormatNat(n)
  }

  /** The value of a string of digits; the empty string is worth 0. */
  function DigitsValue(s: string): nat
    requires forall c :: c in s ==> IsDigit(c)
  {
    if s == "" then 0
    else
      assert IsDigit(s[|s| - 1]);
      10 * DigitsValue(s[..|s| - 1]) + (s[|s| - 1] as nat - '0' as nat)
  }

  /** Digits only, at least one, and at most `limit`. */
  function ParseDigits(s: string, limit: nat): Option<nat> {
    if s == "" || exists c :: c in s && !IsDigit(c) then None
    else if DigitsValue(s) <= limit then Some(DigitsValue(s)) else None
  }

  function ParseUint(s: string): Option<nat> {
    ParseDigits(s, MAX_UINT64)
  }

  function Atoi(s: string): Option<int> {
    if s != "" && s[0] == '-' then
      var magnitude := ParseDigits(s[1..], MAX_INT64 + 1);
      if magnitude.None? then None else Some(-(magnitude.value as int))
    else
      var magnitude := ParseDigits(if s != "" && s[0] == '+' then s[1..] else s, MAX_INT64);
      if magnitude.None? then None else Some(magnitude.value as int)
  }

  lemma {:induction false} FormatNatValue(n: nat)
    ensures FormatNat(n) != ""
    ensures forall c :: c in FormatNat(n) ==> IsDigit(c)
    ensures DigitsValue(FormatNat(n)) == n
  {
    if n >= 10 {
      FormatNatValue(n / 10);
      assert FormatNat(n)[..|FormatNat(n)| - 1] == FormatNat(n / 10);
    }
  }

  /** Every 64-bit value survives printing and parsing; no larger one is read as something else. */
  lemma ParseUintFormat(n: nat)
    ensures ParseUint(FormatNat(n)) == if n < 0x1_0000_0000_0000_0000 then Some(n) else None
  {
    FormatNatValue(n);
  }

  lemma AtoiItoa(n: int)
    ensures Atoi(Itoa(n)) == if -0x8000_0000_0000_0000 <= n < 0x8000_0000_0000_0000 then Some(n) else None
  {
    var digits := FormatNat(if n < 0 then -n else n);
    FormatNatValue(if n < 0 then -n else n);
    if n < 0 {
      assert Itoa(n)[1..] == digits;
    } else {
      assert digits[0] in digits;
    }
  }
}
