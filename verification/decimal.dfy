/**
 Decimal text. `Print` is what `u32::to_string` and the kernel's `%u` produce;
 `ParseU32` is Rust's `str::parse::<u32>`, which also accepts a leading `+` and
 leading zeros and rejects everything above `u32::MAX`.
 */
module Decimal {
  import opened Wrappers

  const U32_MAX: nat := 0xFFFF_FFFF

  type u32 = x: int | 0 <= x <= U32_MAX

  predicate IsDigit(c: char) {
    '0' <= c <= '9'
  }

  function DigitChar(d: nat): (c: char)
    requires d < 10
    ensures IsDigit(c) && DigitValue(c) == d
  {
    "0123456789"[d]
  }

  function DigitValue(c: char): (d: nat)
    requires IsDigit(c)
    ensures d < 10
  {
    c as int - '0' as int
  }

  function Print(n: nat): (s: string)
    ensures s != []
    ensures forall i :: 0 <= i < |s| ==> IsDigit(s[i])
  {
    if n < 10 then [DigitChar(n)] else Print(n / 10) + [DigitChar(n % 10)]
  }

  predicate AllDigits(s: string) {
    forall i :: 0 <= i < |s| ==> IsDigit(s[i])
  }

  function Value(s: string): nat
    requires AllDigits(s)
  {
    if s == [] then 0 else 10 * Value(s[..|s| - 1]) + DigitValue(s[|s| - 1])
  }

  function ParseU32(s: string): Option<u32> {
    var digits := if s != [] && s[0] == '+' then s[1..] else s;
    if digits != [] && AllDigits(digits) && Value(digits) <= U32_MAX then Some(Value(digits)) else None
  }

  lemma {:induction false} ValueOfPrint(n: nat)
    ensures Value(Print(n)) == n
  {
    if n >= 10 {
      ValueOfPrint(n / 10);
      assert Print(n)[..|Print(n)| - 1] == Print(n / 10);
    }
  }

  /** Printing then parsing is the identity on every u32. */
  lemma {:induction false} ParsePrint(n: u32)
    ensures ParseU32(Print(n)) == Some(n)
  {
    ValueOfPrint(n);
  }

  lemma {:induction false} PrintInjective(a: nat, b: nat)
    requires Print(a) == Print(b)
    ensures a == b
  {
    ValueOfPrint(a);
    ValueOfPrint(b);
  }

  /** A text is the number `n` iff it is decimal digits of that value, perhaps after a plus sign, and fits a u32. */
  lemma ParseIff(s: string, n: u32)
    ensures ParseU32(s) == Some(n) <==>
            exists digits :: (s == digits || s == "+" + digits) && digits != [] && AllDigits(digits) && Value(digits) == n
  {
    if s != [] && s[0] == '+' {
      assert s == "+" + s[1..];
    }
    if digits :| (s == digits || s == "+" + digits) && digits != [] && AllDigits(digits) && Value(digits) == n {
      assert s == "+" + digits ==> s[0] == '+' && s[1..] == digits;
      assert s == digits ==> IsDigit(s[0]);
    }
  }

  /** The value of digits, one more digit at a time. */
  lemma {:induction false} ValueOfMore(s: string, c: char)
    requires AllDigits(s) && IsDigit(c)
    ensures Value([]) == 0 && Value(s + [c]) == 10 * Value(s) + (c as int - 48)
  {
    assert (s + [c])[..|s|] == s;
  }
}
