/** Printing and parsing of decimal numbers, as the formatter and `u32::from_str` do it. */
module Decimal {
  import opened Wrappers

  const U32_LIMIT: nat := 0x1_0000_0000

  type U32 = n: int | 0 <= n < U32_LIMIT

  function DigitChar(d: nat): (c: char)
    requires d < 10
  {
    ('0' as int + d) as char
  }

  predicate IsDigit(c: char) {
    '0' <= c <= '9'
  }

  predicate AllDigits(s: string) {
    forall i :: 0 <= i < |s| ==> IsDigit(s[i])
  }

  function Digits(n: nat): (s: string)
    ensures s != "" && AllDigits(s)
  {
    if n < 10 then [DigitChar(n)] else Digits(n / 10) + [DigitChar(n % 10)]
  }

  function Zeros(n: nat): (s: string)
    ensures |s| == n && AllDigits(s)
  {
    seq(n, _ => '0')
  }

  /** At least `width` characters, filled up with zeros on the left. */
  function Padded(n: nat, width: nat): (s: string)
    ensures s != "" && AllDigits(s)
  {
    var s := Digits(n);
    if |s| < width then Zeros(width - |s|) + s else s
  }

  function Value(s: string): nat
    requires AllDigits(s)
  {
    if s == "" then 0 else 10 * Value(s[..|s| - 1]) + (s[|s| - 1] as int - '0' as int)
  }

  /** Parsing of a 32-bit unsigned number: digits, one `+` before them allowed, no overflow. */
  function ParseU32(s: string): Option<U32> {
    var digits := if |s| > 1 && s[0] == '+' then s[1..] else s;
    if digits == "" || !AllDigits(digits) || Value(digits) >= U32_LIMIT then None else Some(Value(digits))
  }

  lemma ValueOfDigits(n: nat)
    ensures Value(Digits(n)) == n
  {
    if n >= 10 {
      ValueOfDigits(n / 10);
      var s := Digits(n);
      assert s[..|s| - 1] == Digits(n / 10);
    }
  }

  lemma {:induction false} LeadingZeros(k: nat, s: string)
    requires AllDigits(s)
    ensures Value(Zeros(k) + s) == Value(s)
  {
    var t := Zeros(k) + s;
    if s != "" {
      LeadingZeros(k, s[..|s| - 1]);
      assert t[..|t| - 1] == Zeros(k) + s[..|s| - 1];
    } else if k > 0 {
      LeadingZeros(k - 1, s);
      assert t[..|t| - 1] == Zeros(k - 1) + s;
    }
  }

  /** A number has at most k digits if and only if it is below 10^k. */
  lemma {:induction false} DigitsLength(n: nat, k: nat)
    requires k > 0
    ensures |Digits(n)| <= k <==> n < Power10(k)
  {
    assert Power10(k) == 10 * Power10(k - 1);
    if n >= 10 {
      assert |Digits(n)| == |Digits(n / 10)| + 1;
      if k > 1 {
        DigitsLength(n / 10, k - 1);
      }
    }
  }

  function Power10(k: nat): (p: nat)
    ensures p >= 1
  {
    if k == 0 then 1 else 10 * Power10(k - 1)
  }

  /** Padding to a width gives exactly that many digits to the numbers that fit, and to no other. */
  lemma PaddedLength(n: nat, width: nat)
    requires width > 0
    ensures |Padded(n, width)| == width <==> n < Power10(width)
  {
    DigitsLength(n, width);
  }

  /** Reading a printed number gives it back, padded or not, up to the 32-bit limit. */
  lemma ParseOfPadded(n: nat, width: nat)
    ensures ParseU32(Padded(n, width)) == if n < U32_LIMIT then Some(n) else None
  {
    ValueOfDigits(n);
    var s := Digits(n);
    if |s| < width {
      LeadingZeros(width - |s|, s);
    }
  }

  lemma ParseOfDigits(n: nat)
    ensures ParseU32(Digits(n)) == if n < U32_LIMIT then Some(n) else None
  {
    ValueOfDigits(n);
  }

  lemma DigitsInjective(m: nat, n: nat)
    requires Digits(m) == Digits(n)
    ensures m == n
  {
    ValueOfDigits(m);
    ValueOfDigits(n);
  }
}
