/**
 * Decimal account ids: customer i is named by fmt.Sprintf("%d", i), and the
 * transfer reads the ids back with strconv.Atoi to decide the lock order.
 */
module Decimal {
  import opened Status

  const MaxInt64: int := 0x7fff_ffff_ffff_ffff
  const MinInt64: int := -0x8000_0000_0000_0000

  predicate IsDigit(ch: char) {
    '0' <= ch <= '9'
  }

  predicate AllDigits(s: string) {
    forall k :: 0 <= k < |s| ==> IsDigit(s[k])
  }

  function DigitChar(d: nat): (ch: char)
    requires d < 10
    ensures IsDigit(ch) && (ch as int) - ('0' as int) == d
  {
    (('0' as int) + d) as char
  }

  function DigitValue(ch: char): nat
    requires IsDigit(ch)
  {
    (ch as int) - ('0' as int)
  }

  /** fmt.Sprintf("%d", n) for a non-negative n: no sign, no leading zeros. */
  function Format(n: nat): (s: string)
    ensures |s| >= 1 && AllDigits(s)
    ensures |s| > 1 ==> s[0] != '0'
    decreases n
  {
    if n < 10 then [DigitChar(n)] else Format(n / 10) + [DigitChar(n % 10)]
  }

  /** The value of a run of decimal digits, accumulated left to right (n = n*10 + digit). */
  function Digits(s: string): nat
    requires AllDigits(s)
  {
    if |s| == 0 then 0 else Digits(s[..|s| - 1]) * 10 + DigitValue(s[|s| - 1])
  }

  /**
   * strconv.Atoi on a 64-bit platform: an optional '+' or '-' followed by at
   * least one decimal digit, whose value must fit in an int64.
   */
  function Atoi(s: string): (r: Option<int>)
    ensures r.Some? ==> MinInt64 <= r.value <= MaxInt64
    ensures r.Some? ==> |s| >= 1 && (IsDigit(s[0]) || s[0] == '+' || s[0] == '-')
  {
    if |s| == 0 then None
    else
      var body := if s[0] == '+' || s[0] == '-' then s[1..] else s;
      if |body| == 0 || !AllDigits(body) then None
      else
        var v: int := if s[0] == '-' then 0 - (Digits(body) as int) else Digits(body);
        if MinInt64 <= v <= MaxInt64 then Some(v) else None
  }

  lemma {:induction false} DigitsOfFormat(n: nat)
    ensures Digits(Format(n)) == n
    decreases n
  {
    var s := Format(n);
    if n >= 10 {
      DigitsOfFormat(n / 10);
      assert s[..|s| - 1] == Format(n / 10);
    }
  }

  /** Reading back a formatted id gives the number it was made from. */
  lemma AtoiOfFormat(n: nat)
    requires n <= MaxInt64
    ensures Atoi(Format(n)) == Some(n)
  {
    DigitsOfFormat(n);
  }

  /** Distinct customers get distinct account ids. */
  lemma FormatInjective(a: nat, b: nat)
    ensures Format(a) == Format(b) ==> a == b
  {
    DigitsOfFormat(a);
    DigitsOfFormat(b);
  }
}
