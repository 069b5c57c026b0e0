/**
 * Java's fixed-width integer arithmetic on Dafny's unbounded integers:
 * `long` division, the `(int)` narrowing, and `Long.parseLong` on the
 * decimal text that `Long.toString` produces.
 */
module JavaInts {
  import opened Wrappers
  import opened JavaStrings

  const TWO_31: int := 0x8000_0000
  const TWO_32: int := 0x1_0000_0000
  const LONG_MIN: int := -0x8000_0000_0000_0000
  const LONG_MAX: int := 0x7fff_ffff_ffff_ffff

  /** Java `long` division: truncates toward zero. */
  function JavaDiv(a: int, b: int): int
    requires b > 0
  {
    if a >= 0 then a / b else -((-a) / b)
  }

  /** The quotient rounds toward zero: it never overshoots `a` in magnitude, and misses it by less than `b`. */
  lemma JavaDivBounds(a: int, b: int)
    requires b > 0
    ensures a >= 0 ==> JavaDiv(a, b) * b <= a < JavaDiv(a, b) * b + b
    ensures a < 0 ==> JavaDiv(a, b) * b - b < a <= JavaDiv(a, b) * b
  {
  }

  /** The `(int)` narrowing of a Java long (also `Long.intValue`): keeps the low 32 bits, as a signed value. */
  function ToInt32(x: int): int
  {
    (x + TWO_31) % TWO_32 - TWO_31
  }

  /** The narrowing lands in the int range, agrees with `x` modulo 2^32, and keeps values already in range. */
  lemma ToInt32Range(x: int)
    ensures -TWO_31 <= ToInt32(x) < TWO_31
    ensures (ToInt32(x) - x) % TWO_32 == 0
    ensures -TWO_31 <= x < TWO_31 ==> ToInt32(x) == x
  {
  }

  predicate AllDigits(s: string)
  {
    forall k :: 0 <= k < |s| ==> '0' <= s[k] <= '9'
  }

  /** The value of a string of decimal digits. */
  function DigitsValue(s: string): (v: nat)
    requires AllDigits(s)
  {
    if |s| == 0 then 0
    else 10 * DigitsValue(s[..|s| - 1]) + (s[|s| - 1] as int - '0' as int)
  }

  /**
   * `Long.parseLong`: an optional sign followed by at least one decimal
   * digit, whose value fits in a long; anything else is a
   * `NumberFormatException`, here `None`.
   */
  function ParseLong(s: string): (r: Option<int>)
    ensures r.Some? ==> LONG_MIN <= r.value <= LONG_MAX
    ensures |s| == 0 ==> r.None?
  {
    if |s| == 0 then None
    else
      var signed := s[0] == '-' || s[0] == '+';
      var digits := if signed then s[1..] else s;
      if |digits| == 0 || !AllDigits(digits) then None
      else
        var v: int := if s[0] == '-' then 0 - DigitsValue(digits) as int else DigitsValue(digits);
        if LONG_MIN <= v <= LONG_MAX then Some(v) else None
  }

  /** Reading back the decimal text of a number gives the number. */
  lemma {:induction false} DecimalValue(n: nat)
    ensures DigitsValue(Decimal(n)) == n
  {
    if n >= 10 {
      var d := Decimal(n / 10);
      assert Decimal(n) == d + [DigitChar(n % 10)];
      assert Decimal(n)[..|Decimal(n)| - 1] == d;
      DecimalValue(n / 10);
    }
  }

  /** `Long.parseLong(Long.toString(n))` is `n` for every non-negative long. */
  lemma ParseDecimal(n: nat)
    requires n <= LONG_MAX
    ensures ParseLong(Decimal(n)) == Some(n)
  {
    DecimalValue(n);
  }
}
