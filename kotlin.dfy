/** The few pieces of Kotlin's standard library the score keeper relies on:
    nullable values, the 32-bit `Int` with its wrap-around addition,
    `Int.toString()` (used by string templates) and `String.toIntOrNull()`. */
module Kotlin {

  /** A Kotlin nullable `T?`: `None` is `null`. */
  datatype Option<+T> = None | Some(value: T) {
    /** Kotlin's elvis operator `x ?: default`. */
    function GetOr(default: T): T {
      match this
      case Some(v) => v
      case None => default
    }
  }

  const INT_MIN: int := -0x8000_0000
  const INT_MAX: int := 0x7fff_ffff
  const TWO_32: int := 0x1_0000_0000

  /** Kotlin's `Int`: a two's-complement 32-bit integer. */
  type i32 = x: int | -0x8000_0000 <= x <= 0x7fff_ffff

  /** The value of `x` after Kotlin's 32-bit wrap-around: the unique `Int`
      congruent to `x` modulo 2^32. */
  function Wrap32(x: int): (r: i32)
    ensures (r - x) % TWO_32 == 0
    ensures INT_MIN <= x <= INT_MAX ==> r == x
  {
    (x + 0x8000_0000) % TWO_32 - 0x8000_0000
  }

  /** Wrapping after every addition gives the same `Int` as wrapping once at the end. */
  lemma WrapAdd(a: int, b: int)
    ensures Wrap32(Wrap32(a) + b) == Wrap32(a + b)
  {
  }

  // ---------------------------------------------------------------------
  // Decimal digits (ASCII only)

  predicate IsDigit(c: char) {
    '0' <= c <= '9'
  }

  predicate AllDigits(s: string) {
    forall i :: 0 <= i < |s| ==> IsDigit(s[i])
  }

  function DigitValue(c: char): nat
    requires IsDigit(c)
  {
    c as int - '0' as int
  }

  function DigitChar(d: nat): char
    requires d < 10
  {
    ('0' as int + d) as char
  }

  /** The value of a string of decimal digits, read most significant first. */
  function DigitsValue(ds: string): nat
    requires AllDigits(ds)
    decreases |ds|
  {
    if ds == [] then 0 else 10 * DigitsValue(ds[..|ds| - 1]) + DigitValue(ds[|ds| - 1])
  }

  /** The decimal digits of `n`, without leading zeros. */
  function NatToDigits(n: nat): string
    decreases n
  {
    if n < 10 then [DigitChar(n)] else NatToDigits(n / 10) + [DigitChar(n % 10)]
  }

  /** Kotlin's `Int.toString()`: a minus sign for negative numbers, then the digits. */
  function IntToString(n: int): string {
    if n < 0 then "-" + NatToDigits(-n) else NatToDigits(n)
  }

  // ---------------------------------------------------------------------
  // String.toIntOrNull()

  /** The part of `s` after one optional leading sign. */
  function Unsigned(s: string): string {
    if |s| > 0 && (s[0] == '-' || s[0] == '+') then s[1..] else s
  }

  /** A decimal numeral: an optional `+` or `-`, then at least one digit. */
  predicate IsNumeral(s: string) {
    |Unsigned(s)| > 0 && AllDigits(Unsigned(s))
  }

  function NumeralValue(s: string): int
    requires IsNumeral(s)
  {
    if s[0] == '-' then -(DigitsValue(Unsigned(s)) as int) else DigitsValue(Unsigned(s))
  }

  /** Kotlin's `String.toIntOrNull()` with radix 10, following its structure:
      a first character below `'0'` must be a sign followed by more text, every
      other character must be a digit, and the value must fit in an `Int`.
      The result is null exactly when `s` is not a numeral or its value does not
      fit, and otherwise it is the numeral's value. */
  function ParseInt(s: string): (r: Option<i32>)
    ensures r.Some? <==> IsNumeral(s) && INT_MIN <= NumeralValue(s) <= INT_MAX
    ensures r.Some? ==> r.value == NumeralValue(s)
  {
    if |s| == 0 then None
    else if s[0] < '0' then
      if |s| == 1 || (s[0] != '-' && s[0] != '+') || !AllDigits(s[1..]) then None
      else
        var v: int := if s[0] == '-' then -(DigitsValue(s[1..]) as int) else DigitsValue(s[1..]);
        if INT_MIN <= v <= INT_MAX then Some(v) else None
    else if AllDigits(s) && DigitsValue(s) <= INT_MAX then Some(DigitsValue(s))
    else None
  }

  lemma {:induction false} NatToDigitsCorrect(n: nat)
    ensures |NatToDigits(n)| > 0 && AllDigits(NatToDigits(n))
    ensures DigitsValue(NatToDigits(n)) == n
    decreases n
  {
    var ds := NatToDigits(n);
    if n >= 10 {
      NatToDigitsCorrect(n / 10);
      var prefix := NatToDigits(n / 10);
      assert ds == prefix + [DigitChar(n % 10)];
      assert ds[..|ds| - 1] == prefix;
      assert AllDigits(ds) by {
        forall i | 0 <= i < |ds| ensures IsDigit(ds[i]) {
          if i < |prefix| { assert ds[i] == prefix[i]; }
        }
      }
    }
  }

  /** `toIntOrNull` reads back every `Int` that `toString` writes. */
  lemma {:induction false} ParseIntToString(n: i32)
    ensures ParseInt(IntToString(n)) == Some(n)
  {
    var m: nat := if n < 0 then -(n as int) else n;
    NatToDigitsCorrect(m);
    var s := IntToString(n);
    if n < 0 {
      assert Unsigned(s) == NatToDigits(m);
    } else {
      assert IsDigit(s[0]);
      assert Unsigned(s) == NatToDigits(m);
    }
  }

  /** `toString` is injective on `Int`s, since `toIntOrNull` undoes it. */
  lemma IntToStringInjective(a: i32, b: i32)
    ensures IntToString(a) == IntToString(b) ==> a == b
  {
    ParseIntToString(a);
    ParseIntToString(b);
  }
}
