/**
 * Decimal text of `u32` values: `u32::to_string` and `str::parse::<u32>`,
 * both over the ASCII bytes of the text.
 */
module Decimal {
  import opened Wrappers
  import opened Bytes

  const PLUS: uint8 := 0x2B

  function DigitChar(d: int): (c: char)
    requires 0 <= d < 10
  {
    ('0' as int + d) as char
  }

  predicate IsDigitChar(c: char) {
    '0' <= c <= '9'
  }

  /** `to_string`: decimal digits with no sign and no leading zero (zero is "0"). */
  function ToDecimal(n: nat): (s: string)
    ensures |s| > 0 && IsAscii(s)
    ensures forall i | 0 <= i < |s| :: IsDigitChar(s[i])
    ensures |s| > 1 ==> s[0] != '0'
    decreases n
  {
    if n < 10 then [DigitChar(n)] else ToDecimal(n / 10) + [DigitChar(n % 10)]
  }

  predicate IsDigit(b: uint8) {
    0x30 <= b <= 0x39
  }

  predicate AllDigits(s: seq<uint8>) {
    forall i | 0 <= i < |s| :: IsDigit(s[i])
  }

  /** The value of a string of decimal digit bytes, most significant first. */
  function DigitsValue(s: seq<uint8>): (v: nat)
    requires AllDigits(s)
  {
    if |s| == 0 then 0 else DigitsValue(s[..|s| - 1]) * 10 + (s[|s| - 1] - 0x30)
  }

  /**
   * `parse::<u32>`: an optional '+', then at least one ASCII digit and
   * nothing else; a value of 2^32 or more is an overflow error (None).
   */
  function ParseU32(s: seq<uint8>): (r: Option<uint32>)
    ensures r.Some? ==> AllAscii(s) && |s| > 0
    ensures var digits := if |s| > 0 && s[0] == PLUS then s[1..] else s;
      && (|digits| == 0 || !AllDigits(digits) ==> r.None?)
      && (r.Some? ==> AllDigits(digits) && r.value == DigitsValue(digits))
      && (AllDigits(digits) && DigitsValue(digits) >= 0x1_0000_0000 ==> r.None?)
  {
    var digits := if |s| > 0 && s[0] == PLUS then s[1..] else s;
    if |digits| == 0 || !AllDigits(digits) then None
    else if DigitsValue(digits) < 0x1_0000_0000 then Some(DigitsValue(digits))
    else None
  }

  lemma {:induction false} DecimalValue(n: nat)
    ensures AllDigits(AsciiBytes(ToDecimal(n)))
    ensures DigitsValue(AsciiBytes(ToDecimal(n))) == n
    decreases n
  {
    var b := AsciiBytes(ToDecimal(n));
    if n >= 10 {
      DecimalValue(n / 10);
      assert b[..|b| - 1] == AsciiBytes(ToDecimal(n / 10));
    }
  }

  /** Rendering then parsing a `u32` gives it back. */
  lemma DecimalRoundTrip(n: uint32)
    ensures ParseU32(AsciiBytes(ToDecimal(n))) == Some(n)
  {
    DecimalValue(n);
  }

  /** Rendered decimals never contain a comma byte. */
  lemma DecimalHasNoComma(n: nat)
    ensures COMMA !in AsciiBytes(ToDecimal(n))
  {
    DecimalValue(n);
  }
}
