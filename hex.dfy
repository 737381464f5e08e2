/**
 * Hexadecimal text of byte strings: the lowercase rendering used for keys
 * and header records (`to_hex`, `serialize_hex`, `hex_str`) and the parser
 * that reads it back (`Vec::<u8>::from_hex`, `to_vec`).
 */
module Hex {
  import opened Wrappers
  import opened Bytes

  /** The lowercase digit of a nibble. */
  function HexDigit(n: int): (c: char)
    requires 0 <= n < 16
  {
    if n < 10 then ('0' as int + n) as char else ('a' as int + n - 10) as char
  }

  predicate IsLowerHexDigit(c: char) {
    '0' <= c <= '9' || 'a' <= c <= 'f'
  }

  predicate IsLowerHex(s: string) {
    forall i | 0 <= i < |s| :: IsLowerHexDigit(s[i])
  }

  /** Two lowercase digits per byte, high nibble first. */
  function ToHex(b: seq<uint8>): (s: string)
    ensures |s| == 2 * |b|
    ensures IsLowerHex(s) && IsAscii(s)
  {
    if |b| == 0 then ""
    else [HexDigit(b[0] / 16), HexDigit(b[0] % 16)] + ToHex(b[1..])
  }

  /** The value of one hex digit byte, either case. */
  function NibbleValue(c: uint8): (r: Option<int>)
    ensures r.Some? ==> 0 <= r.value < 16
  {
    if 0x30 <= c <= 0x39 then Some(c - 0x30)
    else if 0x61 <= c <= 0x66 then Some(c - 0x61 + 10)
    else if 0x41 <= c <= 0x46 then Some(c - 0x41 + 10)
    else None
  }

  /**
   * Hex text back to bytes: an odd length or a byte that is not a hex digit
   * is an error (None).
   */
  function FromHex(s: seq<uint8>): (r: Option<seq<uint8>>)
    ensures r.Some? ==> |s| == 2 * |r.value|
    decreases |s|
  {
    if |s| == 0 then Some([])
    else if |s| == 1 then None
    else
      match (NibbleValue(s[0]), NibbleValue(s[1]), FromHex(s[2..]))
      case (Some(hi), Some(lo), Some(rest)) => Some([hi * 16 + lo] + rest)
      case _ => None
  }

  lemma HexDigitValue(n: int)
    requires 0 <= n < 16
    ensures NibbleValue(HexDigit(n) as int) == Some(n)
  {
  }

  /** The two digits rendered for one byte parse back to that byte. */
  lemma HexPairValue(x: uint8)
    ensures ToHex([x]) == [HexDigit(x / 16), HexDigit(x % 16)]
    ensures NibbleValue(HexDigit(x / 16) as int) == Some(x / 16)
    ensures NibbleValue(HexDigit(x % 16) as int) == Some(x % 16)
    ensures x / 16 * 16 + x % 16 == x
  {
    HexDigitValue(x / 16);
    HexDigitValue(x % 16);
  }

  /** The parser reads back exactly what the renderer wrote. */
  lemma {:induction false} HexRoundTrip(b: seq<uint8>)
    ensures FromHex(AsciiBytes(ToHex(b))) == Some(b)
    decreases |b|
  {
    if |b| > 0 {
      HexPairValue(b[0]);
      var t := ToHex(b);
      assert t == ToHex([b[0]]) + ToHex(b[1..]);
      var s := AsciiBytes(t);
      assert s[0] == HexDigit(b[0] / 16) as int && s[1] == HexDigit(b[0] % 16) as int;
      assert s[2..] == AsciiBytes(ToHex(b[1..]));
      HexRoundTrip(b[1..]);
      assert FromHex(s) == Some([b[0]] + b[1..]);
      assert [b[0]] + b[1..] == b;
    }
  }

  /** Different byte strings never render to the same hex text. */
  lemma HexInjective(a: seq<uint8>, b: seq<uint8>)
    ensures ToHex(a) == ToHex(b) ==> a == b
  {
    HexRoundTrip(a);
    HexRoundTrip(b);
  }

  /** Rendered hex never contains a comma byte, so it is safe as a comma-delimited field. */
  lemma HexHasNoComma(b: seq<uint8>)
    ensures COMMA !in AsciiBytes(ToHex(b))
  {
    var s := ToHex(b);
    forall i | 0 <= i < |s| ensures AsciiBytes(s)[i] != COMMA {
      assert IsLowerHexDigit(s[i]);
    }
  }
}
