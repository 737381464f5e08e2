/**
 * Byte strings and the small pieces of Rust text handling the cache relies
 * on: `str::as_bytes` for ASCII text, `String::from_utf8`'s validity check,
 * and `str::split` on a one-byte separator.
 */
module Bytes {

  type uint8 = x: int | 0 <= x < 0x100
  type uint32 = x: int | 0 <= x < 0x1_0000_0000

  /** The byte of ',' (the header record's field separator). */
  const COMMA: uint8 := 0x2C

  predicate IsAscii(s: string) {
    forall i | 0 <= i < |s| :: s[i] as int < 0x80
  }

  predicate AllAscii(b: seq<uint8>) {
    forall i | 0 <= i < |b| :: b[i] < 0x80
  }

  /** The bytes of an ASCII string, as `str::as_bytes` gives them (UTF-8 of ASCII is the identity). */
  function AsciiBytes(s: string): (b: seq<uint8>)
    requires IsAscii(s)
    ensures |b| == |s| && AllAscii(b)
  {
    seq(|s|, i requires 0 <= i < |s| => s[i] as int)
  }

  lemma AsciiBytesConcat(a: string, b: string)
    requires IsAscii(a) && IsAscii(b)
    ensures IsAscii(a + b) && AsciiBytes(a + b) == AsciiBytes(a) + AsciiBytes(b)
  {
  }

  /** `str::split(sep)` collected into a vector: the fields between separators, always at least one. */
  function Split(s: seq<uint8>, sep: uint8): (parts: seq<seq<uint8>>)
    ensures |parts| >= 1
    decreases |s|
  {
    if |s| == 0 then [[]]
    else
      var rest := Split(s[1..], sep);
      if s[0] == sep then [[]] + rest
      else [[s[0]] + rest[0]] + rest[1..]
  }

  /** A field free of the separator is returned whole, and splitting resumes after the separator that ends it. */
  lemma {:induction false} SplitField(a: seq<uint8>, sep: uint8, rest: seq<uint8>)
    requires sep !in a
    ensures Split(a, sep) == [a]
    ensures Split(a + [sep] + rest, sep) == [a] + Split(rest, sep)
  {
    if |a| > 0 {
      SplitField(a[1..], sep, rest);
      assert (a + [sep] + rest)[1..] == a[1..] + [sep] + rest;
      assert [a[0]] + a[1..] == a;
    } else {
      assert a + [sep] + rest == [sep] + rest;
    }
  }

  /** Three separator-free fields joined by the separator split back into exactly those three fields. */
  lemma SplitThree(a: seq<uint8>, b: seq<uint8>, c: seq<uint8>, sep: uint8)
    requires sep !in a && sep !in b && sep !in c
    ensures Split(a + [sep] + b + [sep] + c, sep) == [a, b, c]
  {
    var tail := b + [sep] + c;
    assert a + [sep] + b + [sep] + c == a + [sep] + tail;
    SplitField(a, sep, tail);
    SplitField(b, sep, c);
    SplitField(c, sep, []);
    assert Split(tail, sep) == [b, c];
  }

  predicate IsContinuation(b: uint8) {
    0x80 <= b <= 0xBF
  }

  /**
   * Well-formed UTF-8, the check `String::from_utf8` makes: shortest forms
   * only, no surrogates, nothing above U+10FFFF.
   */
  predicate ValidUtf8(s: seq<uint8>)
    decreases |s|
  {
    if |s| == 0 then true
    else if s[0] < 0x80 then ValidUtf8(s[1..])
    else if 0xC2 <= s[0] <= 0xDF then
      |s| >= 2 && IsContinuation(s[1]) && ValidUtf8(s[2..])
    else if s[0] == 0xE0 then
      |s| >= 3 && 0xA0 <= s[1] <= 0xBF && IsContinuation(s[2]) && ValidUtf8(s[3..])
    else if 0xE1 <= s[0] <= 0xEC || 0xEE <= s[0] <= 0xEF then
      |s| >= 3 && IsContinuation(s[1]) && IsContinuation(s[2]) && ValidUtf8(s[3..])
    else if s[0] == 0xED then
      |s| >= 3 && 0x80 <= s[1] <= 0x9F && IsContinuation(s[2]) && ValidUtf8(s[3..])
    else if s[0] == 0xF0 then
      |s| >= 4 && 0x90 <= s[1] <= 0xBF && IsContinuation(s[2]) && IsContinuation(s[3]) && ValidUtf8(s[4..])
    else if 0xF1 <= s[0] <= 0xF3 then
      |s| >= 4 && IsContinuation(s[1]) && IsContinuation(s[2]) && IsContinuation(s[3]) && ValidUtf8(s[4..])
    else if s[0] == 0xF4 then
      |s| >= 4 && 0x80 <= s[1] <= 0x8F && IsContinuation(s[2]) && IsContinuation(s[3]) && ValidUtf8(s[4..])
    else false
  }

  /** ASCII bytes are valid UTF-8, so `String::from_utf8` accepts every record the cache writes. */
  lemma {:induction false} AsciiIsUtf8(b: seq<uint8>)
    requires AllAscii(b)
    ensures ValidUtf8(b)
    decreases |b|
  {
    if |b| > 0 {
      AsciiIsUtf8(b[1..]);
    }
  }

  /** The bytes in reverse order. */
  function Reverse(s: seq<uint8>): (r: seq<uint8>)
    ensures |r| == |s|
  {
    seq(|s|, i requires 0 <= i < |s| => s[|s| - 1 - i])
  }

  lemma ReverseInjective(a: seq<uint8>, b: seq<uint8>)
    ensures Reverse(a) == Reverse(b) ==> a == b
  {
    if Reverse(a) == Reverse(b) {
      assert |a| == |b|;
      forall i | 0 <= i < |a| ensures a[i] == b[i] {
        assert Reverse(a)[|a| - 1 - i] == Reverse(b)[|a| - 1 - i];
      }
    }
  }
}
