/**
 * The UTF-8 conversions Node.js applies between strings and Buffers:
 * `Buffer.from(str, "utf8")` and `buf.toString("utf-8")`. Decoding follows the
 * WHATWG Encoding Standard: each maximal ill-formed subsequence becomes one U+FFFD and
 * the byte that broke it is read again as the start of the next character.
 */
module Utf8 {
  import opened JsBase

  const REPLACEMENT: char := '\U{FFFD}'

  /** The bytes of one character. */
  function EncodeChar(c: char): (r: Bytes)
    ensures 1 <= |r| <= 4
  {
    var v := c as int;
    if v < 0x80 then [v as byte]
    else if v < 0x800 then [(0xC0 + v / 64) as byte, (0x80 + v % 64) as byte]
    else if v < 0x1_0000 then
      [(0xE0 + v / 4096) as byte, (0x80 + v / 64 % 64) as byte, (0x80 + v % 64) as byte]
    else
      [(0xF0 + v / 262144) as byte, (0x80 + v / 4096 % 64) as byte,
       (0x80 + v / 64 % 64) as byte, (0x80 + v % 64) as byte]
  }

  /** Buffer.from(s, "utf8"). */
  function Encode(s: string): (r: Bytes)
    ensures |r| >= |s|
  {
    if s == [] then [] else EncodeChar(s[0]) + Encode(s[1..])
  }

  predicate InRange(b: byte, lo: int, hi: int) {
    lo <= b as int <= hi
  }

  /** How many continuation bytes a lead byte announces (0 for ASCII and for bytes that cannot lead). */
  function Needed(lead: byte): (n: nat)
    ensures n <= 3
  {
    if 0xC2 <= lead <= 0xDF then 1
    else if 0xE0 <= lead <= 0xEF then 2
    else if 0xF0 <= lead <= 0xF4 then 3
    else 0
  }

  /** The range the first continuation byte must fall in, which excludes overlong forms and surrogates. */
  function FirstLow(lead: byte): int {
    if lead == 0xE0 then 0xA0 else if lead == 0xF0 then 0x90 else 0x80
  }

  function FirstHigh(lead: byte): int {
    if lead == 0xED then 0x9F else if lead == 0xF4 then 0x8F else 0xBF
  }

  /** How many of the announced continuation bytes follow the lead byte in a row. */
  function Continued(b: Bytes): (k: nat)
    requires |b| > 0
    ensures k <= Needed(b[0]) && k < |b|
  {
    var need := Needed(b[0]);
    var one := need >= 1 && |b| > 1 && InRange(b[1], FirstLow(b[0]), FirstHigh(b[0]));
    var two := one && need >= 2 && |b| > 2 && InRange(b[2], 0x80, 0xBF);
    var three := two && need >= 3 && |b| > 3 && InRange(b[3], 0x80, 0xBF);
    if three then 3 else if two then 2 else if one then 1 else 0
  }

  /** The code point of a complete, well-formed sequence at the head of b. */
  function CodePoint(b: Bytes): (v: int)
    requires |b| > 0 && Needed(b[0]) >= 1 && Continued(b) == Needed(b[0])
    ensures 0 <= v < 0xD800 || 0xE000 <= v < 0x11_0000
  {
    var lead := b[0] as int;
    if Needed(b[0]) == 1 then (lead - 0xC0) * 64 + (b[1] as int - 0x80)
    else if Needed(b[0]) == 2 then
      (lead - 0xE0) * 4096 + (b[1] as int - 0x80) * 64 + (b[2] as int - 0x80)
    else
      (lead - 0xF0) * 262144 + (b[1] as int - 0x80) * 4096 + (b[2] as int - 0x80) * 64 + (b[3] as int - 0x80)
  }

  /** The first character of b and the number of bytes it takes up. */
  function DecodeFirst(b: Bytes): (r: (char, nat))
    requires |b| > 0
    ensures 1 <= r.1 <= |b|
  {
    if b[0] < 0x80 then ((b[0] as int) as char, 1)
    else if Needed(b[0]) == 0 then (REPLACEMENT, 1)
    else if Continued(b) == Needed(b[0]) then (CodePoint(b) as char, 1 + Needed(b[0]))
    else (REPLACEMENT, 1 + Continued(b))
  }

  /** buf.toString("utf-8"). */
  function Decode(b: Bytes): (s: string)
    decreases |b|
    ensures |s| <= |b|
  {
    if b == [] then "" else [DecodeFirst(b).0] + Decode(b[DecodeFirst(b).1..])
  }

  // ---- properties ----

  /** The bytes of a character, followed by anything, decode to that character first. */
  lemma DecodeEncodeChar(c: char, rest: Bytes)
    ensures DecodeFirst(EncodeChar(c) + rest) == (c, |EncodeChar(c)|)
  {
    var b := EncodeChar(c) + rest;
    var v := c as int;
    if v < 0x80 {
    } else if v < 0x800 {
      DecodeTwo(v, b);
    } else if v < 0x1_0000 {
      DecodeThree(v, b);
    } else {
      DecodeFour(v, b);
    }
  }

  lemma DecodeTwo(v: int, b: Bytes)
    requires 0x80 <= v < 0x800 && |b| >= 2
    requires b[0] as int == 0xC0 + v / 64 && b[1] as int == 0x80 + v % 64
    ensures Needed(b[0]) == 1 && Continued(b) == 1 && CodePoint(b) == v
  {
  }

  lemma DecodeThree(v: int, b: Bytes)
    requires 0x800 <= v < 0x1_0000 && (v < 0xD800 || 0xE000 <= v) && |b| >= 3
    requires b[0] as int == 0xE0 + v / 4096 && b[1] as int == 0x80 + v / 64 % 64 && b[2] as int == 0x80 + v % 64
    ensures Needed(b[0]) == 2 && Continued(b) == 2 && CodePoint(b) == v
  {
    assert v / 64 == v / 4096 * 64 + v / 64 % 64;
  }

  lemma DecodeFour(v: int, b: Bytes)
    requires 0x1_0000 <= v < 0x11_0000 && |b| >= 4
    requires b[0] as int == 0xF0 + v / 262144 && b[1] as int == 0x80 + v / 4096 % 64
    requires b[2] as int == 0x80 + v / 64 % 64 && b[3] as int == 0x80 + v % 64
    ensures Needed(b[0]) == 3 && Continued(b) == 3 && CodePoint(b) == v
  {
    assert v / 4096 == v / 262144 * 64 + v / 4096 % 64;
    assert v / 64 == v / 4096 * 64 + v / 64 % 64;
  }

  /** Decoding what Buffer.from(s, "utf8") produced gives s back. */
  lemma {:induction false} DecodeEncode(s: string)
    ensures Decode(Encode(s)) == s
  {
    if s != [] {
      var e := EncodeChar(s[0]);
      var tail := Encode(s[1..]);
      assert Encode(s) == e + tail;
      DecodeEncodeChar(s[0], tail);
      assert (e + tail)[|e|..] == tail;
      DecodeEncode(s[1..]);
    }
  }

  /** Text of ASCII characters takes one byte per character. */
  lemma {:induction false} EncodeAscii(s: string)
    requires forall i :: 0 <= i < |s| ==> s[i] as int < 0x80
    ensures |Encode(s)| == |s|
    ensures forall i :: 0 <= i < |s| ==> Encode(s)[i] as int == s[i] as int
  {
    if s != [] {
      EncodeAscii(s[1..]);
    }
  }
}
