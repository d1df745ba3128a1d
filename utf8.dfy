/**
 * Go strings are byte sequences holding UTF-8 text; the model's strings are
 * sequences of Unicode scalar values. `Encode` is Go's `[]byte(s)` for such a
 * string and `Decode` reads bytes back as characters the way Go's
 * `utf8.DecodeRune` does: an invalid or truncated sequence yields U+FFFD and
 * consumes one byte.
 */
module Utf8 {

  newtype byte = x: int | 0 <= x < 256

  /** The encoding of one character: 1 to 4 bytes by code point range (RFC 3629, section 3). */
  function EncodeChar(c: char): (b: seq<byte>)
    ensures 1 <= |b| <= 4
  {
    var cp := c as int;
    if cp < 0x80 then [cp as byte]
    else if cp < 0x800 then [(0xC0 + cp / 64) as byte, (0x80 + cp % 64) as byte]
    else if cp < 0x1_0000 then
      [(0xE0 + cp / 4096) as byte, (0x80 + cp / 64 % 64) as byte, (0x80 + cp % 64) as byte]
    else
      [(0xF0 + cp / 262144) as byte, (0x80 + cp / 4096 % 64) as byte,
       (0x80 + cp / 64 % 64) as byte, (0x80 + cp % 64) as byte]
  }

  /** `[]byte(s)`: the UTF-8 bytes of `s`. */
  function Encode(s: string): seq<byte>
    decreases |s|
  {
    if s == [] then [] else EncodeChar(s[0]) + Encode(s[1..])
  }

  predicate IsCont(b: byte) {
    0x80 <= b < 0xC0
  }

  const RuneError: char := '\U{FFFD}'

  /**
   * utf8.DecodeRune: the first character of `b` and how many bytes it took.
   * Overlong forms, surrogates and code points above U+10FFFF are invalid.
   */
  function DecodeFirst(b: seq<byte>): (r: (char, nat))
    requires |b| > 0
    ensures 1 <= r.1 <= |b| && r.1 <= 4
  {
    var b0 := b[0] as int;
    if b0 < 0x80 then (b0 as char, 1)
    else if 0xC2 <= b0 < 0xE0 && |b| >= 2 && IsCont(b[1]) then
      ((((b0 - 0xC0) * 64) + (b[1] as int - 0x80)) as char, 2)
    else if 0xE0 <= b0 < 0xF0 && |b| >= 3 && IsCont(b[1]) && IsCont(b[2])
            && (b0 != 0xE0 || b[1] >= 0xA0) && (b0 != 0xED || b[1] < 0xA0) then
      (((b0 - 0xE0) * 4096 + (b[1] as int - 0x80) * 64 + (b[2] as int - 0x80)) as char, 3)
    else if 0xF0 <= b0 < 0xF5 && |b| >= 4 && IsCont(b[1]) && IsCont(b[2]) && IsCont(b[3])
            && (b0 != 0xF0 || b[1] >= 0x90) && (b0 != 0xF4 || b[1] < 0x90) then
      (((b0 - 0xF0) * 262144 + (b[1] as int - 0x80) * 4096 + (b[2] as int - 0x80) * 64
        + (b[3] as int - 0x80)) as char, 4)
    else (RuneError, 1)
  }

  /** The characters Go reads from `b`, one `DecodeRune` step at a time. */
  function Decode(b: seq<byte>): string
    decreases |b|
  {
    if b == [] then [] else
      var (c, n) := DecodeFirst(b);
      [c] + Decode(b[n..])
  }

  /** Every character read takes at least one byte. */
  lemma {:induction false} DecodeLength(b: seq<byte>)
    ensures |Decode(b)| <= |b|
    decreases |b|
  {
    if b != [] {
      DecodeLength(b[DecodeFirst(b).1..]);
    }
  }

  /** Bytes below 0x80 are read one character each, with the same code. */
  lemma {:induction false} DecodeAscii(b: seq<byte>)
    requires forall i :: 0 <= i < |b| ==> b[i] < 0x80
    ensures |Decode(b)| == |b|
    ensures forall i :: 0 <= i < |b| ==> Decode(b)[i] as int == b[i] as int
    decreases |b|
  {
    if b != [] {
      var rest := b[1..];
      assert DecodeFirst(b) == (b[0] as int as char, 1);
      DecodeAscii(rest);
      assert Decode(b) == [b[0] as int as char] + Decode(rest);
      forall i | 1 <= i < |b|
        ensures Decode(b)[i] as int == b[i] as int
      {
        assert Decode(b)[i] == Decode(rest)[i - 1] && rest[i - 1] == b[i];
      }
    }
  }

  lemma DecodeTwo(c: char, rest: seq<byte>)
    requires 0x80 <= c as int < 0x800
    ensures DecodeFirst(EncodeChar(c) + rest) == (c, 2)
  {
    var cp := c as int;
    var hi, lo := cp / 64, cp % 64;
    assert cp == hi * 64 + lo;
    var b := EncodeChar(c) + rest;
    assert b[0] as int == 0xC0 + hi && b[1] as int == 0x80 + lo;
    assert 0xC2 <= b[0] < 0xE0 && IsCont(b[1]);
  }

  lemma DecodeThree(c: char, rest: seq<byte>)
    requires 0x800 <= c as int < 0x1_0000
    ensures DecodeFirst(EncodeChar(c) + rest) == (c, 3)
  {
    var cp := c as int;
    var hi, mid, lo := cp / 4096, cp / 64 % 64, cp % 64;
    assert cp == hi * 4096 + mid * 64 + lo;
    var b := EncodeChar(c) + rest;
    assert b[0] as int == 0xE0 + hi && b[1] as int == 0x80 + mid && b[2] as int == 0x80 + lo;
    assert hi == 0 ==> mid >= 32;
    assert hi == 13 ==> mid < 32;
  }

  /** The base-64 digits of a code point above U+FFFF, as the four-byte form carries them. */
  lemma FourDigits(cp: int, top: int, hi: int, mid: int, lo: int)
    requires 0x1_0000 <= cp < 0x11_0000
    requires top == cp / 262144 && hi == cp / 4096 % 64 && mid == cp / 64 % 64 && lo == cp % 64
    ensures cp == top * 262144 + hi * 4096 + mid * 64 + lo
    ensures 0 <= top <= 4 && 0 <= hi < 64 && 0 <= mid < 64 && 0 <= lo < 64
    ensures top == 0 ==> hi >= 16
    ensures top == 4 ==> hi < 16
  {
    var q := cp / 64;
    assert cp == q * 64 + lo;
    var r := q / 64;
    assert q == r * 64 + mid;
    assert r == cp / 4096;
    assert r == top * 64 + hi;
  }

  lemma DecodeFour(c: char, rest: seq<byte>)
    requires 0x1_0000 <= c as int
    ensures DecodeFirst(EncodeChar(c) + rest) == (c, 4)
  {
    var cp := c as int;
    var top, hi, mid, lo := cp / 262144, cp / 4096 % 64, cp / 64 % 64, cp % 64;
    FourDigits(cp, top, hi, mid, lo);
    var b := EncodeChar(c) + rest;
    assert b[0] as int == 0xF0 + top && b[1] as int == 0x80 + hi;
    assert b[2] as int == 0x80 + mid && b[3] as int == 0x80 + lo;
  }

  /** Decoding the encoding of a character, followed by anything, gives the character back first. */
  lemma DecodeEncodeChar(c: char, rest: seq<byte>)
    ensures DecodeFirst(EncodeChar(c) + rest) == (c, |EncodeChar(c)|)
  {
    var cp := c as int;
    if cp < 0x80 {
    } else if cp < 0x800 {
      DecodeTwo(c, rest);
    } else if cp < 0x1_0000 {
      DecodeThree(c, rest);
    } else {
      DecodeFour(c, rest);
    }
  }

  /** Reading back the bytes of a string gives the string: `string([]byte(s)) == s`. */
  lemma {:induction false} DecodeEncode(s: string)
    ensures Decode(Encode(s)) == s
    decreases |s|
  {
    if s != [] {
      var e := EncodeChar(s[0]);
      DecodeEncodeChar(s[0], Encode(s[1..]));
      assert (e + Encode(s[1..]))[|e|..] == Encode(s[1..]);
      DecodeEncode(s[1..]);
    }
  }
}
