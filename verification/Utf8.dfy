/** UTF-8 (RFC 3629): strict decoding and encoding are inverse to each other. */
module Utf8 {
  import opened Common

  function Byte(n: int): byte
    requires 0 <= n < 256
  {
    n as byte
  }

  function EncodeChar(c: char): (r: seq<byte>)
    ensures 1 <= |r| <= 4
  {
    var n := c as int;
    if n < 0x80 then [Byte(n)]
    else if n < 0x800 then [Byte(0xC0 + n / 64), Byte(0x80 + n % 64)]
    else if n < 0x1_0000 then [Byte(0xE0 + n / 4096), Byte(0x80 + n / 64 % 64), Byte(0x80 + n % 64)]
    else [Byte(0xF0 + n / 262144), Byte(0x80 + n / 4096 % 64), Byte(0x80 + n / 64 % 64), Byte(0x80 + n % 64)]
  }

  function Encode(s: string): seq<byte> {
    if s == [] then [] else EncodeChar(s[0]) + Encode(s[1..])
  }

  predicate Continuation(b: byte) {
    0x80 <= b < 0xC0
  }

  /** The code point that starts b, in its shortest form, and its width. */
  function DecodeFirst(b: seq<byte>): (r: Option<(int, nat)>)
    requires b != []
    ensures r.Some? ==> 1 <= r.value.1 <= |b| && r.value.1 <= 4
  {
    var a := b[0] as int;
    if a < 0x80 then Some((a, 1))
    else if 0xC0 <= a < 0xE0 && |b| >= 2 && Continuation(b[1]) then
      var n := (a - 0xC0) * 64 + (b[1] as int - 0x80);
      if n < 0x80 then None else Some((n, 2))
    else if 0xE0 <= a < 0xF0 && |b| >= 3 && Continuation(b[1]) && Continuation(b[2]) then
      var n := (a - 0xE0) * 4096 + (b[1] as int - 0x80) * 64 + (b[2] as int - 0x80);
      if n < 0x800 || 0xD800 <= n < 0xE000 then None else Some((n, 3))
    else if 0xF0 <= a < 0xF8 && |b| >= 4 && Continuation(b[1]) && Continuation(b[2]) && Continuation(b[3]) then
      var n := (a - 0xF0) * 262144 + (b[1] as int - 0x80) * 4096 + (b[2] as int - 0x80) * 64 + (b[3] as int - 0x80);
      if n < 0x1_0000 || n > 0x10_FFFF then None else Some((n, 4))
    else None
  }

  predicate Scalar(n: int) {
    0 <= n < 0xD800 || 0xE000 <= n <= 0x10_FFFF
  }

  lemma FirstIsScalar(b: seq<byte>)
    requires b != [] && DecodeFirst(b).Some?
    ensures Scalar(DecodeFirst(b).value.0)
  {
  }

  /** One character of each width, as the standard prints it (section 7 of RFC 3629). */
  lemma KnownEncodings()
    ensures EncodeChar('A') == [0x41]
    ensures EncodeChar(0x00E9 as char) == [0xC3, 0xA9]
    ensures EncodeChar(0x2262 as char) == [0xE2, 0x89, 0xA2]
    ensures EncodeChar(0x2_33B4 as char) == [0xF0, 0xA3, 0x8E, 0xB4]
  {
  }

  /** `bytes.decode("utf-8")`, strict. */
  function Decode(b: seq<byte>): Option<string>
    decreases |b|
  {
    if b == [] then Some([])
    else
      var first := DecodeFirst(b);
      if first.None? then None
      else
        FirstIsScalar(b);
        var rest := Decode(b[first.value.1..]);
        if rest.None? then None else Some([first.value.0 as char] + rest.value)
  }

  lemma Reassemble(n: nat)
    ensures n / 64 * 64 + n % 64 == n
    ensures n / 4096 * 4096 + n / 64 % 64 * 64 + n % 64 == n
    ensures n / 262144 * 262144 + n / 4096 % 64 * 4096 + n / 64 % 64 * 64 + n % 64 == n
  {
    assert n / 64 / 64 == n / 4096 && n / 4096 / 64 == n / 262144;
  }

  lemma FirstOfEncoded(c: char, rest: seq<byte>)
    ensures DecodeFirst(EncodeChar(c) + rest) == Some((c as int, |EncodeChar(c)|))
  {
    var n := c as int;
    Reassemble(n);
    var e, b := EncodeChar(c), EncodeChar(c) + rest;
    assert b[0] == e[0];
    if n >= 0x80 {
      assert b[1] == e[1];
    }
    if n >= 0x800 {
      assert b[2] == e[2];
    }
    if n >= 0x1_0000 {
      assert b[3] == e[3];
    }
  }

  /** The base-64 digits of a number are what dividing gives back. */
  lemma Digits(a: nat, b: nat, c: nat, d: nat)
    requires b < 64 && c < 64 && d < 64
    ensures var n := a * 262144 + b * 4096 + c * 64 + d;
            n / 262144 == a && n / 4096 % 64 == b && n / 64 % 64 == c && n % 64 == d
  {
    var n := a * 262144 + b * 4096 + c * 64 + d;
    assert n / 64 == a * 4096 + b * 64 + c;
    assert n / 4096 == a * 64 + b;
  }

  lemma TwoBytes(b: seq<byte>)
    requires b != [] && DecodeFirst(b).Some? && DecodeFirst(b).value.1 == 2
    ensures Scalar(DecodeFirst(b).value.0) && EncodeChar(DecodeFirst(b).value.0 as char) == b[..2]
  {
    FirstIsScalar(b);
    Digits(0, 0, b[0] as int - 0xC0, b[1] as int - 0x80);
    assert b[..2] == [b[0], b[1]];
  }

  lemma ThreeBytes(b: seq<byte>)
    requires b != [] && DecodeFirst(b).Some? && DecodeFirst(b).value.1 == 3
    ensures Scalar(DecodeFirst(b).value.0) && EncodeChar(DecodeFirst(b).value.0 as char) == b[..3]
  {
    FirstIsScalar(b);
    Digits(0, b[0] as int - 0xE0, b[1] as int - 0x80, b[2] as int - 0x80);
    assert b[..3] == [b[0], b[1], b[2]];
  }

  lemma FourBytes(b: seq<byte>)
    requires b != [] && DecodeFirst(b).Some? && DecodeFirst(b).value.1 == 4
    ensures Scalar(DecodeFirst(b).value.0) && EncodeChar(DecodeFirst(b).value.0 as char) == b[..4]
  {
    FirstIsScalar(b);
    Digits(b[0] as int - 0xF0, b[1] as int - 0x80, b[2] as int - 0x80, b[3] as int - 0x80);
    assert b[..4] == [b[0], b[1], b[2], b[3]];
  }

  lemma EncodedOfFirst(b: seq<byte>)
    requires b != [] && DecodeFirst(b).Some?
    ensures Scalar(DecodeFirst(b).value.0)
    ensures EncodeChar(DecodeFirst(b).value.0 as char) == b[..DecodeFirst(b).value.1]
  {
    var width := DecodeFirst(b).value.1;
    FirstIsScalar(b);
    if width == 1 {
      assert b[..1] == [b[0]];
    } else {
      hide DecodeFirst, EncodeChar;
      if width == 2 {
        TwoBytes(b);
      } else if width == 3 {
        ThreeBytes(b);
      } else {
        FourBytes(b);
      }
    }
  }

  /** Every string survives encoding, and every accepted byte string is the encoding of
      what it decodes to. */
  lemma {:induction false} DecodeEncode(s: string)
    ensures Decode(Encode(s)) == Some(s)
  {
    if s != [] {
      FirstOfEncoded(s[0], Encode(s[1..]));
      assert Encode(s)[|EncodeChar(s[0])|..] == Encode(s[1..]);
      DecodeEncode(s[1..]);
      hide EncodeChar, DecodeFirst;
      assert s == [s[0]] + s[1..];
    }
  }

  lemma DecodeStep(b: seq<byte>)
    requires b != [] && Decode(b).Some?
    ensures DecodeFirst(b).Some? && Scalar(DecodeFirst(b).value.0) && Decode(b[DecodeFirst(b).value.1..]).Some?
    ensures Decode(b).value == [DecodeFirst(b).value.0 as char] + Decode(b[DecodeFirst(b).value.1..]).value
  {
    FirstIsScalar(b);
    hide DecodeFirst;
  }

  lemma EncodeStep(c: char, rest: string)
    ensures Encode([c] + rest) == EncodeChar(c) + Encode(rest)
  {
    hide EncodeChar;
    assert ([c] + rest)[1..] == rest;
  }

  lemma Rejoin(b: seq<byte>, n: nat, c: char, text: string)
    requires n <= |b| && EncodeChar(c) == b[..n] && Encode(text) == b[n..]
    ensures Encode([c] + text) == b
  {
    EncodeStep(c, text);
    hide *;
    assert b[..n] + b[n..] == b;
  }

  lemma {:induction false} EncodeDecode(b: seq<byte>)
    requires Decode(b).Some?
    ensures Encode(Decode(b).value) == b
    decreases |b|
  {
    if b != [] {
      hide *;
      DecodeStep(b);
      EncodedOfFirst(b);
      var n, c := DecodeFirst(b).value.1, DecodeFirst(b).value.0 as char;
      var tail := b[n..];
      var text := Decode(tail).value;
      EncodeDecode(tail);
      Rejoin(b, n, c, text);
    }
  }

  /** Only the NUL character encodes to a zero byte. */
  lemma {:induction false} ZeroBytes(s: string)
    ensures 0 in Encode(s) <==> '\0' in s
  {
    if s != [] {
      ZeroBytes(s[1..]);
      CharZeroBytes(s[0]);
      hide EncodeChar;
      assert s == [s[0]] + s[1..];
    }
  }

  lemma CharZeroBytes(c: char)
    ensures 0 in EncodeChar(c) <==> c == '\0'
  {
  }

  predicate Ascii(s: string) {
    forall i | 0 <= i < |s| :: s[i] as int < 0x80
  }

  predicate AsciiBytes(b: seq<byte>) {
    forall i | 0 <= i < |b| :: b[i] < 0x80
  }

  /** ASCII text is one byte a character. */
  lemma {:induction false} AsciiEncode(s: string)
    requires Ascii(s)
    ensures |Encode(s)| == |s| && AsciiBytes(Encode(s))
  {
    if s != [] {
      AsciiEncode(s[1..]);
    }
  }

  lemma {:induction false} AsciiDecode(b: seq<byte>)
    requires AsciiBytes(b)
    ensures Decode(b).Some? && Ascii(Decode(b).value)
  {
    if b != [] {
      AsciiDecode(b[1..]);
    }
  }
}
