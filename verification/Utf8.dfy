/** UTF-8, section 3 of RFC 3629: the encoding of text and its strict decoder. */
module Utf8 {
  import opened Options

  type Byte = b: int | 0 <= b < 256

  function EncodeChar(c: char): (r: seq<Byte>)
    ensures 1 <= |r| <= 4
  {
    var n := c as int;
    if n < 0x80 then [n]
    else if n < 0x800 then [0xC0 + n / 64, 0x80 + n % 64]
    else if n < 0x1_0000 then [0xE0 + n / 64 / 64, 0x80 + n / 64 % 64, 0x80 + n % 64]
    else [0xF0 + n / 64 / 64 / 64, 0x80 + n / 64 / 64 % 64, 0x80 + n / 64 % 64, 0x80 + n % 64]
  }

  function Encode(s: string): seq<Byte> {
    if s == "" then [] else EncodeChar(s[0]) + Encode(s[1..])
  }

  predicate IsTail(b: Byte) {
    0x80 <= b < 0xC0
  }

  /** Six more bits from a tail byte. */
  function SixMore(q: int, tail: Byte): int {
    q * 64 + tail - 0x80
  }

  /** The code point at the front of a byte sequence and the bytes it takes, if they are well formed. */
  function DecodeFirst(b: seq<Byte>): Option<(char, nat)> {
    if b == [] then None
    else if b[0] < 0x80 then Some((b[0] as char, 1))
    else if 0xC2 <= b[0] < 0xE0 && |b| >= 2 && IsTail(b[1]) then
      Some((SixMore(b[0] - 0xC0, b[1]) as char, 2))
    else if 0xE0 <= b[0] < 0xF0 && |b| >= 3 && IsTail(b[1]) && IsTail(b[2])
            && (b[0] == 0xE0 ==> 0xA0 <= b[1]) && (b[0] == 0xED ==> b[1] < 0xA0) then
      Some((SixMore(SixMore(b[0] - 0xE0, b[1]), b[2]) as char, 3))
    else if 0xF0 <= b[0] < 0xF5 && |b| >= 4 && IsTail(b[1]) && IsTail(b[2]) && IsTail(b[3])
            && (b[0] == 0xF0 ==> 0x90 <= b[1]) && (b[0] == 0xF4 ==> b[1] < 0x90) then
      Some((SixMore(SixMore(SixMore(b[0] - 0xF0, b[1]), b[2]), b[3]) as char, 4))
    else None
  }

  function Decode(b: seq<Byte>): Option<string> {
    if b == [] then Some("")
    else
      match DecodeFirst(b)
      case None => None
      case Some((c, n)) =>
        if n == 0 || |b| < n then None
        else
          match Decode(b[n..])
          case None => None
          case Some(s) => Some([c] + s)
  }

  lemma FirstOfEncoded(c: char, rest: seq<Byte>)
    ensures DecodeFirst(EncodeChar(c) + rest) == Some((c, |EncodeChar(c)|))
  {
  }

  lemma SixBits(q: int, tail: Byte)
    requires IsTail(tail)
    ensures SixMore(q, tail) / 64 == q && 0x80 + SixMore(q, tail) % 64 == tail
  {
  }

  lemma FirstIsEncoded(b: seq<Byte>)
    requires DecodeFirst(b).Some?
    ensures var (c, n) := DecodeFirst(b).value; n <= |b| && b[..n] == EncodeChar(c)
  {
    if 0xC2 <= b[0] < 0xE0 {
      SixBits(b[0] - 0xC0, b[1]);
    } else if 0xE0 <= b[0] < 0xF0 {
      var q := SixMore(b[0] - 0xE0, b[1]);
      SixBits(b[0] - 0xE0, b[1]);
      SixBits(q, b[2]);
    } else if 0xF0 <= b[0] {
      var q := SixMore(b[0] - 0xF0, b[1]);
      var p := SixMore(q, b[2]);
      SixBits(b[0] - 0xF0, b[1]);
      SixBits(q, b[2]);
      SixBits(p, b[3]);
    }
  }

  lemma {:induction false} DecodeUndoesEncode(s: string)
    ensures Decode(Encode(s)) == Some(s)
  {
    if s != "" {
      hide DecodeFirst, EncodeChar;
      var first, rest := EncodeChar(s[0]), Encode(s[1..]);
      FirstOfEncoded(s[0], rest);
      assert Encode(s)[|first|..] == rest;
      DecodeUndoesEncode(s[1..]);
      assert s == [s[0]] + s[1..];
    }
  }

  lemma EncodeFirst(c: char, s: string)
    ensures Encode([c] + s) == EncodeChar(c) + Encode(s)
  {
    assert ([c] + s)[1..] == s;
  }

  lemma {:induction false} EncodeUndoesDecode(b: seq<Byte>)
    requires Decode(b).Some?
    ensures Encode(Decode(b).value) == b
  {
    if b != [] {
      hide DecodeFirst, EncodeChar;
      FirstIsEncoded(b);
      var (c, n) := DecodeFirst(b).value;
      EncodeUndoesDecode(b[n..]);
      EncodeFirst(c, Decode(b[n..]).value);
      assert b == b[..n] + b[n..];
    }
  }

  /** Decoding succeeds on exactly the encodings of text, and gives that text. */
  lemma DecodesExactlyEncodings(b: seq<Byte>, s: string)
    ensures Decode(b) == Some(s) <==> Encode(s) == b
  {
    DecodeUndoesEncode(s);
    if Decode(b) == Some(s) {
      EncodeUndoesDecode(b);
    }
  }

  lemma EncodeIsInjective(s: string, t: string)
    requires Encode(s) == Encode(t)
    ensures s == t
  {
    DecodesExactlyEncodings(Encode(s), s);
    DecodesExactlyEncodings(Encode(s), t);
  }
}
