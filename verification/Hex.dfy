/** Usernames written as hexadecimal digits of their UTF-8 bytes. */
module Hex {
  import opened Options
  import opened Utf8
  import Ascii

  datatype DecodeError = OddDigits | NotHex | NotUtf8
  datatype Decoded<+T> = Ok(value: T) | Err(error: DecodeError)

  function Digit(n: nat): char
    requires n < 16
  {
    if n < 10 then '0' + n as char else 'a' + (n - 10) as char
  }

  function HexValue(b: Byte): Option<nat> {
    if '0' as int <= b <= '9' as int then Some(b - '0' as int)
    else if 'a' as int <= b <= 'f' as int then Some(b - 'a' as int + 10)
    else if 'A' as int <= b <= 'F' as int then Some(b - 'A' as int + 10)
    else None
  }

  /** Two digits for every byte, the high half first. */
  function HexText(b: seq<Byte>): (r: string)
    ensures |r| == 2 * |b|
  {
    seq(2 * |b|, i requires 0 <= i < 2 * |b| => Digit(if i % 2 == 0 then b[i / 2] / 16 else b[i / 2] % 16))
  }

  predicate AllHex(e: seq<Byte>) {
    forall i :: 0 <= i < |e| ==> HexValue(e[i]).Some?
  }

  function HexBytes(e: seq<Byte>): (r: seq<Byte>)
    requires |e| % 2 == 0 && AllHex(e)
    ensures |r| == |e| / 2
  {
    seq(|e| / 2, i requires 0 <= i < |e| / 2 => HexValue(e[2 * i]).value * 16 + HexValue(e[2 * i + 1]).value)
  }

  method HexEncode(bytes: seq<Byte>) returns (encoded: string)
    ensures encoded == HexText(bytes)
  {
    encoded := "";
    for i := 0 to |bytes|
      invariant encoded == HexText(bytes[..i])
    {
      encoded := encoded + [Digit(bytes[i] / 16)];
      encoded := encoded + [Digit(bytes[i] % 16)];
      assert bytes[..i + 1] == bytes[..i] + [bytes[i]];
    }
    assert bytes[..|bytes|] == bytes;
  }

  /** What a string of digits stands for. */
  function HexDecodeUtf8(encoded: string): Decoded<string> {
    var e := Encode(encoded);
    if |e| % 2 != 0 then Err(OddDigits)
    else if !AllHex(e) then Err(NotHex)
    else
      match Decode(HexBytes(e))
      case None => Err(NotUtf8)
      case Some(s) => Ok(s)
  }

  method HexDecode(encoded: string) returns (r: Decoded<string>)
    ensures r == HexDecodeUtf8(encoded)
  {
    hide Encode, HexValue, Decode;
    var e := Encode(encoded);
    if |e| % 2 != 0 {
      return Err(OddDigits);
    }
    var bytes: seq<Byte> := [];
    var i := 0;
    while i < |e|
      invariant 0 <= i <= |e| && i % 2 == 0 && AllHex(e[..i]) && bytes == HexBytes(e[..i])
    {
      var high, low := HexValue(e[i]), HexValue(e[i + 1]);
      if high.None? || low.None? {
        return Err(NotHex);
      }
      HexBytesGrow(e, i);
      bytes := bytes + [high.value * 16 + low.value];
      i := i + 2;
    }
    assert e[..i] == e;
    var s := Decode(bytes);
    return if s.Some? then Ok(s.value) else Err(NotUtf8);
  }

  lemma HexBytesGrow(e: seq<Byte>, i: nat)
    requires i % 2 == 0 && i + 1 < |e| && AllHex(e[..i]) && HexValue(e[i]).Some? && HexValue(e[i + 1]).Some?
    ensures AllHex(e[..i + 2])
    ensures HexBytes(e[..i + 2]) == HexBytes(e[..i]) + [HexValue(e[i]).value * 16 + HexValue(e[i + 1]).value]
  {
    assert e[..i + 2] == e[..i] + [e[i], e[i + 1]];
  }

  // ---------------------------------------------------------------------------
  // Laws
  // ---------------------------------------------------------------------------

  predicate IsAscii(s: string) {
    forall i :: 0 <= i < |s| ==> s[i] as int < 0x80
  }

  lemma {:induction false} AsciiBytes(s: string)
    requires IsAscii(s)
    ensures |Encode(s)| == |s| && forall i :: 0 <= i < |s| ==> Encode(s)[i] == s[i] as int
  {
    if s != "" {
      AsciiBytes(s[1..]);
    }
  }

  /** Bytes below 128 come from characters below 128. */
  lemma {:induction false} BytesAscii(s: string)
    requires forall i :: 0 <= i < |Encode(s)| ==> Encode(s)[i] < 0x80
    ensures IsAscii(s)
  {
    if s != "" {
      var first, rest := EncodeChar(s[0]), Encode(s[1..]);
      assert Encode(s) == first + rest;
      assert Encode(s)[0] == first[0];
      assert forall i :: 0 <= i < |rest| ==> rest[i] == Encode(s)[|first| + i];
      BytesAscii(s[1..]);
    }
  }

  lemma DigitValue(n: nat)
    requires n < 16
    ensures Digit(n) as int < 0x80 && HexValue(Digit(n) as int) == Some(n)
  {
  }

  /** A digit is the lower-case digit of its value. */
  lemma ValueDigit(c: char)
    requires c as int < 0x80 && HexValue(c as int).Some?
    ensures HexValue(c as int).value < 16 && Digit(HexValue(c as int).value) == Ascii.LowerChar(c)
  {
  }

  lemma LowerDigitValue(c: char)
    requires c as int < 0x80
    ensures Ascii.LowerChar(c) as int < 0x80 && HexValue(Ascii.LowerChar(c) as int) == HexValue(c as int)
  {
  }

  lemma HexTextIsHex(b: seq<Byte>)
    ensures IsAscii(HexText(b)) && AllHex(Encode(HexText(b))) && |Encode(HexText(b))| == 2 * |b|
    ensures HexBytes(Encode(HexText(b))) == b
  {
    hide Encode, HexValue, Digit;
    var t := HexText(b);
    forall i | 0 <= i < |t| ensures t[i] as int < 0x80 && HexValue(t[i] as int).Some? {
      DigitValue(if i % 2 == 0 then b[i / 2] / 16 else b[i / 2] % 16);
    }
    AsciiBytes(t);
    var e := Encode(t);
    assert AllHex(e);
    forall i | 0 <= i < |b| ensures HexBytes(e)[i] == b[i] {
      DigitValue(b[i] / 16);
      DigitValue(b[i] % 16);
      assert (2 * i) / 2 == i && (2 * i + 1) / 2 == i;
    }
  }

  /** The digits of a name decode to that name. */
  lemma DecodeUndoesHex(name: string)
    ensures HexDecodeUtf8(HexText(Encode(name))) == Ok(name)
  {
    HexTextIsHex(Encode(name));
    DecodeUndoesEncode(name);
  }

  lemma HexTextAt(b: seq<Byte>, j: nat)
    requires j < |b|
    ensures HexText(b)[2 * j] == Digit(b[j] / 16) && HexText(b)[2 * j + 1] == Digit(b[j] % 16)
  {
  }

  lemma PairOfDigits(encoded: string, e: seq<Byte>, j: nat)
    requires |e| == |encoded| && |e| % 2 == 0 && AllHex(e) && 2 * j < |e|
    requires forall i :: 0 <= i < |e| ==> e[i] == encoded[i] as int
    ensures HexText(HexBytes(e))[2 * j] == Ascii.LowerChar(encoded[2 * j])
    ensures HexText(HexBytes(e))[2 * j + 1] == Ascii.LowerChar(encoded[2 * j + 1])
  {
    hide Digit, HexValue, Ascii.LowerChar;
    var c, d := encoded[2 * j], encoded[2 * j + 1];
    assert e[2 * j] == c as int && e[2 * j + 1] == d as int;
    var high, low := HexValue(c as int), HexValue(d as int);
    assert high.Some? && low.Some?;
    AsciiHex(c);
    AsciiHex(d);
    ValueDigit(c);
    ValueDigit(d);
    var b := HexBytes(e);
    assert b[j] == high.value * 16 + low.value;
    hide HexBytes, AllHex;
    HexTextAt(b, j);
    hide HexText;
    HalvesOf(high.value, low.value);
  }

  lemma AsciiHex(c: char)
    requires c as int < 256 && HexValue(c as int).Some?
    ensures c as int < 0x80
  {
  }

  /** Text of hex digits in lower case is the text made from its bytes. */
  lemma HexTextOfBytes(encoded: string)
    requires |Encode(encoded)| % 2 == 0 && AllHex(Encode(encoded))
    ensures HexText(HexBytes(Encode(encoded))) == Ascii.Lower(encoded)
  {
    hide *;
    var e := Encode(encoded);
    HexIsAscii(e);
    BytesAscii(encoded);
    AsciiBytes(encoded);
    var t := HexText(HexBytes(e));
    forall i | 0 <= i < |encoded| ensures t[i] == Ascii.LowerChar(encoded[i]) {
      PairOfDigits(encoded, e, i / 2);
    }
    LowerPointwise(encoded, t);
  }

  lemma LowerPointwise(s: string, t: string)
    requires |t| == |s| && forall i :: 0 <= i < |s| ==> t[i] == Ascii.LowerChar(s[i])
    ensures t == Ascii.Lower(s)
  {
  }

  lemma HexIsAscii(e: seq<Byte>)
    requires AllHex(e)
    ensures forall i :: 0 <= i < |e| ==> e[i] < 0x80
  {
    forall i | 0 <= i < |e| ensures e[i] < 0x80 {
      assert HexValue(e[i]).Some?;
    }
  }

  lemma HalvesOf(high: nat, low: nat)
    requires low < 16
    ensures (high * 16 + low) / 16 == high && (high * 16 + low) % 16 == low
  {
  }

  lemma HexIgnoresCase(encoded: string)
    requires IsAscii(encoded)
    ensures HexDecodeUtf8(Ascii.Lower(encoded)) == HexDecodeUtf8(encoded)
  {
    hide Encode, HexValue, Decode;
    var low := Ascii.Lower(encoded);
    forall i | 0 <= i < |encoded|
      ensures low[i] as int < 0x80 && HexValue(low[i] as int) == HexValue(encoded[i] as int)
    {
      LowerDigitValue(encoded[i]);
    }
    AsciiBytes(encoded);
    AsciiBytes(low);
    var e, l := Encode(encoded), Encode(low);
    assert forall i :: 0 <= i < |e| ==> HexValue(l[i]) == HexValue(e[i]);
    if |e| % 2 == 0 && AllHex(e) {
      assert HexBytes(l) == HexBytes(e);
    } else if |e| % 2 == 0 {
      var i :| 0 <= i < |e| && HexValue(e[i]).None?;
      assert HexValue(l[i]).None?;
    }
  }

  /** A name is decoded from its own digits, in either case, and from nothing else. */
  lemma HexNamesExactly(encoded: string, name: string)
    ensures HexDecodeUtf8(encoded) == Ok(name) <==> Ascii.Lower(encoded) == HexText(Encode(name))
  {
    var e := Encode(encoded);
    if HexDecodeUtf8(encoded) == Ok(name) {
      HexTextOfBytes(encoded);
      EncodeUndoesDecode(HexBytes(e));
    } else if Ascii.Lower(encoded) == HexText(Encode(name)) {
      HexTextIsHex(Encode(name));
      LowerAscii(encoded);
      HexIgnoresCase(encoded);
      DecodeUndoesHex(name);
    }
  }

  lemma LowerAscii(s: string)
    requires IsAscii(Ascii.Lower(s))
    ensures IsAscii(s)
  {
    forall i | 0 <= i < |s| ensures s[i] as int < 0x80 {
      assert Ascii.Lower(s)[i] as int < 0x80;
    }
  }
}
