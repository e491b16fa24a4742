/** Text as bytes: `str::as_bytes` and `String::from_utf8`, which are exact inverses. */
module Utf8 {
  import opened Bytes

  function EncodeChar(c: char): (r: Bytes)
    ensures 1 <= |r| <= 4
  {
    var n := c as int;
    if n < 0x80 then [n]
    else if n < 0x800 then [0xC0 + n / 0x40, 0x80 + n % 0x40]
    else if n < 0x1_0000 then [0xE0 + n / 0x1000, 0x80 + n / 0x40 % 0x40, 0x80 + n % 0x40]
    else [0xF0 + n / 0x4_0000, 0x80 + n / 0x1000 % 0x40, 0x80 + n / 0x40 % 0x40, 0x80 + n % 0x40]
  }

  function Encode(s: string): Bytes {
    if s == [] then [] else EncodeChar(s[0]) + Encode(s[1..])
  }

  predicate IsScalar(n: int) {
    0 <= n < 0xD800 || 0xE000 <= n < 0x11_0000
  }

  predicate Continues(b: Byte) {
    0x80 <= b < 0xC0
  }

  /** A code point in the range its length allows, else nothing: overlong forms and surrogates are refused. */
  function Scalar(n: int, least: int, len: nat): Option<(char, nat)> {
    if least <= n && IsScalar(n) then Some((n as char, len)) else None
  }

  /** The first character of `b` and its length in bytes. */
  function DecodeChar(b: Bytes): (r: Option<(char, nat)>)
    requires b != []
    ensures r.Some? ==> 1 <= r.value.1 <= |b|
  {
    var b0 := b[0] as int;
    if b0 < 0x80 then Scalar(b0, 0, 1)
    else if 0xC0 <= b0 < 0xE0 && |b| >= 2 && Continues(b[1]) then
      Scalar((b0 - 0xC0) * 0x40 + (b[1] - 0x80), 0x80, 2)
    else if 0xE0 <= b0 < 0xF0 && |b| >= 3 && Continues(b[1]) && Continues(b[2]) then
      Scalar((b0 - 0xE0) * 0x1000 + ((b[1] as int) - 0x80) * 0x40 + (b[2] - 0x80), 0x800, 3)
    else if 0xF0 <= b0 < 0xF8 && |b| >= 4 && Continues(b[1]) && Continues(b[2]) && Continues(b[3]) then
      Scalar((b0 - 0xF0) * 0x4_0000 + ((b[1] as int) - 0x80) * 0x1000 + ((b[2] as int) - 0x80) * 0x40 + (b[3] - 0x80),
             0x1_0000, 4)
    else None
  }

  function Decode(b: Bytes): Option<string>
    decreases |b|
  {
    if b == [] then Some([])
    else
      match DecodeChar(b)
      case None => None
      case Some((c, n)) =>
        match Decode(b[n..])
        case None => None
        case Some(rest) => Some([c] + rest)
  }

  lemma DecodeEncodedChar(c: char, rest: Bytes)
    ensures DecodeChar(EncodeChar(c) + rest) == Some((c, |EncodeChar(c)|))
  {
    var n, b := c as int, EncodeChar(c) + rest;
    if n < 0x80 {
    } else if n < 0x800 {
      assert b[0] == 0xC0 + n / 0x40 && b[1] == 0x80 + n % 0x40;
    } else if n < 0x1_0000 {
      assert b[0] == 0xE0 + n / 0x1000 && b[1] == 0x80 + n / 0x40 % 0x40 && b[2] == 0x80 + n % 0x40;
      ThreeDigits(n);
    } else {
      assert b[0] == 0xF0 + n / 0x4_0000 && b[1] == 0x80 + n / 0x1000 % 0x40;
      assert b[2] == 0x80 + n / 0x40 % 0x40 && b[3] == 0x80 + n % 0x40;
      FourDigits(n);
    }
  }

  lemma ThreeDigits(n: nat)
    ensures n == n / 0x1000 * 0x1000 + n / 0x40 % 0x40 * 0x40 + n % 0x40
  {
    assert n / 0x1000 == n / 0x40 / 0x40;
  }

  lemma FourDigits(n: nat)
    ensures n == n / 0x4_0000 * 0x4_0000 + n / 0x1000 % 0x40 * 0x1000 + n / 0x40 % 0x40 * 0x40 + n % 0x40
  {
    ThreeDigits(n / 0x40);
    assert n / 0x40 / 0x1000 == n / 0x4_0000 && n / 0x40 / 0x40 == n / 0x1000;
  }

  lemma EncodeTwo(b0: Byte, b1: Byte)
    requires 0xC0 <= b0 < 0xE0 && Continues(b1)
    requires Scalar(((b0 as int) - 0xC0) * 0x40 + (b1 - 0x80), 0x80, 2).Some?
    ensures EncodeChar((((b0 as int) - 0xC0) * 0x40 + (b1 - 0x80)) as char) == [b0, b1]
  {
  }

  lemma EncodeThree(b0: Byte, b1: Byte, b2: Byte)
    requires 0xE0 <= b0 < 0xF0 && Continues(b1) && Continues(b2)
    requires Scalar(((b0 as int) - 0xE0) * 0x1000 + ((b1 as int) - 0x80) * 0x40 + (b2 - 0x80), 0x800, 3).Some?
    ensures EncodeChar((((b0 as int) - 0xE0) * 0x1000 + ((b1 as int) - 0x80) * 0x40 + (b2 - 0x80)) as char) == [b0, b1, b2]
  {
    var n := ((b0 as int) - 0xE0) * 0x1000 + ((b1 as int) - 0x80) * 0x40 + (b2 - 0x80);
    assert n / 0x40 == ((b0 as int) - 0xE0) * 0x40 + (b1 - 0x80);
    assert n / 0x1000 == n / 0x40 / 0x40;
  }

  lemma EncodeFour(b0: Byte, b1: Byte, b2: Byte, b3: Byte)
    requires 0xF0 <= b0 < 0xF8 && Continues(b1) && Continues(b2) && Continues(b3)
    requires Scalar(((b0 as int) - 0xF0) * 0x4_0000 + ((b1 as int) - 0x80) * 0x1000 + ((b2 as int) - 0x80) * 0x40 + (b3 - 0x80),
                    0x1_0000, 4).Some?
    ensures EncodeChar((((b0 as int) - 0xF0) * 0x4_0000 + ((b1 as int) - 0x80) * 0x1000 + ((b2 as int) - 0x80) * 0x40
                        + (b3 - 0x80)) as char) == [b0, b1, b2, b3]
  {
    var n := ((b0 as int) - 0xF0) * 0x4_0000 + ((b1 as int) - 0x80) * 0x1000 + ((b2 as int) - 0x80) * 0x40 + (b3 - 0x80);
    assert n / 0x40 == ((b0 as int) - 0xF0) * 0x1000 + ((b1 as int) - 0x80) * 0x40 + (b2 - 0x80);
    assert n / 0x1000 == n / 0x40 / 0x40 == ((b0 as int) - 0xF0) * 0x40 + (b1 - 0x80);
    assert n / 0x4_0000 == n / 0x1000 / 0x40;
  }

  lemma EncodeDecodedChar(b: Bytes)
    requires b != [] && DecodeChar(b).Some?
    ensures var (c, n) := DecodeChar(b).value; EncodeChar(c) == b[..n]
  {
    var k := DecodeChar(b).value.1;
    if k == 2 {
      EncodeTwo(b[0], b[1]);
    } else if k == 3 {
      EncodeThree(b[0], b[1], b[2]);
    } else if k == 4 {
      EncodeFour(b[0], b[1], b[2], b[3]);
    }
  }

  lemma EncodeCons(c: char, rest: string)
    ensures Encode([c] + rest) == EncodeChar(c) + Encode(rest)
  {
    assert ([c] + rest)[1..] == rest;
  }

  lemma {:induction false} DecodeEncoded(s: string)
    ensures Decode(Encode(s)) == Some(s)
  {
    if s != [] {
      DecodeEncodedChar(s[0], Encode(s[1..]));
      DecodeEncoded(s[1..]);
      DecodePast(s[0], EncodeChar(s[0]), Encode(s[1..]));
      assert s == [s[0]] + s[1..];
    }
  }

  lemma DecodePast(c: char, head: Bytes, rest: Bytes)
    requires head != [] && DecodeChar(head + rest) == Some((c, |head|)) && Decode(rest).Some?
    ensures Decode(head + rest) == Some([c] + Decode(rest).value)
  {
    assert (head + rest)[|head|..] == rest;
  }

  lemma DecodeStep(b: Bytes)
    requires b != [] && Decode(b).Some?
    ensures DecodeChar(b).Some?
    ensures var (c, n) := DecodeChar(b).value; Decode(b[n..]).Some? && Decode(b) == Some([c] + Decode(b[n..]).value)
  {
  }

  lemma EncodeJoin(b: Bytes, n: nat, c: char, rest: string)
    requires n <= |b| && EncodeChar(c) == b[..n] && Encode(rest) == b[n..]
    ensures Encode([c] + rest) == b
  {
    EncodeCons(c, rest);
    assert b == b[..n] + b[n..];
  }

  lemma {:induction false} EncodeDecoded(b: Bytes)
    requires Decode(b).Some?
    ensures Encode(Decode(b).value) == b
    decreases |b|
  {
    if b != [] {
      DecodeStep(b);
      var (c, n) := DecodeChar(b).value;
      EncodeDecodedChar(b);
      EncodeDecoded(b[n..]);
      EncodeJoin(b, n, c, Decode(b[n..]).value);
    }
  }

  /** A byte string is text exactly when it is some text's encoding. */
  lemma DecodeIff(b: Bytes, s: string)
    ensures Decode(b) == Some(s) <==> b == Encode(s)
  {
    if Decode(b) == Some(s) {
      EncodeDecoded(b);
    }
    DecodeEncoded(s);
  }

  lemma {:induction false} EncodeAppend(s: string, t: string)
    ensures Encode(s + t) == Encode(s) + Encode(t)
  {
    if s == [] {
      assert s + t == t;
    } else {
      EncodeAppend(s[1..], t);
      assert (s + t)[1..] == s[1..] + t;
      Regroup(EncodeChar(s[0]), Encode(s[1..]), Encode(t));
    }
  }

  /** The only character with a zero byte in its encoding is NUL. */
  lemma {:induction false} NulFree(s: string)
    ensures 0 in Encode(s) <==> '\0' in s
  {
    if s != [] {
      NulFree(s[1..]);
      assert s == [s[0]] + s[1..];
      assert 0 in EncodeChar(s[0]) <==> s[0] == '\0';
    }
  }

  /** `str::len`. */
  function ByteLen(s: string): nat {
    |Encode(s)|
  }

  lemma ByteLenAppend(s: string, t: string)
    ensures ByteLen(s + t) == ByteLen(s) + ByteLen(t)
  {
    EncodeAppend(s, t);
  }

  predicate IsAscii(s: string) {
    forall i :: 0 <= i < |s| ==> s[i] as int < 0x80
  }

  lemma {:induction false} AsciiLength(s: string)
    requires IsAscii(s)
    ensures ByteLen(s) == |s|
  {
    if s != [] {
      AsciiLength(s[1..]);
    }
  }
}
