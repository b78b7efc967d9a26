/** Well-formed UTF-8, as in Table 3-7 of the Unicode Standard and section 4 of RFC 3629. */
module Utf8 {
  import opened Wire

  predicate Trail(b: Byte) {
    0x80 <= b <= 0xBF
  }

  predicate IsUtf8(s: Bytes)
    decreases |s|
  {
    if s == [] then true
    else if s[0] <= 0x7F then IsUtf8(s[1..])
    else if 0xC2 <= s[0] <= 0xDF then |s| >= 2 && Trail(s[1]) && IsUtf8(s[2..])
    else if 0xE0 <= s[0] <= 0xEF then
      && |s| >= 3 && Trail(s[1]) && Trail(s[2])
      && (s[0] == 0xE0 ==> s[1] >= 0xA0) && (s[0] == 0xED ==> s[1] <= 0x9F)
      && IsUtf8(s[3..])
    else if 0xF0 <= s[0] <= 0xF4 then
      && |s| >= 4 && Trail(s[1]) && Trail(s[2]) && Trail(s[3])
      && (s[0] == 0xF0 ==> s[1] >= 0x90) && (s[0] == 0xF4 ==> s[1] <= 0x8F)
      && IsUtf8(s[4..])
    else false
  }

  lemma {:induction false} AsciiIsUtf8(s: Bytes)
    requires forall i | 0 <= i < |s| :: s[i] <= 0x7F
    ensures IsUtf8(s)
    decreases |s|
  {
    if s != [] {
      AsciiIsUtf8(s[1..]);
    }
  }

  // ----- the characters -----

  /** A Unicode scalar value: any code point but a surrogate. */
  type Scalar = n: nat | n <= 0x10FFFF && !(0xD800 <= n <= 0xDFFF)

  /** The encoding of one character: its bits from the top, six to each byte after the first. */
  function EncodeScalar(c: Scalar): (s: Bytes)
    ensures 1 <= |s| <= 4
  {
    if c < 0x80 then [c]
    else if c < 0x800 then [0xC0 + c / 64, 0x80 + c % 64]
    else if c < 0x1_0000 then [0xE0 + c / 64 / 64, 0x80 + c / 64 % 64, 0x80 + c % 64]
    else [0xF0 + c / 64 / 64 / 64, 0x80 + c / 64 / 64 % 64, 0x80 + c / 64 % 64, 0x80 + c % 64]
  }

  function EncodeText(text: seq<Scalar>): Bytes {
    if text == [] then [] else EncodeScalar(text[0]) + EncodeText(text[1..])
  }

  /** A character in front of well-formed text. */
  lemma EncodeThen(c: Scalar, rest: Bytes)
    ensures IsUtf8(EncodeScalar(c) + rest) <==> IsUtf8(rest)
  {
    var s := EncodeScalar(c) + rest;
    assert s[|EncodeScalar(c)|..] == rest;
  }

  lemma {:induction false} EncodedIsUtf8(text: seq<Scalar>)
    ensures IsUtf8(EncodeText(text))
  {
    if text != [] {
      EncodedIsUtf8(text[1..]);
      EncodeThen(text[0], EncodeText(text[1..]));
    }
  }

  lemma SixBits(high: nat, low: nat)
    requires low < 64
    ensures (high * 64 + low) / 64 == high && (high * 64 + low) % 64 == low
  {
  }

  lemma OneByte(a: nat)
    requires a < 0x80
    ensures EncodeScalar(a) == [a]
  {
  }

  lemma TwoBytes(a: nat, b: nat)
    requires 2 <= a < 32 && b < 64
    ensures EncodeScalar(a * 64 + b) == [0xC0 + a, 0x80 + b]
  {
    SixBits(a, b);
  }

  lemma ThreeBytes(a: nat, b: nat, c: nat)
    requires a < 16 && b < 64 && c < 64 && (a == 0 ==> b >= 32) && (a == 13 ==> b < 32)
    ensures EncodeScalar((a * 64 + b) * 64 + c) == [0xE0 + a, 0x80 + b, 0x80 + c]
  {
    SixBits(a * 64 + b, c);
    SixBits(a, b);
  }

  lemma FourBytes(a: nat, b: nat, c: nat, d: nat)
    requires a <= 4 && b < 64 && c < 64 && d < 64 && (a == 0 ==> b >= 16) && (a == 4 ==> b < 16)
    ensures EncodeScalar(((a * 64 + b) * 64 + c) * 64 + d) == [0xF0 + a, 0x80 + b, 0x80 + c, 0x80 + d]
  {
    SixBits((a * 64 + b) * 64 + c, d);
    SixBits(a * 64 + b, c);
    SixBits(a, b);
  }

  /** The first character of well-formed text. */
  lemma FirstCharacter(s: Bytes) returns (c: Scalar, rest: Bytes)
    requires IsUtf8(s) && s != []
    ensures s == EncodeScalar(c) + rest
  {
    hide EncodeScalar;
    var b: seq<int> := s;
    if s[0] <= 0x7F {
      OneByte(b[0]);
      c, rest := b[0], s[1..];
    } else if s[0] <= 0xDF {
      TwoBytes(b[0] - 0xC0, b[1] - 0x80);
      c, rest := (b[0] - 0xC0) * 64 + (b[1] - 0x80), s[2..];
    } else if s[0] <= 0xEF {
      ThreeBytes(b[0] - 0xE0, b[1] - 0x80, b[2] - 0x80);
      c, rest := ((b[0] - 0xE0) * 64 + (b[1] - 0x80)) * 64 + (b[2] - 0x80), s[3..];
    } else {
      FourBytes(b[0] - 0xF0, b[1] - 0x80, b[2] - 0x80, b[3] - 0x80);
      c := (((b[0] - 0xF0) * 64 + (b[1] - 0x80)) * 64 + (b[2] - 0x80)) * 64 + (b[3] - 0x80);
      rest := s[4..];
    }
  }

  lemma {:induction false} Utf8IsEncoded(s: Bytes) returns (text: seq<Scalar>)
    requires IsUtf8(s)
    ensures EncodeText(text) == s
    decreases |s|
  {
    if s == [] {
      text := [];
    } else {
      var c, rest := FirstCharacter(s);
      EncodeThen(c, rest);
      var more := Utf8IsEncoded(rest);
      text := [c] + more;
      assert text[1..] == more;
    }
  }

  /** The check accepts exactly the encodings of texts of scalar values. */
  lemma IsUtf8Exactly(s: Bytes)
    ensures IsUtf8(s) <==> exists text: seq<Scalar> :: EncodeText(text) == s
  {
    if IsUtf8(s) {
      var text := Utf8IsEncoded(s);
    }
    forall text: seq<Scalar> | EncodeText(text) == s
      ensures IsUtf8(s)
    {
      EncodedIsUtf8(text);
    }
  }
}
