/**
 * JavaScript strings and the conversions utils/crypto.ts applies to them.
 *
 * A JavaScript string is a sequence of UTF-16 code units (JsString). A Dafny
 * `string` is a sequence of Unicode scalar values and stands for a USVString,
 * what TextEncoder consumes and TextDecoder produces.
 */
module JsText {

  type byte = x: int | 0 <= x < 0x100
  type CodeUnit = x: int | 0 <= x < 0x1_0000
  type JsString = seq<CodeUnit>

  /** The DOMException names that the modelled platform calls can raise. */
  datatype DomException = InvalidCharacterError | DataError | OperationError

  predicate IsHighSurrogate(u: int) { 0xD800 <= u < 0xDC00 }
  predicate IsLowSurrogate(u: int) { 0xDC00 <= u < 0xE000 }
  predicate IsSurrogate(u: int) { 0xD800 <= u < 0xE000 }

  const ReplacementCharacter: char := '\U{FFFD}'
  const ByteOrderMark: CodeUnit := 0xFEFF

  /** The scalar value a surrogate pair stands for. */
  function CombineSurrogates(hi: CodeUnit, lo: CodeUnit): (c: char)
    requires IsHighSurrogate(hi) && IsLowSurrogate(lo)
    ensures 0x1_0000 <= c as int < 0x11_0000
  {
    (0x1_0000 + (hi - 0xD800) * 0x400 + (lo - 0xDC00)) as char
  }

  /**
   * The WebIDL conversion of a JavaScript string to a USVString: surrogate
   * pairs become one scalar value, lone surrogates become U+FFFD.
   */
  function ToUsv(s: JsString): (r: string)
    ensures |r| <= |s| <= 2 * |r|
    decreases |s|
  {
    if s == [] then ""
    else if IsHighSurrogate(s[0]) && |s| >= 2 && IsLowSurrogate(s[1]) then
      [CombineSurrogates(s[0], s[1])] + ToUsv(s[2..])
    else if IsSurrogate(s[0]) then
      [ReplacementCharacter] + ToUsv(s[1..])
    else
      [s[0] as char] + ToUsv(s[1..])
  }

  /** A JavaScript string with no lone surrogate. */
  predicate WellFormed(s: JsString)
    decreases |s|
  {
    if s == [] then true
    else if IsHighSurrogate(s[0]) && |s| >= 2 && IsLowSurrogate(s[1]) then WellFormed(s[2..])
    else !IsSurrogate(s[0]) && WellFormed(s[1..])
  }

  /** The UTF-16 code units of one scalar value. */
  function CharToUtf16(c: char): (r: JsString)
    ensures c as int < 0x1_0000 ==> r == [c as int]
    ensures 0x1_0000 <= c as int ==> |r| == 2 && IsHighSurrogate(r[0]) && IsLowSurrogate(r[1])
  {
    if c as int < 0x1_0000 then [c as int]
    else [0xD800 + (c as int - 0x1_0000) / 0x400, 0xDC00 + (c as int - 0x1_0000) % 0x400]
  }

  /** A USVString as the JavaScript string that holds it. */
  function ToUtf16(u: string): JsString
  {
    if u == "" then [] else CharToUtf16(u[0]) + ToUtf16(u[1..])
  }

  lemma CharToUtf16RoundTrip(c: char)
    ensures var r := CharToUtf16(c);
      if |r| == 2 then CombineSurrogates(r[0], r[1]) == c
      else !IsSurrogate(r[0]) && r[0] as char == c
  {
  }

  /** Converting a USVString to UTF-16 and back loses nothing, and the code units are well formed. */
  lemma {:induction false} UsvUtf16RoundTrip(u: string)
    ensures ToUsv(ToUtf16(u)) == u
    ensures WellFormed(ToUtf16(u))
  {
    if u != "" {
      UsvUtf16RoundTrip(u[1..]);
      CharToUtf16RoundTrip(u[0]);
      var r := CharToUtf16(u[0]);
      var t := ToUtf16(u[1..]);
      assert ToUtf16(u) == r + t;
      if |r| == 2 {
        assert (r + t)[2..] == t;
      } else {
        assert (r + t)[1..] == t;
      }
    }
  }

  /** A well-formed JavaScript string survives the trip through a USVString unchanged. */
  lemma {:induction false} Utf16UsvRoundTrip(s: JsString)
    requires WellFormed(s)
    ensures ToUtf16(ToUsv(s)) == s
  {
    if s != [] {
      if IsHighSurrogate(s[0]) && |s| >= 2 && IsLowSurrogate(s[1]) {
        Utf16UsvRoundTrip(s[2..]);
        var c := CombineSurrogates(s[0], s[1]);
        assert ToUsv(s) == [c] + ToUsv(s[2..]);
        assert ([c] + ToUsv(s[2..]))[1..] == ToUsv(s[2..]);
        assert CharToUtf16(c) == s[..2];
        assert s == s[..2] + s[2..];
      } else {
        Utf16UsvRoundTrip(s[1..]);
        assert ([s[0] as char] + ToUsv(s[1..]))[1..] == ToUsv(s[1..]);
        assert s == [s[0]] + s[1..];
      }
    }
  }

  /** An ASCII USVString is held in one code unit per character, the character's own code. */
  lemma {:induction false} AsciiToUtf16(u: string)
    requires forall i :: 0 <= i < |u| ==> u[i] as int < 0x80
    ensures |ToUtf16(u)| == |u|
    ensures forall i :: 0 <= i < |u| ==> ToUtf16(u)[i] == u[i] as int
  {
    if u != "" {
      AsciiToUtf16(u[1..]);
      assert ToUtf16(u) == [u[0] as int] + ToUtf16(u[1..]);
    }
  }

  /** An ASCII text as the JavaScript string that holds it: one code unit per character. */
  function AsciiText(u: string): (s: JsString)
    requires forall i :: 0 <= i < |u| ==> u[i] as int < 0x80
    ensures |s| == |u| && forall i :: 0 <= i < |u| ==> s[i] == u[i] as int
  {
    seq(|u|, i requires 0 <= i < |u| => u[i] as int)
  }

  /** The UTF-8 encoding of one scalar value (the Encoding Standard's UTF-8 encoder). */
  function Utf8Char(c: char): (r: seq<byte>)
    ensures 1 <= |r| <= 4
    ensures |r| == 1 <==> c as int < 0x80
  {
    var x := c as int;
    if x < 0x80 then [x]
    else if x < 0x800 then [0xC0 + x / 0x40, 0x80 + x % 0x40]
    else if x < 0x1_0000 then [0xE0 + x / 0x1000, 0x80 + (x / 0x40) % 0x40, 0x80 + x % 0x40]
    else [0xF0 + x / 0x4_0000, 0x80 + (x / 0x1000) % 0x40, 0x80 + (x / 0x40) % 0x40, 0x80 + x % 0x40]
  }

  function Utf8Encode(u: string): (r: seq<byte>)
    ensures |u| <= |r| <= 4 * |u|
    ensures |r| == |u| <==> forall i :: 0 <= i < |u| ==> u[i] as int < 0x80
  {
    if u == "" then [] else Utf8Char(u[0]) + Utf8Encode(u[1..])
  }

  /** Bytes that start with the UTF-8 byte order mark EF BB BF. */
  predicate StartsWithBom(b: seq<byte>)
  {
    |b| >= 3 && b[0] == 0xEF && b[1] == 0xBB && b[2] == 0xBF
  }

  /** The only scalar value whose encoding is EF BB BF is U+FEFF. */
  lemma Utf8BomChar(c: char)
    ensures StartsWithBom(Utf8Char(c)) <==> c as int == ByteOrderMark
    ensures |Utf8Char(c)| < 3 ==> Utf8Char(c)[0] != 0xEF
  {
    var x := c as int;
    if 0x800 <= x < 0x1_0000 && StartsWithBom(Utf8Char(c)) {
      assert 0xF000 <= x;
      assert 960 <= x / 0x40 < 1024;
      assert x / 0x40 == 1019;
    }
  }

  /** A UTF-8 encoding starts with the byte order mark exactly when the text starts with U+FEFF. */
  lemma Utf8EncodeBom(u: string)
    ensures StartsWithBom(Utf8Encode(u)) <==> |u| > 0 && u[0] as int == ByteOrderMark
    ensures |u| > 0 && u[0] as int == ByteOrderMark ==> Utf8Encode(u)[3..] == Utf8Encode(u[1..])
  {
    if u != "" {
      var e := Utf8Encode(u);
      var head := Utf8Char(u[0]);
      assert e == head + Utf8Encode(u[1..]);
      Utf8BomChar(u[0]);
      if |head| >= 3 {
        assert e[0] == head[0] && e[1] == head[1] && e[2] == head[2];
      } else if |e| >= 3 {
        assert e[0] == head[0] != 0xEF;
      }
      if u[0] as int == ByteOrderMark {
        assert |head| == 3 && e[3..] == Utf8Encode(u[1..]);
      }
    }
  }

  /** The lead byte of a UTF-8 sequence tells how many bytes it has. */
  lemma Utf8LeadByte(c: char)
    ensures var r := Utf8Char(c);
      && (r[0] < 0x80 <==> |r| == 1)
      && (0xC0 <= r[0] < 0xE0 <==> |r| == 2)
      && (0xE0 <= r[0] < 0xF0 <==> |r| == 3)
      && (0xF0 <= r[0] <==> |r| == 4)
  {
  }

  /** The scalar value a UTF-8 sequence of one character spells out. */
  function Utf8Value(r: seq<byte>): int
    requires 1 <= |r| <= 4
  {
    if |r| == 1 then r[0] as int
    else if |r| == 2 then (r[0] as int - 0xC0) * 0x40 + (r[1] as int - 0x80)
    else if |r| == 3 then (r[0] as int - 0xE0) * 0x1000 + (r[1] as int - 0x80) * 0x40 + (r[2] as int - 0x80)
    else (r[0] as int - 0xF0) * 0x4_0000 + (r[1] as int - 0x80) * 0x1000
         + (r[2] as int - 0x80) * 0x40 + (r[3] as int - 0x80)
  }

  /** Reading the bits of a character's UTF-8 sequence back gives the character. */
  lemma Utf8CharValue(c: char)
    ensures Utf8Value(Utf8Char(c)) == c as int
  {
    var x := c as int;
    var q := x / 0x40;
    assert x == q * 0x40 + x % 0x40;
    if 0x800 <= x {
      assert q == (q / 0x40) * 0x40 + q % 0x40;
      assert x / 0x1000 == q / 0x40;
      if 0x1_0000 <= x {
        var p := q / 0x40;
        assert p == (p / 0x40) * 0x40 + p % 0x40;
        assert x / 0x4_0000 == p / 0x40;
      }
    }
  }

  /** Distinct scalar values have distinct UTF-8 sequences. */
  lemma Utf8CharInjective(c: char, d: char)
    requires Utf8Char(c) == Utf8Char(d)
    ensures c == d
  {
    Utf8CharValue(c);
    Utf8CharValue(d);
  }

  /** UTF-8 encoding is injective, so a decoder that inverts it exists. */
  lemma {:induction false} Utf8EncodeInjective(u: string, v: string)
    requires Utf8Encode(u) == Utf8Encode(v)
    ensures u == v
    decreases |u|
  {
    if u != "" {
      var e := Utf8Encode(u);
      var cu, cv := Utf8Char(u[0]), Utf8Char(v[0]);
      assert e == cu + Utf8Encode(u[1..]) == cv + Utf8Encode(v[1..]);
      Utf8LeadByte(u[0]);
      Utf8LeadByte(v[0]);
      assert cu[0] == e[0] == cv[0];
      assert |cu| == |cv|;
      assert cu == e[..|cu|] == cv;
      Utf8CharInjective(u[0], v[0]);
      assert Utf8Encode(u[1..]) == e[|cu|..] == Utf8Encode(v[1..]);
      Utf8EncodeInjective(u[1..], v[1..]);
      assert u == [u[0]] + u[1..] && v == [v[0]] + v[1..];
    }
  }

  /** What TextEncoder's encode produces for a JavaScript string. */
  function TextEncode(s: JsString): (r: seq<byte>)
    ensures StartsWithBom(r) <==> |s| > 0 && s[0] == ByteOrderMark
  {
    Utf8EncodeBom(ToUsv(s));
    Utf8Encode(ToUsv(s))
  }

  predicate IsAscii(s: JsString)
  {
    forall i :: 0 <= i < |s| ==> s[i] < 0x80
  }

  /**
   * Every code unit costs at least one UTF-8 byte, and exactly one only when
   * it is ASCII, in which case the byte is the code unit itself.
   */
  lemma {:induction false} TextEncodeLength(s: JsString)
    ensures |TextEncode(s)| >= |s|
    ensures |TextEncode(s)| == |s| <==> IsAscii(s)
    ensures IsAscii(s) ==> TextEncode(s) == s
  {
    if s != [] {
      if IsHighSurrogate(s[0]) && |s| >= 2 && IsLowSurrogate(s[1]) {
        TextEncodeLength(s[2..]);
        var c := CombineSurrogates(s[0], s[1]);
        assert ToUsv(s) == [c] + ToUsv(s[2..]);
        assert TextEncode(s) == Utf8Char(c) + TextEncode(s[2..]);
        assert |Utf8Char(c)| == 4;
      } else {
        TextEncodeLength(s[1..]);
        var c := if IsSurrogate(s[0]) then ReplacementCharacter else s[0] as char;
        assert ToUsv(s) == [c] + ToUsv(s[1..]);
        assert TextEncode(s) == Utf8Char(c) + TextEncode(s[1..]);
        assert IsAscii(s) <==> s[0] < 0x80 && IsAscii(s[1..]) by {
          if s[0] < 0x80 && IsAscii(s[1..]) {
            forall i | 0 <= i < |s| ensures s[i] < 0x80 {
              if i > 0 { assert s[i] == s[1..][i - 1]; }
            }
          }
        }
        if IsAscii(s) {
          assert TextEncode(s) == [s[0]] + s[1..];
        }
      }
    }
  }

  /** String.fromCharCode applied to the bytes: one code unit per byte. */
  function FromCharCodes(b: seq<byte>): (s: JsString)
    ensures |s| == |b| && forall i :: 0 <= i < |b| ==> s[i] == b[i]
  {
    seq(|b|, i requires 0 <= i < |b| => b[i] as CodeUnit)
  }

  /** Splitting a string into single units and taking charCodeAt of each: the code units as numbers. */
  function CharCodes(s: JsString): (r: seq<int>)
    ensures |r| == |s| && forall i :: 0 <= i < |s| ==> r[i] == s[i]
  {
    seq(|s|, i requires 0 <= i < |s| => s[i] as int)
  }

  /** A Uint8Array built from numbers: each is reduced modulo 256 (ToUint8). */
  function ToUint8Array(xs: seq<int>): (b: seq<byte>)
    ensures |b| == |xs|
    ensures forall i :: 0 <= i < |xs| ==> b[i] == xs[i] % 0x100
  {
    seq(|xs|, i requires 0 <= i < |xs| => xs[i] % 0x100)
  }

  /** A string whose code units all fit in a byte, as `atob` returns and `btoa` accepts. */
  predicate IsBinary(s: JsString)
  {
    forall i :: 0 <= i < |s| ==> s[i] < 0x100
  }

  /** The bytes a binary string stands for. */
  function BinaryBytes(s: JsString): (b: seq<byte>)
    requires IsBinary(s)
    ensures |b| == |s| && forall i :: 0 <= i < |s| ==> b[i] == s[i]
  {
    seq(|s|, i requires 0 <= i < |s| => s[i] as byte)
  }

  /** Bytes to char codes and back reproduces the byte array. */
  lemma BytesCharCodesRoundTrip(b: seq<byte>)
    ensures IsBinary(FromCharCodes(b))
    ensures ToUint8Array(CharCodes(FromCharCodes(b))) == b
  {
  }

  /** A binary string to bytes and back reproduces the string. */
  lemma CharCodesBytesRoundTrip(s: JsString)
    requires IsBinary(s)
    ensures FromCharCodes(ToUint8Array(CharCodes(s))) == s
  {
  }
}
