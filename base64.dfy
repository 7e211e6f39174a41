/**
 * `btoa` and `atob`. `btoa` is the base64 encoding of section 4 of RFC 4648,
 * with padding; `atob` is the forgiving-base64 decoder of the WHATWG Infra
 * standard, which accepts every RFC 4648 encoding and also tolerates ASCII
 * whitespace, missing padding and non-zero leftover bits.
 */
module Base64 {
  import opened Wrappers
  import opened JsText

  /** The value of one base64 character. */
  type Sextet = x: int | 0 <= x < 64

  /** The base64 alphabet (Table 1 of RFC 4648). */
  function Alphabet(x: Sextet): (u: CodeUnit)
  {
    if x < 26 then 'A' as int + x
    else if x < 52 then 'a' as int + (x - 26)
    else if x < 62 then '0' as int + (x - 52)
    else if x == 62 then '+' as int
    else '/' as int
  }

  /** The pad character '='. */
  const Pad: CodeUnit := '=' as int

  predicate InAlphabet(u: int)
  {
    'A' as int <= u <= 'Z' as int || 'a' as int <= u <= 'z' as int || '0' as int <= u <= '9' as int
    || u == '+' as int || u == '/' as int
  }

  /** The value of an alphabet character: the inverse of Alphabet. */
  function SextetValue(u: int): (x: Sextet)
    requires InAlphabet(u)
    ensures Alphabet(x) == u
  {
    if u <= 'Z' as int && 'A' as int <= u then u - 'A' as int
    else if 'a' as int <= u then u - 'a' as int + 26
    else if '0' as int <= u then u - '0' as int + 52
    else if u == '+' as int then 62
    else 63
  }

  lemma AlphabetValue(x: Sextet)
    ensures InAlphabet(Alphabet(x)) && SextetValue(Alphabet(x)) == x && Alphabet(x) != Pad
  {
  }

  /** The 6-bit groups of an octet sequence, most significant first, before padding. */
  function SplitSextets(b: seq<byte>): (r: seq<Sextet>)
    ensures |r| == 4 * (|b| / 3) + (if |b| % 3 == 0 then 0 else |b| % 3 + 1)
    decreases |b|
  {
    if |b| == 0 then []
    else if |b| == 1 then [b[0] / 4, (b[0] % 4) * 16]
    else if |b| == 2 then [b[0] / 4, (b[0] % 4) * 16 + b[1] / 16, (b[1] % 16) * 4]
    else [b[0] / 4, (b[0] % 4) * 16 + b[1] / 16, (b[1] % 16) * 4 + b[2] / 64, b[2] % 64]
         + SplitSextets(b[3..])
  }

  /** The '=' characters that complete the last quantum of an encoding of n octets. */
  function PaddingFor(n: nat): JsString
  {
    if n % 3 == 1 then [Pad, Pad] else if n % 3 == 2 then [Pad] else []
  }

  function AlphabetOf(xs: seq<Sextet>): (r: JsString)
    ensures |r| == |xs| && forall i :: 0 <= i < |xs| ==> r[i] == Alphabet(xs[i])
  {
    seq(|xs|, i requires 0 <= i < |xs| => Alphabet(xs[i]))
  }

  /** The base64 encoding of an octet sequence (section 4 of RFC 4648). */
  function Encode(b: seq<byte>): (r: JsString)
    ensures |r| == 4 * ((|b| + 2) / 3)
  {
    AlphabetOf(SplitSextets(b)) + PaddingFor(|b|)
  }

  /** An encoding is alphabet characters followed by nothing but '=' padding. */
  lemma EncodeSymbols(b: seq<byte>)
    ensures forall i :: 0 <= i < |Encode(b)| ==> (InAlphabet(Encode(b)[i]) <==> i < |SplitSextets(b)|)
    ensures forall i :: 0 <= i < |Encode(b)| ==> (Encode(b)[i] == Pad <==> i >= |SplitSextets(b)|)
  {
    var xs := SplitSextets(b);
    forall i | 0 <= i < |xs| ensures InAlphabet(Encode(b)[i]) && Encode(b)[i] != Pad {
      AlphabetValue(xs[i]);
    }
  }

  /**
   * Joins 6-bit groups back into octets, four characters to three octets; a
   * final group of two or three characters yields one or two octets and its
   * leftover bits are dropped.
   */
  function JoinSextets(xs: seq<Sextet>): (r: seq<byte>)
    requires |xs| % 4 != 1
    ensures |r| == |xs| * 3 / 4
    decreases |xs|
  {
    if |xs| == 0 then []
    else if |xs| == 2 then [xs[0] as int * 4 + xs[1] as int / 16]
    else if |xs| == 3 then [xs[0] as int * 4 + xs[1] as int / 16, (xs[1] as int % 16) * 16 + xs[2] as int / 4]
    else [xs[0] as int * 4 + xs[1] as int / 16, (xs[1] as int % 16) * 16 + xs[2] as int / 4,
          (xs[2] as int % 4) * 64 + xs[3] as int]
         + JoinSextets(xs[4..])
  }

  /** Splitting into sextets and joining them again gives back the octets. */
  lemma {:induction false} JoinSplitSextets(b: seq<byte>)
    ensures |SplitSextets(b)| % 4 != 1
    ensures JoinSextets(SplitSextets(b)) == b
    decreases |b|
  {
    SplitSextetsLength(b);
    if |b| >= 3 {
      JoinSplitSextets(b[3..]);
      JoinSplitStep(b);
      assert b == b[..3] + b[3..];
    } else {
      JoinSplitShort(b);
    }
  }

  /** The sextets of any octets never leave a single character over. */
  lemma SplitSextetsLength(b: seq<byte>)
    ensures |SplitSextets(b)| % 4 != 1
  {
  }

  /** One quantum of three octets goes through the split and the join unchanged. */
  lemma JoinSplitStep(b: seq<byte>)
    requires |b| >= 3
    ensures |SplitSextets(b[3..])| % 4 != 1
    ensures JoinSextets(SplitSextets(b)) == b[..3] + JoinSextets(SplitSextets(b[3..]))
  {
    var xs, ys := SplitSextets(b), SplitSextets(b[3..]);
    SplitSextetsLength(b);
    SplitSextetsLength(b[3..]);
    var x0, x1, x2, x3 := b[0] / 4, (b[0] % 4) * 16 + b[1] / 16, (b[1] % 16) * 4 + b[2] / 64, b[2] % 64;
    assert xs == [x0, x1, x2, x3] + ys;
    assert xs[4..] == ys;
    assert JoinSextets(xs) == [x0 * 4 + x1 / 16, (x1 % 16) * 16 + x2 / 4, (x2 % 4) * 64 + x3] + JoinSextets(ys);
    JoinSplitQuantum(b[0], b[1], b[2]);
  }

  /** One or two octets, the final partial quantum, also come back. */
  lemma JoinSplitShort(b: seq<byte>)
    requires |b| < 3
    ensures |SplitSextets(b)| % 4 != 1
    ensures JoinSextets(SplitSextets(b)) == b
  {
    if |b| == 2 {
      JoinSplitQuantum(b[0], b[1], 0);
    } else if |b| == 1 {
      JoinSplitQuantum(b[0], 0, 0);
    }
  }

  /** The four sextets of three octets give back the octets. */
  lemma JoinSplitQuantum(p: byte, q: byte, r: byte)
    ensures (p / 4) * 4 + ((p % 4) * 16 + q / 16) / 16 == p
    ensures (((p % 4) * 16 + q / 16) % 16) * 16 + ((q % 16) * 4 + r / 64) / 4 == q
    ensures (((q % 16) * 4 + r / 64) % 4) * 64 + r % 64 == r
  {
  }

  predicate IsAsciiWhitespace(u: int)
  {
    u == 0x09 || u == 0x0A || u == 0x0C || u == 0x0D || u == 0x20
  }

  function RemoveWhitespace(s: JsString): (r: JsString)
    ensures |r| <= |s|
    ensures forall i :: 0 <= i < |r| ==> !IsAsciiWhitespace(r[i])
  {
    if s == [] then []
    else if IsAsciiWhitespace(s[0]) then RemoveWhitespace(s[1..])
    else [s[0]] + RemoveWhitespace(s[1..])
  }

  /** Whitespace removal keeps every other unit, as often as it occurs. */
  lemma {:induction false} RemoveWhitespaceKeeps(s: JsString)
    ensures forall u :: !IsAsciiWhitespace(u) ==> multiset(RemoveWhitespace(s))[u] == multiset(s)[u]
    decreases |s|
  {
    if s != [] {
      RemoveWhitespaceKeeps(s[1..]);
      assert s == [s[0]] + s[1..];
      assert multiset(s) == multiset{s[0]} + multiset(s[1..]);
    }
  }

  /** Whitespace removal works unit by unit, so it keeps the order of what it keeps. */
  lemma {:induction false} RemoveWhitespaceAppend(a: JsString, b: JsString)
    ensures RemoveWhitespace(a + b) == RemoveWhitespace(a) + RemoveWhitespace(b)
    decreases |a|
  {
    if a == [] {
      assert a + b == b;
    } else {
      assert (a + b)[1..] == a[1..] + b;
      RemoveWhitespaceAppend(a[1..], b);
    }
  }

  lemma RemoveWhitespaceNone(s: JsString)
    requires forall i :: 0 <= i < |s| ==> !IsAsciiWhitespace(s[i])
    ensures RemoveWhitespace(s) == s
  {
    if s != [] {
      RemoveWhitespaceNone(s[1..]);
      assert s == [s[0]] + s[1..];
    }
  }

  /** When the length is a multiple of four, one or two trailing '=' are removed. */
  function StripPadding(d: JsString): (r: JsString)
    ensures r <= d && |d| - 2 <= |r|
    ensures |d| % 4 != 0 ==> r == d
    ensures forall k :: |r| <= k < |d| ==> d[k] == Pad
    ensures |d| % 4 == 0 && |d| >= 2 && d[|d| - 1] == Pad && d[|d| - 2] == Pad ==> |r| == |d| - 2
    ensures |d| % 4 == 0 && |d| >= 1 && d[|d| - 1] == Pad && (|d| < 2 || d[|d| - 2] != Pad) ==>
              |r| == |d| - 1
    ensures (|d| % 4 != 0 || |d| == 0 || d[|d| - 1] != Pad) ==> r == d
  {
    if |d| % 4 == 0 && |d| >= 1 && d[|d| - 1] == Pad then
      if |d| >= 2 && d[|d| - 2] == Pad then d[..|d| - 2] else d[..|d| - 1]
    else d
  }

  predicate AllInAlphabet(d: JsString)
  {
    forall i :: 0 <= i < |d| ==> InAlphabet(d[i])
  }

  function SextetsOf(d: JsString): (xs: seq<Sextet>)
    requires AllInAlphabet(d)
    ensures |xs| == |d| && forall i :: 0 <= i < |d| ==> Alphabet(xs[i]) == d[i]
  {
    seq(|d|, i requires 0 <= i < |d| => SextetValue(d[i]))
  }

  /** atob: the binary string s decodes to, or InvalidCharacterError. */
  function Atob(s: JsString): (r: Result<JsString, DomException>)
    ensures r.Success? ==> IsBinary(r.value)
    ensures r.Failure? ==> r.error == InvalidCharacterError
  {
    var d := StripPadding(RemoveWhitespace(s));
    if |d| % 4 == 1 || !AllInAlphabet(d) then Failure(InvalidCharacterError)
    else Success(FromCharCodes(JoinSextets(SextetsOf(d))))
  }

  /** btoa: fails with InvalidCharacterError on a code unit above 0xFF. */
  function Btoa(s: JsString): (r: Result<JsString, DomException>)
    ensures r.Success? <==> IsBinary(s)
    ensures r.Success? ==> r.value == Encode(BinaryBytes(s))
    ensures r.Failure? ==> r.error == InvalidCharacterError
  {
    if IsBinary(s) then Success(Encode(BinaryBytes(s))) else Failure(InvalidCharacterError)
  }

  /** btoa of the string built from bytes with fromCharCode never throws and encodes exactly those bytes. */
  lemma BtoaFromCharCodes(b: seq<byte>)
    ensures Btoa(FromCharCodes(b)) == Success(Encode(b))
  {
    BytesCharCodesRoundTrip(b);
    assert BinaryBytes(FromCharCodes(b)) == b;
  }

  /** Removing the padding of an encoding leaves exactly its alphabet characters. */
  lemma StripEncodingPadding(b: seq<byte>)
    ensures StripPadding(Encode(b)) == AlphabetOf(SplitSextets(b))
  {
    var xs := SplitSextets(b);
    var a := AlphabetOf(xs);
    var e := a + PaddingFor(|b|);
    assert Encode(b) == e;
    var q := |b| / 3;
    if |b| % 3 == 1 {
      assert |e| == 4 * q + 4;
      assert e[|e| - 1] == Pad && e[|e| - 2] == Pad;
      assert StripPadding(e) == e[..|e| - 2];
      assert e[..|e| - 2] == a;
    } else if |b| % 3 == 2 {
      assert |e| == 4 * q + 4;
      AlphabetValue(xs[|xs| - 1]);
      assert e[|e| - 2] != Pad;
      assert StripPadding(e) == e[..|e| - 1];
      assert e[..|e| - 1] == a;
    } else {
      assert e == a;
      if |e| >= 1 {
      AlphabetValue(xs[|xs| - 1]);
      assert e[|e| - 1] != Pad;
      }
      assert StripPadding(e) == e;
    }
  }

  /** `atob` inverts the encoding: it yields a string whose char codes are the encoded bytes. */
  lemma AtobEncode(b: seq<byte>)
    ensures Atob(Encode(b)) == Success(FromCharCodes(b))
  {
    var e := Encode(b);
    EncodeSymbols(b);
    assert forall i :: 0 <= i < |e| ==> !IsAsciiWhitespace(e[i]);
    RemoveWhitespaceNone(e);
    StripEncodingPadding(b);
    var xs := SplitSextets(b);
    var d := AlphabetOf(xs);
    assert StripPadding(RemoveWhitespace(e)) == d;
    forall i | 0 <= i < |xs| ensures InAlphabet(d[i]) && SextetValue(d[i]) == xs[i] {
      AlphabetValue(xs[i]);
    }
    assert SextetsOf(d) == xs;
    JoinSplitSextets(b);
  }

  /** Twelve bytes, the IV length, encode to sixteen characters with no padding. */
  lemma EncodeTwelveBytes(b: seq<byte>)
    requires |b| == 12
    ensures |Encode(b)| == 16
    ensures forall i :: 0 <= i < 16 ==> InAlphabet(Encode(b)[i]) && Encode(b)[i] != Pad
  {
    EncodeSymbols(b);
  }

  /** The test vectors of section 10 of RFC 4648. */
  lemma RfcTestVectors()
    ensures Encode([]) == []
    ensures Encode([0x66]) == AsciiText("Zg==")
    ensures Encode([0x66, 0x6F]) == AsciiText("Zm8=")
    ensures Encode([0x66, 0x6F, 0x6F]) == AsciiText("Zm9v")
    ensures Encode([0x66, 0x6F, 0x6F, 0x62]) == AsciiText("Zm9vYg==")
    ensures Encode([0x66, 0x6F, 0x6F, 0x62, 0x61]) == AsciiText("Zm9vYmE=")
    ensures Encode([0x66, 0x6F, 0x6F, 0x62, 0x61, 0x72]) == AsciiText("Zm9vYmFy")
  {
    VectorF();
    VectorFo();
    VectorFoo();
    VectorFoob();
    VectorFooba();
    VectorFoobar();
  }

  lemma VectorF()
    ensures Encode([0x66]) == AsciiText("Zg==")
  {
    assert SplitSextets([0x66]) == [25, 32];
  }

  lemma VectorFo()
    ensures Encode([0x66, 0x6F]) == AsciiText("Zm8=")
  {
    assert SplitSextets([0x66, 0x6F]) == [25, 38, 60];
  }

  lemma VectorFoo()
    ensures Encode([0x66, 0x6F, 0x6F]) == AsciiText("Zm9v")
  {
    assert SplitSextets([0x66, 0x6F, 0x6F]) == [25, 38, 61, 47];
  }

  lemma VectorFoob()
    ensures Encode([0x66, 0x6F, 0x6F, 0x62]) == AsciiText("Zm9vYg==")
  {
    var b: seq<byte> := [0x66, 0x6F, 0x6F, 0x62];
    assert b[3..] == [0x62];
    assert SplitSextets(b) == [25, 38, 61, 47, 24, 32];
  }

  lemma VectorFooba()
    ensures Encode([0x66, 0x6F, 0x6F, 0x62, 0x61]) == AsciiText("Zm9vYmE=")
  {
    var b: seq<byte> := [0x66, 0x6F, 0x6F, 0x62, 0x61];
    assert b[3..] == [0x62, 0x61];
    assert SplitSextets(b) == [25, 38, 61, 47, 24, 38, 4];
  }

  lemma VectorFoobar()
    ensures Encode([0x66, 0x6F, 0x6F, 0x62, 0x61, 0x72]) == AsciiText("Zm9vYmFy")
  {
    var b: seq<byte> := [0x66, 0x6F, 0x6F, 0x62, 0x61, 0x72];
    assert b[3..] == [0x62, 0x61, 0x72];
    assert SplitSextets(b) == [25, 38, 61, 47, 24, 38, 5, 50];
  }

  /**
   * The forgiving decoder, on code units: padding may be left out,
   * whitespace anywhere is ignored and leftover bits are dropped, while a
   * three-symbol group with one '=', a single symbol, three '=' and a unit
   * above 0xFF are rejected.
   */
  lemma ForgivingDecodeCases()
    ensures Atob([90, 103]) == Success([102])                                    // "Zg" gives "f"
    ensures Atob([32, 90, 109, 32, 57, 118, 10]) == Success([102, 111, 111])     // " Zm 9v\n" gives "foo"
    ensures Atob([90, 104, 61, 61]) == Success([102])                            // "Zh==" gives "f"
    ensures Atob([90, 103, 61]) == Failure(InvalidCharacterError)                // "Zg="
    ensures Atob([90]) == Failure(InvalidCharacterError)                         // "Z"
    ensures Atob([65, 61, 61, 61]) == Failure(InvalidCharacterError)             // "A==="
    ensures Atob([0x100]) == Failure(InvalidCharacterError)
  {
    DecodeUnpadded();
    DecodeWithWhitespace();
    DecodeLeftoverBits();
    RejectShortPadding();
    RejectSingleSymbol();
    RejectThreePads();
    RejectWideUnit();
  }

  lemma DecodeUnpadded()
    ensures Atob([90, 103]) == Success([102])
  {
    var s: JsString := [90, 103];
    RemoveWhitespaceNone(s);
    assert StripPadding(s) == s && AllInAlphabet(s);
    assert SextetsOf(s) == [25, 32];
    assert JoinSextets([25, 32]) == [102];
    assert FromCharCodes([102]) == [102];
  }

  lemma DecodeWithWhitespace()
    ensures Atob([32, 90, 109, 32, 57, 118, 10]) == Success([102, 111, 111])
  {
    WhitespaceRemoved();
    ZmovStages();
    AtobStages([32, 90, 109, 32, 57, 118, 10], [90, 109, 57, 118], [90, 109, 57, 118],
               [25, 38, 61, 47], [102, 111, 111]);
  }

  /** " Zm 9v\n" without its whitespace is "Zm9v". */
  lemma WhitespaceRemoved()
    ensures RemoveWhitespace([32, 90, 109, 32, 57, 118, 10]) == [90, 109, 57, 118]
  {
    var s: JsString := [32, 90, 109, 32, 57, 118, 10];
    assert s[1..] == [90, 109, 32, 57, 118, 10];
    assert s[2..] == [109, 32, 57, 118, 10];
    assert s[3..] == [32, 57, 118, 10];
    assert s[4..] == [57, 118, 10];
    assert s[5..] == [118, 10];
    assert s[6..] == [10];
    assert RemoveWhitespace(s[6..]) == [] by { assert s[6..][1..] == []; }
    assert RemoveWhitespace(s[5..]) == [118] by { assert s[5..][1..] == s[6..]; }
    assert RemoveWhitespace(s[4..]) == [57, 118] by { assert s[4..][1..] == s[5..]; }
    assert RemoveWhitespace(s[3..]) == [57, 118] by { assert s[3..][1..] == s[4..]; }
    assert RemoveWhitespace(s[2..]) == [109, 57, 118] by { assert s[2..][1..] == s[3..]; }
    assert RemoveWhitespace(s[1..]) == [90, 109, 57, 118] by { assert s[1..][1..] == s[2..]; }
  }

  /** "Zm9v" has no padding, is all alphabet, and its sextets join to the octets of "foo". */
  lemma ZmovStages()
    ensures StripPadding([90, 109, 57, 118]) == [90, 109, 57, 118] && AllInAlphabet([90, 109, 57, 118])
    ensures SextetsOf([90, 109, 57, 118]) == [25, 38, 61, 47]
    ensures JoinSextets([25, 38, 61, 47]) == [102, 111, 111]
    ensures FromCharCodes([102, 111, 111]) == [102, 111, 111]
  {
  }

  /** Atob run stage by stage: whitespace removal, padding removal, sextets, octets. */
  lemma AtobStages(s: JsString, w: JsString, d: JsString, xs: seq<Sextet>, b: seq<byte>)
    requires RemoveWhitespace(s) == w && StripPadding(w) == d
    requires |d| % 4 != 1 && AllInAlphabet(d) && SextetsOf(d) == xs && JoinSextets(xs) == b
    ensures Atob(s) == Success(FromCharCodes(b))
  {
  }

  lemma DecodeLeftoverBits()
    ensures Atob([90, 104, 61, 61]) == Success([102])
  {
    var s: JsString := [90, 104, 61, 61];
    RemoveWhitespaceNone(s);
    var d: JsString := [90, 104];
    assert StripPadding(s) == d && AllInAlphabet(d);
    assert SextetsOf(d) == [25, 33];
    assert JoinSextets([25, 33]) == [102];
    assert FromCharCodes([102]) == [102];
  }

  lemma RejectShortPadding()
    ensures Atob([90, 103, 61]) == Failure(InvalidCharacterError)
  {
    var s: JsString := [90, 103, 61];
    RemoveWhitespaceNone(s);
    assert !InAlphabet(StripPadding(s)[2]);
  }

  lemma RejectSingleSymbol()
    ensures Atob([90]) == Failure(InvalidCharacterError)
  {
    RemoveWhitespaceNone([90]);
  }

  lemma RejectThreePads()
    ensures Atob([65, 61, 61, 61]) == Failure(InvalidCharacterError)
  {
    var s: JsString := [65, 61, 61, 61];
    RemoveWhitespaceNone(s);
    assert StripPadding(s) == [65, 61];
    assert !InAlphabet(StripPadding(s)[1]);
  }

  lemma RejectWideUnit()
    ensures Atob([0x100]) == Failure(InvalidCharacterError)
  {
    RemoveWhitespaceNone([0x100]);
    assert !InAlphabet(StripPadding([0x100])[0]);
  }
}
