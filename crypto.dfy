/**
 * The token helper: key normalisation and the byte/text/base64 pipelines
 * around AES-GCM (NIST SP 800-38D). AES-GCM itself and the UTF-8 decoder are
 * platform calls; they are parameters of the model (a Platform), and what
 * the model relies on about them is stated as predicates over that
 * parameter. The IV that the source draws at random is a parameter too.
 */
module TokenCrypto {
  import opened Wrappers
  import opened JsText
  import opened Base64

  /** The key length in bytes that normalisation aims at (AES-256). */
  const KeyLength: nat := 32
  /** The IV length in bytes, the GCM standard length. */
  const IvLength: nat := 12
  /** The length in bytes of the authentication tag AES-GCM appends (the 128-bit default). */
  const TagLength: nat := 16
  /** The code unit '0' that pads a short raw key. */
  const KeyFill: CodeUnit := '0' as int

  const MasterKeyText: string := "gold-payments-elite-secure-vault-2025"
  /** The hard-coded master key, as the JavaScript string the source holds. */
  const MasterKeyRaw: JsString := AsciiText(MasterKeyText)

  /** The key data getEncryptionKey builds from the master key: the UTF-8 bytes of its normalised text. */
  const MasterKeyBytes: seq<byte> := TextEncode(NormaliseKey(MasterKeyRaw))

  /** String.prototype.padEnd for a fill string of one code unit. */
  function PadEnd(s: JsString, targetLength: nat, fill: CodeUnit): (r: JsString)
    ensures |r| == if |s| < targetLength then targetLength else |s|
    ensures r[..|s|] == s
    ensures forall i :: |s| <= i < |r| ==> r[i] == fill
  {
    if |s| >= targetLength then s else s + seq(targetLength - |s|, _ => fill)
  }

  /** String.prototype.slice from index 0. */
  function SliceTo(s: JsString, end: nat): (r: JsString)
    ensures r <= s
    ensures |r| == if end < |s| then end else |s|
  {
    if end < |s| then s[..end] else s
  }

  /**
   * Key normalisation, padding with '0' to 32 code units and then cutting
   * to 32: a short key is kept and followed by '0's, a long one is cut to
   * its first 32 units.
   */
  function NormaliseKey(rawKey: JsString): (k: JsString)
    ensures |k| == KeyLength
    ensures |rawKey| <= KeyLength ==> k[..|rawKey|] == rawKey
    ensures forall i :: |rawKey| <= i < KeyLength ==> k[i] == KeyFill
    ensures |rawKey| >= KeyLength ==> k == rawKey[..KeyLength]
  {
    SliceTo(PadEnd(rawKey, KeyLength, KeyFill), KeyLength)
  }

  /** An imported AES key, standing for the CryptoKey handle. */
  datatype AesKey = AesKey(keyBytes: seq<byte>)

  /**
   * Web Crypto's raw import of an AES-GCM key: the key must be 128, 192 or
   * 256 bits long, otherwise the import fails with DataError.
   */
  function ImportKey(keyData: seq<byte>): (r: Result<AesKey, DomException>)
    ensures r.Success? <==> |keyData| in {16, 24, 32}
    ensures r.Success? ==> r.value.keyBytes == keyData
    ensures r.Failure? ==> r.error == DataError
  {
    if |keyData| == 16 || |keyData| == 24 || |keyData| == 32 then Success(AesKey(keyData))
    else Failure(DataError)
  }

  /** getEncryptionKey: normalise, UTF-8 encode, import. */
  function GetEncryptionKey(rawKey: JsString): (r: Result<AesKey, DomException>)
    ensures r.Failure? ==> r.error == DataError
    ensures r.Success? ==> r.value.keyBytes == TextEncode(NormaliseKey(rawKey))
                           && |r.value.keyBytes| == KeyLength
  {
    TextEncodeLength(NormaliseKey(rawKey));
    ImportKey(TextEncode(NormaliseKey(rawKey)))
  }

  /**
   * The import succeeds exactly when the 32 normalised code units are ASCII,
   * and then the key is those 32 bytes: any other code unit costs UTF-8 more
   * than one byte, which overshoots 256 bits.
   */
  lemma GetEncryptionKeyAscii(rawKey: JsString)
    ensures GetEncryptionKey(rawKey).Success? <==> IsAscii(NormaliseKey(rawKey))
    ensures IsAscii(NormaliseKey(rawKey)) ==>
              GetEncryptionKey(rawKey) == Success(AesKey(NormaliseKey(rawKey)))
  {
    TextEncodeLength(NormaliseKey(rawKey));
  }

  /** The master key normalises to "gold-payments-elite-secure-vault" and imports as those 32 bytes. */
  lemma MasterKeyImport()
    ensures NormaliseKey(MasterKeyRaw) == AsciiText("gold-payments-elite-secure-vault")
    ensures IsAscii(NormaliseKey(MasterKeyRaw))
    ensures MasterKeyBytes == NormaliseKey(MasterKeyRaw) && |MasterKeyBytes| == KeyLength
    ensures GetEncryptionKey(MasterKeyRaw) == Success(AesKey(MasterKeyBytes))
  {
    MasterKeyTextIsAscii();
    var k := NormaliseKey(MasterKeyRaw);
    var short := AsciiText("gold-payments-elite-secure-vault");
    assert k == MasterKeyRaw[..32];
    forall i | 0 <= i < 32 ensures k[i] == short[i] {
      assert MasterKeyText[i] == "gold-payments-elite-secure-vault"[i];
    }
    assert IsAscii(k);
    GetEncryptionKeyAscii(MasterKeyRaw);
    TextEncodeLength(k);
  }

  lemma MasterKeyTextIsAscii()
    ensures |MasterKeyText| == 37
    ensures forall i :: 0 <= i < |MasterKeyText| ==> MasterKeyText[i] as int < 0x80
    ensures MasterKeyText[..32] == "gold-payments-elite-secure-vault"
  {
  }

  /**
   * The platform calls the helper makes: AES-GCM encryption and decryption
   * (key bytes, IV, input) and the UTF-8 decoding step of TextDecoder.
   */
  datatype Platform = Platform(
    seal: (seq<byte>, seq<byte>, seq<byte>) -> seq<byte>,
    open: (seq<byte>, seq<byte>, seq<byte>) -> Option<seq<byte>>,
    utf8Decode: seq<byte> -> string)

  /** AEAD correctness: decrypting under the key and IV used to encrypt returns the plaintext. */
  ghost predicate AeadCorrect(p: Platform)
  {
    forall k, iv, m :: p.open(k, iv, p.seal(k, iv, m)) == Some(m)
  }

  /** The ciphertext is the plaintext's length plus the 16-byte tag. */
  ghost predicate TagAppended(p: Platform)
  {
    forall k, iv, m :: |p.seal(k, iv, m)| == |m| + TagLength
  }

  /** The UTF-8 decoder inverts the UTF-8 encoder. */
  ghost predicate DecoderCorrect(p: Platform)
  {
    forall u: string :: p.utf8Decode(Utf8Encode(u)) == u
  }

  /** A decoder that maps every UTF-8 encoding back to its text. */
  ghost function Utf8DecodeOf(b: seq<byte>): (u: string)
    ensures (exists v: string :: Utf8Encode(v) == b) ==> Utf8Encode(u) == b
  {
    if exists u: string :: Utf8Encode(u) == b then var u: string :| Utf8Encode(u) == b; u else ""
  }

  /**
   * The three hypotheses can hold together: sealing that appends sixteen
   * zero bytes, opening that strips them, and the decoder above satisfy
   * all of them, so the round trip proved under them is not vacuous.
   */
  lemma PlatformHypothesesSatisfiable()
    ensures exists p :: AeadCorrect(p) && TagAppended(p) && DecoderCorrect(p)
  {
    var tag: seq<byte> := seq(TagLength, i => 0);
    var p := Platform(
      (k: seq<byte>, iv: seq<byte>, m: seq<byte>) => m + tag,
      (k: seq<byte>, iv: seq<byte>, c: seq<byte>) =>
        if |c| >= TagLength then Some(c[..|c| - TagLength]) else None,
      (b: seq<byte>) => Utf8DecodeOf(b));
    assert AeadCorrect(p) by {
      forall k, iv, m ensures p.open(k, iv, p.seal(k, iv, m)) == Some(m) {
        assert (m + tag)[..|m + tag| - TagLength] == m;
      }
    }
    assert DecoderCorrect(p) by {
      forall u: string ensures p.utf8Decode(Utf8Encode(u)) == u {
        Utf8EncodeInjective(Utf8DecodeOf(Utf8Encode(u)), u);
      }
    }
    assert TagAppended(p);
  }

  /** TextDecoder's decode with default options: a leading byte order mark is dropped, then UTF-8 is decoded. */
  function TextDecode(p: Platform, b: seq<byte>): (r: JsString)
    ensures WellFormed(r)
  {
    var u := p.utf8Decode(if StartsWithBom(b) then b[3..] else b);
    UsvUtf16RoundTrip(u);
    ToUtf16(u)
  }

  /** The USVString without a leading U+FEFF. */
  function DropBom(u: string): string
  {
    if |u| > 0 && u[0] as int == ByteOrderMark then u[1..] else u
  }

  /** Decoding what TextEncoder produced gives back the text, less a leading U+FEFF. */
  lemma TextDecodeEncode(p: Platform, s: JsString)
    requires DecoderCorrect(p)
    ensures TextDecode(p, TextEncode(s)) == ToUtf16(DropBom(ToUsv(s)))
  {
    Utf8EncodeBom(ToUsv(s));
  }

  /** The two base64 fields of an encryptToken result. */
  datatype EncryptedPayload = EncryptedPayload(encrypted: JsString, iv: JsString)

  /**
   * encryptToken, with the IV that getRandomValues draws given as `iv`. It
   * cannot fail: the master key always imports and `btoa` of a string built
   * from bytes never throws.
   */
  function EncryptToken(p: Platform, plainText: JsString, iv: seq<byte>): (r: Result<EncryptedPayload, DomException>)
    requires |iv| == IvLength
    ensures r.Success?
    ensures r.Success? ==> |r.value.iv| == 16
    ensures r.Success? ==> forall i :: 0 <= i < |r.value.iv| ==> InAlphabet(r.value.iv[i])
    ensures r.Success? && TagAppended(p) ==>
              |r.value.encrypted| == 4 * ((|TextEncode(plainText)| + TagLength + 2) / 3)
  {
    MasterKeyImport();
    BtoaFromCharCodes(iv);
    EncodeTwelveBytes(iv);
    match GetEncryptionKey(MasterKeyRaw)
    case Failure(e) => Failure(e)
    case Success(key) =>
      var encryptedBuffer := p.seal(key.keyBytes, iv, TextEncode(plainText));
      BtoaFromCharCodes(encryptedBuffer);
      match (Btoa(FromCharCodes(encryptedBuffer)), Btoa(FromCharCodes(iv)))
      case (Success(encrypted), Success(ivText)) => Success(EncryptedPayload(encrypted, ivText))
      case (Failure(e), _) => Failure(e)
      case (_, Failure(e)) => Failure(e)
  }

  /** The payload is the base64 of the ciphertext under the master key and the base64 of the IV. */
  lemma EncryptTokenFields(p: Platform, plainText: JsString, iv: seq<byte>)
    requires |iv| == IvLength
    ensures EncryptToken(p, plainText, iv) == Success(EncryptedPayload(
              Encode(p.seal(MasterKeyBytes, iv, TextEncode(plainText))), Encode(iv)))
  {
    MasterKeyImport();
    BtoaFromCharCodes(iv);
    BtoaFromCharCodes(p.seal(MasterKeyBytes, iv, TextEncode(plainText)));
  }

  /**
   * decryptToken: InvalidCharacterError when a field is not base64, OperationError when AES-GCM rejects the input.
   */
  function DecryptToken(p: Platform, encryptedBase64: JsString, ivBase64: JsString): (r: Result<JsString, DomException>)
    ensures r.Failure? ==> r.error != DataError
    ensures r.Failure? && r.error == InvalidCharacterError
            <==> Atob(ivBase64).Failure? || Atob(encryptedBase64).Failure?
  {
    MasterKeyImport();
    match GetEncryptionKey(MasterKeyRaw)
    case Failure(e) => Failure(e)
    case Success(key) =>
      var ivText :- Atob(ivBase64);
      var iv := ToUint8Array(CharCodes(ivText));
      var encryptedText :- Atob(encryptedBase64);
      var encryptedData := ToUint8Array(CharCodes(encryptedText));
      match p.open(key.keyBytes, iv, encryptedData)
      case None => Failure(OperationError)
      case Some(decrypted) => Success(TextDecode(p, decrypted))
  }

  /** Decoding the two fields of a payload yields exactly the bytes that were encoded. */
  lemma PayloadDecodes(p: Platform, plainText: JsString, iv: seq<byte>)
    requires |iv| == IvLength
    ensures var e := EncryptToken(p, plainText, iv).value;
      && Atob(e.iv).Success? && ToUint8Array(CharCodes(Atob(e.iv).value)) == iv
      && Atob(e.encrypted).Success?
      && ToUint8Array(CharCodes(Atob(e.encrypted).value))
         == p.seal(MasterKeyBytes, iv, TextEncode(plainText))
  {
    var sealed := p.seal(MasterKeyBytes, iv, TextEncode(plainText));
    EncryptTokenFields(p, plainText, iv);
    AtobEncode(iv);
    AtobEncode(sealed);
    BytesCharCodesRoundTrip(iv);
    BytesCharCodesRoundTrip(sealed);
  }

  /**
   * Decrypting what encryptToken produced returns the plaintext as a
   * USVString written back to UTF-16, less a leading U+FEFF that TextDecoder
   * takes for a byte order mark; so a well-formed plaintext that does not
   * start with U+FEFF comes back unchanged.
   */
  lemma DecryptEncrypt(p: Platform, plainText: JsString, iv: seq<byte>)
    requires AeadCorrect(p) && DecoderCorrect(p)
    requires |iv| == IvLength
    ensures var e := EncryptToken(p, plainText, iv).value;
      DecryptToken(p, e.encrypted, e.iv) == Success(ToUtf16(DropBom(ToUsv(plainText))))
    ensures var e := EncryptToken(p, plainText, iv).value;
      WellFormed(plainText) && (plainText == [] || plainText[0] != ByteOrderMark) ==>
      DecryptToken(p, e.encrypted, e.iv) == Success(plainText)
  {
    MasterKeyImport();
    PayloadDecodes(p, plainText, iv);
    TextDecodeEncode(p, plainText);
    if WellFormed(plainText) && (plainText == [] || plainText[0] != ByteOrderMark) {
      Utf16UsvRoundTrip(plainText);
      UsvStartsWithBom(plainText);
    }
  }

  /** The USVString of s starts with U+FEFF exactly when s does. */
  lemma UsvStartsWithBom(s: JsString)
    ensures |ToUsv(s)| > 0 && ToUsv(s)[0] as int == ByteOrderMark <==> |s| > 0 && s[0] == ByteOrderMark
  {
  }
}
