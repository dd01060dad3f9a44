/**
 * The envelope pipeline of `lib/crypto.ts`: bytes to and from a binary string, base64 on top of
 * it, AES-GCM encryption under a 12-byte IV, the generic decryption failure, key export and
 * import, and the `"<iv>:<ciphertext>"` wire format.
 *
 * `btoa`/`atob` (section 4 of RFC 4648), `TextEncoder`/`TextDecoder` (UTF-8), AES-GCM
 * (section 7 of NIST SP 800-38D) and raw key export/import are foreign. They are passed in as a
 * `Primitives` value; `Sound` is the contract the model assumes of them.
 */
module Crypto {
  import opened Wrappers
  import opened Text

  type Byte = b: int | 0 <= b < 256

  /** AES-GCM IV size chosen by `encryptContent`. */
  const IvLength := 12
  /** Size of the AES-GCM authentication tag appended to the ciphertext (128 bits). */
  const TagLength := 16
  const DecryptionFailure := "Failed to decrypt content. Invalid key or corrupted data."
  const MalformedEnvelope := "Invalid encrypted data format"

  /** The foreign primitives, over a key type `K` (Web Crypto's `CryptoKey`). */
  datatype Primitives<!K> = Primitives(
    btoa: string -> string,
    atob: string -> Option<string>,
    encodeText: string -> seq<Byte>,
    decodeText: seq<Byte> -> string,
    seal: (K, seq<Byte>, seq<Byte>) -> seq<Byte>,
    open: (K, seq<Byte>, seq<Byte>) -> Option<seq<Byte>>,
    exportRaw: K -> seq<Byte>,
    importRaw: seq<Byte> -> Option<K>)

  /** Every character code is below 256: what `btoa` accepts and `atob` produces. */
  predicate IsBinary(s: string) {
    forall i :: 0 <= i < |s| ==> (s[i] as int) < 256
  }

  /** The base64 alphabet of section 4 of RFC 4648, with the pad character. */
  predicate IsBase64Char(c: char) {
    ('A' <= c <= 'Z') || ('a' <= c <= 'z') || ('0' <= c <= '9') || c == '+' || c == '/' || c == '='
  }

  /** Output of `btoa`: four alphabet characters for every started group of three input bytes. */
  predicate IsBase64Of(b64: string, n: nat) {
    |b64| == 4 * ((n + 2) / 3) && forall i :: 0 <= i < |b64| ==> IsBase64Char(b64[i])
  }

  /** `atob` inverts `btoa` on binary strings, and `btoa` writes RFC 4648 base64 text. */
  ghost predicate Base64Sound<K>(p: Primitives<K>) {
    && (forall s :: IsBinary(s) ==> p.atob(p.btoa(s)) == Some(s))
    && (forall s :: IsBinary(s) ==> IsBase64Of(p.btoa(s), |s|))
  }

  /** U+FEFF, the byte order mark. */
  const ByteOrderMark := '\U{FEFF}'

  /** The text without one leading byte order mark. */
  function StripBom(t: string): string {
    if |t| > 0 && t[0] == ByteOrderMark then t[1..] else t
  }

  /**
   * UTF-8 decoding inverts UTF-8 encoding, except that `new TextDecoder()`, whose `ignoreBOM` is
   * false, drops a leading byte order mark.
   */
  ghost predicate TextSound<K>(p: Primitives<K>) {
    forall t :: p.decodeText(p.encodeText(t)) == StripBom(t)
  }

  /** AES-GCM appends a 16-byte tag and opens what it sealed under the same key and IV. */
  ghost predicate AeadSound<K(!new)>(p: Primitives<K>) {
    && (forall k, iv, m :: |p.seal(k, iv, m)| == |m| + TagLength)
    && (forall k, iv, m :: p.open(k, iv, p.seal(k, iv, m)) == Some(m))
  }

  /** A raw export imports back as the same key. */
  ghost predicate KeySound<K(!new)>(p: Primitives<K>) {
    forall k :: p.importRaw(p.exportRaw(k)) == Some(k)
  }

  lemma Base64Shape<K>(p: Primitives<K>, bytes: seq<Byte>)
    requires Base64Sound(p)
    ensures IsBase64Of(p.btoa(BinaryString(bytes)), |bytes|)
  {
  }

  /** The string `String.fromCharCode` builds from the bytes, one character per byte. */
  function BinaryString(bytes: seq<Byte>): (r: string)
    ensures |r| == |bytes| && IsBinary(r)
    ensures forall i :: 0 <= i < |bytes| ==> r[i] as int == bytes[i]
  {
    seq(|bytes|, i requires 0 <= i < |bytes| => bytes[i] as char)
  }

  /** The bytes a `Uint8Array` holds after `bytes[i] = s.charCodeAt(i)`: codes taken modulo 256. */
  function ByteCodes(s: string): (r: seq<Byte>)
    ensures |r| == |s|
  {
    seq(|s|, i requires 0 <= i < |s| => (s[i] as int) % 256)
  }

  /** Bytes to binary string and back is the identity. */
  lemma ByteCodesOfBinaryString(bytes: seq<Byte>)
    ensures ByteCodes(BinaryString(bytes)) == bytes
  {
  }

  /** Binary string to bytes and back is the identity on strings whose codes are below 256. */
  lemma BinaryStringOfByteCodes(s: string)
    requires IsBinary(s)
    ensures BinaryString(ByteCodes(s)) == s
  {
    var r := BinaryString(ByteCodes(s));
    forall i | 0 <= i < |s| ensures r[i] == s[i] {
      assert (r[i] as int) == (s[i] as int) % 256 == s[i] as int;
    }
  }

  /** `arrayBufferToBase64`: append one character per byte, then `btoa`. */
  method ArrayBufferToBase64<K>(p: Primitives<K>, bytes: seq<Byte>) returns (r: string)
    ensures r == p.btoa(BinaryString(bytes))
  {
    var binary := "";
    var i := 0;
    while i < |bytes|
      invariant 0 <= i <= |bytes|
      invariant binary == BinaryString(bytes[..i])
    {
      binary := binary + [bytes[i] as char];
      i := i + 1;
    }
    assert bytes[..i] == bytes;
    r := p.btoa(binary);
  }

  /** What `base64ToArrayBuffer` returns; `None` where `atob` throws. */
  function DecodeBase64<K>(p: Primitives<K>, b64: string): Option<seq<Byte>> {
    match p.atob(b64)
    case None => None
    case Some(binary) => Some(ByteCodes(binary))
  }

  /** `base64ToArrayBuffer`: `atob`, then fill a fresh `Uint8Array` one code at a time. */
  method Base64ToArrayBuffer<K>(p: Primitives<K>, b64: string) returns (r: Option<seq<Byte>>)
    ensures r == DecodeBase64(p, b64)
  {
    var decoded := p.atob(b64);
    if decoded.None? {
      return None;
    }
    var binary := decoded.value;
    var bytes := new Byte[|binary|];
    var i := 0;
    while i < |binary|
      invariant 0 <= i <= |binary|
      invariant forall k :: 0 <= k < i ==> bytes[k] == (binary[k] as int) % 256
    {
      bytes[i] := (binary[i] as int) % 256;
      i := i + 1;
    }
    assert bytes[..] == ByteCodes(binary);
    r := Some(bytes[..]);
  }

  /** Base64 text then decoding gives the bytes back. */
  lemma DecodeEncodedBase64<K>(p: Primitives<K>, bytes: seq<Byte>)
    requires Base64Sound(p)
    ensures DecodeBase64(p, p.btoa(BinaryString(bytes))) == Some(bytes)
  {
    ByteCodesOfBinaryString(bytes);
  }

  /** The two base64 fields `encryptContent` returns. */
  datatype EncryptedData = EncryptedData(encrypted: string, iv: string)

  /** The fields `encryptContent` produces from the content, the key and the 12 random IV bytes. */
  function Encrypted<K>(p: Primitives<K>, content: string, key: K, ivBytes: seq<Byte>): EncryptedData {
    EncryptedData(
      p.btoa(BinaryString(p.seal(key, ivBytes, p.encodeText(content)))),
      p.btoa(BinaryString(ivBytes)))
  }

  /** `encryptContent`; `ivBytes` is what `crypto.getRandomValues` wrote into the 12-byte IV. */
  method EncryptContent<K>(p: Primitives<K>, content: string, key: K, ivBytes: seq<Byte>)
    returns (r: EncryptedData)
    requires |ivBytes| == IvLength
    ensures r == Encrypted(p, content, key, ivBytes)
  {
    var encodedContent := p.encodeText(content);
    var encryptedBuffer := p.seal(key, ivBytes, encodedContent);
    var encrypted := ArrayBufferToBase64(p, encryptedBuffer);
    var iv := ArrayBufferToBase64(p, ivBytes);
    r := EncryptedData(encrypted, iv);
  }

  /**
   * What `decryptContent` returns: the decoded plaintext, or one fixed error when either field
   * is not base64 or authentication fails.
   */
  function Decrypted<K>(p: Primitives<K>, encrypted: string, iv: string, key: K): (r: Result<string, string>)
    ensures r.Err? ==> r.error == DecryptionFailure
    ensures r.Ok? <==>
      DecodeBase64(p, encrypted).Some? && DecodeBase64(p, iv).Some?
      && p.open(key, DecodeBase64(p, iv).value, DecodeBase64(p, encrypted).value).Some?
    ensures r.Ok? ==>
      r.value == p.decodeText(p.open(key, DecodeBase64(p, iv).value, DecodeBase64(p, encrypted).value).value)
  {
    match DecodeBase64(p, encrypted)
    case None => Err(DecryptionFailure)
    case Some(encryptedBuffer) =>
      match DecodeBase64(p, iv)
      case None => Err(DecryptionFailure)
      case Some(ivBuffer) =>
        match p.open(key, ivBuffer, encryptedBuffer)
        case None => Err(DecryptionFailure)
        case Some(decrypted) => Ok(p.decodeText(decrypted))
  }

  /** `decryptContent`: every failure inside the `try` becomes the same error. */
  method DecryptContent<K>(p: Primitives<K>, encrypted: string, iv: string, key: K)
    returns (r: Result<string, string>)
    ensures r == Decrypted(p, encrypted, iv, key)
  {
    var encryptedBuffer := Base64ToArrayBuffer(p, encrypted);
    if encryptedBuffer.None? {
      return Err(DecryptionFailure);
    }
    var ivBuffer := Base64ToArrayBuffer(p, iv);
    if ivBuffer.None? {
      return Err(DecryptionFailure);
    }
    var decrypted := p.open(key, ivBuffer.value, encryptedBuffer.value);
    if decrypted.None? {
      return Err(DecryptionFailure);
    }
    r := Ok(p.decodeText(decrypted.value));
  }

  /**
   * Decrypting with the key and IV of an encryption gives the content back, less a leading byte
   * order mark.
   */
  lemma DecryptEncrypted<K(!new)>(p: Primitives<K>, content: string, key: K, ivBytes: seq<Byte>)
    requires Base64Sound(p) && TextSound(p) && AeadSound(p)
    ensures Decrypted(p, Encrypted(p, content, key, ivBytes).encrypted, Encrypted(p, content, key, ivBytes).iv, key)
      == Ok(StripBom(content))
  {
    var sealed := p.seal(key, ivBytes, p.encodeText(content));
    DecodeEncodedBase64(p, sealed);
    DecodeEncodedBase64(p, ivBytes);
  }

  /** Content that does not start with a byte order mark comes back unchanged. */
  lemma BomFreeContentComesBack<K(!new)>(p: Primitives<K>, content: string, key: K, ivBytes: seq<Byte>)
    requires Base64Sound(p) && TextSound(p) && AeadSound(p)
    requires content == [] || content[0] != ByteOrderMark
    ensures Decrypted(p, Encrypted(p, content, key, ivBytes).encrypted, Encrypted(p, content, key, ivBytes).iv, key)
      == Ok(content)
  {
    DecryptEncrypted(p, content, key, ivBytes);
  }

  /** A paste that starts with a byte order mark loses it: `"\uFEFFhi"` decrypts to `"hi"`. */
  lemma LeadingBomIsLost<K(!new)>(p: Primitives<K>, key: K, ivBytes: seq<Byte>)
    requires Base64Sound(p) && TextSound(p) && AeadSound(p)
    ensures var e := Encrypted(p, "\U{FEFF}hi", key, ivBytes);
      Decrypted(p, e.encrypted, e.iv, key) == Ok("hi")
  {
    DecryptEncrypted(p, "\U{FEFF}hi", key, ivBytes);
    assert StripBom("\U{FEFF}hi") == "hi";
  }

  /** The IV field of every encryption is 16 base64 characters that decode to exactly 12 bytes. */
  lemma EncryptedIvIsTwelveBytes<K>(p: Primitives<K>, content: string, key: K, ivBytes: seq<Byte>)
    requires Base64Sound(p)
    requires |ivBytes| == IvLength
    ensures |Encrypted(p, content, key, ivBytes).iv| == 16
    ensures DecodeBase64(p, Encrypted(p, content, key, ivBytes).iv) == Some(ivBytes)
    ensures |DecodeBase64(p, Encrypted(p, content, key, ivBytes).iv).value| == IvLength
  {
    DecodeEncodedBase64(p, ivBytes);
    Base64Shape(p, ivBytes);
  }

  /** `exportKey`: the raw key bytes as base64. */
  method ExportKey<K>(p: Primitives<K>, key: K) returns (r: string)
    ensures r == p.btoa(BinaryString(p.exportRaw(key)))
  {
    r := ArrayBufferToBase64(p, p.exportRaw(key));
  }

  /** What `importKey` yields; `None` where it throws. */
  function ImportedKey<K>(p: Primitives<K>, keyString: string): Option<K> {
    match DecodeBase64(p, keyString)
    case None => None
    case Some(keyBuffer) => p.importRaw(keyBuffer)
  }

  /** `importKey`: decode the base64 text, then import the raw bytes. */
  method ImportKey<K>(p: Primitives<K>, keyString: string) returns (r: Option<K>)
    ensures r == ImportedKey(p, keyString)
  {
    var keyBuffer := Base64ToArrayBuffer(p, keyString);
    if keyBuffer.None? {
      return None;
    }
    r := p.importRaw(keyBuffer.value);
  }

  /** A key exported into a URL fragment imports back as the same key. */
  lemma ImportExportedKey<K(!new)>(p: Primitives<K>, key: K)
    requires Base64Sound(p) && KeySound(p)
    ensures ImportedKey(p, p.btoa(BinaryString(p.exportRaw(key)))) == Some(key)
  {
    DecodeEncodedBase64(p, p.exportRaw(key));
  }

  /** `combineEncryptedData(encrypted, iv)`: the IV comes first, although it is the second argument. */
  function CombineEncryptedData(encrypted: string, iv: string): (r: string)
    ensures |r| == |iv| + 1 + |encrypted|
    ensures StartsWith(r, iv + [':']) && EndsWith(r, encrypted)
  {
    iv + [':'] + encrypted
  }

  /**
   * `splitEncryptedData`: the first two `':'`-separated fields are the IV and the ciphertext;
   * any further fields are ignored.
   */
  function SplitEncryptedData(combined: string): (r: Result<EncryptedData, string>)
    ensures r.Err? ==> r.error == MalformedEnvelope
    ensures r.Ok? ==> r.value.iv != "" && r.value.encrypted != ""
    ensures r.Ok? ==> ':' !in r.value.iv && ':' !in r.value.encrypted
    ensures r.Ok? ==> StartsWith(combined, r.value.iv + [':'] + r.value.encrypted)
  {
    var fields := Split(combined, ':');
    if |fields| < 2 || fields[0] == "" || fields[1] == "" then Err(MalformedEnvelope)
    else
      JoinFirstTwo(combined, fields);
      Ok(EncryptedData(fields[1], fields[0]))
  }

  /** A string with two or more fields begins with its first two fields around the separator. */
  lemma JoinFirstTwo(combined: string, fields: seq<string>)
    requires fields == Split(combined, ':') && |fields| >= 2
    ensures StartsWith(combined, fields[0] + [':'] + fields[1])
  {
    JoinSplit(combined, ':');
    var head := fields[0] + [':'] + fields[1];
    if |fields| > 2 {
      assert Join(fields[1..], ':') == fields[1] + [':'] + Join(fields[2..], ':');
      assert combined == head + [':'] + Join(fields[2..], ':');
    }
    assert combined[..|head|] == head;
  }

  /** Splitting a combined envelope gives back both fields. */
  lemma SplitCombined(encrypted: string, iv: string)
    requires encrypted != "" && iv != ""
    requires ':' !in encrypted && ':' !in iv
    ensures SplitEncryptedData(CombineEncryptedData(encrypted, iv)) == Ok(EncryptedData(encrypted, iv))
  {
    SplitAtSeparator(iv, ':', encrypted);
    SplitNoSeparator(encrypted, ':');
  }

  /** Without a separator there is no envelope. */
  lemma SplitWithoutSeparator(combined: string)
    requires ':' !in combined
    ensures SplitEncryptedData(combined) == Err(MalformedEnvelope)
  {
    SplitNoSeparator(combined, ':');
  }

  /** With exactly one separator, both sides must be non-empty. */
  lemma SplitOneSeparator(iv: string, encrypted: string)
    requires ':' !in iv && ':' !in encrypted
    ensures SplitEncryptedData(iv + [':'] + encrypted) ==
      if iv == "" || encrypted == "" then Err(MalformedEnvelope) else Ok(EncryptedData(encrypted, iv))
  {
    SplitAtSeparator(iv, ':', encrypted);
    SplitNoSeparator(encrypted, ':');
  }

  /** With two or more separators, the first two fields decide and the rest is dropped. */
  lemma SplitDropsRest(iv: string, encrypted: string, rest: string)
    requires ':' !in iv && ':' !in encrypted
    ensures SplitEncryptedData(iv + [':'] + encrypted + [':'] + rest) ==
      if iv == "" || encrypted == "" then Err(MalformedEnvelope) else Ok(EncryptedData(encrypted, iv))
  {
    assert iv + [':'] + encrypted + [':'] + rest == iv + [':'] + (encrypted + [':'] + rest);
    SplitAtSeparator(iv, ':', encrypted + [':'] + rest);
    SplitAtSeparator(encrypted, ':', rest);
  }

  /** Base64 text of a non-empty byte string is non-empty and holds no separator. */
  lemma Base64FieldIsWellFormed<K>(p: Primitives<K>, bytes: seq<Byte>)
    requires Base64Sound(p) && |bytes| > 0
    ensures p.btoa(BinaryString(bytes)) != "" && ':' !in p.btoa(BinaryString(bytes))
  {
    var b64 := p.btoa(BinaryString(bytes));
    Base64Shape(p, bytes);
    assert (|bytes| + 2) / 3 >= 1;
  }

  /**
   * The whole read path on a stored envelope: encrypt, combine, split and decrypt under the
   * same key gives the content back, less a leading byte order mark.
   */
  lemma EnvelopeRoundTrip<K(!new)>(p: Primitives<K>, content: string, key: K, ivBytes: seq<Byte>)
    requires Base64Sound(p) && TextSound(p) && AeadSound(p)
    requires |ivBytes| == IvLength
    ensures
      var e := Encrypted(p, content, key, ivBytes);
      && SplitEncryptedData(CombineEncryptedData(e.encrypted, e.iv)) == Ok(e)
      && Decrypted(p, e.encrypted, e.iv, key) == Ok(StripBom(content))
  {
    var e := Encrypted(p, content, key, ivBytes);
    var sealed := p.seal(key, ivBytes, p.encodeText(content));
    assert |sealed| == |p.encodeText(content)| + TagLength;
    Base64FieldIsWellFormed(p, sealed);
    Base64FieldIsWellFormed(p, ivBytes);
    SplitCombined(e.encrypted, e.iv);
    DecryptEncrypted(p, content, key, ivBytes);
  }
}
