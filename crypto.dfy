/**
 * Content encryption (packages/caramel-sync-plugin/src/crypto.ts): the
 * salt | IV | ciphertext frame, the empty-key pass-through, the UTF-8 text
 * helpers and the byte <-> binary-string steps around base64.
 *
 * The WebCrypto primitives (PBKDF2 key derivation, AES-GCM sealing and
 * opening), the UTF-8 codec and `btoa`/`atob` are parameters; what the
 * model proves about them it proves under the stated inverse hypotheses.
 */
module Crypto {
  import opened Wrappers
  import opened Fs
  import opened Settings

  const SaltLength: nat := 16
  const IvLength: nat := 12
  const KeyLength: nat := 256
  const Iterations: nat := 100000

  /** PBKDF2-SHA-256 and AES-GCM, as the plug-in calls them. */
  datatype WebCrypto = WebCrypto(
    deriveKey: (string, Bytes) -> Bytes,              // (password, salt) -> key
    seal: (Bytes, Bytes, Bytes) -> Bytes,             // (key, iv, plaintext) -> ciphertext and tag
    open: (Bytes, Bytes, Bytes) -> Result<Bytes, Error>) // (key, iv, ciphertext) -> plaintext, or an
                                                      // authentication failure

  /** Opening what was sealed with the same key and IV gives the plaintext back. */
  ghost predicate OpensWhatItSeals(c: WebCrypto) {
    forall key, iv, pt :: c.open(key, iv, c.seal(key, iv, pt)) == Ok(pt)
  }

  // ----- the frame -----

  /** `result.set(salt, 0); result.set(iv, 16); result.set(ciphertext, 28)`. */
  function Frame(salt: Bytes, iv: Bytes, ciphertext: Bytes): Bytes {
    salt + iv + ciphertext
  }

  function Min(a: int, b: int): int {
    if a < b then a else b
  }

  /** `Uint8Array.prototype.slice(start, end)` for non-negative bounds: both are clamped to the length. */
  function Slice(s: Bytes, start: nat, end: nat): (r: Bytes)
    ensures |r| == if Min(end, |s|) < Min(start, |s|) then 0 else Min(end, |s|) - Min(start, |s|)
  {
    var a := Min(start, |s|);
    var b := Min(end, |s|);
    if b < a then [] else s[a..b]
  }

  /** `decryptBuffer`'s three slices: the salt, the IV and the rest. */
  function SplitFrame(data: Bytes): (Bytes, Bytes, Bytes) {
    (Slice(data, 0, SaltLength), Slice(data, SaltLength, SaltLength + IvLength),
     Slice(data, SaltLength + IvLength, |data|))
  }

  /** The slices of a frame are the salt, IV and ciphertext it was built from. */
  lemma SplitFrameOfFrame(salt: Bytes, iv: Bytes, ciphertext: Bytes)
    requires |salt| == SaltLength && |iv| == IvLength
    ensures SplitFrame(Frame(salt, iv, ciphertext)) == (salt, iv, ciphertext)
  {
    var d := Frame(salt, iv, ciphertext);
    assert Slice(d, 0, SaltLength) == d[0..16] == salt;
    assert Slice(d, SaltLength, SaltLength + IvLength) == d[16..28] == iv;
    assert Slice(d, SaltLength + IvLength, |d|) == d[28..] == ciphertext;
  }

  /**
   * The other direction holds for every buffer: gluing the three slices
   * back together gives the buffer, including one shorter than 28 bytes.
   */
  lemma FrameOfSplitFrame(data: Bytes)
    ensures var (s, i, c) := SplitFrame(data); Frame(s, i, c) == data
  {
    var (s, i, c) := SplitFrame(data);
    if |data| >= 28 {
      assert s == data[..16] && i == data[16..28] && c == data[28..];
      assert data == data[..16] + data[16..28] + data[28..];
    } else if |data| >= 16 {
      assert s == data[..16] && i == data[16..] && c == [];
      assert data == data[..16] + data[16..] + [];
    } else {
      assert s == data && i == [] && c == [];
      assert data == data + [] + [];
    }
  }

  /** A salt of another length is not recovered from a frame that is long enough to hold one. */
  lemma {:induction false} WrongSaltLength(salt: Bytes, iv: Bytes, ciphertext: Bytes)
    requires |salt| != SaltLength && |salt + iv + ciphertext| >= SaltLength
    ensures SplitFrame(Frame(salt, iv, ciphertext)).0 != salt
  {
    assert |SplitFrame(Frame(salt, iv, ciphertext)).0| == SaltLength;
  }

  // ----- encryptBuffer / decryptBuffer -----

  /** What `encryptBuffer(buffer, password)` returns for the random salt and IV it drew. */
  function SealedFrame(c: WebCrypto, buffer: Bytes, password: string, salt: Bytes, iv: Bytes): Bytes {
    Frame(salt, iv, c.seal(c.deriveKey(password, salt), iv, buffer))
  }

  /**
   * `encryptBuffer`: a result array of 16 + 12 + |ciphertext| bytes filled
   * by three `set` calls. The random salt and IV are the parameters `salt`
   * and `iv`, of the lengths `generateSalt` and `generateIV` draw.
   */
  method EncryptBuffer(c: WebCrypto, buffer: Bytes, password: string, salt: Bytes, iv: Bytes)
      returns (r: Bytes)
    requires |salt| == SaltLength && |iv| == IvLength
    ensures r == SealedFrame(c, buffer, password, salt, iv)
    ensures |r| == SaltLength + IvLength + |c.seal(c.deriveKey(password, salt), iv, buffer)|
  {
    var key := c.deriveKey(password, salt);
    var encrypted := c.seal(key, iv, buffer);
    var result := new byte[SaltLength + IvLength + |encrypted|](_ => 0);
    CopyInto(result, salt, 0);
    ghost var afterSalt := result[..];
    CopyInto(result, iv, SaltLength);
    ghost var head := result[..SaltLength + IvLength];
    assert head == salt + iv by {
      assert head[..SaltLength] == result[..SaltLength] == afterSalt[..SaltLength] == salt;
      assert head[SaltLength..] == result[SaltLength..SaltLength + IvLength] == iv;
      assert head == head[..SaltLength] + head[SaltLength..];
    }
    CopyInto(result, encrypted, SaltLength + IvLength);
    r := result[..];
    assert r == head + encrypted by {
      assert r[..SaltLength + IvLength] == head;
      assert r[SaltLength + IvLength..] == result[SaltLength + IvLength..SaltLength + IvLength + |encrypted|] == encrypted;
      assert r == r[..SaltLength + IvLength] + r[SaltLength + IvLength..];
    }
  }

  /** `target.set(source, offset)`: one byte at a time, leaving the rest of `target` alone. */
  method CopyInto(target: array<byte>, source: Bytes, offset: nat)
    requires offset + |source| <= target.Length
    modifies target
    ensures target[offset..offset + |source|] == source
    ensures target[..offset] == old(target[..offset])
    ensures target[offset + |source|..] == old(target[offset + |source|..])
  {
    var i := 0;
    while i < |source|
      invariant 0 <= i <= |source|
      invariant target[offset..offset + i] == source[..i]
      invariant target[..offset] == old(target[..offset])
      invariant target[offset + |source|..] == old(target[offset + |source|..])
    {
      target[offset + i] := source[i];
      i := i + 1;
    }
  }

  /** `decryptBuffer`: split the frame, derive the key from its salt and open the rest. */
  function DecryptBuffer(c: WebCrypto, data: Bytes, password: string): Result<Bytes, Error> {
    var (salt, iv, ciphertext) := SplitFrame(data);
    c.open(c.deriveKey(password, salt), iv, ciphertext)
  }

  /** With a cipher that opens what it seals, decryption undoes encryption for every password. */
  lemma DecryptBufferOfEncrypted(c: WebCrypto, buffer: Bytes, password: string, salt: Bytes, iv: Bytes)
    requires OpensWhatItSeals(c)
    requires |salt| == SaltLength && |iv| == IvLength
    ensures DecryptBuffer(c, SealedFrame(c, buffer, password, salt, iv), password) == Ok(buffer)
  {
    SplitFrameOfFrame(salt, iv, c.seal(c.deriveKey(password, salt), iv, buffer));
  }

  // ----- Crypto: the key gate -----

  /** `encrypt(data)` with key `password`: no key, no encryption. */
  function Encrypted(c: WebCrypto, password: string, data: Bytes, salt: Bytes, iv: Bytes): Bytes {
    if password == "" then data else SealedFrame(c, data, password, salt, iv)
  }

  /** `decrypt(data)` with key `password`. */
  function Decrypted(c: WebCrypto, password: string, data: Bytes): (r: Result<Bytes, Error>)
    ensures password == "" ==> r == Ok(data)
  {
    if password == "" then Ok(data) else DecryptBuffer(c, data, password)
  }

  /** The round trip through the key gate, with or without a key. */
  lemma DecryptedOfEncrypted(c: WebCrypto, password: string, data: Bytes, salt: Bytes, iv: Bytes)
    requires OpensWhatItSeals(c)
    requires |salt| == SaltLength && |iv| == IvLength
    ensures Decrypted(c, password, Encrypted(c, password, data, salt, iv)) == Ok(data)
  {
    if password != "" {
      DecryptBufferOfEncrypted(c, data, password, salt, iv);
    }
  }

  /** With a key the content is framed: it grows by exactly 28 bytes plus the cipher's expansion. */
  lemma EncryptedFrameLength(c: WebCrypto, password: string, data: Bytes, salt: Bytes, iv: Bytes)
    requires password != ""
    ensures var e := Encrypted(c, password, data, salt, iv);
      |e| == |salt| + |iv| + |c.seal(c.deriveKey(password, salt), iv, data)|
      && e[..|salt|] == salt
  {
  }

  /** `n` bytes of `crypto.getRandomValues`, read from position `from` of the random stream. */
  function RandomBytes(random: nat -> byte, from: nat, n: nat): (r: Bytes)
    ensures |r| == n
    ensures forall i :: 0 <= i < n ==> r[i] == random(from + i)
  {
    seq(n, i requires 0 <= i < n => random(from + i))
  }

  /**
   * The `Crypto` object: it reads the encryption key from the settings at
   * every call, so a key changed between two calls takes effect at once.
   * `random` is the stream `getRandomValues` draws from and `drawn` how much
   * of it has been used.
   */
  class CryptoBox {
    const settings: SettingsController
    const web: WebCrypto
    const random: nat -> byte
    var drawn: nat

    constructor (settings: SettingsController, web: WebCrypto, random: nat -> byte)
      ensures this.settings == settings && this.web == web && this.random == random && drawn == 0
    {
      this.settings := settings;
      this.web := web;
      this.random := random;
      drawn := 0;
    }

    function EncryptionKey(): string
      reads settings
    {
      settings.settings.encryptionKey
    }

    /**
     * `encrypt(data)`: without a key the data itself and nothing drawn;
     * with one, the frame sealed under a fresh 16-byte salt and 12-byte IV.
     */
    method Encrypt(data: Bytes) returns (r: Bytes)
      modifies this
      ensures r == Encrypted(web, EncryptionKey(), data,
        RandomBytes(random, old(drawn), SaltLength), RandomBytes(random, old(drawn) + SaltLength, IvLength))
      ensures drawn == old(drawn) + if EncryptionKey() == "" then 0 else SaltLength + IvLength
      ensures EncryptionKey() == "" ==> r == data
    {
      var password := settings.settings.encryptionKey;
      if password == "" {
        return data;
      }
      var salt := RandomBytes(random, drawn, SaltLength);
      var iv := RandomBytes(random, drawn + SaltLength, IvLength);
      drawn := drawn + SaltLength + IvLength;
      r := EncryptBuffer(web, data, password, salt, iv);
    }

    /** `decrypt(data)`: the identity without a key, and the frame opened with one. */
    function Decrypt(data: Bytes): (r: Result<Bytes, Error>)
      reads settings
      ensures EncryptionKey() == "" ==> r == Ok(data)
      ensures EncryptionKey() != "" ==> r == DecryptBuffer(web, data, EncryptionKey())
    {
      Decrypted(web, settings.settings.encryptionKey, data)
    }
  }

  // ----- text and base64 helpers -----

  /** `TextEncoder.encode` / `TextDecoder.decode` (UTF-8). */
  datatype TextCodec = TextCodec(encode: string -> Bytes, decode: Bytes -> string)

  /** `btoa` / `atob` (base64 of section 4 of RFC 4648 over binary strings). */
  datatype Base64Codec = Base64Codec(btoa: string -> string, atob: string -> string)

  /** A binary string: every character code is below 256. */
  predicate IsBinary(s: string) {
    forall i :: 0 <= i < |s| ==> (s[i] as int) < 256
  }

  /** `atob` undoes `btoa` on binary strings. */
  ghost predicate AtobInvertsBtoa(b: Base64Codec) {
    forall s :: IsBinary(s) ==> b.atob(b.btoa(s)) == s
  }

  /** One character per byte, with the byte as its code. */
  function Binary(bytes: Bytes): (s: string)
    ensures |s| == |bytes| && IsBinary(s)
  {
    seq(|bytes|, i requires 0 <= i < |bytes| => (bytes[i] as int) as char)
  }

  /** `bytes[i] = binary.charCodeAt(i)` into a `Uint8Array`, which keeps the code modulo 256. */
  function Unbinary(s: string): (bytes: Bytes)
    ensures |bytes| == |s|
  {
    seq(|s|, i requires 0 <= i < |s| => ((s[i] as int) % 256) as byte)
  }

  lemma UnbinaryOfBinary(bytes: Bytes)
    ensures Unbinary(Binary(bytes)) == bytes
  {
  }

  /** Going the other way is the identity exactly on binary strings. */
  lemma BinaryOfUnbinary(s: string)
    ensures Binary(Unbinary(s)) == s <==> IsBinary(s)
  {
    if IsBinary(s) {
      assert forall i :: 0 <= i < |s| ==> Binary(Unbinary(s))[i] == s[i];
    } else {
      var i :| 0 <= i < |s| && (s[i] as int) >= 256;
      assert Binary(Unbinary(s))[i] != s[i];
    }
  }

  /** `bufferToBase64`: build the binary string byte by byte, then `btoa` it. */
  method BufferToBase64(b: Base64Codec, buffer: Bytes) returns (r: string)
    ensures r == b.btoa(Binary(buffer))
  {
    var binary := "";
    var i := 0;
    while i < |buffer|
      invariant 0 <= i <= |buffer|
      invariant binary == Binary(buffer[..i])
    {
      binary := binary + [(buffer[i] as int) as char];
      i := i + 1;
    }
    assert buffer[..i] == buffer;
    r := b.btoa(binary);
  }

  /** `base64ToBuffer`: `atob`, then one byte per character. */
  method Base64ToBuffer(b: Base64Codec, base64: string) returns (r: Bytes)
    ensures r == Unbinary(b.atob(base64))
  {
    var binary := b.atob(base64);
    var bytes := new byte[|binary|](_ => 0);
    var i := 0;
    while i < |binary|
      invariant 0 <= i <= |binary|
      invariant bytes[..i] == Unbinary(binary[..i])
    {
      bytes[i] := ((binary[i] as int) % 256) as byte;
      i := i + 1;
    }
    assert binary[..i] == binary;
    r := bytes[..];
  }

  /** The base64 round trip, given that `atob` undoes `btoa`. */
  lemma Base64RoundTrip(b: Base64Codec, buffer: Bytes)
    requires AtobInvertsBtoa(b)
    ensures Unbinary(b.atob(b.btoa(Binary(buffer)))) == buffer
  {
    UnbinaryOfBinary(buffer);
  }

  /** `stringToBuffer` / `bufferToString`. */
  function StringToBuffer(t: TextCodec, s: string): Bytes {
    t.encode(s)
  }

  function BufferToString(t: TextCodec, buffer: Bytes): string {
    t.decode(buffer)
  }
}
