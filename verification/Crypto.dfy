/**
 Envelope encryption of one field: an encrypt-then-MAC stream cipher built on HMAC,
 a data key wrapped under the key-encryption key, and the stored text that carries
 both. HMAC is a parameter; random data keys and nonces are arguments.
 */
module Crypto {
  import opened Prelude
  import opened CanonicalJson
  import opened Utf8
  import Base64

  const NONCE_LEN := 16
  const TAG_LEN := 32
  const VERSION := 1
  /** "kms1:" */
  const PREFIX: Text := [107, 109, 115, 49, 58]

  type Bytes = seq<byte>
  type Block = b: Bytes | |b| == 32 witness seq(32, _ => 0)
  type Nonce = b: Bytes | |b| == 16 witness seq(16, _ => 0)
  type Hmac = (Bytes, Bytes) -> Block

  datatype Failure =
    | CiphertextTooShort
    | AuthenticationFailed
    | UnknownVersion
    | BadBase64
    | BadHeader
    | BadUtf8
    | NotEncodable

  // ---- the stream cipher ----------------------------------------------------------

  function Pow2(n: nat): nat { if n == 0 then 1 else 2 * Pow2(n - 1) }

  /** Exclusive or of the n low bits, bit by bit. */
  function XorBits(a: nat, b: nat, n: nat): (r: nat)
    ensures r < Pow2(n)
  {
    if n == 0 then 0
    else 2 * XorBits(a / 2, b / 2, n - 1) + (if a % 2 == b % 2 then 0 else 1)
  }

  lemma {:induction false} XorBitsTwice(a: nat, b: nat, n: nat)
    requires a < Pow2(n)
    ensures XorBits(XorBits(a, b, n), b, n) == a
  {
    if n > 0 {
      XorBitsTwice(a / 2, b / 2, n - 1);
      var x := XorBits(a, b, n);
      assert x / 2 == XorBits(a / 2, b / 2, n - 1);
    }
  }

  function Bit(x: nat, i: nat): nat { if i == 0 then x % 2 else Bit(x / 2, i - 1) }

  /** Each bit of the result says whether the two bits differ. */
  lemma {:induction false} XorBitsBitwise(a: nat, b: nat, n: nat, i: nat)
    requires i < n
    ensures Bit(XorBits(a, b, n), i) == 1 <==> Bit(a, i) != Bit(b, i)
  {
    var x := XorBits(a, b, n);
    assert x / 2 == XorBits(a / 2, b / 2, n - 1);
    if i > 0 { XorBitsBitwise(a / 2, b / 2, n - 1, i - 1); }
  }

  lemma EightBits()
    ensures Pow2(8) == 256
  {
    assert Pow2(4) == 16;
    assert Pow2(6) == 64;
  }

  function Xor(a: byte, b: byte): byte {
    EightBits();
    XorBits(a, b, 8)
  }

  lemma XorTwice(a: byte, b: byte)
    ensures Xor(Xor(a, b), b) == a
  {
    EightBits();
    XorBitsTwice(a, b, 8);
  }

  /** n as `width` bytes, most significant first. */
  function BigEndian(n: nat, width: nat): (r: Bytes)
    ensures |r| == width
  {
    if width == 0 then [] else BigEndian(n / 256, width - 1) + [n % 256]
  }

  /** "moeys-pii-enc" and "moeys-pii-mac" */
  const ENC_LABEL: Bytes := [109, 111, 101, 121, 115, 45, 112, 105, 105, 45, 101, 110, 99]
  const MAC_LABEL: Bytes := [109, 111, 101, 121, 115, 45, 112, 105, 105, 45, 109, 97, 99]

  /** Byte i of the key stream comes from block i / 32, keyed by the nonce and the block counter. */
  function KeystreamByte(hmac: Hmac, key: Bytes, nonce: Bytes, i: nat): byte {
    hmac(key, nonce + BigEndian(i / 32, 8))[i % 32]
  }

  function Keystream(hmac: Hmac, key: Bytes, nonce: Bytes, length: nat): (r: Bytes)
    ensures |r| == length
  {
    seq(length, i requires 0 <= i => KeystreamByte(hmac, key, nonce, i))
  }

  /** The counter-mode loop. */
  method MakeKeystream(hmac: Hmac, key: Bytes, nonce: Bytes, length: nat) returns (r: Bytes)
    ensures r == Keystream(hmac, key, nonce, length)
  {
    hide BigEndian;
    var out: Bytes := [];
    var counter := 0;
    while |out| < length
      invariant |out| == 32 * counter
      invariant forall i | 0 <= i < |out| :: out[i] == KeystreamByte(hmac, key, nonce, i)
    {
      var block := hmac(key, nonce + BigEndian(counter, 8));
      forall i | |out| <= i < |out| + 32 ensures (out + block)[i] == KeystreamByte(hmac, key, nonce, i) {
        assert i / 32 == counter && i % 32 == i - 32 * counter;
      }
      out := out + block;
      counter := counter + 1;
    }
    return out[..length];
  }

  function XorAll(a: Bytes, b: Bytes): (r: Bytes)
    requires |a| == |b|
    ensures |r| == |a|
  {
    seq(|a|, i requires 0 <= i < |a| => Xor(a[i], b[i]))
  }

  lemma XorAllTwice(a: Bytes, b: Bytes)
    requires |a| == |b|
    ensures XorAll(XorAll(a, b), b) == a
  {
    forall i | 0 <= i < |a| ensures XorAll(XorAll(a, b), b)[i] == a[i] {
      XorTwice(a[i], b[i]);
    }
  }

  function Mask(hmac: Hmac, key: Bytes, nonce: Bytes, text: Bytes): (r: Bytes)
    ensures |r| == |text|
  {
    XorAll(text, Keystream(hmac, hmac(key, ENC_LABEL), nonce, |text|))
  }

  function Tag(hmac: Hmac, key: Bytes, nonce: Bytes, ct: Bytes): Block {
    hmac(hmac(key, MAC_LABEL), nonce + ct)
  }

  function AeadEncrypt(hmac: Hmac, key: Bytes, plaintext: Bytes, nonce: Nonce): (r: Bytes)
    ensures |r| == NONCE_LEN + |plaintext| + TAG_LEN
  {
    var ct := Mask(hmac, key, nonce, plaintext);
    nonce + ct + Tag(hmac, key, nonce, ct)
  }

  function AeadDecrypt(hmac: Hmac, key: Bytes, blob: Bytes): (r: Result<Bytes, Failure>)
    ensures r.Ok? ==> |blob| == NONCE_LEN + |r.value| + TAG_LEN
  {
    if |blob| < NONCE_LEN + TAG_LEN then Err(CiphertextTooShort)
    else
      var nonce, ct, tag := blob[..NONCE_LEN], blob[NONCE_LEN..|blob| - TAG_LEN], blob[|blob| - TAG_LEN..];
      if Tag(hmac, key, nonce, ct) != tag then Err(AuthenticationFailed)
      else Ok(Mask(hmac, key, nonce, ct))
  }

  lemma MaskTwice(hmac: Hmac, key: Bytes, nonce: Bytes, text: Bytes)
    ensures Mask(hmac, key, nonce, Mask(hmac, key, nonce, text)) == text
  {
    hide KeystreamByte, Xor;
    XorAllTwice(text, Keystream(hmac, hmac(key, ENC_LABEL), nonce, |text|));
  }

  /** The two halves of the cipher are exact inverses: what decrypts is what encryption produces. */
  lemma AeadInverse(hmac: Hmac, key: Bytes, blob: Bytes, plaintext: Bytes)
    ensures AeadDecrypt(hmac, key, blob) == Ok(plaintext)
       <==> |blob| >= NONCE_LEN && blob == AeadEncrypt(hmac, key, plaintext, blob[..NONCE_LEN])
  {
    hide Mask, Tag;
    if AeadDecrypt(hmac, key, blob) == Ok(plaintext) {
      var nonce, ct, tag := blob[..NONCE_LEN], blob[NONCE_LEN..|blob| - TAG_LEN], blob[|blob| - TAG_LEN..];
      MaskTwice(hmac, key, nonce, ct);
      assert blob == nonce + ct + tag;
    }
    if |blob| >= NONCE_LEN && blob == AeadEncrypt(hmac, key, plaintext, blob[..NONCE_LEN]) {
      var nonce := blob[..NONCE_LEN];
      var ct := Mask(hmac, key, nonce, plaintext);
      assert blob == nonce + ct + Tag(hmac, key, nonce, ct);
      assert blob[NONCE_LEN..|blob| - TAG_LEN] == ct;
      assert blob[|blob| - TAG_LEN..] == Tag(hmac, key, nonce, ct);
      MaskTwice(hmac, key, nonce, plaintext);
    }
  }

  // ---- the envelope ------------------------------------------------------------------

  predicate IsEncrypted(stored: Text) { PREFIX <= stored }

  /** Version byte, two-byte length, wrapped key, ciphertext. */
  function Envelope(wrapped: Bytes, ct: Bytes): Bytes {
    [VERSION] + BigEndian(|wrapped|, 2) + wrapped + ct
  }

  /** `PiiCipher.encrypt` with the local key service. */
  function Encrypt(
      hmac: Hmac, kek: Bytes, plaintext: Text, dek: Block, nonce: Nonce, wrapNonce: Nonce): (r: Result<Text, Failure>)
    ensures r.Ok? <==> Scalar(plaintext)
    ensures r.Ok? ==> IsEncrypted(r.value)
  {
    match Utf8.Encode(plaintext)
    case None => Err(NotEncodable)
    case Some(bytes) =>
      var ct := AeadEncrypt(hmac, dek, bytes, nonce);
      var wrapped := AeadEncrypt(hmac, kek, dek, wrapNonce);
      Ok(PREFIX + Base64.Encode(Envelope(wrapped, ct)))
  }

  /** The declared length of the wrapped key. */
  function WrappedLength(hi: byte, lo: byte): nat { (hi as int) * 256 + lo }

  /** The envelope's parts, sliced as Python slices: past the end there is nothing. */
  function OpenEnvelope(hmac: Hmac, kek: Bytes, body: Bytes): (r: Result<Bytes, Failure>)
    ensures r.Ok? ==> |r.value| <= |body|
  {
    if |body| < 3 then Err(BadHeader)
    else if body[0] != VERSION then Err(UnknownVersion)
    else
      var end := Min(3 + WrappedLength(body[1], body[2]), |body|);
      match AeadDecrypt(hmac, kek, body[3..end])
      case Err(e) => Err(e)
      case Ok(dek) => AeadDecrypt(hmac, dek, body[end..])
  }

  /** `PiiCipher.decrypt`; text without the marker is legacy plaintext. */
  function Decrypt(hmac: Hmac, kek: Bytes, stored: Text): (r: Result<Text, Failure>)
    ensures IsEncrypted(stored) && r.Ok? ==> |r.value| < |stored|
  {
    if !IsEncrypted(stored) then Ok(stored)
    else
      match Base64.Decode(stored[|PREFIX|..])
      case None => Err(BadBase64)
      case Some(body) =>
        match OpenEnvelope(hmac, kek, body)
        case Err(e) => Err(e)
        case Ok(bytes) =>
          match Utf8.Decode(bytes)
          case None => Err(BadUtf8)
          case Some(text) => Ok(text)
  }

  lemma OpenOfEnvelope(hmac: Hmac, kek: Bytes, dek: Block, bytes: Bytes, nonce: Nonce, wrapNonce: Nonce)
    ensures var wrapped := AeadEncrypt(hmac, kek, dek, wrapNonce);
            var ct := AeadEncrypt(hmac, dek, bytes, nonce);
            OpenEnvelope(hmac, kek, Envelope(wrapped, ct)) == Ok(bytes)
  {
    var wrapped := AeadEncrypt(hmac, kek, dek, wrapNonce);
    var ct := AeadEncrypt(hmac, dek, bytes, nonce);
    assert wrapped[..NONCE_LEN] == wrapNonce && ct[..NONCE_LEN] == nonce;
    AeadInverse(hmac, kek, wrapped, dek);
    AeadInverse(hmac, dek, ct, bytes);
    hide AeadEncrypt, AeadDecrypt;
    var body := Envelope(wrapped, ct);
    assert BigEndian(80, 2) == [0, 80] by {
      assert BigEndian(0, 1) == [] + [0] && BigEndian(80, 2) == BigEndian(0, 1) + [80];
    }
    assert body == [VERSION, 0, 80] + wrapped + ct;
    assert body[3..83] == wrapped && body[83..] == ct;
  }

  /** Every string the database can hold comes back from its encryption. */
  lemma DecryptEncrypt(hmac: Hmac, kek: Bytes, text: Text, dek: Block, nonce: Nonce, wrapNonce: Nonce)
    requires Scalar(text)
    ensures Decrypt(hmac, kek, Encrypt(hmac, kek, text, dek, nonce, wrapNonce).value) == Ok(text)
  {
    hide OpenEnvelope, AeadEncrypt, Envelope, Base64.Encode, Base64.Decode;
    var bytes := Utf8.Encode(text).value;
    var body := Envelope(AeadEncrypt(hmac, kek, dek, wrapNonce), AeadEncrypt(hmac, dek, bytes, nonce));
    OpenOfEnvelope(hmac, kek, dek, bytes, nonce, wrapNonce);
    Base64.DecodeEncode(body);
    assert (PREFIX + Base64.Encode(body))[|PREFIX|..] == Base64.Encode(body);
    Utf8.DecodeEncode(text);
  }

  /** What decrypts was put together from these parts: no byte of an accepted envelope is arbitrary. */
  ghost predicate Assembled(
      hmac: Hmac, kek: Bytes, body: Bytes, text: Text, dek: Bytes, nonce: Nonce, wrapNonce: Nonce)
  {
    Scalar(text) &&
    body == Envelope(AeadEncrypt(hmac, kek, dek, wrapNonce), AeadEncrypt(hmac, dek, Utf8.Encode(text).value, nonce))
  }

  lemma TwoBytes(n: nat, hi: byte, lo: byte)
    requires n == WrappedLength(hi, lo)
    ensures BigEndian(n, 2) == [hi, lo]
  {
    assert n / 256 == hi && n % 256 == lo;
    assert BigEndian(hi, 1) == BigEndian(hi / 256, 0) + [hi];
  }

  lemma DecryptAcceptsOnlyEnvelopes(hmac: Hmac, kek: Bytes, stored: Text, text: Text)
    requires IsEncrypted(stored) && Decrypt(hmac, kek, stored) == Ok(text)
    ensures exists body, dek, nonce, wrapNonce ::
              Base64.Decode(stored[|PREFIX|..]) == Some(body) && Assembled(hmac, kek, body, text, dek, nonce, wrapNonce)
  {
    hide AeadEncrypt, AeadDecrypt, Base64.Decode, Utf8.Decode;
    var body := Base64.Decode(stored[|PREFIX|..]).value;
    var end := Min(3 + WrappedLength(body[1], body[2]), |body|);
    var wrapped, ct := body[3..end], body[end..];
    var dek := AeadDecrypt(hmac, kek, wrapped).value;
    var bytes := AeadDecrypt(hmac, dek, ct).value;
    AeadInverse(hmac, kek, wrapped, dek);
    AeadInverse(hmac, dek, ct, bytes);
    Utf8.EncodeDecode(bytes);
    assert |ct| >= NONCE_LEN;
    assert |wrapped| == WrappedLength(body[1], body[2]);
    TwoBytes(|wrapped|, body[1], body[2]);
    assert body == Envelope(wrapped, ct);
    assert Assembled(hmac, kek, body, text, dek, ct[..NONCE_LEN], wrapped[..NONCE_LEN]);
  }

  /** The stored length depends only on the number of plaintext bytes. */
  lemma StoredLength(hmac: Hmac, kek: Bytes, text: Text, dek: Block, nonce: Nonce, wrapNonce: Nonce)
    requires Scalar(text)
    ensures |Encrypt(hmac, kek, text, dek, nonce, wrapNonce).value|
            == 5 + 4 * CeilDiv(131 + |Utf8.Encode(text).value|, 3)
  {
    hide AeadEncrypt, Base64.Encode, Utf8.Encode;
  }

  /** A 255-character column holds exactly the plaintexts of at most 55 bytes. */
  lemma FitsColumnIff(hmac: Hmac, kek: Bytes, text: Text, dek: Block, nonce: Nonce, wrapNonce: Nonce)
    requires Scalar(text)
    ensures |Encrypt(hmac, kek, text, dek, nonce, wrapNonce).value| <= 255 <==> |Utf8.Encode(text).value| <= 55
  {
    hide Encrypt, Utf8.Encode;
    StoredLength(hmac, kek, text, dek, nonce, wrapNonce);
  }

  // ---- what an accepted blob is, bit by bit ----------------------------------------------

  lemma {:induction false} BitsDetermine(a: nat, b: nat, n: nat)
    requires a < Pow2(n) && b < Pow2(n) && forall i: nat | i < n :: Bit(a, i) == Bit(b, i)
    ensures a == b
  {
    if n > 0 {
      assert Bit(a, 0) == Bit(b, 0);
      forall i: nat | i < n - 1 ensures Bit(a / 2, i) == Bit(b / 2, i) { assert Bit(a, i + 1) == Bit(b, i + 1); }
      BitsDetermine(a / 2, b / 2, n - 1);
    }
  }

  lemma BitIsBit(x: nat, i: nat)
    ensures Bit(x, i) < 2
  {}

  /** The byte that was masked to c by the key stream byte k. */
  ghost predicate Unmasks(c: byte, k: byte, p: byte) {
    forall i: nat | i < 8 :: Bit(c, i) == 1 <==> Bit(p, i) != Bit(k, i)
  }

  lemma UnmasksIff(c: byte, k: byte, p: byte)
    ensures Unmasks(c, k, p) <==> p == Xor(c, k)
  {
    hide XorBits, Bit;
    EightBits();
    var x := Xor(c, k);
    forall i: nat | i < 8 ensures Bit(x, i) == 1 <==> Bit(c, i) != Bit(k, i) { XorBitsBitwise(c, k, 8, i); }
    forall i: nat | i < 8 ensures Bit(x, i) < 2 && Bit(c, i) < 2 && Bit(k, i) < 2 && Bit(p, i) < 2 {
      BitIsBit(x, i); BitIsBit(c, i); BitIsBit(k, i); BitIsBit(p, i);
    }
    if Unmasks(c, k, p) {
      forall i: nat | i < 8 ensures Bit(x, i) == Bit(p, i) {
        assert Bit(c, i) == 1 <==> Bit(p, i) != Bit(k, i);
      }
      BitsDetermine(x, p, 8);
    }
  }

  /**
   A blob opens to p exactly when its last 32 bytes are the HMAC of all the others under the MAC
   subkey, and each byte between nonce and tag is p's byte with the bits flipped that are set in its
   place of the HMAC blocks of nonce and block number under the encryption subkey.
   */
  lemma OpensIff(hmac: Hmac, key: Bytes, blob: Bytes, p: Bytes)
    ensures AeadDecrypt(hmac, key, blob) == Ok(p) <==>
            && |blob| == 16 + |p| + 32
            && blob[|blob| - 32..] == hmac(hmac(key, MAC_LABEL), blob[..|blob| - 32])
            && forall i | 0 <= i < |p| ::
                 Unmasks(blob[16 + i], hmac(hmac(key, ENC_LABEL), blob[..16] + BigEndian(i / 32, 8))[i % 32], p[i])
  {
    hide Unmasks, Xor, BigEndian;
    if |blob| >= 48 {
      var nonce, ct := blob[..16], blob[16..|blob| - 32];
      assert nonce + ct == blob[..|blob| - 32];
      forall i | 0 <= i < |ct| && i < |p|
        ensures Unmasks(blob[16 + i], hmac(hmac(key, ENC_LABEL), nonce + BigEndian(i / 32, 8))[i % 32], p[i])
           <==> p[i] == Mask(hmac, key, nonce, ct)[i]
      {
        UnmasksIff(blob[16 + i], hmac(hmac(key, ENC_LABEL), nonce + BigEndian(i / 32, 8))[i % 32], p[i]);
      }
      if |blob| == 16 + |p| + 32 {
        assert Mask(hmac, key, nonce, ct) == p <==> forall i | 0 <= i < |p| :: p[i] == Mask(hmac, key, nonce, ct)[i];
      }
    }
  }

  /** The counter really is the number, most significant byte first. */
  lemma {:induction false} BigEndianIs(n: nat, width: nat)
    requires n < Pow256(width)
    ensures Value256(BigEndian(n, width)) == n
  {
    if width > 0 {
      BigEndianIs(n / 256, width - 1);
      assert BigEndian(n, width)[..width - 1] == BigEndian(n / 256, width - 1);
    }
  }

  function Pow256(n: nat): (r: nat)
    ensures r > 0
  {
    if n == 0 then 1 else Pow256(n - 1) * 256
  }

  function Value256(b: Bytes): nat { if b == [] then 0 else Value256(b[..|b| - 1]) * 256 + b[|b| - 1] }

  /** Block i of the key stream. */
  function KeystreamBlock(hmac: Hmac, key: Bytes, nonce: Bytes, length: nat, i: nat): Bytes
    requires 32 * (i + 1) <= length
  {
    Keystream(hmac, key, nonce, length)[32 * i..32 * (i + 1)]
  }

  /** Two blocks of key stream are the same only where HMAC collides on two different messages. */
  lemma EqualBlocksCollide(hmac: Hmac, key: Bytes, n1: Nonce, n2: Nonce, i: nat, j: nat, length: nat)
    requires 32 * (i + 1) <= length && 32 * (j + 1) <= length && i < Pow256(8) && j < Pow256(8) && (n1, i) != (n2, j)
    requires KeystreamBlock(hmac, key, n1, length, i) == KeystreamBlock(hmac, key, n2, length, j)
    ensures HmacCollides(hmac, key, n1 + BigEndian(i, 8), n2 + BigEndian(j, 8))
  {
    hide BigEndian, Pow256, KeystreamBlock;
    BigEndianIs(i, 8);
    BigEndianIs(j, 8);
    BlockIsHmac(hmac, key, n1, length, i);
    BlockIsHmac(hmac, key, n2, length, j);
    var x, y := n1 + BigEndian(i, 8), n2 + BigEndian(j, 8);
    assert x[..16] == n1 && y[..16] == n2 && x[16..] == BigEndian(i, 8) && y[16..] == BigEndian(j, 8);
  }

  lemma BlockIsHmac(hmac: Hmac, key: Bytes, nonce: Bytes, length: nat, i: nat)
    requires 32 * (i + 1) <= length
    ensures KeystreamBlock(hmac, key, nonce, length, i) == hmac(key, nonce + BigEndian(i, 8))
  {
    hide BigEndian;
    var block := KeystreamBlock(hmac, key, nonce, length, i);
    forall k | 0 <= k < 32 ensures block[k] == hmac(key, nonce + BigEndian(i, 8))[k] {
      assert (32 * i + k) / 32 == i && (32 * i + k) % 32 == k;
    }
  }

  // ---- tampering --------------------------------------------------------------------------

  /** Two different messages with one HMAC under one key. */
  ghost predicate HmacCollides(hmac: Hmac, key: Bytes, x: Bytes, y: Bytes) { x != y && hmac(key, x) == hmac(key, y) }

  /** All of a blob but its last 32 bytes. */
  function Signed(blob: Bytes): Bytes { if |blob| < 32 then [] else blob[..|blob| - 32] }

  /**
   Two blobs accepted under one key with the same last 32 bytes are the same, or HMAC collides on what comes before
   them.
   */
  lemma SameTagSameBlob(hmac: Hmac, key: Bytes, a: Bytes, b: Bytes)
    requires AeadDecrypt(hmac, key, a).Ok? && AeadDecrypt(hmac, key, b).Ok?
    requires a[|a| - 32..] == b[|b| - 32..]
    ensures a == b || HmacCollides(hmac, hmac(key, MAC_LABEL), Signed(a), Signed(b))
  {
    OpensIff(hmac, key, a, AeadDecrypt(hmac, key, a).value);
    OpensIff(hmac, key, b, AeadDecrypt(hmac, key, b).value);
    assert a == Signed(a) + a[|a| - 32..] && b == Signed(b) + b[|b| - 32..];
  }

  /** A blob changed in its nonce or ciphertext only, its tag left as it was. */
  lemma TamperedRefused(hmac: Hmac, key: Bytes, a: Bytes, b: Bytes)
    requires AeadDecrypt(hmac, key, a).Ok? && a != b && |b| == |a| && a[|a| - 32..] == b[|b| - 32..]
    ensures AeadDecrypt(hmac, key, b).Err? || HmacCollides(hmac, hmac(key, MAC_LABEL), Signed(a), Signed(b))
  {
    if AeadDecrypt(hmac, key, b).Ok? { SameTagSameBlob(hmac, key, a, b); }
  }

  /** The wrapped key and the ciphertext of an envelope body. */
  function Wrapped(body: Bytes): Bytes
    requires |body| >= 3
  {
    body[3..Min(3 + WrappedLength(body[1], body[2]), |body|)]
  }

  function Sealed(body: Bytes): Bytes
    requires |body| >= 3
  {
    body[Min(3 + WrappedLength(body[1], body[2]), |body|)..]
  }

  lemma OpenedParts(hmac: Hmac, kek: Bytes, body: Bytes)
    requires OpenEnvelope(hmac, kek, body).Ok?
    ensures |body| >= 3 && body[0] == VERSION && AeadDecrypt(hmac, kek, Wrapped(body)).Ok?
    ensures AeadDecrypt(hmac, AeadDecrypt(hmac, kek, Wrapped(body)).value, Sealed(body)).Ok?
    ensures body == body[..3] + Wrapped(body) + Sealed(body) && |Wrapped(body)| >= 48 && |Sealed(body)| >= 48
  {
    hide AeadDecrypt;
  }

  /**
   Two envelopes that open under one key-encryption key, with the same header and the same two
   tags, are the same, or HMAC collides: on the wrapped keys under the key-encryption key's MAC
   subkey, or on the ciphertexts under the data key's.
   */
  lemma SameTagsSameEnvelope(hmac: Hmac, kek: Bytes, a: Bytes, b: Bytes)
    requires OpenEnvelope(hmac, kek, a).Ok? && OpenEnvelope(hmac, kek, b).Ok? && a[..3] == b[..3]
    requires Wrapped(a)[|Wrapped(a)| - 32..] == Wrapped(b)[|Wrapped(b)| - 32..]
    requires Sealed(a)[|Sealed(a)| - 32..] == Sealed(b)[|Sealed(b)| - 32..]
    ensures || a == b
            || HmacCollides(hmac, hmac(kek, MAC_LABEL), Signed(Wrapped(a)), Signed(Wrapped(b)))
            || (&& Wrapped(a) == Wrapped(b)
                && var dek := AeadDecrypt(hmac, kek, Wrapped(a)).value;
                   HmacCollides(hmac, hmac(dek, MAC_LABEL), Signed(Sealed(a)), Signed(Sealed(b))))
  {
    hide AeadDecrypt, OpenEnvelope, Wrapped, Sealed, HmacCollides, Signed;
    OpenedParts(hmac, kek, a);
    OpenedParts(hmac, kek, b);
    SameTagSameBlob(hmac, kek, Wrapped(a), Wrapped(b));
    if Wrapped(a) == Wrapped(b) {
      SameTagSameBlob(hmac, AeadDecrypt(hmac, kek, Wrapped(a)).value, Sealed(a), Sealed(b));
    }
  }

  /** The bodies of two stored texts differ, but not in header or tags: only in bytes of a nonce or a ciphertext. */
  ghost predicate OnlyInside(a: Bytes, b: Bytes) {
    && a != b && |a| == |b| && |a| >= 3 && a[..3] == b[..3]
    && |Wrapped(a)| >= 48 && |Sealed(a)| >= 48
    && Wrapped(a)[|Wrapped(a)| - 32..] == Wrapped(b)[|Wrapped(b)| - 32..]
    && Sealed(a)[|Sealed(a)| - 32..] == Sealed(b)[|Sealed(b)| - 32..]
  }

  /** A stored text changed only there is refused, or exhibits one of the two collisions. */
  lemma TamperedTextRefused(hmac: Hmac, kek: Bytes, stored: Text, changed: Text)
    requires IsEncrypted(stored) && IsEncrypted(changed) && Decrypt(hmac, kek, stored).Ok?
    requires var a, b := Base64.Decode(stored[|PREFIX|..]), Base64.Decode(changed[|PREFIX|..]);
             a.Some? && b.Some? && OnlyInside(a.value, b.value)
    ensures var a, b := Base64.Decode(stored[|PREFIX|..]).value, Base64.Decode(changed[|PREFIX|..]).value;
      || Decrypt(hmac, kek, changed).Err?
      || HmacCollides(hmac, hmac(kek, MAC_LABEL), Signed(Wrapped(a)), Signed(Wrapped(b)))
      || exists dek :: AeadDecrypt(hmac, kek, Wrapped(a)) == Ok(dek)
           && HmacCollides(hmac, hmac(dek, MAC_LABEL), Signed(Sealed(a)), Signed(Sealed(b)))
  {
    hide AeadDecrypt, OpenEnvelope, Base64.Decode, Utf8.Decode, HmacCollides, Wrapped, Sealed, Signed;
    var a, b := Base64.Decode(stored[|PREFIX|..]).value, Base64.Decode(changed[|PREFIX|..]).value;
    if Decrypt(hmac, kek, changed).Ok? {
      SameTagsSameEnvelope(hmac, kek, a, b);
      OpenedParts(hmac, kek, a);
    }
  }
}
