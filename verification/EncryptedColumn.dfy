/** The column type that encrypts on the way in and decrypts on the way out. */
module EncryptedColumn {
  import opened Prelude
  import opened CanonicalJson
  import opened Crypto

  /** The random draws of one encryption. */
  datatype Draw = Draw(dek: Block, nonce: Nonce, wrapNonce: Nonce)

  /** `process_bind_param`: what is stored for a value. */
  function Bind(hmac: Hmac, kek: Bytes, value: Option<Text>, draw: Draw): Result<Option<Text>, Failure> {
    match value
    case None => Ok(None)
    case Some(v) =>
      if IsEncrypted(v) then Ok(Some(v))
      else
        match Encrypt(hmac, kek, v, draw.dek, draw.nonce, draw.wrapNonce)
        case Err(e) => Err(e)
        case Ok(stored) => Ok(Some(stored))
  }

  /** `process_result_value`: what is read for a stored value. */
  function Read(hmac: Hmac, kek: Bytes, stored: Option<Text>): Result<Option<Text>, Failure> {
    match stored
    case None => Ok(None)
    case Some(s) =>
      match Decrypt(hmac, kek, s)
      case Err(e) => Err(e)
      case Ok(text) => Ok(Some(text))
  }

  /** Write then read, failures carried through. */
  function WriteRead(hmac: Hmac, kek: Bytes, value: Option<Text>, draw: Draw): Result<Option<Text>, Failure> {
    match Bind(hmac, kek, value, draw)
    case Err(e) => Err(e)
    case Ok(stored) => Read(hmac, kek, stored)
  }

  /** Binding what was bound changes nothing, so a value is never encrypted twice. */
  lemma BindIdempotent(hmac: Hmac, kek: Bytes, value: Option<Text>, first: Draw, second: Draw)
    requires Bind(hmac, kek, value, first).Ok?
    ensures var stored := Bind(hmac, kek, value, first).value;
            Bind(hmac, kek, stored, second) == Ok(stored) && (stored.Some? ==> IsEncrypted(stored.value))
  {
    hide Encrypt;
  }

  /**
   A value is read back as written exactly when it does not itself carry the marker
   and UTF-8 can encode it. A value with the marker is stored as it is and is never
   read back as itself.
   */
  lemma ReadBackIff(hmac: Hmac, kek: Bytes, v: Text, draw: Draw)
    ensures WriteRead(hmac, kek, Some(v), draw) == Ok(Some(v)) <==> !IsEncrypted(v) && Scalar(v)
  {
    hide Encrypt, Decrypt;
    if !IsEncrypted(v) && Scalar(v) { DecryptEncrypt(hmac, kek, v, draw.dek, draw.nonce, draw.wrapNonce); }
  }

  /** Null stays null, and what was stored before encryption is read as it is. */
  lemma NullAndLegacy(hmac: Hmac, kek: Bytes, legacy: Text, draw: Draw)
    ensures WriteRead(hmac, kek, None, draw) == Ok(None)
    ensures !IsEncrypted(legacy) ==> Read(hmac, kek, Some(legacy)) == Ok(Some(legacy))
    ensures IsEncrypted(legacy) ==> Bind(hmac, kek, Some(legacy), draw) == Ok(Some(legacy))
  {}

  /** What is bound without the marker is stored with it, and not as it was. */
  lemma NeverStoredPlain(hmac: Hmac, kek: Bytes, v: Text, draw: Draw)
    requires !IsEncrypted(v)
    ensures Bind(hmac, kek, Some(v), draw).Ok? <==> Scalar(v)
    ensures Bind(hmac, kek, Some(v), draw).Ok? ==>
              var stored := Bind(hmac, kek, Some(v), draw).value;
              stored.Some? && IsEncrypted(stored.value) && stored.value != v
  {
    hide Encrypt;
  }
}
