/** Two-level envelope encryption with an ideal authenticated cipher: a sealed value opens under
    the key that sealed it and under no other. */
module Envelope {
  import opened Common

  newtype byte = x: int | 0 <= x < 256

  type Bytes = seq<byte>

  type Nonce = nat

  /** What is stored: a sealed payload, or bytes that are none (too short, or altered). */
  datatype Blob = Sealed(key: Bytes, nonce: Nonce, payload: Bytes) | Garbage(raw: Bytes)

  /** The key sizes the block cipher accepts. */
  predicate CipherKey(key: Bytes) { |key| == 16 || |key| == 24 || |key| == 32 }

  /** A key-encryption key: 32 bytes. */
  predicate IsKek(key: Bytes) { |key| == 32 }

  function Seal(key: Bytes, nonce: Nonce, payload: Bytes): Option<Blob> {
    if CipherKey(key) then Some(Sealed(key, nonce, payload)) else None
  }

  function Open(key: Bytes, blob: Blob): Option<Bytes> {
    if CipherKey(key) && blob.Sealed? && blob.key == key then Some(blob.payload) else None
  }

  /** Encrypt a plaintext under the data key wrapped in `wrapped`. */
  function Encrypt(kek: Bytes, wrapped: Blob, nonce: Nonce, plaintext: Bytes): Option<Blob> {
    match Open(kek, wrapped)
    case None => None
    case Some(dek) => Seal(dek, nonce, plaintext)
  }

  function Decrypt(kek: Bytes, wrapped: Blob, ciphertext: Blob): Option<Bytes> {
    match Open(kek, wrapped)
    case None => None
    case Some(dek) => Open(dek, ciphertext)
  }

  /** What is encrypted under a wrapped key decrypts under it, also after the key has been wrapped
      anew under another key-encryption key. */
  lemma DecryptsAfterRewrap(kek: Bytes, kek': Bytes, wrapped: Blob, wrapped': Blob, nonce: Nonce, plaintext: Bytes)
    requires CipherKey(kek') && Encrypt(kek, wrapped, nonce, plaintext).Some?
    requires exists n :: Seal(kek', n, Open(kek, wrapped).value) == Some(wrapped')
    ensures Decrypt(kek, wrapped, Encrypt(kek, wrapped, nonce, plaintext).value) == Some(plaintext)
    ensures Decrypt(kek', wrapped', Encrypt(kek, wrapped, nonce, plaintext).value) == Some(plaintext)
  {
  }

  /** Overwrite a key buffer in place. */
  method Zero(b: array<byte>)
    modifies b
    ensures AllZero(b)
  {
    for i := 0 to b.Length
      invariant forall j :: 0 <= j < i ==> b[j] == 0
    {
      b[i] := 0;
    }
  }

  predicate AllZero(b: array<byte>)
    reads b
  {
    forall j :: 0 <= j < b.Length ==> b[j] == 0
  }
}
