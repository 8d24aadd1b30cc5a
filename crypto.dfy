/**
 * The cryptographic primitives the vault relies on. SHA-256, UTF-8 encoding
 * and AES-256 in CBC mode are not modelled bit for bit: each is a constant
 * with no defining value, so every proof holds for ANY function of that
 * type. The only property assumed of AES-CBC is that decryption under the
 * same key and IV inverts encryption; it is carried by the subset type Cbc.
 * PKCS#7 padding (section 6.3 of RFC 5652) is modelled exactly.
 */
module Crypto {
  import opened Wrappers

  newtype byte = x: int | 0 <= x < 256
  type Bytes = seq<byte>

  /** A SHA-256 digest rendered as lower-case hexadecimal text. */
  type HexDigest = string

  /** SHA-256 (FIPS 180-4) followed by hex rendering: a fixed but unknown function. */
  const Sha256: Bytes -> HexDigest

  /** UTF-8 encoding of text, as Python's str.encode(): fixed but unknown. */
  const Utf8: string -> Bytes

  /** The AES block size in bytes. */
  const BlockSize: nat := 16

  /** Encryption and decryption of a whole (padded) message, each under a key and an IV. */
  datatype CbcFunctions = CbcFunctions(
    encrypt: (Bytes, Bytes, Bytes) -> Bytes,
    decrypt: (Bytes, Bytes, Bytes) -> Bytes)

  ghost predicate DecryptInvertsEncrypt(c: CbcFunctions) {
    forall data, key, iv :: c.decrypt(c.encrypt(data, key, iv), key, iv) == data
  }

  type Cbc = c: CbcFunctions | DecryptInvertsEncrypt(c)
    witness CbcFunctions((data, key, iv) => data, (data, key, iv) => data)

  /** AES-256 in CBC mode (NIST SP 800-38A section 6.2): fixed but unknown, invertible. */
  const AesCbc: Cbc

  function Min(a: int, b: int): int { if a <= b then a else b }

  /** PKCS#7 padding: between 1 and BlockSize bytes, each holding the pad length. */
  function Pad(data: Bytes): (padded: Bytes)
    ensures |padded| % BlockSize == 0
    ensures |data| < |padded| <= |data| + BlockSize
    ensures padded[..|data|] == data
  {
    var n := BlockSize - |data| % BlockSize;
    data + seq(n, _ => n as byte)
  }

  /** Strict PKCS#7 unpadding: None where the unpadder raises ValueError. */
  function Unpad(padded: Bytes): (r: Option<Bytes>)
    ensures r.Some? ==> |r.value| < |padded|
  {
    if |padded| == 0 || |padded| % BlockSize != 0 then None
    else
      var n := padded[|padded| - 1] as int;
      if n < 1 || n > Min(BlockSize, |padded|) then None
      else if padded[|padded| - n..] != seq(n, _ => n as byte) then None
      else Some(padded[..|padded| - n])
  }

  /** Unpadding succeeds with `data` exactly on the padding of `data`. */
  lemma UnpadIsInverseOfPad(padded: Bytes, data: Bytes)
    ensures Unpad(padded) == Some(data) <==> padded == Pad(data)
  {
    if padded == Pad(data) {
      var n := BlockSize - |data| % BlockSize;
      assert padded[|padded| - 1] == n as byte;
      assert padded[|padded| - n..] == seq(n, _ => n as byte);
      assert padded[..|padded| - n] == data;
    }
    if Unpad(padded) == Some(data) {
      var n := padded[|padded| - 1] as int;
      assert data == padded[..|padded| - n];
      assert |data| % BlockSize == (BlockSize - n) % BlockSize;
      assert padded == data + padded[|padded| - n..];
    }
  }

  /** Encrypt-then-decrypt under the same key and IV returns the plaintext. */
  lemma DecryptEncrypt(data: Bytes, key: Bytes, iv: Bytes)
    ensures Unpad(AesCbc.decrypt(AesCbc.encrypt(Pad(data), key, iv), key, iv)) == Some(data)
  {
    UnpadIsInverseOfPad(Pad(data), data);
  }
}
