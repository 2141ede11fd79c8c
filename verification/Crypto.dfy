/** SHA-256 (section 6.2 of FIPS 180-4) and ML-DSA-65 (sections 5.2 and 5.3 of FIPS 204) as
    uninterpreted functions of which only the interface is known. */
module Crypto {
  import opened Words
  import opened Hex

  type SecretKey = string

  /** `sign` takes the randomness of one signing operation as its last argument. */
  datatype Primitives = Primitives(
    sha256: string -> string,
    publicKey: SecretKey -> seq<uint8>,
    sign: (SecretKey, string, nat) -> seq<uint8>,
    verify: (string, seq<uint8>, seq<uint8>) -> bool)

  /** A digest is printed as 64 lower-case hexadecimal characters. */
  predicate IsDigest(s: string) {
    |s| == 64 && AllLowerHex(s)
  }

  ghost predicate Standard(p: Primitives) {
    && (forall s :: IsDigest(p.sha256(s)))
    && (forall key, data, rnd :: p.verify(data, p.sign(key, data, rnd), p.publicKey(key)))
  }

  /** 64 zeros: the id a coinbase pretends to spend. */
  function NullHash(): string {
    seq(64, _ => '0')
  }

  type Crypto = p: Primitives | Standard(p)
    witness Primitives(_ => NullHash(), _ => [], (_, _, _) => [], (_, _, _) => true)

  function DoubleSha256(c: Crypto, data: string): (digest: string)
    ensures IsDigest(digest)
  {
    c.sha256(c.sha256(data))
  }

  /** Two different strings with the same double hash. */
  predicate Collides(c: Crypto, pair: (string, string)) {
    pair.0 != pair.1 && DoubleSha256(c, pair.0) == DoubleSha256(c, pair.1)
  }

  function BytesToString(bytes: seq<uint8>): string {
    seq(|bytes|, i requires 0 <= i < |bytes| => bytes[i] as char)
  }

  /** The first 40 characters of the digest of the public key bytes. */
  function KeyAddress(c: Crypto, publicKey: seq<uint8>): (address: string)
    ensures |address| == 40
  {
    c.sha256(BytesToString(publicKey))[..40]
  }

  /** `Wallet::address_from_public_key`: a malformed key string throws. */
  function AddressFromPublicKey(c: Crypto, publicKeyHex: string): Try<string> {
    var bytes :- HexToBytes(publicKeyHex);
    Done(KeyAddress(c, bytes))
  }

  /** `Wallet::verify`: either string may be malformed and throw, the public key first. */
  function VerifyHex(c: Crypto, data: string, signatureHex: string, publicKeyHex: string): Try<bool> {
    var key :- HexToBytes(publicKeyHex);
    var signature :- HexToBytes(signatureHex);
    Done(c.verify(data, signature, key))
  }

  /** What the holder of a key prints is accepted by the verifier under that key's own address. */
  lemma SignedByKeyVerifies(c: Crypto, key: SecretKey, data: string, rnd: nat)
    ensures AddressFromPublicKey(c, BytesToHex(c.publicKey(key))) == Done(KeyAddress(c, c.publicKey(key)))
    ensures VerifyHex(c, data, BytesToHex(c.sign(key, data, rnd)), BytesToHex(c.publicKey(key))) == Done(true)
  {
    DecodeEncode(c.publicKey(key));
    DecodeEncode(c.sign(key, data, rnd));
  }
}
