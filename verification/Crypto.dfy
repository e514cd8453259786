/** The cryptographic primitives as an abstract suite: every theorem holds for any functions that
    meet the laws of `Lawful`. */
module Crypto {
  import opened Words

  const Overhead := 16

  datatype Primitives = Primitives(
    seal: (Bytes, Bytes, Bytes) -> Bytes,           // key, nonce, plaintext
    open: (Bytes, Bytes, Bytes) -> Option<Bytes>,   // key, nonce, ciphertext
    encrypt: (Bytes, Bytes) -> Bytes,               // key, block
    decrypt: (Bytes, Bytes) -> Bytes,
    sessionKey: (Bytes, Bytes) -> Bytes,            // PSK, salt
    identityKey: (Bytes, Bytes) -> Bytes,
    hash: Bytes -> Bytes,
    xor: (Bytes, Bytes) -> Bytes)
  {
    /** Seal adds a 16-byte tag and Open undoes it under the same key and nonce; the block cipher is
        a permutation of 16-byte blocks; XOR is its own inverse. Nothing is assumed about
        ciphertexts that were not produced by Seal, beyond the length Open removes. */
    ghost predicate Lawful() {
      && (forall k, n, p :: |seal(k, n, p)| == |p| + Overhead && open(k, n, seal(k, n, p)) == Some(p))
      && (forall k, n, c :: open(k, n, c).Some? ==> |c| == |open(k, n, c).value| + Overhead)
      && (forall k, d :: |d| == 16 ==> |encrypt(k, d)| == 16 && decrypt(k, encrypt(k, d)) == d)
      && (forall k, d :: |d| == 16 ==> |decrypt(k, d)| == 16)
      && (forall p :: |hash(p)| == 16)
      && (forall a, b :: |a| == |b| ==> |xor(a, b)| == |a| && xor(xor(a, b), b) == a)
    }
  }

  /** A suite that meets the laws, so that they are not contradictory. */
  ghost function TransparentSuite(): (s: Primitives)
    ensures s.Lawful()
  {
    var tag: Bytes := [0, 0, 0, 0, 0, 0, 0, 0, 0, 0, 0, 0, 0, 0, 0, 0];
    assert forall p: Bytes :: (p + tag)[..|p + tag| - 16] == p;
    Primitives(
      (k, n, p) => p + tag,
      (k, n, c) => if |c| >= 16 then Some(c[..|c| - 16]) else None,
      (k, d) => d, (k, d) => d, (p, t) => p, (p, t) => p, p => tag, (a, b) => a)
  }

  type Suite = s: Primitives | s.Lawful() ghost witness TransparentSuite()

  function Open(s: Suite, key: Bytes, nonce: Bytes, ciphertext: Bytes): (r: Option<Bytes>)
    ensures r.Some? ==> |ciphertext| == |r.value| + Overhead
  {
    s.open(key, nonce, ciphertext)
  }

  function Seal(s: Suite, key: Bytes, nonce: Bytes, plaintext: Bytes): (r: Bytes)
    ensures |r| == |plaintext| + Overhead
    ensures Open(s, key, nonce, r) == Some(plaintext)
  {
    s.seal(key, nonce, plaintext)
  }

  function Decrypt(s: Suite, key: Bytes, block: Bytes): (r: Bytes)
    requires |block| == 16
    ensures |r| == 16
  {
    s.decrypt(key, block)
  }

  function Encrypt(s: Suite, key: Bytes, block: Bytes): (r: Bytes)
    requires |block| == 16
    ensures |r| == 16 && Decrypt(s, key, r) == block
  {
    s.encrypt(key, block)
  }

  /** The AEAD key of a session, from the PSK and the session's salt or session id. */
  function SessionKey(s: Suite, psk: Bytes, salt: Bytes): Bytes {
    s.sessionKey(psk, salt)
  }

  /** The block cipher key of a TCP identity header. */
  function IdentityKey(s: Suite, psk: Bytes, salt: Bytes): Bytes {
    s.identityKey(psk, salt)
  }

  /** The first 16 bytes of the hash of a PSK. */
  function PSKHash(s: Suite, psk: Bytes): (r: Bytes)
    ensures |r| == 16
  {
    s.hash(psk)
  }

  function Xor(s: Suite, a: Bytes, b: Bytes): (r: Bytes)
    requires |a| == |b|
    ensures |r| == |a|
  {
    s.xor(a, b)
  }

  lemma XorTwice(s: Suite, a: Bytes, b: Bytes)
    requires |a| == |b|
    ensures Xor(s, Xor(s, a, b), b) == a
  {}
}
