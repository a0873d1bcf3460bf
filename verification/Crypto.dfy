/**
  The primitives the file formats are built on, as function values: AES-256-GCM
  (NIST SP 800-38D) and SHA-256 (FIPS 180-4). Nothing is assumed of them beyond
  `LawfulAead` and `LawfulHash`.
 */
module Crypto {
  import opened ByteStrings

  const TAG_LEN := 16
  const KEY_LEN := 32
  const NONCE_LEN := 12
  const FILE_HASH_LEN := 32

  /** `seal(key, nonce, plaintext)` is ciphertext followed by tag; `open` is its authenticated inverse. */
  datatype Aead = Aead(seal: (Bytes, Bytes, Bytes) -> Bytes, open: (Bytes, Bytes, Bytes) -> Option<Bytes>)

  /** An incremental hasher; `Bytes` stands for whatever it keeps between updates. */
  datatype Hash = Hash(init: Bytes, update: (Bytes, Bytes) -> Bytes, final: Bytes -> Bytes)

  /** Opening what was sealed gives it back, and sealing adds one tag. */
  ghost predicate SealedOpens(a: Aead, key: Bytes, nonce: Bytes, plaintext: Bytes) {
    var sealed := a.seal(key, nonce, plaintext);
    a.open(key, nonce, sealed) == Some(plaintext) && |sealed| == |plaintext| + TAG_LEN
  }

  ghost predicate LawfulAead(a: Aead) {
    forall k, n, p :: SealedOpens(a, k, n, p)
  }

  /** Two updates are one update with the concatenation. */
  ghost predicate UpdatesJoin(h: Hash, state: Bytes, x: Bytes, y: Bytes) {
    h.update(h.update(state, x), y) == h.update(state, x + y)
  }

  ghost predicate DigestIsWide(h: Hash, state: Bytes) {
    |h.final(state)| == FILE_HASH_LEN
  }

  ghost predicate LawfulHash(h: Hash) {
    && (forall s, x, y :: UpdatesJoin(h, s, x, y))
    && (forall s :: DigestIsWide(h, s))
  }

  function Digest(h: Hash, data: Bytes): Bytes {
    h.final(h.update(h.init, data))
  }

  lemma DigestLength(h: Hash, data: Bytes)
    requires LawfulHash(h)
    ensures |Digest(h, data)| == FILE_HASH_LEN
  {
    assert DigestIsWide(h, h.update(h.init, data));
  }

  /**
    The laws can be met together, and together with what an ideal AEAD adds (nothing opens
    under another nonce), so no theorem that requires them is vacuous.
   */
  lemma LawsAreConsistent() returns (a: Aead, h: Hash)
    ensures LawfulAead(a) && LawfulHash(h)
    ensures forall k, n, n', p ::
      |n| == |n'| == NONCE_LEN && a.open(k, n', a.seal(k, n, p)).Some? ==> n == n'
  {
    var tag := (n: Bytes) => if |n| == NONCE_LEN then n + [0, 0, 0, 0] else seq(TAG_LEN, i => 0);
    a := Aead(
      (k, n, p) => p + tag(n),
      (k, n, c: Bytes) =>
        if |c| < TAG_LEN || c[|c| - TAG_LEN..] != tag(n) then None else Some(c[..|c| - TAG_LEN]));
    h := Hash([], (s: Bytes, x: Bytes) => s + x, s => seq(FILE_HASH_LEN, i => 0));
    forall k, n, p
      ensures SealedOpens(a, k, n, p)
    {
      assert (p + tag(n))[..|p|] == p;
    }
    forall n, n' | |n| == |n'| == NONCE_LEN && tag(n) == tag(n')
      ensures n == n'
    {
      assert tag(n)[..NONCE_LEN] == n && tag(n')[..NONCE_LEN] == n';
    }
    forall s, x, y
      ensures UpdatesJoin(h, s, x, y)
    {
      assert (s + x) + y == s + (x + y);
    }
  }
}
