/** Ideal cryptography.

Keyed BLAKE2b-512 is a symbolic hash: a digest is the password and the bytes it
was made from, so equal digests have equal inputs. Ed25519 signatures are ideal:
a ledger records which key signed which digest with which 64 bytes, and a
signature verifies exactly when the ledger says so. */
module Crypto {
  import opened Octets
  import opened Results

  const SIGNATURE_SIZE: nat := 64
  const MAX_PASSWORD: nat := 64

  datatype Digest = Digest(password: Octets, data: Octets)

  /** blake2b.New512 refuses keys longer than 64 bytes; no password and the empty password are the same. */
  function Blake2b(password: Octets, data: Octets): Option<Digest> {
    if |password| > MAX_PASSWORD then None else Some(Digest(password, data))
  }

  datatype Signed = Signed(key: Octets, digest: Digest, sig: Octets)

  type Ledger = set<Signed>

  /** Signatures are 64 bytes, and no key's signature stands for two digests. */
  ghost predicate Ideal(l: Ledger) {
    && (forall s | s in l :: |s.sig| == SIGNATURE_SIZE)
    && forall s, t | s in l && t in l && s.key == t.key && s.sig == t.sig :: s.digest == t.digest
  }

  predicate Verify(l: Ledger, key: Octets, digest: Digest, sig: Octets) {
    Signed(key, digest, sig) in l
  }

  /** These 64 bytes may serve as this key's signature of this digest. */
  predicate MaySign(l: Ledger, key: Octets, digest: Digest, sig: Octets) {
    && |sig| == SIGNATURE_SIZE
    && forall s | s in l && s.key == key && s.sig == sig :: s.digest == digest
  }

  lemma SigningStaysIdeal(l: Ledger, key: Octets, digest: Digest, sig: Octets)
    requires Ideal(l) && MaySign(l, key, digest, sig)
    ensures Ideal(l + {Signed(key, digest, sig)})
  {
  }
}
