/** Sizes that several parts of the node share. */
module Constants {
  /** Bytes of an Ed25519 public key. */
  const KEY_SIZE: nat := 32

  const TWO63: nat := 0x8000_0000_0000_0000
  const TWO64: nat := 0x1_0000_0000_0000_0000
}
