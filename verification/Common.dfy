/** Vocabulary shared by the component models. */
module Common {
  datatype Option<+T> = None | Some(value: T)

  newtype byte = b: int | 0 <= b < 256

  /** A collision-free hash: two digests are equal exactly when the hashed values are. */
  datatype Digest<+T> = Sha256(preimage: T)

  function Min(a: int, b: int): int {
    if a < b then a else b
  }

  /** `usize`/`u64` saturating subtraction. */
  function SaturatingSub(a: nat, b: nat): nat {
    if a < b then 0 else a - b
  }
}
