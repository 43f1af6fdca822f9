/**
 Small shared vocabulary of the upload pipeline model: bytes as the unsigned
 values a digest produces, and an optional value for Java's nullable references.
 */
module Basics {

  /** An unsigned byte. `new BigInteger(1, bytes)` reads Java's signed bytes as
      unsigned magnitudes, so the unsigned range is the one that matters. */
  newtype byte = x: int | 0 <= x < 256

  /** A nullable reference: `None` stands for Java's `null`. */
  datatype Option<+T> = None | Some(value: T)
}
