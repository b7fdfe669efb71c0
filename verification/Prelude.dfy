/** Vocabulary shared by the models: bytes, optional values, outcomes that may be an error or a panic. */
module Prelude {
  const U64_MAX: nat := 0xFFFF_FFFF_FFFF_FFFF
  const TWO_64: nat := 0x1_0000_0000_0000_0000

  type byte = x: int | 0 <= x < 256
  type Bytes = seq<byte>

  datatype Option<+T> = None | Some(value: T)

  /** `Err` is an error returned to the caller; `Panicked` is a failed assertion, which aborts the process. */
  datatype Outcome<+T> = Ok(value: T) | Err | Panicked
}
