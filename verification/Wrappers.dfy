/** Types shared by all modules: absence, failure, and Rust's small unsigned integers where
    their bits do not matter. */
module Wrappers {
  datatype Option<+T> = None | Some(value: T)

  datatype Result<+T, +E> = Ok(value: T) | Err(error: E)

  type u8 = n: nat | n < 0x100

  type u16 = n: nat | n < 0x1_0000

  type u32 = n: nat | n < 0x1_0000_0000
}
