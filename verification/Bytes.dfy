/** Fixed-width quantities shared by the models: octets and the 16- and 32-bit
    moduli at which the C code wraps. */
module Bytes {

  type Byte = b: int | 0 <= b < 0x100

  const U16: int := 0x1_0000
  const U32: int := 0x1_0000_0000

  /** Status codes of include/hyperamp_shm_queue.h. */
  const OK: int := 0
  const ERROR: int := -1
  const AGAIN: int := 1
}
