/** Bytes of file contents, file-system names and message frames. */
module Octets {
  newtype byte = x: int | 0 <= x < 256

  type Bytes = seq<byte>

  /** The most bytes one message frame of the guest channel may have. */
  const FRAME_LIMIT: nat := 64 * 1024 * 1024
}
