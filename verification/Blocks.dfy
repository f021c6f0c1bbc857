/** Blocks of a disk: 4096 bytes. */
module Blocks {
  const BLOCK_SIZE: nat := 4096

  type byte = x: int | 0 <= x < 256

  type block = s: seq<byte> | |s| == BLOCK_SIZE witness seq(BLOCK_SIZE, _ => 0)

  function ZeroBlock(): block {
    seq(BLOCK_SIZE, _ => 0)
  }

  /** A block of a device. */
  datatype Key = Key(device: int, number: int)
}
