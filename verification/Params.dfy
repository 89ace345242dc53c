/** Constants of param.h and fs.h that more than one module uses. */
module Params {

  /** Most blocks one file system operation may log. */
  const MAXOPBLOCKS: nat := 10

  /** Most data blocks in the on-disk log. */
  const LOGSIZE: nat := 3 * MAXOPBLOCKS

  /** Bytes in a disk block. */
  const BSIZE: nat := 512

  /** Number of values of an unsigned 32-bit integer. */
  const TWO32: nat := 0x1_0000_0000
}
