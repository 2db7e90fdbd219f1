/** Types and constants of the machine and of param.h that several parts share. */
module Params {

  type Byte = x: int | 0 <= x < 256

  /** The values of a 32-bit word, and the largest C `int`. */
  const WORD: nat := 0x1_0000_0000
  const MAXINT: int := 0x7fff_ffff

  /** Blocks one file system operation may log, and blocks in the log. */
  const MAXOPBLOCKS: nat := 10
  const LOGSIZE: nat := MAXOPBLOCKS * 3

  const PIPESIZE: nat := 512
}
