/** Disk blocks, as every layer above the disk sees them, and the constants of param.h and fs.h. */
module Blocks {

  const BSIZE: nat := 512
  const WORDS: nat := 128         // BSIZE / sizeof(uint)
  const MAXOPBLOCKS: nat := 10
  const LOGSIZE: nat := 30        // MAXOPBLOCKS * 3
  const NBUF: nat := 30           // MAXOPBLOCKS * 3

  /** What a kernel call comes to: a value, or a panic that stops the machine. */
  datatype Outcome<T> = Done(value: T) | Panic

  /** One block, read as an array of 32-bit words. */
  type Block = b: seq<int> | |b| == WORDS witness seq(WORDS, _ => 0)
}
