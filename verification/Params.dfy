/**
 The constants and types that several parts of the kernel share.
 */
module Params {

  const NPROC := 64
  const MAXOPBLOCKS := 10
  const LOGSIZE := MAXOPBLOCKS * 3
  const NBUF := MAXOPBLOCKS * 3

  type Byte = x: int | 0 <= x < 256

  function Count(b: bool): nat {
    if b then 1 else 0
  }
}
